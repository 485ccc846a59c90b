/**
 * The `backfill_stats` command: for every selected movie, fetch its TMDb
 * details with credits and, inside one transaction, overwrite its revenue,
 * runtime and IMDb id and rebuild its cast and crew from the credits. Every
 * TMDb answer is an input: `fetch(tmdbId)` is what the request for that
 * movie returns.
 */
module Backfill {
  import opened Wrappers
  import opened Models

  /** Only the first 25 billed cast members are kept. */
  const CastLimit := 25

  /** One entry of the `cast` list of a credits answer. */
  datatype CastEntry = CastEntry(id: int, name: string)

  /** One entry of the `crew` list of a credits answer; `job` may be missing. */
  datatype CrewEntry = CrewEntry(id: int, name: string, job: Option<string>)

  /** A details answer; a missing `credits`, `cast` or `crew` is an empty list. */
  datatype Details = Details(
    revenue: Option<int>,
    runtime: Option<int>,
    imdbId: Option<string>,
    cast: seq<CastEntry>,
    crew: seq<CrewEntry>)

  /** What the details request for one movie gives back. */
  datatype DetailsResponse =
    | Fetched(details: Details)
    | NotFound        // HTTP 404
    | RateLimited     // HTTP 429
    | HttpFailure     // any other HTTP error status
    | RequestBroken   // any other exception while fetching

  /** What happens to one movie: the message the command writes for it. */
  datatype MovieResult =
    | Updated
    | NotFoundSkipped
    | RateLimitSkipped
    | ApiErrorReported
    | IntegrityErrorReported
    | GeneralErrorReported

  /** The four relations of a movie that the command rebuilds. */
  datatype Roles = Roles(cast: seq<CastCredit>, directors: set<int>, producers: set<int>, cinematographers: set<int>)

  /** The relations after the four `clear()` calls. */
  const NoRoles := Roles([], {}, {}, {})

  function RolesOf(m: Movie): Roles {
    Roles(m.cast, m.directors, m.producers, m.cinematographers)
  }

  function WithRoles(m: Movie, r: Roles): (n: Movie)
    ensures RolesOf(n) == r
  {
    m.(cast := r.cast, directors := r.directors, producers := r.producers, cinematographers := r.cinematographers)
  }

  /** The three crew relations and the jobs that put a crew member in each. */
  datatype Role = Directing | Producing | Shooting

  function Jobs(role: Role): set<string> {
    match role
    case Directing => {"Director"}
    case Producing => {"Producer"}
    case Shooting => {"Director of Photography", "Cinematographer"}
  }

  function Table(p: People, role: Role): map<int, string> {
    match role
    case Directing => p.directors
    case Producing => p.producers
    case Shooting => p.cinematographers
  }

  function WithTable(p: People, role: Role, t: map<int, string>): (q: People)
    ensures Table(q, role) == t && q.actors == p.actors
  {
    match role
    case Directing => p.(directors := t)
    case Producing => p.(producers := t)
    case Shooting => p.(cinematographers := t)
  }

  function Crew(r: Roles, role: Role): set<int> {
    match role
    case Directing => r.directors
    case Producing => r.producers
    case Shooting => r.cinematographers
  }

  function WithCrew(r: Roles, role: Role, s: set<int>): (n: Roles)
    ensures Crew(n, role) == s && n.cast == r.cast
  {
    match role
    case Directing => r.(directors := s)
    case Producing => r.(producers := s)
    case Shooting => r.(cinematographers := s)
  }

  // ---------------------------------------------------------------------
  // The person tables
  // ---------------------------------------------------------------------

  /** `u` keeps every row of `t` unchanged. */
  predicate Extends(t: map<int, string>, u: map<int, string>) {
    forall k | k in t :: k in u && u[k] == t[k]
  }

  /** The `unique=True` constraint on a person's name. */
  predicate UniqueNames(t: map<int, string>) {
    forall a, b | a in t && b in t && a != b :: t[a] != t[b]
  }

  /**
   * `get_or_create(tmdb_id=id, defaults={'name': name})`: an existing row
   * is kept as it is; a new row takes the name, and fails with an integrity
   * error (`None`) when another person already has that name.
   */
  function GetOrCreate(t: map<int, string>, id: int, name: string): (r: Option<map<int, string>>)
    ensures r.Some? <==> id in t || name !in t.Values
    ensures r.Some? ==> Extends(t, r.value) && r.value.Keys == t.Keys + {id}
    ensures r.Some? && id !in t ==> r.value[id] == name
    ensures r.Some? && UniqueNames(t) ==> UniqueNames(r.value)
  {
    if id in t then Some(t)
    else if name in t.Values then None
    else Some(t[id := name])
  }

  /** The rows being rebuilt: the person tables and the movie's relations. */
  datatype Work = Work(people: People, roles: Roles)

  // ---------------------------------------------------------------------
  // The credits loops, as folds
  // ---------------------------------------------------------------------

  /** `credits.get('cast', [])[:25]`. */
  function FirstCast(cast: seq<CastEntry>): (c: seq<CastEntry>)
    ensures |c| == if |cast| <= CastLimit then |cast| else CastLimit
    ensures c == cast[..|c|]
  {
    if |cast| <= CastLimit then cast else cast[..CastLimit]
  }

  /** One turn of the cast loop: the actor is fetched or created and credited at `order`. */
  function CastStep(w: Work, e: CastEntry, order: nat): Option<Work> {
    match GetOrCreate(w.people.actors, e.id, e.name)
    case None => None
    case Some(t) => Some(Work(w.people.(actors := t), w.roles.(cast := w.roles.cast + [CastCredit(e.id, order)])))
  }

  /** The cast loop from billing position `order` on. */
  function CastFold(w: Work, entries: seq<CastEntry>, order: nat): Option<Work>
    decreases |entries|
  {
    if entries == [] then Some(w)
    else
      match CastStep(w, entries[0], order)
      case None => None
      case Some(w') => CastFold(w', entries[1..], order + 1)
  }

  /** One of the three `if job …` blocks of the crew loop. */
  function RoleStep(w: Work, e: CrewEntry, role: Role): Option<Work> {
    if e.job.Some? && e.job.value in Jobs(role) then
      match GetOrCreate(Table(w.people, role), e.id, e.name)
      case None => None
      case Some(t) => Some(Work(WithTable(w.people, role, t), WithCrew(w.roles, role, Crew(w.roles, role) + {e.id})))
    else Some(w)
  }

  /** One turn of the crew loop: the director, producer and cinematographer checks in turn. */
  function CrewStep(w: Work, e: CrewEntry): Option<Work> {
    match RoleStep(w, e, Directing)
    case None => None
    case Some(w1) =>
      match RoleStep(w1, e, Producing)
      case None => None
      case Some(w2) => RoleStep(w2, e, Shooting)
  }

  function CrewFold(w: Work, entries: seq<CrewEntry>): Option<Work>
    decreases |entries|
  {
    if entries == [] then Some(w)
    else
      match CrewStep(w, entries[0])
      case None => None
      case Some(w') => CrewFold(w', entries[1..])
  }

  /** `imdb_id_val if imdb_id_val else None`: a missing or empty id is stored as null. */
  function ImdbOf(d: Details): (id: Option<string>)
    ensures id.Some? <==> d.imdbId.Some? && d.imdbId.value != ""
    ensures id.Some? ==> id == d.imdbId
  {
    if d.imdbId.Some? && d.imdbId.value != "" then d.imdbId else None
  }

  /** The movie after `movie.save()`: revenue (0 when absent), runtime and IMDb id from the answer. */
  function WithStats(m: Movie, d: Details): Movie {
    m.(revenue := d.revenue.GetOr(0), runtimeMinutes := d.runtime, imdbId := ImdbOf(d))
  }

  /** The rows a committed transaction writes. */
  datatype Commit = Commit(people: People, movie: Movie)

  /**
   * The body of the `transaction.atomic()` block for a movie: set the stats,
   * clear the four relations, then run the cast and crew loops. `None` is an
   * integrity error raised by one of the `get_or_create` calls.
   */
  function Rebuild(m: Movie, p: People, d: Details): Option<Commit> {
    match CastFold(Work(p, NoRoles), FirstCast(d.cast), 0)
    case None => None
    case Some(w1) =>
      match CrewFold(w1, d.crew)
      case None => None
      case Some(w2) => Some(Commit(w2.people, WithRoles(WithStats(m, d), w2.roles)))
  }

  /** Another movie already holds the IMDb id: `movie.save()` breaks the unique constraint. */
  predicate ImdbTaken(movies: seq<Movie>, i: nat, imdb: Option<string>) {
    imdb.Some? && exists j | 0 <= j < |movies| && j != i :: movies[j].imdbId == imdb
  }

  /** The rows the transaction commits for movie `i`, or `None` when it rolls back. */
  function Backfilled(movies: seq<Movie>, people: People, i: nat, resp: DetailsResponse): Option<Commit>
    requires i < |movies|
  {
    match resp
    case Fetched(d) => if ImdbTaken(movies, i, ImdbOf(d)) then None else Rebuild(movies[i], people, d)
    case _ => None
  }

  /** The message written for movie `i`: "updated" exactly when the transaction commits. */
  function ResultOf(movies: seq<Movie>, people: People, i: nat, resp: DetailsResponse): (r: MovieResult)
    requires i < |movies|
    ensures r == Updated <==> Backfilled(movies, people, i, resp).Some?
    ensures r == IntegrityErrorReported <==> resp.Fetched? && Backfilled(movies, people, i, resp).None?
  {
    match resp
    case Fetched(_) => if Backfilled(movies, people, i, resp).Some? then Updated else IntegrityErrorReported
    case NotFound => NotFoundSkipped
    case RateLimited => RateLimitSkipped
    case HttpFailure => ApiErrorReported
    case RequestBroken => GeneralErrorReported
  }

  // ---------------------------------------------------------------------
  // What a rebuilt movie is
  // ---------------------------------------------------------------------

  /** The cast credits of `entries` from position `order` on. */
  function Credits(entries: seq<CastEntry>, order: nat): (c: seq<CastCredit>)
    ensures |c| == |entries|
    ensures forall k | 0 <= k < |c| :: c[k] == CastCredit(entries[k].id, order + k)
    decreases |entries|
  {
    if entries == [] then [] else [CastCredit(entries[0].id, order)] + Credits(entries[1..], order + 1)
  }

  function EntryIds(entries: seq<CastEntry>): set<int> {
    set e | e in entries :: e.id
  }

  /** The TMDb ids of the crew entries whose job is one of `jobs`. */
  function JobIds(entries: seq<CrewEntry>, jobs: set<string>): set<int> {
    set e | e in entries && e.job.Some? && e.job.value in jobs :: e.id
  }

  /**
   * The relations a rescan gives a movie, defined directly from the answer:
   * the first 25 cast members at positions 0, 1, 2, …, and every crew
   * member in the relation of their job.
   */
  function RescanRoles(d: Details): Roles {
    Roles(Credits(FirstCast(d.cast), 0),
          JobIds(d.crew, Jobs(Directing)),
          JobIds(d.crew, Jobs(Producing)),
          JobIds(d.crew, Jobs(Shooting)))
  }

  lemma {:induction false} CastFoldRoles(w: Work, entries: seq<CastEntry>, order: nat)
    ensures var r := CastFold(w, entries, order);
            r.Some? ==> r.value.roles == w.roles.(cast := w.roles.cast + Credits(entries, order))
    decreases |entries|
  {
    if entries != [] && CastStep(w, entries[0], order).Some? {
      var next := CastStep(w, entries[0], order).value;
      CastFoldRoles(next, entries[1..], order + 1);
      CastStepRoles(w, entries[0], order);
      CreditsAssoc(w.roles.cast, [CastCredit(entries[0].id, order)], Credits(entries[1..], order + 1));
    }
  }

  lemma CreditsAssoc(a: seq<CastCredit>, b: seq<CastCredit>, c: seq<CastCredit>)
    ensures a + b + c == a + (b + c)
  {
  }

  /** One cast entry appends its credit and changes no other relation. */
  lemma CastStepRoles(w: Work, e: CastEntry, order: nat)
    requires CastStep(w, e, order).Some?
    ensures CastStep(w, e, order).value.roles == w.roles.(cast := w.roles.cast + [CastCredit(e.id, order)])
  {
  }

  lemma {:induction false} CastFoldPeople(w: Work, entries: seq<CastEntry>, order: nat)
    ensures var r := CastFold(w, entries, order);
            r.Some? ==>
              && r.value.people == w.people.(actors := r.value.people.actors)
              && Extends(w.people.actors, r.value.people.actors)
              && r.value.people.actors.Keys == w.people.actors.Keys + EntryIds(entries)
    decreases |entries|
  {
    if entries != [] {
      var e := entries[0];
      match CastStep(w, e, order)
      case None =>
      case Some(next) =>
        CastFoldPeople(next, entries[1..], order + 1);
        assert entries == [e] + entries[1..];
        assert EntryIds(entries) == {e.id} + EntryIds(entries[1..]);
    }
  }

  /** One role check touches only its own relation and its own table. */
  lemma RoleStepOther(w: Work, e: CrewEntry, role: Role, other: Role)
    requires other != role && RoleStep(w, e, role).Some?
    ensures var r := RoleStep(w, e, role).value;
            && Crew(r.roles, other) == Crew(w.roles, other) && Table(r.people, other) == Table(w.people, other)
            && r.roles.cast == w.roles.cast && r.people.actors == w.people.actors
  {
  }

  function Added(e: CrewEntry, role: Role): set<int> {
    if e.job.Some? && e.job.value in Jobs(role) then {e.id} else {}
  }

  lemma RoleStepOwn(w: Work, e: CrewEntry, role: Role)
    requires RoleStep(w, e, role).Some?
    ensures var r := RoleStep(w, e, role).value;
            && Crew(r.roles, role) == Crew(w.roles, role) + Added(e, role)
            && Extends(Table(w.people, role), Table(r.people, role))
            && Table(r.people, role).Keys == Table(w.people, role).Keys + Added(e, role)
            && r.roles.cast == w.roles.cast && r.people.actors == w.people.actors
  {
  }

  /** One crew turn adds the entry's id to the relation (and table) of each role whose jobs include its job. */
  lemma CrewStepRole(w: Work, e: CrewEntry, role: Role)
    requires CrewStep(w, e).Some?
    ensures var r := CrewStep(w, e).value;
            && Crew(r.roles, role) == Crew(w.roles, role) + Added(e, role)
            && Extends(Table(w.people, role), Table(r.people, role))
            && Table(r.people, role).Keys == Table(w.people, role).Keys + Added(e, role)
            && r.roles.cast == w.roles.cast && r.people.actors == w.people.actors
  {
    var w1 := RoleStep(w, e, Directing).value;
    var w2 := RoleStep(w1, e, Producing).value;
    var w3 := RoleStep(w2, e, Shooting).value;
    match role
    case Directing =>
      RoleStepOwn(w, e, Directing);
      RoleStepOther(w1, e, Producing, Directing);
      RoleStepOther(w2, e, Shooting, Directing);
    case Producing =>
      RoleStepOther(w, e, Directing, Producing);
      RoleStepOwn(w1, e, Producing);
      RoleStepOther(w2, e, Shooting, Producing);
    case Shooting =>
      RoleStepOther(w, e, Directing, Shooting);
      RoleStepOther(w1, e, Producing, Shooting);
      RoleStepOwn(w2, e, Shooting);
  }

  lemma JobIdsCons(e: CrewEntry, rest: seq<CrewEntry>, role: Role)
    ensures JobIds([e] + rest, Jobs(role)) == Added(e, role) + JobIds(rest, Jobs(role))
  {
  }

  lemma {:induction false} CrewFoldRole(w: Work, entries: seq<CrewEntry>, role: Role)
    ensures var r := CrewFold(w, entries);
            r.Some? ==>
              && Crew(r.value.roles, role) == Crew(w.roles, role) + JobIds(entries, Jobs(role))
              && Extends(Table(w.people, role), Table(r.value.people, role))
              && Table(r.value.people, role).Keys == Table(w.people, role).Keys + JobIds(entries, Jobs(role))
              && r.value.roles.cast == w.roles.cast && r.value.people.actors == w.people.actors
    decreases |entries|
  {
    if entries != [] {
      var e := entries[0];
      match CrewStep(w, e)
      case None =>
      case Some(next) =>
        CrewStepRole(w, e, role);
        CrewFoldRole(next, entries[1..], role);
        assert entries == [e] + entries[1..];
        JobIdsCons(e, entries[1..], role);
    }
  }

  /**
   * A committed rebuild gives the movie exactly the relations `RescanRoles`
   * describes and the stats of the answer: its old relations play no part.
   * Every person table keeps its rows and gains exactly the credited people.
   */
  lemma RebuildIsRescan(m: Movie, p: People, d: Details)
    ensures var r := Rebuild(m, p, d);
            r.Some? ==>
              && r.value.movie == WithRoles(WithStats(m, d), RescanRoles(d))
              && Extends(p.actors, r.value.people.actors)
              && r.value.people.actors.Keys == p.actors.Keys + EntryIds(FirstCast(d.cast))
              && (forall role :: Extends(Table(p, role), Table(r.value.people, role)))
              && (forall role :: Table(r.value.people, role).Keys == Table(p, role).Keys + JobIds(d.crew, Jobs(role)))
  {
    var start := Work(p, NoRoles);
    var r1 := CastFold(start, FirstCast(d.cast), 0);
    if r1.Some? {
      CastFoldRoles(start, FirstCast(d.cast), 0);
      CastFoldPeople(start, FirstCast(d.cast), 0);
      CrewRescan(r1.value, p, d);
    }
  }

  /**
   * The crew loop after the cast loop: each crew relation becomes the ids
   * credited with its jobs, and each crew table gains exactly those ids.
   */
  lemma CrewRescan(w1: Work, p: People, d: Details)
    requires w1.roles == NoRoles.(cast := Credits(FirstCast(d.cast), 0))
    requires w1.people == p.(actors := w1.people.actors)
    ensures var r := CrewFold(w1, d.crew);
            r.Some? ==>
              && r.value.roles == RescanRoles(d)
              && r.value.people.actors == w1.people.actors
              && (forall role :: Extends(Table(p, role), Table(r.value.people, role)))
              && (forall role :: Table(r.value.people, role).Keys == Table(p, role).Keys + JobIds(d.crew, Jobs(role)))
  {
    var r := CrewFold(w1, d.crew);
    if r.Some? {
      var w2 := r.value;
      forall role
        ensures Crew(w2.roles, role) == JobIds(d.crew, Jobs(role))
        ensures Extends(Table(p, role), Table(w2.people, role))
        ensures Table(w2.people, role).Keys == Table(p, role).Keys + JobIds(d.crew, Jobs(role))
      {
        CrewFoldRole(w1, d.crew, role);
        assert Table(w1.people, role) == Table(p, role);
      }
      CrewFoldRole(w1, d.crew, Directing);
      assert w2.roles == RescanRoles(d) by {
        assert Crew(w2.roles, Directing) == w2.roles.directors;
        assert Crew(w2.roles, Producing) == w2.roles.producers;
        assert Crew(w2.roles, Shooting) == w2.roles.cinematographers;
      }
    }
  }

  /** The billed cast of a rescan: the first 25 entries, in order, at positions 0, 1, 2, … */
  lemma RescannedCast(d: Details)
    ensures var cast := RescanRoles(d).cast;
            && |cast| == (if |d.cast| <= CastLimit then |d.cast| else CastLimit)
            && (forall k | 0 <= k < |cast| :: cast[k].actor == d.cast[k].id && cast[k].order == k)
  {
  }

  /** The cast loop over people who all exist already succeeds and creates nobody. */
  lemma {:induction false} CastFoldKnown(w: Work, entries: seq<CastEntry>, order: nat)
    requires EntryIds(entries) <= w.people.actors.Keys
    ensures CastFold(w, entries, order).Some? && CastFold(w, entries, order).value.people == w.people
    decreases |entries|
  {
    if entries != [] {
      assert entries == [entries[0]] + entries[1..];
      assert entries[0].id in EntryIds(entries);
      assert EntryIds(entries[1..]) <= EntryIds(entries);
      var next := CastStep(w, entries[0], order).value;
      assert next.people == w.people;
      CastFoldKnown(next, entries[1..], order + 1);
    }
  }

  /** The crew loop over people who all exist already succeeds and creates nobody. */
  lemma {:induction false} CrewFoldKnown(w: Work, entries: seq<CrewEntry>)
    requires forall role :: JobIds(entries, Jobs(role)) <= Table(w.people, role).Keys
    ensures CrewFold(w, entries).Some? && CrewFold(w, entries).value.people == w.people
    decreases |entries|
  {
    if entries != [] {
      var e := entries[0];
      assert entries == [e] + entries[1..];
      forall role ensures JobIds(entries[1..], Jobs(role)) <= Table(w.people, role).Keys
                  ensures Added(e, role) <= Table(w.people, role).Keys {
        JobIdsCons(e, entries[1..], role);
      }
      var w1 := RoleStep(w, e, Directing).value;
      assert w1.people == w.people;
      var w2 := RoleStep(w1, e, Producing).value;
      assert w2.people == w.people;
      var w3 := RoleStep(w2, e, Shooting).value;
      assert w3.people == w.people;
      CrewFoldKnown(w3, entries[1..]);
    }
  }

  /**
   * Rescanning with the same answer changes nothing: every credited person
   * is now found by TMDb id, so no row is created and the movie is rebuilt
   * to the same value.
   */
  lemma RebuildIdempotent(m: Movie, p: People, d: Details)
    requires Rebuild(m, p, d).Some?
    ensures var c := Rebuild(m, p, d).value;
            Rebuild(c.movie, c.people, d) == Some(c)
  {
    var c := Rebuild(m, p, d).value;
    RebuildIsRescan(m, p, d);
    var start := Work(c.people, NoRoles);
    CastFoldKnown(start, FirstCast(d.cast), 0);
    var w1 := CastFold(start, FirstCast(d.cast), 0).value;
    CrewFoldKnown(w1, d.crew);
    var w2 := CrewFold(w1, d.crew).value;
    RebuildIsRescan(c.movie, c.people, d);
    assert WithStats(c.movie, d) == WithRoles(WithStats(m, d), RescanRoles(d));
  }

  // ---------------------------------------------------------------------
  // The database
  // ---------------------------------------------------------------------

  /** The `unique=True` constraint on a movie's IMDb id (null values excepted). */
  predicate DistinctImdb(movies: seq<Movie>) {
    forall a, b | 0 <= a < |movies| && 0 <= b < |movies| && a != b && movies[a].imdbId.Some? ::
      movies[a].imdbId != movies[b].imdbId
  }

  /** Every person a movie refers to has a row in the matching table. */
  predicate Referenced(m: Movie, people: People) {
    && Actors(m) <= people.actors.Keys
    && m.directors <= people.directors.Keys
    && m.producers <= people.producers.Keys
    && m.cinematographers <= people.cinematographers.Keys
  }

  predicate PeopleUnique(people: People) {
    && UniqueNames(people.actors)
    && UniqueNames(people.directors)
    && UniqueNames(people.producers)
    && UniqueNames(people.cinematographers)
  }

  predicate Consistent(movies: seq<Movie>, people: People) {
    && DistinctImdb(movies)
    && PeopleUnique(people)
    && forall k | 0 <= k < |movies| :: Referenced(movies[k], people)
  }

  lemma {:induction false} CastFoldUnique(w: Work, entries: seq<CastEntry>, order: nat)
    requires UniqueNames(w.people.actors)
    ensures CastFold(w, entries, order).Some? ==> UniqueNames(CastFold(w, entries, order).value.people.actors)
    decreases |entries|
  {
    if entries != [] {
      match CastStep(w, entries[0], order)
      case None =>
      case Some(next) => CastFoldUnique(next, entries[1..], order + 1);
    }
  }

  lemma RoleStepUnique(w: Work, e: CrewEntry, role: Role)
    requires PeopleUnique(w.people) && RoleStep(w, e, role).Some?
    ensures PeopleUnique(RoleStep(w, e, role).value.people)
  {
  }

  lemma {:induction false} CrewFoldUnique(w: Work, entries: seq<CrewEntry>)
    requires PeopleUnique(w.people)
    ensures CrewFold(w, entries).Some? ==> PeopleUnique(CrewFold(w, entries).value.people)
    decreases |entries|
  {
    if entries != [] {
      match CrewStep(w, entries[0])
      case None =>
      case Some(next) =>
        var e := entries[0];
        var w1 := RoleStep(w, e, Directing).value;
        RoleStepUnique(w, e, Directing);
        var w2 := RoleStep(w1, e, Producing).value;
        RoleStepUnique(w1, e, Producing);
        RoleStepUnique(w2, e, Shooting);
        CrewFoldUnique(next, entries[1..]);
    }
  }

  /** The actors of a rescanned movie are the first 25 cast entries' ids. */
  lemma RescanActors(d: Details)
    ensures forall m: Movie :: m.cast == RescanRoles(d).cast ==> Actors(m) == EntryIds(FirstCast(d.cast))
  {
    var c := FirstCast(d.cast);
    var credits := RescanRoles(d).cast;
    forall m: Movie | m.cast == credits ensures Actors(m) == EntryIds(c) {
      forall a | a in Actors(m) ensures a in EntryIds(c) {
        var x :| x in credits && x.actor == a;
        var k :| 0 <= k < |credits| && credits[k] == x;
        assert c[k] in c;
      }
      forall a | a in EntryIds(c) ensures a in Actors(m) {
        var e :| e in c && e.id == a;
        var k :| 0 <= k < |c| && c[k] == e;
        assert credits[k] in credits;
      }
    }
  }

  /** A committed backfill keeps every person row and only widens the tables. */
  lemma BackfilledPeople(movies: seq<Movie>, people: People, i: nat, resp: DetailsResponse)
    requires i < |movies| && Consistent(movies, people)
    requires Backfilled(movies, people, i, resp).Some?
    ensures var c := Backfilled(movies, people, i, resp).value;
            && PeopleUnique(c.people)
            && Referenced(c.movie, c.people)
            && Extends(people.actors, c.people.actors)
            && forall role :: Extends(Table(people, role), Table(c.people, role))
  {
    var d := resp.details;
    var c := Backfilled(movies, people, i, resp).value;
    RebuildIsRescan(movies[i], people, d);
    var w1 := CastFold(Work(people, NoRoles), FirstCast(d.cast), 0).value;
    CastFoldUnique(Work(people, NoRoles), FirstCast(d.cast), 0);
    CastFoldPeople(Work(people, NoRoles), FirstCast(d.cast), 0);
    CrewFoldUnique(w1, d.crew);
    RescanActors(d);
    assert Table(c.people, Directing).Keys == Table(people, Directing).Keys + JobIds(d.crew, Jobs(Directing));
    assert Table(c.people, Producing).Keys == Table(people, Producing).Keys + JobIds(d.crew, Jobs(Producing));
    assert Table(c.people, Shooting).Keys == Table(people, Shooting).Keys + JobIds(d.crew, Jobs(Shooting));
  }

  /** A movie that referred to existing people still does once the tables are widened. */
  lemma ReferencedWiden(m: Movie, p: People, q: People)
    requires Referenced(m, p)
    requires Extends(p.actors, q.actors) && forall role :: Extends(Table(p, role), Table(q, role))
    ensures Referenced(m, q)
  {
    assert Extends(Table(p, Directing), Table(q, Directing));
    assert Extends(Table(p, Producing), Table(q, Producing));
    assert Extends(Table(p, Shooting), Table(q, Shooting));
    WidenKeys(m.directors, p.directors, q.directors);
    WidenKeys(m.producers, p.producers, q.producers);
    WidenKeys(m.cinematographers, p.cinematographers, q.cinematographers);
  }

  lemma WidenKeys(s: set<int>, t: map<int, string>, u: map<int, string>)
    requires s <= t.Keys && Extends(t, u)
    ensures s <= u.Keys
  {
    forall x | x in s ensures x in u.Keys {
      assert x in t;
    }
  }

  /** A committed backfill keeps the database's constraints. */
  lemma BackfilledConsistent(movies: seq<Movie>, people: People, i: nat, resp: DetailsResponse)
    requires i < |movies| && Consistent(movies, people)
    ensures var r := Backfilled(movies, people, i, resp);
            r.Some? ==> Consistent(movies[i := r.value.movie], r.value.people)
  {
    if Backfilled(movies, people, i, resp).Some? {
      var c := Backfilled(movies, people, i, resp).value;
      BackfilledPeople(movies, people, i, resp);
      RebuildIsRescan(movies[i], people, resp.details);
      var after := movies[i := c.movie];
      assert c.movie.imdbId == ImdbOf(resp.details);
      forall k | 0 <= k < |after| ensures Referenced(after[k], c.people) {
        if k != i {
          ReferencedWiden(movies[k], people, c.people);
        }
      }
    }
  }

  /**
   * The movie and person rows the command works on; the four person tables
   * share the name and TMDb-id constraints.
   */
  class Database {
    var movies: seq<Movie>
    var people: People

    ghost predicate Valid()
      reads this
    {
      Consistent(movies, people)
    }

    constructor(movies: seq<Movie>, people: People)
      requires Consistent(movies, people)
      ensures Valid() && this.movies == movies && this.people == people
    {
      this.movies := movies;
      this.people := people;
    }

    /**
     * One turn of the `for movie in t_bar` loop: the errors of the fetch are
     * reported (a 429 included: the loop `continue`s with the next movie),
     * and a fetched answer goes through `Transaction`, whose rows are written
     * only when it commits.
     */
    method BackfillMovie(i: nat, resp: DetailsResponse) returns (result: MovieResult)
      requires Valid() && i < |movies|
      modifies this
      ensures Valid()
      ensures result == ResultOf(old(movies), old(people), i, resp)
      ensures var r := Backfilled(old(movies), old(people), i, resp);
              && (r.Some? ==> movies == old(movies)[i := r.value.movie] && people == r.value.people)
              && (r.None? ==> movies == old(movies) && people == old(people))
    {
      match resp {
        case NotFound => return NotFoundSkipped;
        case RateLimited => return RateLimitSkipped;
        case HttpFailure => return ApiErrorReported;
        case RequestBroken => return GeneralErrorReported;
        case Fetched(d) =>
          var c := Transaction(movies, i, people, d);
          if c.None? {
            return IntegrityErrorReported;
          }
          BackfilledConsistent(movies, people, i, resp);
          movies := movies[i := c.value.movie];
          people := c.value.people;
          return Updated;
      }
    }

    /**
     * `handle`: with the key set, select every movie (`rescanAll`) or the
     * movies without actors, and backfill each in turn, fetching its details
     * by its TMDb id. `results` holds the result of each selected movie.
     */
    method Handle(apiKeySet: bool, rescanAll: bool, fetch: Option<int> -> DetailsResponse)
      returns (results: seq<MovieResult>)
      requires Valid()
      modifies this
      ensures Valid()
      ensures !apiKeySet ==> results == [] && movies == old(movies) && people == old(people)
      ensures apiKeySet ==>
                var sel := Selection(old(movies), rescanAll);
                && results == BackfillResults(old(movies), old(people), sel, fetch)
                && (movies, people) == BackfillAll(old(movies), old(people), sel, fetch)
    {
      results := [];
      if !apiKeySet {
        return;
      }
      var sel := Selection(movies, rescanAll);
      if |sel| == 0 {
        return;
      }
      results := BackfillEach(sel, fetch);
    }

    /** The `for movie in t_bar` loop over the selected movies `sel`, in order. */
    method BackfillEach(sel: seq<nat>, fetch: Option<int> -> DetailsResponse) returns (results: seq<MovieResult>)
      requires Valid() && forall k | 0 <= k < |sel| :: sel[k] < |movies|
      modifies this
      ensures Valid()
      ensures results == BackfillResults(old(movies), old(people), sel, fetch)
      ensures (movies, people) == BackfillAll(old(movies), old(people), sel, fetch)
    {
      results := [];
      var k := 0;
      while k < |sel|
        invariant 0 <= k <= |sel|
        invariant Valid() && |movies| == |old(movies)| && |results| == k
        invariant BackfillAll(movies, people, sel[k..], fetch) == BackfillAll(old(movies), old(people), sel, fetch)
        invariant results + BackfillResults(movies, people, sel[k..], fetch)
                  == BackfillResults(old(movies), old(people), sel, fetch)
      {
        var result := BackfillNext(sel[k..], fetch);
        assert sel[k..][1..] == sel[k + 1..];
        ResultsAssoc(results, result, BackfillResults(movies, people, sel[k + 1..], fetch));
        results := results + [result];
        k := k + 1;
      }
      assert sel[k..] == [];
    }

    /**
     * One turn of the loop of `handle`, for the head of the movies `rest`
     * still to do: its details are fetched by its TMDb id and it is
     * backfilled; the run over `rest` goes on from the new rows.
     */
    method BackfillNext(rest: seq<nat>, fetch: Option<int> -> DetailsResponse) returns (result: MovieResult)
      requires Valid() && rest != [] && forall k | 0 <= k < |rest| :: rest[k] < |movies|
      modifies this
      ensures Valid() && |movies| == |old(movies)|
      ensures BackfillAll(movies, people, rest[1..], fetch) == BackfillAll(old(movies), old(people), rest, fetch)
      ensures result == ResultOf(old(movies), old(people), rest[0], fetch(old(movies)[rest[0]].tmdbId))
      ensures BackfillResults(old(movies), old(people), rest, fetch)
              == [result] + BackfillResults(movies, people, rest[1..], fetch)
    {
      var i := rest[0];
      result := BackfillMovie(i, fetch(movies[i].tmdbId));
    }
  }

  /**
   * The `transaction.atomic()` block for movie `i`: `movie.save()` with the
   * new stats (failing when another movie holds the IMDb id), the four
   * `clear()` calls, then the cast and crew loops. The work is done on
   * copies of the rows; `None` is a roll-back.
   */
  method Transaction(movies: seq<Movie>, i: nat, p: People, d: Details) returns (c: Option<Commit>)
    requires i < |movies|
    ensures c == Backfilled(movies, p, i, Fetched(d))
  {
    var imdb := if d.imdbId.Some? && d.imdbId.value != "" then d.imdbId else None;
    var movie := movies[i].(revenue := d.revenue.GetOr(0), runtimeMinutes := d.runtime, imdbId := imdb);
    if imdb.Some? && exists j | 0 <= j < |movies| && j != i :: movies[j].imdbId == imdb {
      return None;
    }
    var afterCast := CastLoop(p, FirstCast(d.cast));
    if afterCast.None? {
      return None;
    }
    var afterCrew := CrewLoop(afterCast.value, d.crew);
    if afterCrew.None? {
      return None;
    }
    movie := movie.(cast := afterCrew.value.roles.cast,
                    directors := afterCrew.value.roles.directors,
                    producers := afterCrew.value.roles.producers,
                    cinematographers := afterCrew.value.roles.cinematographers);
    return Some(Commit(afterCrew.value.people, movie));
  }

  /**
   * The cast loop, starting from cleared relations: for entry `k`, the actor
   * is fetched or created and credited at position `k`.
   */
  method CastLoop(p: People, cast: seq<CastEntry>) returns (r: Option<Work>)
    ensures r == CastFold(Work(p, NoRoles), cast, 0)
  {
    var rows := p;
    var roles := NoRoles;
    var k := 0;
    while k < |cast|
      invariant 0 <= k <= |cast|
      invariant CastFold(Work(rows, roles), cast[k..], k) == CastFold(Work(p, NoRoles), cast, 0)
    {
      assert cast[k..][1..] == cast[k + 1..];
      var actors := GetOrCreate(rows.actors, cast[k].id, cast[k].name);
      if actors.None? {
        return None;
      }
      rows := rows.(actors := actors.value);
      roles := roles.(cast := roles.cast + [CastCredit(cast[k].id, k)]);
      k := k + 1;
    }
    assert cast[k..] == [];
    return Some(Work(rows, roles));
  }

  /** The crew loop: each entry goes through the director, producer and cinematographer checks. */
  method CrewLoop(w: Work, crew: seq<CrewEntry>) returns (r: Option<Work>)
    ensures r == CrewFold(w, crew)
  {
    var rows := w.people;
    var roles := w.roles;
    var n := 0;
    while n < |crew|
      invariant 0 <= n <= |crew|
      invariant CrewFold(Work(rows, roles), crew[n..]) == CrewFold(w, crew)
    {
      assert crew[n..][1..] == crew[n + 1..];
      var e := crew[n];
      var job := e.job;
      ghost var before := Work(rows, roles);
      if job == Some("Director") {
        var t := GetOrCreate(rows.directors, e.id, e.name);
        if t.None? {
          return None;
        }
        rows := rows.(directors := t.value);
        roles := roles.(directors := roles.directors + {e.id});
      }
      ghost var mid1 := Work(rows, roles);
      assert RoleStep(before, e, Directing) == Some(mid1);
      if job == Some("Producer") {
        var t := GetOrCreate(rows.producers, e.id, e.name);
        if t.None? {
          return None;
        }
        rows := rows.(producers := t.value);
        roles := roles.(producers := roles.producers + {e.id});
      }
      ghost var mid2 := Work(rows, roles);
      assert RoleStep(mid1, e, Producing) == Some(mid2);
      if job == Some("Director of Photography") || job == Some("Cinematographer") {
        var t := GetOrCreate(rows.cinematographers, e.id, e.name);
        if t.None? {
          return None;
        }
        rows := rows.(cinematographers := t.value);
        roles := roles.(cinematographers := roles.cinematographers + {e.id});
      }
      assert RoleStep(mid2, e, Shooting) == Some(Work(rows, roles));
      n := n + 1;
    }
    assert crew[n..] == [];
    return Some(Work(rows, roles));
  }

  /** The indices from `lo` on of the movies `handle` selects. */
  function SelectFrom(movies: seq<Movie>, rescanAll: bool, lo: nat): (sel: seq<nat>)
    ensures forall k | 0 <= k < |sel| :: lo <= sel[k] < |movies|
    ensures forall i :: i in sel <==> lo <= i < |movies| && (rescanAll || Actors(movies[i]) == {})
    ensures forall a, b | 0 <= a < b < |sel| :: sel[a] < sel[b]
    decreases |movies| - lo
  {
    if lo >= |movies| then []
    else (if rescanAll || Actors(movies[lo]) == {} then [lo] else []) + SelectFrom(movies, rescanAll, lo + 1)
  }

  /** `Movie.objects.all()` or `Movie.objects.filter(actors__isnull=True)`, in table order. */
  function Selection(movies: seq<Movie>, rescanAll: bool): seq<nat> {
    SelectFrom(movies, rescanAll, 0)
  }

  /** The rows after backfilling the movies `sel`, one after the other. */
  function BackfillAll(movies: seq<Movie>, people: People, sel: seq<nat>,
                       fetch: Option<int> -> DetailsResponse): (r: (seq<Movie>, People))
    requires forall k | 0 <= k < |sel| :: sel[k] < |movies|
    ensures |r.0| == |movies|
    decreases |sel|
  {
    if sel == [] then (movies, people)
    else
      var i := sel[0];
      match Backfilled(movies, people, i, fetch(movies[i].tmdbId))
      case None => BackfillAll(movies, people, sel[1..], fetch)
      case Some(c) => BackfillAll(movies[i := c.movie], c.people, sel[1..], fetch)
  }

  /** The result each of the movies `sel` reports, in order, as the rows change along the run. */
  function BackfillResults(movies: seq<Movie>, people: People, sel: seq<nat>,
                           fetch: Option<int> -> DetailsResponse): (rs: seq<MovieResult>)
    requires forall k | 0 <= k < |sel| :: sel[k] < |movies|
    ensures |rs| == |sel|
    decreases |sel|
  {
    if sel == [] then []
    else
      var i := sel[0];
      var resp := fetch(movies[i].tmdbId);
      [ResultOf(movies, people, i, resp)] +
      match Backfilled(movies, people, i, resp)
      case None => BackfillResults(movies, people, sel[1..], fetch)
      case Some(c) => BackfillResults(movies[i := c.movie], c.people, sel[1..], fetch)
  }

  lemma ResultsAssoc(done: seq<MovieResult>, r: MovieResult, rest: seq<MovieResult>)
    ensures (done + [r]) + rest == done + ([r] + rest)
  {
  }

  /** A run in which no movie reports `Updated` leaves every row as it was. */
  lemma {:induction false} NoUpdateNoChange(movies: seq<Movie>, people: People, sel: seq<nat>,
                                            fetch: Option<int> -> DetailsResponse)
    requires forall k | 0 <= k < |sel| :: sel[k] < |movies|
    requires forall k | 0 <= k < |sel| :: BackfillResults(movies, people, sel, fetch)[k] != Updated
    ensures BackfillAll(movies, people, sel, fetch) == (movies, people)
    decreases |sel|
  {
    if sel != [] {
      var rs := BackfillResults(movies, people, sel, fetch);
      assert rs[0] != Updated;
      var rest := BackfillResults(movies, people, sel[1..], fetch);
      assert rs == [rs[0]] + rest;
      assert forall k | 0 <= k < |sel[1..]| :: rest[k] == rs[k + 1];
      NoUpdateNoChange(movies, people, sel[1..], fetch);
    }
  }

  /** Only the selected movies are touched. */
  lemma {:induction false} BackfillAllFrame(movies: seq<Movie>, people: People, sel: seq<nat>,
                                            fetch: Option<int> -> DetailsResponse, j: nat)
    requires forall k | 0 <= k < |sel| :: sel[k] < |movies|
    requires j < |movies| && j !in sel
    ensures BackfillAll(movies, people, sel, fetch).0[j] == movies[j]
    decreases |sel|
  {
    if sel != [] {
      var i := sel[0];
      assert j != i && j !in sel[1..];
      match Backfilled(movies, people, i, fetch(movies[i].tmdbId))
      case None => BackfillAllFrame(movies, people, sel[1..], fetch, j);
      case Some(c) => BackfillAllFrame(movies[i := c.movie], c.people, sel[1..], fetch, j);
    }
  }

  /** Without `--rescan-all`, a movie that has actors keeps its row. */
  lemma KeepsCreditedMovies(movies: seq<Movie>, people: People, fetch: Option<int> -> DetailsResponse, j: nat)
    requires j < |movies| && Actors(movies[j]) != {}
    ensures BackfillAll(movies, people, Selection(movies, false), fetch).0[j] == movies[j]
  {
    BackfillAllFrame(movies, people, Selection(movies, false), fetch, j);
  }

  /** Without `--rescan-all` the selected movies are exactly those with no cast credit. */
  lemma SelectsUncredited(movies: seq<Movie>, i: nat)
    requires i < |movies|
    ensures i in Selection(movies, false) <==> movies[i].cast == []
  {
    if movies[i].cast != [] {
      assert movies[i].cast[0].actor in Actors(movies[i]);
    }
  }
}
