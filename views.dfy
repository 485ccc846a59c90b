/**
 * tracker/views.py: the revenue-weighted choice of the next movie to rate,
 * the filters that make up a user's unseen set, the viewing ledger that a
 * swipe writes to, and the profile counts read from it.
 */
module Views {
  import opened Wrappers
  import opened Models
  import Text

  // ---------------------------------------------------------------- tiers

  datatype Tier = Tentpole | Major | Mid | Low | Micro

  /** The tier names in the order of the `tiers` table (and of the weights). */
  const TierOrder: seq<Tier> := [Tentpole, Major, Mid, Low, Micro]

  /** The `tiers` table: (inclusive minimum, exclusive maximum), None for unbounded. */
  function Bounds(t: Tier): (Option<int>, Option<int>) {
    match t
    case Tentpole => (Some(300_000_000), None)
    case Major => (Some(75_000_000), Some(300_000_000))
    case Mid => (Some(10_000_000), Some(75_000_000))
    case Low => (Some(1_000_000), Some(10_000_000))
    case Micro => (None, Some(1_000_000))
  }

  /** The `tier_weights` table. */
  function Weight(t: Tier): nat {
    match t
    case Tentpole => 45
    case Major => 30
    case Mid => 15
    case Low => 7
    case Micro => 3
  }

  /** The `revenue__gte` / `revenue__lt` filters of a tier. */
  predicate InTier(revenue: int, t: Tier) {
    var (lo, hi) := Bounds(t);
    (lo.None? || lo.value <= revenue) && (hi.None? || revenue < hi.value)
  }

  /** The tier a revenue belongs to: every integer lies in exactly one tier. */
  function TierOf(revenue: int): (t: Tier)
    ensures InTier(revenue, t)
    ensures forall u: Tier :: InTier(revenue, u) ==> u == t
    ensures t == Tentpole <==> revenue >= 300_000_000
    ensures t == Micro <==> revenue < 1_000_000
  {
    if revenue >= 300_000_000 then Tentpole
    else if revenue >= 75_000_000 then Major
    else if revenue >= 10_000_000 then Mid
    else if revenue >= 1_000_000 then Low
    else Micro
  }

  /** Position of a tier in `TierOrder`: 0 is the highest-revenue tier. */
  function Rank(t: Tier): (k: nat)
    ensures k < |TierOrder| && TierOrder[k] == t
  {
    match t
    case Tentpole => 0
    case Major => 1
    case Mid => 2
    case Low => 3
    case Micro => 4
  }

  /** A boundary value belongs to the higher tier: the tier just below it is one step down. */
  lemma BoundaryGoesUp(b: int)
    requires b in {300_000_000, 75_000_000, 10_000_000, 1_000_000}
    ensures Rank(TierOf(b)) + 1 == Rank(TierOf(b - 1))
    ensures Bounds(TierOf(b)).0 == Some(b)
  {
  }

  function SumWeights(ts: seq<Tier>): nat {
    if ts == [] then 0 else Weight(ts[0]) + SumWeights(ts[1..])
  }

  /** The weights, in tier order, are 45/30/15/7/3 and add up to 100. */
  lemma WeightsTable()
    ensures seq(|TierOrder|, i requires 0 <= i < |TierOrder| => Weight(TierOrder[i])) == [45, 30, 15, 7, 3]
    ensures SumWeights(TierOrder) == 100
  {
  }

  // ------------------------------------------------- weighted selection

  /**
   * `get_weighted_random_movie`: `chosen` stands for the tier drawn by
   * `random.choices`; the movie is an arbitrary one of the chosen tier
   * (`order_by('?').first()`).
   */
  method WeightedRandomMovie(unseen: set<Movie>, chosen: Tier) returns (m: Option<Movie>)
    ensures unseen == {} ==> m == None
    ensures m.Some? ==> m.value in unseen && InTier(m.value.revenue, chosen)
    ensures m.None? ==> forall x :: x in unseen ==> !InTier(x.revenue, chosen)
  {
    if unseen == {} {
      return None;
    }
    var inTier := set x | x in unseen && InTier(x.revenue, chosen);
    if inTier == {} {
      forall x | x in unseen
        ensures !InTier(x.revenue, chosen)
      {
        assert x !in inTier;
      }
      return None;
    }
    var x :| x in inTier;
    return Some(x);
  }

  // ---------------------------------------------------------- unseen set

  /** The movie ids the user already has a viewing record for (seen or not). */
  function RatedIds(records: seq<ViewRecord>, user: nat): set<nat> {
    set r | r in records && r.user == user :: r.movie
  }

  /** Some person of `ids` has a name in `names` containing `query`, ignoring case. */
  predicate SomeNameContains(names: map<int, string>, ids: set<int>, query: string) {
    exists p :: p in ids && p in names && Text.ContainsIgnoreCase(names[p], query)
  }

  /** The `Q(actors__name__icontains=…) | Q(directors…) | …` filter. */
  predicate MatchesPerson(m: Movie, people: People, query: string) {
    || SomeNameContains(people.actors, Actors(m), query)
    || SomeNameContains(people.directors, m.directors, query)
    || SomeNameContains(people.producers, m.producers, query)
    || SomeNameContains(people.cinematographers, m.cinematographers, query)
  }

  /**
   * The unseen set of the GET branch: the catalogue without the movies the user
   * has rated, then the genre filter when a genre is given, then the person
   * filter when the stripped person query is not empty.
   */
  function UnseenMovies(catalogue: set<Movie>, people: People, records: seq<ViewRecord>,
                        user: nat, genre: Option<nat>, personQuery: string): (u: set<Movie>)
    ensures u <= catalogue
    ensures forall m :: m in u ==> m.id !in RatedIds(records, user)
    ensures forall m :: m in u && genre.Some? ==> genre.value in m.genres
    ensures forall m :: m in u && Text.Strip(personQuery) != "" ==>
              MatchesPerson(m, people, Text.Strip(personQuery))
    ensures forall m :: m in catalogue && m.id !in RatedIds(records, user)
              && (genre.Some? ==> genre.value in m.genres)
              && (Text.Strip(personQuery) != "" ==> MatchesPerson(m, people, Text.Strip(personQuery)))
              ==> m in u
  {
    var q := Text.Strip(personQuery);
    set m | m in catalogue && m.id !in RatedIds(records, user)
              && (genre.Some? ==> genre.value in m.genres)
              && (q != "" ==> MatchesPerson(m, people, q))
  }

  /** Adding filters never adds movies: the filtered set lies inside the unfiltered one. */
  lemma FiltersOnlyNarrow(catalogue: set<Movie>, people: People, records: seq<ViewRecord>,
                          user: nat, genre: Option<nat>, personQuery: string)
    ensures UnseenMovies(catalogue, people, records, user, genre, personQuery)
            <= UnseenMovies(catalogue, people, records, user, None, "")
  {
    var all := UnseenMovies(catalogue, people, records, user, None, "");
    forall m | m in UnseenMovies(catalogue, people, records, user, genre, personQuery)
      ensures m in all
    {
      assert Text.Strip("") == "";
    }
  }

  /** A person query made only of whitespace filters nothing. */
  lemma BlankQueryIgnored(catalogue: set<Movie>, people: People, records: seq<ViewRecord>,
                          user: nat, genre: Option<nat>, personQuery: string)
    requires forall i :: 0 <= i < |personQuery| ==> Text.IsSpace(personQuery[i])
    ensures UnseenMovies(catalogue, people, records, user, genre, personQuery)
            == UnseenMovies(catalogue, people, records, user, genre, "")
  {
    Text.StripAllSpace(personQuery);
    assert Text.Strip("") == "";
  }

  /** The result of the GET branch: the movie shown and the `no_movies_left` flag. */
  datatype Display = Display(movie: Option<Movie>, noMoviesLeft: bool, totalSeen: nat)

  /**
   * The GET branch of `next_movie_view`: the weighted pick, then, when it
   * finds nothing, an arbitrary movie of the whole filtered unseen set.
   * A movie is shown exactly when that set is not empty.
   */
  method NextMovie(catalogue: set<Movie>, people: People, records: seq<ViewRecord>, user: nat,
                   genre: Option<nat>, personQuery: string, chosen: Tier) returns (d: Display)
    ensures var unseen := UnseenMovies(catalogue, people, records, user, genre, personQuery);
            && (d.movie.None? <==> unseen == {})
            && (d.movie.Some? ==> d.movie.value in unseen)
            && ((d.movie.Some? && exists x :: x in unseen && InTier(x.revenue, chosen))
                ==> InTier(d.movie.value.revenue, chosen))
    ensures d.noMoviesLeft <==> d.movie.None?
    ensures d.totalSeen == SeenCount(records, user)
  {
    var unseen := UnseenMovies(catalogue, people, records, user, genre, personQuery);
    var next := WeightedRandomMovie(unseen, chosen);
    if next.None? && unseen != {} {
      var x :| x in unseen;
      next := Some(x);
    }
    d := Display(next, next.None?, SeenCount(records, user));
  }

  // -------------------------------------------------------------- counts

  /** `UserMovieView.objects.filter(user=user).count()`. */
  function RatedCount(records: seq<ViewRecord>, user: nat): nat {
    if records == [] then 0
    else RatedCount(records[..|records| - 1], user) + (if records[|records| - 1].user == user then 1 else 0)
  }

  /** `UserMovieView.objects.filter(user=user, has_seen=True).count()`. */
  function SeenCount(records: seq<ViewRecord>, user: nat): nat {
    if records == [] then 0
    else SeenCount(records[..|records| - 1], user)
         + (if records[|records| - 1].user == user && records[|records| - 1].hasSeen then 1 else 0)
  }

  /** The two counts of `profile_view`: movies seen, and movies rated either way. */
  function ProfileCounts(records: seq<ViewRecord>, user: nat): (c: (nat, nat))
    ensures c.0 <= c.1
    ensures c.1 == 0 <==> RatedIds(records, user) == {}
  {
    SeenAtMostRated(records, user);
    RatedCountZero(records, user);
    (SeenCount(records, user), RatedCount(records, user))
  }

  lemma {:induction false} SeenAtMostRated(records: seq<ViewRecord>, user: nat)
    ensures SeenCount(records, user) <= RatedCount(records, user)
  {
    if records != [] {
      SeenAtMostRated(records[..|records| - 1], user);
    }
  }

  lemma {:induction false} RatedCountZero(records: seq<ViewRecord>, user: nat)
    ensures RatedCount(records, user) == 0 <==> RatedIds(records, user) == {}
  {
    if records != [] {
      var init := records[..|records| - 1];
      var last := records[|records| - 1];
      RatedCountZero(init, user);
      assert records == init + [last];
      assert RatedIds(records, user) == RatedIds(init, user) + (if last.user == user then {last.movie} else {});
    }
  }

  // -------------------------------------------------------------- ledger

  /** `request.POST.get('has_seen') == 'True'`: only the exact text "True" means seen. */
  function PostedHasSeen(posted: Option<string>): (seen: bool)
    ensures seen <==> posted == Some("True")
  {
    posted.Some? && posted.value == "True"
  }

  datatype SwipeOutcome =
    | MovieNotFound          // `get_object_or_404`: no movie with that id
    | Recorded(created: bool)

  /** The viewing ledger (UserMovieView rows) and each profile's `last_activity`. */
  class Ledger {
    var records: seq<ViewRecord>
    var lastActivity: map<nat, int>

    ghost predicate Valid()
      reads this
    {
      UniquePairs(records)
    }

    constructor ()
      ensures Valid() && records == [] && lastActivity == map[]
    {
      records := [];
      lastActivity := map[];
    }

    /** The `get` half of `get_or_create`: the position of the user's record for the movie. */
    method Find(user: nat, movie: nat) returns (found: Option<nat>)
      ensures found.Some? ==> found.value < |records|
                              && records[found.value].user == user
                              && records[found.value].movie == movie
      ensures found.None? ==> forall r :: r in records ==> r.user != user || r.movie != movie
    {
      var i := 0;
      while i < |records|
        invariant 0 <= i <= |records|
        invariant forall k :: 0 <= k < i ==> records[k].user != user || records[k].movie != movie
      {
        if records[i].user == user && records[i].movie == movie {
          return Some(i);
        }
        i := i + 1;
      }
      return None;
    }

    /**
     * The POST branch of `next_movie_view`: the viewing record is created only
     * when the user has none for the movie (an existing one is never changed),
     * and the profile's `last_activity` is set to `now`.
     */
    method Swipe(movieIds: set<nat>, user: nat, movie: nat, posted: Option<string>, now: int)
      returns (outcome: SwipeOutcome)
      requires Valid()
      modifies this
      ensures Valid()
      ensures movie !in movieIds ==>
                outcome == MovieNotFound && records == old(records) && lastActivity == old(lastActivity)
      ensures movie in movieIds ==>
                && outcome.Recorded?
                && (outcome.created <==> movie !in RatedIds(old(records), user))
                && records == (if outcome.created
                               then old(records) + [NewViewRecord(user, movie, Some(PostedHasSeen(posted)), now)]
                               else old(records))
                && lastActivity == old(lastActivity)[user := now]
    {
      if movie !in movieIds {
        return MovieNotFound;
      }
      var existing := Find(user, movie);
      if existing.None? {
        var v := NewViewRecord(user, movie, Some(PostedHasSeen(posted)), now);
        records := records + [v];
        assert RatedIds(old(records), user) == RatedIds(records, user) - {movie};
      } else {
        assert records[existing.value] in old(records);
      }
      lastActivity := lastActivity[user := now];
      outcome := Recorded(existing.None?);
    }
  }

  /** Once rated, a movie never appears in the user's unseen set again. */
  lemma RatedNeverUnseen(catalogue: set<Movie>, people: People, records: seq<ViewRecord>,
                         user: nat, m: Movie, genre: Option<nat>, personQuery: string)
    requires exists r :: r in records && r.user == user && r.movie == m.id
    ensures m !in UnseenMovies(catalogue, people, records, user, genre, personQuery)
  {
    var r :| r in records && r.user == user && r.movie == m.id;
    assert m.id in RatedIds(records, user);
  }

  /** A swipe that creates a record adds exactly one to the user's rated count. */
  lemma {:induction false} RatedCountAppend(records: seq<ViewRecord>, v: ViewRecord, user: nat)
    ensures RatedCount(records + [v], user) == RatedCount(records, user) + (if v.user == user then 1 else 0)
  {
    assert (records + [v])[..|records|] == records;
  }

  /** With one record per (user, movie), the rated count is the number of distinct movies rated. */
  lemma {:induction false} RatedCountIsDistinctMovies(records: seq<ViewRecord>, user: nat)
    requires UniquePairs(records)
    ensures RatedCount(records, user) == |RatedIds(records, user)|
  {
    if records != [] {
      var init := records[..|records| - 1];
      var last := records[|records| - 1];
      assert records == init + [last];
      RatedCountIsDistinctMovies(init, user);
      if last.user == user {
        assert last.movie !in RatedIds(init, user);
        assert RatedIds(records, user) == RatedIds(init, user) + {last.movie};
      } else {
        assert RatedIds(records, user) == RatedIds(init, user);
      }
    }
  }
}
