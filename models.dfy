/**
 * The catalogue and ledger records of tracker/models.py, with the values the
 * model classes derive from their fields: a movie's decade and the text
 * renderings of a movie and of a viewing record.
 */
module Models {
  import opened Wrappers
  import Decimal

  /** One billed cast member: the actor (by TMDb id) and the billing position. */
  datatype CastCredit = CastCredit(actor: int, order: nat)

  /**
   * A row of the Movie table. People are referred to by their TMDb id; genres
   * by the primary key of their Genre row.
   */
  datatype Movie = Movie(
    id: nat,
    title: string,
    releaseYear: int,
    runtimeMinutes: Option<int>,
    revenue: int,
    plotSummary: Option<string>,
    imdbId: Option<string>,
    tmdbId: Option<int>,
    posterUrl: Option<string>,
    genres: set<nat>,
    cast: seq<CastCredit>,
    directors: set<int>,
    producers: set<int>,
    cinematographers: set<int>)

  /**
   * The four person tables (Actor, Director, Producer, Cinematographer), each
   * keyed by TMDb id and giving the person's name.
   */
  datatype People = People(
    actors: map<int, string>,
    directors: map<int, string>,
    producers: map<int, string>,
    cinematographers: map<int, string>)

  /** The movie's `actors` relation: everyone with a cast credit. */
  function Actors(m: Movie): set<int> {
    set c | c in m.cast :: c.actor
  }

  /**
   * A freshly created movie row: the fields the creator passes, every other
   * field at its model default (`revenue` 0, nullable fields null, no relations).
   */
  function NewMovie(id: nat, title: string, releaseYear: int, plotSummary: Option<string>,
                    tmdbId: Option<int>, posterUrl: Option<string>): (m: Movie)
    ensures m.id == id && m.title == title && m.releaseYear == releaseYear
    ensures m.tmdbId == tmdbId && m.plotSummary == plotSummary && m.posterUrl == posterUrl
    ensures m.revenue == 0 && m.runtimeMinutes.None? && m.imdbId.None?
    ensures m.genres == {} && m.cast == [] && Actors(m) == {}
    ensures m.directors == {} && m.producers == {} && m.cinematographers == {}
  {
    Movie(id, title, releaseYear, None, 0, plotSummary, None, tmdbId, posterUrl,
          {}, [], {}, {}, {})
  }

  /** `Movie.get_decade`: `(release_year // 10) * 10`, Python's floor division. */
  function Decade(m: Movie): (d: int)
    ensures d % 10 == 0
    ensures d <= m.releaseYear < d + 10
  {
    (m.releaseYear / 10) * 10
  }

  /** A decade year is its own decade. */
  lemma DecadeIdempotent(m: Movie)
    ensures Decade(m.(releaseYear := Decade(m))) == Decade(m)
  {
  }

  /** The decade is the only multiple of ten in the ten years up to the release year. */
  lemma DecadeUnique(m: Movie, d: int)
    requires d % 10 == 0 && d <= m.releaseYear < d + 10
    ensures d == Decade(m)
  {
    var e := Decade(m);
    assert (d - e) % 10 == 0;
    assert -10 < d - e < 10;
  }

  /** `Movie.__str__`: `"<title> (<release_year>)"`. */
  function MovieLabel(m: Movie): string {
    m.title + " (" + Decimal.IntToDecimal(m.releaseYear) + ")"
  }

  /** Two movies with the same title and the same label were released the same year. */
  lemma MovieLabelShowsYear(m: Movie, n: Movie)
    requires m.title == n.title && MovieLabel(m) == MovieLabel(n)
    ensures m.releaseYear == n.releaseYear
  {
    var l := MovieLabel(m);
    var k := |m.title| + 2;
    assert l[k..|l| - 1] == Decimal.IntToDecimal(m.releaseYear);
    assert MovieLabel(n)[k..|l| - 1] == Decimal.IntToDecimal(n.releaseYear);
    Decimal.IntToDecimalInjective(m.releaseYear, n.releaseYear);
  }

  /** A row of the UserMovieView table: one user's seen/unseen choice for one movie. */
  datatype ViewRecord = ViewRecord(user: nat, movie: nat, hasSeen: bool, dateRecorded: int)

  /**
   * A viewing record as created: `has_seen` takes the value given, or its
   * model default False when none is given; `date_recorded` is the creation time.
   */
  function NewViewRecord(user: nat, movie: nat, hasSeen: Option<bool>, now: int): (v: ViewRecord)
    ensures v.user == user && v.movie == movie && v.dateRecorded == now
    ensures v.hasSeen <==> hasSeen == Some(true)
  {
    ViewRecord(user, movie, hasSeen.GetOr(false), now)
  }

  /** The `unique_together = ('user', 'movie')` constraint of the table. */
  predicate UniquePairs(records: seq<ViewRecord>) {
    forall i, j :: 0 <= i < j < |records| ==>
      records[i].user != records[j].user || records[i].movie != records[j].movie
  }

  function StatusWord(hasSeen: bool): string {
    if hasSeen then "Seen" else "Unseen"
  }

  /** `UserMovieView.__str__`: `"<username> - <movie title> (Seen|Unseen)"`. */
  function ViewLabel(v: ViewRecord, username: string, movieTitle: string): string {
    username + " - " + movieTitle + " (" + StatusWord(v.hasSeen) + ")"
  }

  /** The label ends in "(Seen)" exactly when the record says the movie was seen. */
  lemma ViewLabelShowsStatus(v: ViewRecord, username: string, movieTitle: string)
    ensures var l := ViewLabel(v, username, movieTitle);
            |l| >= 6 && (v.hasSeen <==> l[|l| - 6..] == "(Seen)")
  {
    var l := ViewLabel(v, username, movieTitle);
    if v.hasSeen {
      assert l[|l| - 6..] == "(Seen)";
    } else {
      assert l[|l| - 8..] == "(Unseen)";
      assert l[|l| - 6] == 'n';
    }
  }
}
