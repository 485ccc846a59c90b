/**
 * What the two TMDb ingestion commands (ingest_tmdb_popular.py and
 * ingest_tmdb_year.py) share: the genre map each command memoises, the
 * release-year parse, and the loop that inserts one page of results into the
 * catalogue.
 */
module Ingest {
  import opened Wrappers
  import Text
  import Decimal
  import opened Models

  /** One entry of TMDb's genre list. */
  datatype GenreData = GenreData(id: int, name: string)

  /** One entry of a page's `results` list; absent JSON fields are `None`. */
  datatype Record = Record(
    id: int,
    title: string,
    releaseDate: Option<string>,
    overview: Option<string>,
    posterPath: Option<string>,
    genreIds: seq<int>)

  /**
   * What a page request comes back with. `Page` carries the decoded JSON:
   * `totalPages` is absent when the field is, `results` when it is missing
   * or not a list.
   */
  datatype PageResponse =
    | Unauthorized   // status 401 or 403
    | RateLimited    // status 429
    | Failed         // any other status but 200, a connection error, a body that is not JSON
    | Page(totalPages: Option<int>, results: Option<seq<Record>>)

  // ------------------------------------------------------------ command runs

  /** What one page does to the catalogue: a page with results inserts them; anything else adds nothing. */
  function PageInsert(movies: seq<Movie>, genreMap: map<int, nat>, resp: PageResponse): (r: seq<Movie>)
    ensures |r| >= |movies| && r[..|movies|] == movies
  {
    if resp.Page? && resp.results.Some? && resp.results.value != [] then InsertAll(movies, genreMap, resp.results.value)
    else movies
  }

  /** The catalogue after the pages answered by `resps`, processed in order. */
  function InsertPages(movies: seq<Movie>, genreMap: map<int, nat>, resps: seq<PageResponse>): (r: seq<Movie>)
    ensures |r| >= |movies| && r[..|movies|] == movies
  {
    if resps == [] then movies
    else PageInsert(InsertPages(movies, genreMap, resps[..|resps| - 1]), genreMap, resps[|resps| - 1])
  }

  /** The answers to the requests for pages 1 to `n` of `key` (an endpoint or a year), in page order. */
  function Responses<K>(fetch: (K, nat) -> PageResponse, key: K, n: nat): (rs: seq<PageResponse>)
    ensures |rs| == n
  {
    if n == 0 then [] else Responses(fetch, key, n - 1) + [fetch(key, n)]
  }

  /** The `k`-th answer is the one to the request for page `k + 1`. */
  lemma {:induction false} ResponsesAt<K>(fetch: (K, nat) -> PageResponse, key: K, n: nat, k: nat)
    requires k < n
    ensures Responses(fetch, key, n)[k] == fetch(key, k + 1)
  {
    if k < n - 1 {
      ResponsesAt(fetch, key, n - 1, k);
    }
  }

  /** Processing one more page extends the fold by that page. */
  lemma InsertPagesSnoc(movies: seq<Movie>, genreMap: map<int, nat>, resps: seq<PageResponse>, resp: PageResponse)
    ensures InsertPages(movies, genreMap, resps + [resp])
            == PageInsert(InsertPages(movies, genreMap, resps), genreMap, resp)
  {
    assert (resps + [resp])[..|resps|] == resps;
  }

  /** However many pages are processed, no two movies share a TMDb id. */
  lemma {:induction false} InsertPagesDistinct(movies: seq<Movie>, genreMap: map<int, nat>, resps: seq<PageResponse>)
    requires DistinctTmdb(movies)
    ensures DistinctTmdb(InsertPages(movies, genreMap, resps))
    decreases |resps|
  {
    if resps != [] {
      var before := InsertPages(movies, genreMap, resps[..|resps| - 1]);
      InsertPagesDistinct(movies, genreMap, resps[..|resps| - 1]);
      var last := resps[|resps| - 1];
      if last.Page? && last.results.Some? && last.results.value != [] {
        InsertAllDistinct(before, genreMap, last.results.value);
      }
    }
  }

  /** Processing the same page a second time adds nothing. */
  lemma PageInsertIdempotent(movies: seq<Movie>, genreMap: map<int, nat>, resp: PageResponse)
    ensures PageInsert(PageInsert(movies, genreMap, resp), genreMap, resp) == PageInsert(movies, genreMap, resp)
  {
    if resp.Page? && resp.results.Some? && resp.results.value != [] {
      InsertAllIdempotent(movies, genreMap, resp.results.value);
    }
  }

  /** Folding over pages is the same as processing the first page and folding over the rest. */
  lemma {:induction false} InsertPagesCons(movies: seq<Movie>, genreMap: map<int, nat>, resp: PageResponse,
                                           rest: seq<PageResponse>)
    ensures InsertPages(movies, genreMap, [resp] + rest)
            == InsertPages(PageInsert(movies, genreMap, resp), genreMap, rest)
    decreases |rest|
  {
    if rest == [] {
      assert [resp] + rest == [] + [resp];
      InsertPagesSnoc(movies, genreMap, [], resp);
    } else {
      var init, last := rest[..|rest| - 1], rest[|rest| - 1];
      assert [resp] + rest == ([resp] + init) + [last];
      InsertPagesSnoc(movies, genreMap, [resp] + init, last);
      InsertPagesCons(movies, genreMap, resp, init);
    }
  }

  /** How a command's `handle` ends. */
  datatype RunOutcome =
    | Aborted             // no API key, no genres, or (popular command) an invalid mode
    | Exited              // `sys.exit(1)` in `_process_page` after a 401 or 403
    | Completed(totalNew: nat)

  // ------------------------------------------------------------ release year

  /**
   * `int(s.split('-')[0])` when that first part is all digits (`isdigit` is
   * false for the empty string), `None` otherwise; an absent date reads as ''.
   */
  function ReleaseYear(date: Option<string>): (y: Option<nat>)
    ensures y.Some? ==> date.Some? && date.value != ""
  {
    var head := Text.UpTo(date.GetOr(""), '-');
    if head != "" && Decimal.AllDigits(head) then Some(Decimal.DigitsValue(head)) else None
  }

  /** A date `YYYY-…` whose year is written in decimal reads back as that year. */
  lemma ReleaseYearRoundTrip(year: nat, rest: string)
    ensures ReleaseYear(Some(Decimal.NatToDigits(year) + "-" + rest)) == Some(year)
    ensures ReleaseYear(Some(Decimal.NatToDigits(year))) == Some(year)
  {
    var digits := Decimal.NatToDigits(year);
    assert '-' !in digits by {
      assert forall i | 0 <= i < |digits| :: Decimal.IsDigit(digits[i]);
    }
    Text.UpToFirst(digits, '-', rest);
    assert digits + "-" + rest == digits + ['-'] + rest;
    Text.UpToAbsent(digits, '-');
    Decimal.DigitsRoundTrip(year);
  }

  /** A date whose first character is not a digit gives no year. */
  lemma ReleaseYearNeedsDigit(date: string)
    requires date == "" || !Decimal.IsDigit(date[0])
    ensures ReleaseYear(Some(date)) == None
  {
    if date != "" && date[0] != '-' {
      assert Text.UpTo(date, '-')[0] == date[0];
    }
  }

  /** `if not release_year: continue` — a record is kept only with a non-zero year. */
  predicate HasYear(r: Record) {
    ReleaseYear(r.releaseDate).Some? && ReleaseYear(r.releaseDate).value != 0
  }

  // ------------------------------------------------------------- the catalogue

  const PosterBase := "https://image.tmdb.org/t/p/w500"

  /** The poster URL of a record: the w500 image of a non-empty poster path, else null. */
  function PosterUrl(path: Option<string>): (u: Option<string>)
    ensures u.Some? <==> path.Some? && path.value != ""
    ensures u.Some? ==> |u.value| > |PosterBase| && u.value[..|PosterBase|] == PosterBase
  {
    if path.Some? && path.value != "" then Some(PosterBase + path.value) else None
  }

  /** The Genre rows of the known TMDb genre ids among `ids`; unknown ids are dropped. */
  function MappedGenres(genreMap: map<int, nat>, ids: seq<int>): set<nat> {
    set g | g in ids && g in genreMap :: genreMap[g]
  }

  predicate HasTmdbId(movies: seq<Movie>, id: int) {
    exists i | 0 <= i < |movies| :: movies[i].tmdbId == Some(id)
  }

  /** No two movies share a TMDb id (movies without one are not constrained). */
  predicate DistinctTmdb(movies: seq<Movie>) {
    forall i, j | 0 <= i < j < |movies| && movies[i].tmdbId.Some? :: movies[i].tmdbId != movies[j].tmdbId
  }

  /** The movie row created for record `r` with primary key `id`. */
  function Created(id: nat, r: Record, year: nat, genreMap: map<int, nat>): Movie {
    NewMovie(id, r.title, year, r.overview, Some(r.id), PosterUrl(r.posterPath))
      .(genres := MappedGenres(genreMap, r.genreIds))
  }

  /** `m` is the row created from record `r`: its fields are the record's, as converted. */
  predicate FromRecord(m: Movie, r: Record, genreMap: map<int, nat>) {
    && HasYear(r)
    && m.tmdbId == Some(r.id)
    && Some(m.releaseYear) == ReleaseYear(r.releaseDate)
    && m.title == r.title
    && m.plotSummary == r.overview
    && m.posterUrl == PosterUrl(r.posterPath)
    && m.genres == MappedGenres(genreMap, r.genreIds)
    && m.revenue == 0 && m.imdbId.None? && m.cast == []
  }

  /** One record of a page: skipped when its TMDb id is present or it has no year, else created. */
  function InsertOne(movies: seq<Movie>, genreMap: map<int, nat>, r: Record): seq<Movie> {
    if HasTmdbId(movies, r.id) || !HasYear(r) then movies
    else movies + [Created(|movies| + 1, r, ReleaseYear(r.releaseDate).value, genreMap)]
  }

  /** A page of records, one after the other. */
  function InsertAll(movies: seq<Movie>, genreMap: map<int, nat>, rs: seq<Record>): (r: seq<Movie>)
    ensures |r| >= |movies| && r[..|movies|] == movies
    decreases |rs|
  {
    if rs == [] then movies else InsertAll(InsertOne(movies, genreMap, rs[0]), genreMap, rs[1..])
  }

  /** Inserting a page never gives two movies the same TMDb id, even when the page repeats one. */
  lemma {:induction false} InsertAllDistinct(movies: seq<Movie>, genreMap: map<int, nat>, rs: seq<Record>)
    requires DistinctTmdb(movies)
    ensures DistinctTmdb(InsertAll(movies, genreMap, rs))
    decreases |rs|
  {
    if rs != [] {
      var next := InsertOne(movies, genreMap, rs[0]);
      if next != movies {
        forall i, j | 0 <= i < j < |next| && next[i].tmdbId.Some?
          ensures next[i].tmdbId != next[j].tmdbId
        {
          if j == |movies| {
            assert next[i] == movies[i];
          }
        }
      }
      InsertAllDistinct(next, genreMap, rs[1..]);
    }
  }

  /** Every movie a page adds is the conversion of one of its records whose id was not present before. */
  lemma {:induction false} InsertAllCreated(movies: seq<Movie>, genreMap: map<int, nat>, rs: seq<Record>)
    ensures var r := InsertAll(movies, genreMap, rs);
            forall j | |movies| <= j < |r| ::
              exists k | 0 <= k < |rs| :: FromRecord(r[j], rs[k], genreMap) && !HasTmdbId(movies, rs[k].id)
    decreases |rs|
  {
    if rs != [] {
      var next := InsertOne(movies, genreMap, rs[0]);
      var r := InsertAll(movies, genreMap, rs);
      InsertAllCreated(next, genreMap, rs[1..]);
      forall j | |movies| <= j < |r|
        ensures exists k | 0 <= k < |rs| :: FromRecord(r[j], rs[k], genreMap) && !HasTmdbId(movies, rs[k].id)
      {
        if j < |next| {
          assert r[..|next|] == next;
          assert r[j] == next[j];
          assert FromRecord(r[j], rs[0], genreMap);
        } else {
          assert r == InsertAll(next, genreMap, rs[1..]);
          var k :| 0 <= k < |rs[1..]| && FromRecord(r[j], rs[1..][k], genreMap) && !HasTmdbId(next, rs[1..][k].id);
          assert rs[1..][k] == rs[k + 1];
          InsertOneKeeps(movies, genreMap, rs[0], rs[k + 1].id);
        }
      }
    }
  }

  lemma InsertOneDistinct(movies: seq<Movie>, genreMap: map<int, nat>, r: Record)
    requires DistinctTmdb(movies)
    ensures DistinctTmdb(InsertOne(movies, genreMap, r))
  {
    InsertAllDistinct(movies, genreMap, [r]);
    assert InsertAll(movies, genreMap, [r]) == InsertOne(movies, genreMap, r);
  }

  /** A TMDb id already in the catalogue stays there when a record is inserted. */
  lemma InsertOneKeeps(movies: seq<Movie>, genreMap: map<int, nat>, r: Record, id: int)
    ensures HasTmdbId(movies, id) ==> HasTmdbId(InsertOne(movies, genreMap, r), id)
  {
    if HasTmdbId(movies, id) {
      var i :| 0 <= i < |movies| && movies[i].tmdbId == Some(id);
      assert InsertOne(movies, genreMap, r)[i] == movies[i];
    }
  }

  /** After a page, every record with a year has its TMDb id in the catalogue. */
  lemma {:induction false} InsertAllCovers(movies: seq<Movie>, genreMap: map<int, nat>, rs: seq<Record>)
    ensures forall k | 0 <= k < |rs| && HasYear(rs[k]) :: HasTmdbId(InsertAll(movies, genreMap, rs), rs[k].id)
    decreases |rs|
  {
    if rs != [] {
      var next := InsertOne(movies, genreMap, rs[0]);
      var r := InsertAll(movies, genreMap, rs);
      InsertAllCovers(next, genreMap, rs[1..]);
      assert r[..|next|] == next;
      forall k | 0 <= k < |rs| && HasYear(rs[k])
        ensures HasTmdbId(r, rs[k].id)
      {
        if k == 0 {
          var i :| 0 <= i < |next| && next[i].tmdbId == Some(rs[0].id);
          assert r[i] == next[i];
        } else {
          assert rs[k] == rs[1..][k - 1];
        }
      }
    }
  }

  /** A page whose records are all present already (or have no year) adds nothing. */
  lemma {:induction false} InsertAllNothingNew(movies: seq<Movie>, genreMap: map<int, nat>, rs: seq<Record>)
    requires forall k | 0 <= k < |rs| && HasYear(rs[k]) :: HasTmdbId(movies, rs[k].id)
    ensures InsertAll(movies, genreMap, rs) == movies
    decreases |rs|
  {
    if rs != [] {
      assert InsertOne(movies, genreMap, rs[0]) == movies;
      forall k | 0 <= k < |rs[1..]| && HasYear(rs[1..][k])
        ensures HasTmdbId(movies, rs[1..][k].id)
      {
        assert rs[1..][k] == rs[k + 1];
      }
      InsertAllNothingNew(movies, genreMap, rs[1..]);
    }
  }

  /** Processing the same page twice inserts what processing it once did. */
  lemma InsertAllIdempotent(movies: seq<Movie>, genreMap: map<int, nat>, rs: seq<Record>)
    ensures InsertAll(InsertAll(movies, genreMap, rs), genreMap, rs) == InsertAll(movies, genreMap, rs)
  {
    InsertAllCovers(movies, genreMap, rs);
    InsertAllNothingNew(InsertAll(movies, genreMap, rs), genreMap, rs);
  }

  // ------------------------------------------------------------ the genre map

  predicate DistinctNames(names: seq<string>) {
    forall i, j | 0 <= i < j < |names| :: names[i] != names[j]
  }

  /** `Genre.objects.get_or_create(name=…)` on the Genre table (index = primary key). */
  function AddName(names: seq<string>, name: string): (r: seq<string>)
    ensures name in r && |r| >= |names| && r[..|names|] == names
    ensures DistinctNames(names) ==> DistinctNames(r)
  {
    if name in names then names else names + [name]
  }

  /** The position of `name` in a table that holds it. */
  function IndexOf(names: seq<string>, name: string): (i: nat)
    requires name in names
    ensures i < |names| && names[i] == name
  {
    if names[0] == name then 0 else 1 + IndexOf(names[1..], name)
  }

  function IdsOf(list: seq<GenreData>): set<int> {
    set k | 0 <= k < |list| :: list[k].id
  }

  /** The name given to `id` by the last entry of `list` that has that id. */
  function LastName(list: seq<GenreData>, id: int): string
    requires id in IdsOf(list)
  {
    if list[0].id == id && id !in IdsOf(list[1..]) then list[0].name
    else
      assert id in IdsOf(list[1..]) by {
        if list[0].id != id {
          var k :| 0 <= k < |list| && list[k].id == id;
          assert list[1..][k - 1] == list[k];
        }
      }
      LastName(list[1..], id)
  }

  /** Every map value names a row of the Genre table. */
  predicate MapInRange(genreMap: map<int, nat>, names: seq<string>) {
    forall g | g in genreMap :: genreMap[g] < |names|
  }

  /**
   * The genre-list loop: each entry's name is got-or-created and its id
   * mapped to that row, so when an id repeats, its last entry wins.
   */
  function LoadGenres(names: seq<string>, genreMap: map<int, nat>, list: seq<GenreData>)
    : (seq<string>, map<int, nat>)
    decreases |list|
  {
    if list == [] then (names, genreMap)
    else
      var names' := AddName(names, list[0].name);
      LoadGenres(names', genreMap[list[0].id := IndexOf(names', list[0].name)], list[1..])
  }

  lemma IdsOfCons(list: seq<GenreData>)
    requires list != []
    ensures IdsOf(list) == {list[0].id} + IdsOf(list[1..])
  {
    forall g | g in IdsOf(list) ensures g in {list[0].id} + IdsOf(list[1..]) {
      var k :| 0 <= k < |list| && list[k].id == g;
      if k > 0 {
        assert list[1..][k - 1] == list[k];
      }
    }
  }

  /** After the genre-list loop the Genre table has only grown, its names still distinct. */
  lemma {:induction false} LoadGenresGrows(names: seq<string>, genreMap: map<int, nat>, list: seq<GenreData>)
    ensures var r := LoadGenres(names, genreMap, list);
            && |r.0| >= |names| && r.0[..|names|] == names
            && (DistinctNames(names) ==> DistinctNames(r.0))
            && (MapInRange(genreMap, names) ==> MapInRange(r.1, r.0))
    decreases |list|
  {
    if list != [] {
      var names' := AddName(names, list[0].name);
      var map' := genreMap[list[0].id := IndexOf(names', list[0].name)];
      LoadGenresGrows(names', map', list[1..]);
      var r := LoadGenres(names', map', list[1..]);
      assert r.0[..|names|] == names by {
        assert r.0[..|names'|][..|names|] == names'[..|names|];
      }
    }
  }

  /** After the genre-list loop every listed name has a row. */
  lemma {:induction false} LoadGenresNames(names: seq<string>, genreMap: map<int, nat>, list: seq<GenreData>)
    ensures forall k | 0 <= k < |list| :: list[k].name in LoadGenres(names, genreMap, list).0
    decreases |list|
  {
    if list != [] {
      var names' := AddName(names, list[0].name);
      var map' := genreMap[list[0].id := IndexOf(names', list[0].name)];
      LoadGenresNames(names', map', list[1..]);
      LoadGenresGrows(names', map', list[1..]);
      var r := LoadGenres(names', map', list[1..]);
      forall k | 0 <= k < |list| ensures list[k].name in r.0 {
        if k == 0 {
          var i := IndexOf(names', list[0].name);
          assert r.0[i] == names'[i];
        } else {
          assert list[k] == list[1..][k - 1];
        }
      }
    }
  }

  /** The map gains exactly the listed ids and keeps every other entry. */
  lemma {:induction false} LoadGenresKeys(names: seq<string>, genreMap: map<int, nat>, list: seq<GenreData>)
    ensures var r := LoadGenres(names, genreMap, list);
            && r.1.Keys == genreMap.Keys + IdsOf(list)
            && (forall g | g in genreMap && g !in IdsOf(list) :: r.1[g] == genreMap[g])
    decreases |list|
  {
    if list != [] {
      var names' := AddName(names, list[0].name);
      var map' := genreMap[list[0].id := IndexOf(names', list[0].name)];
      LoadGenresKeys(names', map', list[1..]);
      IdsOfCons(list);
    }
  }

  /** A listed id points at the row named by its last entry in the list. */
  lemma {:induction false} LoadGenresLastWins(names: seq<string>, genreMap: map<int, nat>, list: seq<GenreData>)
    ensures var r := LoadGenres(names, genreMap, list);
            forall g | g in IdsOf(list) :: g in r.1 && r.1[g] < |r.0| && r.0[r.1[g]] == LastName(list, g)
    decreases |list|
  {
    if list != [] {
      var names' := AddName(names, list[0].name);
      var map' := genreMap[list[0].id := IndexOf(names', list[0].name)];
      LoadGenresLastWins(names', map', list[1..]);
      LoadGenresKeys(names', map', list[1..]);
      LoadGenresGrows(names', map', list[1..]);
      IdsOfCons(list);
      var r := LoadGenres(names', map', list[1..]);
      forall g | g in IdsOf(list) ensures g in r.1 && r.1[g] < |r.0| && r.0[r.1[g]] == LastName(list, g) {
        if g !in IdsOf(list[1..]) {
          var i := IndexOf(names', list[0].name);
          assert r.1[g] == i;
          assert r.0[i] == names'[i];
        }
      }
    }
  }

  /**
   * The catalogue one ingestion command works on: the Movie table, the Genre
   * table (names, index = primary key), and the command's memoised map from
   * TMDb genre id to Genre row.
   */
  class Catalogue {
    var movies: seq<Movie>
    var genres: seq<string>
    var genreMap: map<int, nat>

    ghost predicate Valid()
      reads this
    {
      DistinctTmdb(movies) && DistinctNames(genres) && MapInRange(genreMap, genres)
    }

    constructor(movies: seq<Movie>, genres: seq<string>)
      requires DistinctTmdb(movies) && DistinctNames(genres)
      ensures Valid()
      ensures this.movies == movies && this.genres == genres && genreMap == map[]
    {
      this.movies := movies;
      this.genres := genres;
      genreMap := map[];
    }

    /** `Genre.objects.get_or_create(name=name)`: the row's primary key. */
    method GetOrCreateGenre(name: string) returns (pk: nat)
      modifies this
      ensures genres == AddName(old(genres), name)
      ensures pk < |genres| && genres[pk] == name
      ensures movies == old(movies) && genreMap == old(genreMap)
    {
      var i := 0;
      while i < |genres|
        invariant 0 <= i <= |genres|
        invariant name !in genres[..i]
      {
        if genres[i] == name {
          return i;
        }
        assert genres[..i + 1] == genres[..i] + [genres[i]];
        i := i + 1;
      }
      assert genres[..i] == genres;
      genres := genres + [name];
      pk := |genres| - 1;
    }

    /**
     * `_get_or_fetch_genres`. `fetched` is the genre list the request returned,
     * `None` when the request failed. A non-empty map is kept without a request.
     */
    method GetOrFetchGenres(fetched: Option<seq<GenreData>>) returns (ok: bool)
      requires Valid()
      modifies this
      ensures Valid() && movies == old(movies)
      ensures old(genreMap) != map[] ==> ok && genres == old(genres) && genreMap == old(genreMap)
      ensures old(genreMap) == map[] && fetched.None? ==>
                !ok && genres == old(genres) && genreMap == old(genreMap)
      ensures old(genreMap) == map[] && fetched.Some? ==>
                ok && (genres, genreMap) == LoadGenres(old(genres), old(genreMap), fetched.value)
    {
      if genreMap != map[] {
        return true;
      }
      if fetched.None? {
        return false;
      }
      LoadGenreList(fetched.value);
      ok := true;
    }

    /** The loop over the fetched genre list: get-or-create each name, map the id to its row. */
    method LoadGenreList(list: seq<GenreData>)
      requires Valid()
      modifies this
      ensures Valid() && movies == old(movies)
      ensures (genres, genreMap) == LoadGenres(old(genres), old(genreMap), list)
    {
      var i := 0;
      while i < |list|
        invariant 0 <= i <= |list|
        invariant Valid() && movies == old(movies)
        invariant LoadGenres(genres, genreMap, list[i..]) == LoadGenres(old(genres), old(genreMap), list)
      {
        LoadEntry(list[i..]);
        assert list[i..][1..] == list[i + 1..];
        i := i + 1;
      }
      assert list[i..] == [];
    }

    /**
     * One turn of the genre-list loop, on the head of `rest`: the name's row is
     * got-or-created and the id mapped to it; the fold over `rest` goes on
     * from the new table and map.
     */
    method LoadEntry(rest: seq<GenreData>)
      requires Valid() && rest != []
      modifies this
      ensures Valid() && movies == old(movies)
      ensures LoadGenres(genres, genreMap, rest[1..]) == LoadGenres(old(genres), old(genreMap), rest)
    {
      ghost var before := genres;
      var pk := GetOrCreateGenre(rest[0].name);
      LoadGenresNext(before, genreMap, rest, genres, pk);
      genreMap := genreMap[rest[0].id := pk];
    }

    /**
     * The insertion loop of `_process_page`: each record whose TMDb id is not
     * in the catalogue and whose date gives a non-zero year becomes a movie,
     * with the Genre rows of its known genre ids. Returns the number inserted.
     */
    method InsertResults(results: seq<Record>) returns (count: nat)
      requires Valid()
      modifies this
      ensures Valid()
      ensures movies == InsertAll(old(movies), genreMap, results)
      ensures count == |movies| - |old(movies)|
      ensures genres == old(genres) && genreMap == old(genreMap)
    {
      count := 0;
      var i := 0;
      while i < |results|
        invariant 0 <= i <= |results|
        invariant Valid()
        invariant genres == old(genres) && genreMap == old(genreMap)
        invariant InsertAll(movies, genreMap, results[i..]) == InsertAll(old(movies), genreMap, results)
        invariant |movies| >= |old(movies)| && count == |movies| - |old(movies)|
      {
        assert results[i..][1..] == results[i + 1..];
        var added := InsertRecord(results[i]);
        if added {
          count := count + 1;
        }
        i := i + 1;
      }
      assert results[i..] == [];
    }

    /** One pass of the loop: skip a present TMDb id or a record without a year, else create the movie. */
    method InsertRecord(r: Record) returns (added: bool)
      requires Valid()
      modifies this
      ensures Valid()
      ensures movies == InsertOne(old(movies), genreMap, r)
      ensures |movies| == |old(movies)| + (if added then 1 else 0)
      ensures genres == old(genres) && genreMap == old(genreMap)
    {
      InsertOneDistinct(movies, genreMap, r);
      var present := exists j | 0 <= j < |movies| :: movies[j].tmdbId == Some(r.id);
      var year := ReleaseYear(r.releaseDate);
      added := false;
      if !present && year.Some? && year.value != 0 {
        var linked := LinkGenres(r.genreIds);
        var movie := NewMovie(|movies| + 1, r.title, year.value, r.overview, Some(r.id), PosterUrl(r.posterPath));
        movies := movies + [movie.(genres := linked)];
        added := true;
      }
    }

    /** The genre loop: the Genre row of every id the map knows; unknown ids are dropped. */
    method LinkGenres(ids: seq<int>) returns (linked: set<nat>)
      ensures linked == MappedGenres(genreMap, ids)
    {
      linked := {};
      var k := 0;
      while k < |ids|
        invariant 0 <= k <= |ids|
        invariant linked == MappedGenres(genreMap, ids[..k])
      {
        MappedGenresSnoc(genreMap, ids[..k], ids[k]);
        assert ids[..k + 1] == ids[..k] + [ids[k]];
        if ids[k] in genreMap {
          linked := linked + {genreMap[ids[k]]};
        }
        k := k + 1;
      }
      assert ids[..k] == ids;
    }
  }

  lemma MappedGenresSnoc(genreMap: map<int, nat>, ids: seq<int>, id: int)
    ensures MappedGenres(genreMap, ids + [id])
            == MappedGenres(genreMap, ids) + (if id in genreMap then {genreMap[id]} else {})
  {
    var l := MappedGenres(genreMap, ids + [id]);
    var r := MappedGenres(genreMap, ids) + (if id in genreMap then {genreMap[id]} else {});
    forall x | x in l ensures x in r {
      var g :| g in ids + [id] && g in genreMap && genreMap[g] == x;
      if g != id {
        assert g in ids;
      }
    }
    forall x | x in r ensures x in l {
      if x !in MappedGenres(genreMap, ids) {
        assert id in ids + [id];
      } else {
        var g :| g in ids && g in genreMap && genreMap[g] == x;
        assert g in ids + [id];
      }
    }
  }

  /** One step of the genre-list loop. */
  lemma LoadGenresStep(names: seq<string>, genreMap: map<int, nat>, list: seq<GenreData>)
    requires list != []
    ensures var names' := AddName(names, list[0].name);
            LoadGenres(names, genreMap, list)
            == LoadGenres(names', genreMap[list[0].id := IndexOf(names', list[0].name)], list[1..])
  {
  }

  /**
   * One turn of the genre-list loop: with the got-or-created row `pk` of the
   * head's name, the rest of the fold continues from the updated table and
   * map, and both stay valid.
   */
  lemma LoadGenresNext(names: seq<string>, genreMap: map<int, nat>, list: seq<GenreData>, names': seq<string>, pk: nat)
    requires list != [] && DistinctNames(names) && MapInRange(genreMap, names)
    requires names' == AddName(names, list[0].name) && pk < |names'| && names'[pk] == list[0].name
    ensures LoadGenres(names, genreMap, list) == LoadGenres(names', genreMap[list[0].id := pk], list[1..])
    ensures DistinctNames(names') && MapInRange(genreMap[list[0].id := pk], names')
  {
    LoadGenresStep(names, genreMap, list);
    IndexOfUnique(names', list[0].name, pk);
  }

  lemma IndexOfUnique(names: seq<string>, name: string, i: nat)
    requires DistinctNames(names) && i < |names| && names[i] == name
    ensures IndexOf(names, name) == i
  {
  }
}
