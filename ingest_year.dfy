/**
 * The `ingest_tmdb_year` command: for every year from the current one down
 * to 1900, page through TMDb's discover results for that year. Every TMDb
 * answer is an input: `fetch(year, page)` is what the request for that page
 * of that year returns.
 */
module IngestYear {
  import opened Wrappers
  import opened Ingest
  import opened Models

  const StartYear := 1900
  /** The most pages TMDb serves for one query. */
  const MaxPageCap := 500

  /** What this command's `_process_page` gives back. */
  datatype PageOutcome =
    | Exit   // `sys.exit(1)` after a 401 or 403
    | Done(count: nat, totalPages: int)

  /**
   * The page count a page reports: the smaller of its `total_pages` (0 when
   * absent) and 500; 0 without results. A negative total is kept.
   */
  function CappedTotal(resp: PageResponse): (t: int)
    ensures t <= MaxPageCap
    ensures !(resp.Page? && resp.results.Some? && resp.results.value != []) ==> t == 0
    ensures resp.Page? && resp.results.Some? && resp.results.value != [] ==>
              t <= resp.totalPages.GetOr(0) && (t == resp.totalPages.GetOr(0) || t == MaxPageCap)
  {
    match resp
    case Page(totalPages, results) =>
      if results.None? || results.value == [] then 0
      else if totalPages.GetOr(0) < MaxPageCap then totalPages.GetOr(0) else MaxPageCap
    case _ => 0
  }

  /**
   * `_process_page`: a 401 or 403 exits; a 429, any other failed request and
   * a body without results report `(0, 0)`; otherwise the results are inserted.
   */
  method ProcessPage(c: Catalogue, resp: PageResponse) returns (outcome: PageOutcome)
    requires c.Valid()
    modifies c
    ensures c.Valid() && c.genres == old(c.genres) && c.genreMap == old(c.genreMap)
    ensures outcome.Exit? <==> resp.Unauthorized?
    ensures outcome.Done? ==> outcome.totalPages == CappedTotal(resp)
    ensures resp.Page? && resp.results.Some? && resp.results.value != [] ==>
              c.movies == InsertAll(old(c.movies), c.genreMap, resp.results.value)
    ensures !(resp.Page? && resp.results.Some? && resp.results.value != []) ==>
              c.movies == old(c.movies) && (outcome.Done? ==> outcome == Done(0, 0))
    ensures outcome.Done? ==> |c.movies| == |old(c.movies)| + outcome.count
    ensures c.movies == PageInsert(old(c.movies), c.genreMap, resp)
  {
    match resp {
      case Unauthorized =>
        return Exit;
      case RateLimited =>
        return Done(0, 0);
      case Failed =>
        return Done(0, 0);
      case Page(totalPages, results) =>
        if results.None? || results.value == [] {
          return Done(0, 0);
        }
        var reported := totalPages.GetOr(0);
        var total := if reported < MaxPageCap then reported else MaxPageCap;
        var count := c.InsertResults(results.value);
        return Done(count, total);
    }
  }

  /** The page bound of a year: page 1's capped total when positive, else the 500-page cap. */
  function YearBound(first: PageResponse): (b: int)
    ensures 1 <= b <= MaxPageCap
    ensures CappedTotal(first) > 0 ==> b == CappedTotal(first)
    ensures CappedTotal(first) <= 0 ==> b == MaxPageCap
  {
    if CappedTotal(first) > 0 then CappedTotal(first) else MaxPageCap
  }

  /** The request for page `p` of `year` is answered with a 401 or 403. */
  predicate RefusedAt(fetch: (int, nat) -> PageResponse, year: int, p: nat) {
    fetch(year, p).Unauthorized?
  }

  /** A refused page up to the year's bound witnesses that the year's loop may stop there. */
  lemma RefusedWithinBound(fetch: (int, nat) -> PageResponse, year: int, page: nat)
    requires 1 <= page <= YearBound(fetch(year, 1)) && RefusedAt(fetch, year, page)
    ensures exists p: nat | 1 <= p <= YearBound(fetch(year, 1)) :: RefusedAt(fetch, year, p)
  {
  }

  /** The answers to the pages a year's loop asks for: 1 to the year's bound. */
  function YearResponses(fetch: (int, nat) -> PageResponse, year: int): seq<PageResponse> {
    Responses(fetch, year, YearBound(fetch(year, 1)))
  }

  /**
   * The inner loop of `handle` for one year: the bound starts at 500 and only
   * page 1's answer may replace it; every processed page moves on to the
   * next. Unless a page exits, pages 1 to the year's bound are processed in
   * order.
   */
  method IngestOneYear(c: Catalogue, year: int, fetch: (int, nat) -> PageResponse)
    returns (exited: bool, added: nat)
    requires c.Valid()
    modifies c
    ensures c.Valid() && c.genres == old(c.genres) && c.genreMap == old(c.genreMap)
    ensures !exited ==> c.movies == InsertPages(old(c.movies), c.genreMap, YearResponses(fetch, year))
    ensures !exited ==> |c.movies| == |old(c.movies)| + added
    ensures exited ==> exists p: nat | 1 <= p <= YearBound(fetch(year, 1)) :: RefusedAt(fetch, year, p)
  {
    exited, added := false, 0;
    var currentPage := 1;
    var totalPagesForYear := MaxPageCap;
    while currentPage <= totalPagesForYear
      invariant 1 <= currentPage <= totalPagesForYear + 1
      invariant totalPagesForYear <= MaxPageCap
      invariant currentPage == 1 ==> totalPagesForYear == MaxPageCap
      invariant currentPage > 1 ==> totalPagesForYear == YearBound(fetch(year, 1))
      invariant c.Valid() && c.genres == old(c.genres) && c.genreMap == old(c.genreMap)
      invariant c.movies == InsertPages(old(c.movies), c.genreMap, Responses(fetch, year, currentPage - 1))
      invariant |c.movies| == |old(c.movies)| + added
      decreases MaxPageCap + 1 - currentPage
    {
      var result := ProcessPage(c, fetch(year, currentPage));
      if result.Exit? {
        RefusedWithinBound(fetch, year, currentPage);
        return true, added;
      }
      if currentPage == 1 && result.totalPages > 0 {
        totalPagesForYear := result.totalPages;
      }
      added := added + result.count;
      InsertPagesSnoc(old(c.movies), c.genreMap, Responses(fetch, year, currentPage - 1), fetch(year, currentPage));
      currentPage := currentPage + 1;
    }
  }

  /**
   * The catalogue after ingesting the years `hi`, `hi - 1`, ..., `lo`, newest
   * first, each page by page.
   */
  function InsertYears(movies: seq<Movie>, genreMap: map<int, nat>, fetch: (int, nat) -> PageResponse,
                       hi: int, lo: int): seq<Movie>
    decreases hi - lo
  {
    if hi < lo then movies
    else InsertPages(InsertYears(movies, genreMap, fetch, hi, lo + 1), genreMap, YearResponses(fetch, lo))
  }

  /** One more year, the oldest so far, is ingested after the newer ones. */
  lemma InsertYearsStep(movies: seq<Movie>, genreMap: map<int, nat>, fetch: (int, nat) -> PageResponse, hi: int, lo: int)
    requires lo <= hi
    ensures InsertYears(movies, genreMap, fetch, hi, lo)
            == InsertPages(InsertYears(movies, genreMap, fetch, hi, lo + 1), genreMap, YearResponses(fetch, lo))
  {
  }

  /**
   * `handle`: without a key nothing happens; then the genre map is loaded
   * unless it is already filled, and without genres the run aborts. Every
   * year from `currentYear` down to 1900 is then ingested, newest first;
   * only a 401 or 403 on some page stops the run early.
   */
  method Handle(c: Catalogue, apiKeySet: bool, currentYear: int, genreList: Option<seq<GenreData>>,
                fetch: (int, nat) -> PageResponse)
    returns (outcome: RunOutcome)
    requires c.Valid()
    modifies c
    ensures c.Valid()
    ensures !apiKeySet ==>
              outcome == Aborted && c.movies == old(c.movies) && c.genres == old(c.genres) && c.genreMap == old(c.genreMap)
    ensures apiKeySet && old(c.genreMap) != map[] ==> c.genres == old(c.genres) && c.genreMap == old(c.genreMap)
    ensures apiKeySet && old(c.genreMap) == map[] && genreList.None? ==>
              outcome == Aborted && c.movies == old(c.movies) && c.genres == old(c.genres) && c.genreMap == old(c.genreMap)
    ensures apiKeySet && old(c.genreMap) == map[] && genreList.Some? ==>
              (c.genres, c.genreMap) == LoadGenres(old(c.genres), old(c.genreMap), genreList.value)
    ensures outcome.Completed? ==>
              c.movies == InsertYears(old(c.movies), c.genreMap, fetch, currentYear, StartYear)
    ensures outcome.Completed? ==> |c.movies| == |old(c.movies)| + outcome.totalNew
    ensures apiKeySet && (old(c.genreMap) != map[] || genreList.Some?) ==> !outcome.Aborted?
    ensures outcome.Exited? ==>
              exists y: int, p: nat | StartYear <= y <= currentYear && 1 <= p <= MaxPageCap :: RefusedAt(fetch, y, p)
  {
    if !apiKeySet {
      return Aborted;
    }
    var ok := c.GetOrFetchGenres(genreList);
    if !ok {
      return Aborted;
    }
    var exited, totalNew := IngestYears(c, currentYear, fetch);
    outcome := if exited then Exited else Completed(totalNew);
  }

  /** The `for year in range(current_year, 1899, -1)` loop of `handle`. */
  method IngestYears(c: Catalogue, currentYear: int, fetch: (int, nat) -> PageResponse)
    returns (exited: bool, totalNew: nat)
    requires c.Valid()
    modifies c
    ensures c.Valid() && c.genres == old(c.genres) && c.genreMap == old(c.genreMap)
    ensures !exited ==> c.movies == InsertYears(old(c.movies), c.genreMap, fetch, currentYear, StartYear)
    ensures !exited ==> |c.movies| == |old(c.movies)| + totalNew
    ensures exited ==>
              exists y: int, p: nat | StartYear <= y <= currentYear && 1 <= p <= MaxPageCap :: RefusedAt(fetch, y, p)
  {
    exited, totalNew := false, 0;
    ghost var start, gm := c.movies, c.genreMap;
    var year := currentYear;
    ghost var done := currentYear + 1;
    while year >= StartYear
      invariant year <= currentYear && (currentYear >= StartYear ==> year >= StartYear - 1)
      invariant currentYear < StartYear ==> year == currentYear
      invariant done == year + 1
      invariant c.Valid() && c.genres == old(c.genres) && c.genreMap == gm
      invariant c.movies == InsertYears(start, gm, fetch, currentYear, done)
      invariant |c.movies| == |start| + totalNew
      decreases year
    {
      var yearExited, added := IngestOneYear(c, year, fetch);
      if yearExited {
        ghost var p: nat :| 1 <= p <= YearBound(fetch(year, 1)) && RefusedAt(fetch, year, p);
        assert StartYear <= year <= currentYear && 1 <= p <= MaxPageCap;
        return true, totalNew;
      }
      totalNew := totalNew + added;
      InsertYearsStep(start, gm, fetch, currentYear, year);
      done := year;
      year := year - 1;
    }
  }
}
