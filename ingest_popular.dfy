/**
 * The `ingest_tmdb_popular` command: pick the page cap from the mode, probe
 * page 1 for the total page count, then process pages 1 to the limit.
 * Every TMDb answer is an input: `fetch(endpoint, page)` is what the request
 * for that page of that endpoint returns.
 */
module IngestPopular {
  import opened Wrappers
  import Text
  import opened Ingest
  import opened Models

  /** What `_process_page` gives back to `handle`. */
  datatype PageOutcome =
    | Exit   // `sys.exit(1)` after a 401 or 403
    | Done(count: nat, success: bool, totalPages: int)

  /**
   * The total page count `_process_page` reports: read from the body only for
   * page 1 (defaulting to `maxPages`), `maxPages` for later pages, 0 when the
   * request failed.
   */
  function ReportedTotal(page: int, maxPages: int, resp: PageResponse): int {
    match resp
    case Page(totalPages, _) => if page == 1 then totalPages.GetOr(maxPages) else maxPages
    case _ => 0
  }

  /**
   * `_process_page`. A 429 raises `HTTPError` inside the `try`, and the first
   * handler, `except RequestException`, catches it: the page is skipped like
   * any failed request.
   */
  method ProcessPage(c: Catalogue, page: int, maxPages: int, resp: PageResponse) returns (outcome: PageOutcome)
    requires c.Valid()
    modifies c
    ensures c.Valid() && c.genres == old(c.genres) && c.genreMap == old(c.genreMap)
    ensures outcome.Exit? <==> resp.Unauthorized?
    ensures resp.RateLimited? || resp.Failed? ==> outcome == Done(0, false, 0)
    ensures outcome.Done? ==> outcome.totalPages == ReportedTotal(page, maxPages, resp)
    ensures outcome.Done? && outcome.success <==> resp.Page? && resp.results.Some? && resp.results.value != []
    ensures outcome.Done? && outcome.success ==>
              c.movies == InsertAll(old(c.movies), c.genreMap, resp.results.value)
    ensures !(outcome.Done? && outcome.success) ==> c.movies == old(c.movies)
    ensures outcome.Done? ==> |c.movies| == |old(c.movies)| + outcome.count
    ensures c.movies == PageInsert(old(c.movies), c.genreMap, resp)
  {
    match resp {
      case Unauthorized =>
        return Exit;
      case RateLimited =>
        return Done(0, false, 0);
      case Failed =>
        return Done(0, false, 0);
      case Page(totalPages, results) =>
        var total := if page == 1 then totalPages.GetOr(maxPages) else maxPages;
        if results.None? || results.value == [] {
          return Done(0, false, total);
        }
        var count := c.InsertResults(results.value);
        return Done(count, true, total);
    }
  }

  /** The request endpoint and page cap of a mode (compared in lower case); `None` aborts. */
  function ModeSettings(mode: string): (s: Option<(string, nat)>)
    ensures s.Some? ==> s.value.1 > 0
  {
    var m := Text.LowerStr(mode);
    if m == "backfill" then Some(("popular", 500))
    else if m == "daily" then Some(("now_playing", 3))
    else None
  }

  /** The mode is compared case-insensitively: its lower-case form selects the same settings. */
  lemma ModeIgnoresCase(mode: string)
    ensures ModeSettings(Text.LowerStr(mode)) == ModeSettings(mode)
  {
    assert Text.LowerStr(Text.LowerStr(mode)) == Text.LowerStr(mode);
  }

  /** `min(actual, cap) if actual > 0 else cap`. */
  function PageLimit(actual: int, cap: nat): (limit: int)
    ensures limit <= cap
    ensures cap > 0 ==> limit > 0
    ensures 0 < actual <= cap ==> limit == actual
    ensures actual <= 0 || actual >= cap ==> limit == cap
  {
    if actual > 0 then (if actual < cap then actual else cap) else cap
  }

  /** The page limit `handle` derives from the probe of page 1 of `endpoint`. */
  function ProbedLimit(fetch: (string, nat) -> PageResponse, endpoint: string, cap: nat): int {
    PageLimit(ReportedTotal(1, cap, fetch(endpoint, 1)), cap)
  }

  /**
   * `handle`, as written: after the probe of page 1, pages 1 to the limit are
   * processed and their counts summed. `probeNew`, the probe's own count, is
   * what the source discards (`_, _, actual_total_pages = …`). Without a key
   * nothing happens; the genre map is loaded unless it is already filled, and
   * only then is the mode checked.
   */
  method Handle(c: Catalogue, apiKeySet: bool, mode: string, genreList: Option<seq<GenreData>>,
                fetch: (string, nat) -> PageResponse)
    returns (outcome: RunOutcome, probeNew: nat)
    requires c.Valid()
    modifies c
    ensures c.Valid()
    ensures !apiKeySet ==>
              outcome == Aborted && c.movies == old(c.movies) && c.genres == old(c.genres) && c.genreMap == old(c.genreMap)
    ensures apiKeySet && old(c.genreMap) != map[] ==> c.genres == old(c.genres) && c.genreMap == old(c.genreMap)
    ensures apiKeySet && old(c.genreMap) == map[] && genreList.None? ==>
              outcome == Aborted && c.movies == old(c.movies) && c.genres == old(c.genres) && c.genreMap == old(c.genreMap)
    ensures apiKeySet && old(c.genreMap) == map[] && genreList.Some? ==>
              (c.genres, c.genreMap) == LoadGenres(old(c.genres), old(c.genreMap), genreList.value)
    ensures outcome.Completed? ==> ModeSettings(mode).Some?
    ensures ModeSettings(mode).None? ==> !outcome.Completed? && c.movies == old(c.movies)
    ensures outcome.Completed? ==>
              var (endpoint, cap) := ModeSettings(mode).value;
              c.movies == InsertPages(PageInsert(old(c.movies), c.genreMap, fetch(endpoint, 1)), c.genreMap,
                                      Responses(fetch, endpoint, ProbedLimit(fetch, endpoint, cap)))
    ensures outcome.Completed? ==> |c.movies| == |old(c.movies)| + probeNew + outcome.totalNew
    ensures outcome.Completed? ==>
              var (endpoint, _) := ModeSettings(mode).value;
              probeNew == |PageInsert(old(c.movies), c.genreMap, fetch(endpoint, 1))| - |old(c.movies)|
    ensures apiKeySet && (old(c.genreMap) != map[] || genreList.Some?) && ModeSettings(mode).Some? ==>
              !outcome.Aborted?
    ensures outcome.Exited? ==>
              && ModeSettings(mode).Some?
              && var (endpoint, cap) := ModeSettings(mode).value;
                 exists p: nat | 1 <= p <= cap :: fetch(endpoint, p).Unauthorized?
  {
    probeNew := 0;
    var m := Text.LowerStr(mode);
    if !apiKeySet {
      return Aborted, probeNew;
    }
    var ok := c.GetOrFetchGenres(genreList);
    if !ok {
      return Aborted, probeNew;
    }
    var endpoint: string, cap: nat;
    if m == "backfill" {
      endpoint, cap := "popular", 500;
    } else if m == "daily" {
      endpoint, cap := "now_playing", 3;
    } else {
      return Aborted, probeNew;
    }
    var probe := ProcessPage(c, 1, cap, fetch(endpoint, 1));
    if probe.Exit? {
      return Exited, probeNew;
    }
    probeNew := probe.count;
    var limit := PageLimit(probe.totalPages, cap);
    var exited, totalNew := IngestPages(c, endpoint, limit, fetch);
    outcome := if exited then Exited else Completed(totalNew);
  }

  /** The `for page in range(start_page, pages_to_process + 1)` loop of `handle`. */
  method IngestPages(c: Catalogue, endpoint: string, limit: int, fetch: (string, nat) -> PageResponse)
    returns (exited: bool, totalNew: nat)
    requires c.Valid()
    modifies c
    ensures c.Valid() && c.genres == old(c.genres) && c.genreMap == old(c.genreMap)
    ensures !exited ==> c.movies == InsertPages(old(c.movies), c.genreMap, Responses(fetch, endpoint, if limit < 0 then 0 else limit))
    ensures !exited ==> |c.movies| == |old(c.movies)| + totalNew
    ensures exited ==> exists p: nat | 1 <= p <= limit :: fetch(endpoint, p).Unauthorized?
  {
    exited, totalNew := false, 0;
    ghost var start, gm := c.movies, c.genreMap;
    var page := 1;
    ghost var done: nat := 0;
    while page <= limit
      invariant 1 <= page && (limit >= 1 ==> page <= limit + 1)
      invariant limit < 1 ==> page == 1
      invariant done == page - 1
      invariant c.Valid() && c.genres == old(c.genres) && c.genreMap == gm
      invariant c.movies == InsertPages(start, gm, Responses(fetch, endpoint, done))
      invariant |c.movies| == |start| + totalNew
      decreases limit - page
    {
      var result := ProcessPage(c, page, limit, fetch(endpoint, page));
      if result.Exit? {
        return true, totalNew;
      }
      totalNew := totalNew + result.count;
      InsertPagesSnoc(start, gm, Responses(fetch, endpoint, done), fetch(endpoint, page));
      done := page;
      page := page + 1;
    }
  }

  /**
   * The probe does not change where the catalogue ends up: when page 1
   * answers the loop as it answered the probe, a completed run leaves the
   * catalogue exactly as processing pages 1 to the limit once would.
   */
  lemma ProbeAbsorbed(movies: seq<Movie>, genreMap: map<int, nat>, fetch: (string, nat) -> PageResponse,
                      endpoint: string, limit: nat)
    requires limit >= 1
    ensures InsertPages(PageInsert(movies, genreMap, fetch(endpoint, 1)), genreMap, Responses(fetch, endpoint, limit))
            == InsertPages(movies, genreMap, Responses(fetch, endpoint, limit))
  {
    var rs := Responses(fetch, endpoint, limit);
    var first := fetch(endpoint, 1);
    ResponsesAt(fetch, endpoint, limit, 0);
    assert rs == [first] + rs[1..];
    var probed := PageInsert(movies, genreMap, first);
    InsertPagesCons(movies, genreMap, first, rs[1..]);
    InsertPagesCons(probed, genreMap, first, rs[1..]);
    PageInsertIdempotent(movies, genreMap, first);
  }

  /**
   * `handle` with the probe's insertions added to the total: the reported
   * number of new movies is the number of movies the run added.
   */
  method HandleCounted(c: Catalogue, apiKeySet: bool, mode: string, genreList: Option<seq<GenreData>>,
                       fetch: (string, nat) -> PageResponse)
    returns (outcome: RunOutcome)
    requires c.Valid()
    modifies c
    ensures c.Valid()
    ensures !apiKeySet ==>
              outcome == Aborted && c.movies == old(c.movies) && c.genres == old(c.genres) && c.genreMap == old(c.genreMap)
    ensures apiKeySet && old(c.genreMap) != map[] ==> c.genres == old(c.genres) && c.genreMap == old(c.genreMap)
    ensures apiKeySet && old(c.genreMap) == map[] && genreList.None? ==>
              outcome == Aborted && c.movies == old(c.movies) && c.genres == old(c.genres) && c.genreMap == old(c.genreMap)
    ensures apiKeySet && old(c.genreMap) == map[] && genreList.Some? ==>
              (c.genres, c.genreMap) == LoadGenres(old(c.genres), old(c.genreMap), genreList.value)
    ensures ModeSettings(mode).None? ==> !outcome.Completed? && c.movies == old(c.movies)
    ensures outcome.Completed? ==> |c.movies| == |old(c.movies)| + outcome.totalNew
    ensures outcome.Completed? ==> ModeSettings(mode).Some?
    ensures outcome.Completed? ==>
              var (endpoint, cap) := ModeSettings(mode).value;
              c.movies == InsertPages(PageInsert(old(c.movies), c.genreMap, fetch(endpoint, 1)), c.genreMap,
                                      Responses(fetch, endpoint, ProbedLimit(fetch, endpoint, cap)))
    ensures apiKeySet && (old(c.genreMap) != map[] || genreList.Some?) && ModeSettings(mode).Some? ==>
              !outcome.Aborted?
    ensures outcome.Exited? ==>
              && ModeSettings(mode).Some?
              && var (endpoint, cap) := ModeSettings(mode).value;
                 exists p: nat | 1 <= p <= cap :: fetch(endpoint, p).Unauthorized?
  {
    var probeNew;
    outcome, probeNew := Handle(c, apiKeySet, mode, genreList, fetch);
    if outcome.Completed? {
      outcome := Completed(outcome.totalNew + probeNew);
    }
  }

  /**
   * Why the as-written total falls short: the probe already inserted page 1's
   * new movies, so when the loop processes page 1 again (same answer) it
   * inserts nothing, and the probe's count is never added. A page 1 holding
   * one record with a year and a new TMDb id adds one movie and reports none
   * for it.
   */
  lemma ProbeCountLost(movies: seq<Movie>, genreMap: map<int, nat>, r: Record)
    requires !HasTmdbId(movies, r.id) && HasYear(r)
    ensures |InsertAll(movies, genreMap, [r])| == |movies| + 1
    ensures InsertAll(InsertAll(movies, genreMap, [r]), genreMap, [r]) == InsertAll(movies, genreMap, [r])
  {
    assert InsertAll(movies, genreMap, [r]) == InsertOne(movies, genreMap, r);
    InsertAllIdempotent(movies, genreMap, [r]);
  }

  /** The answers of the finding's run: every page holds the one record `r` and reports one page. */
  function OnePageOf(r: Record): (string, nat) -> PageResponse {
    (endpoint: string, page: nat) => Page(Some(1), Some([r]))
  }

  /** "backfill" selects the `popular` endpoint and a cap of 500. */
  lemma BackfillSettings()
    ensures ModeSettings("backfill") == Some(("popular", 500))
  {
    assert Text.LowerStr("backfill") == "backfill";
  }

  /** "daily" selects the `now_playing` endpoint and a cap of 3. */
  lemma DailySettings()
    ensures ModeSettings("daily") == Some(("now_playing", 3))
  {
    assert Text.LowerStr("daily") == "daily";
  }

  /**
   * On an empty catalogue, the probe of `OnePageOf(r)` adds one movie, and the
   * probe followed by the loop over the one page still leaves one movie.
   */
  lemma OnePageRun(r: Record, genreMap: map<int, nat>)
    requires HasYear(r)
    ensures |PageInsert([], genreMap, OnePageOf(r)("now_playing", 1))| == 1
    ensures |InsertPages(PageInsert([], genreMap, OnePageOf(r)("now_playing", 1)), genreMap,
                         Responses(OnePageOf(r), "now_playing", ProbedLimit(OnePageOf(r), "now_playing", 3)))| == 1
  {
    var fetch := OnePageOf(r);
    var first := fetch("now_playing", 1);
    assert ProbedLimit(fetch, "now_playing", 3) == 1;
    assert Responses(fetch, "now_playing", 1) == [] + [first];
    InsertPagesSnoc(PageInsert([], genreMap, first), genreMap, [], first);
    PageInsertIdempotent([], genreMap, first);
    ProbeCountLost([], genreMap, r);
  }

  /**
   * The run of the finding, on a fresh empty catalogue in "daily" mode:
   * every page answers with one dated record and `total_pages` 1. The run
   * as written adds one movie and reports none.
   */
  method ProbeCountLostInRun(r: Record) returns (added: int, reported: int)
    requires HasYear(r)
    ensures added == 1 && reported == 0
  {
    DailySettings();
    var c := new Catalogue([], []);
    var outcome, probeNew := Handle(c, true, "daily", Some([]), OnePageOf(r));
    assert !outcome.Exited? by {
      forall p: nat | 1 <= p <= 3 ensures !OnePageOf(r)("now_playing", p).Unauthorized? { }
    }
    OnePageRun(r, c.genreMap);
    added, reported := |c.movies|, outcome.totalNew;
  }

  /** The same run through the corrected `handle` reports the one movie it adds. */
  method CountedInRun(r: Record) returns (added: int, reported: int)
    requires HasYear(r)
    ensures added == 1 && reported == 1
  {
    DailySettings();
    var c := new Catalogue([], []);
    var outcome := HandleCounted(c, true, "daily", Some([]), OnePageOf(r));
    assert !outcome.Exited? by {
      forall p: nat | 1 <= p <= 3 ensures !OnePageOf(r)("now_playing", p).Unauthorized? { }
    }
    OnePageRun(r, c.genreMap);
    added, reported := |c.movies|, outcome.totalNew;
  }
}
