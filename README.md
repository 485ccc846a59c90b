# haveyouseenit — a verified model of the catalogue and the viewing ledger

haveyouseenit is a Django app. A signed-in user is shown one movie at a time and swipes "seen" or "unseen". The next movie comes from the user's unseen movies, narrowed by an optional genre and an optional person-name query. The pick favours high-revenue movies by a weighted draw over five revenue tiers. A profile page counts the movies a user has seen and the movies they have rated either way. The catalogue is filled from TMDb by three management commands:

- `ingest_tmdb_popular` pages through the popular or now-playing lists;
- `ingest_tmdb_year` pages through TMDb's discover results, year by year from the current year down to 1900;
- `backfill_stats` fetches each movie's details and credits, and rebuilds its revenue, runtime, IMDb id, cast and crew.

An admin hook keeps a friendship edge and its reverse edge in step.

The model has one Dafny module per concern:

| module | file | models |
|---|---|---|
| `Wrappers` | wrappers.dfy | the `Option` type |
| `Text` | text.dfy | Python's `strip`, ASCII `lower`, substring search, `'&'.join`, `split(c)[0]` |
| `Decimal` | decimal.dfy | digit strings and `int(...)` / `str(...)` of a number |
| `Models` | models.dfy | the `Movie`, person and `UserMovieView` rows, `get_decade` and the `__str__` renderings |
| `Views` | views.dfy | tier selection, the unseen set, the GET branch, the profile counts and the swipe ledger (a class) |
| `Redirect` | redirect.dfy | the POST branch's redirect URL, and how the next GET reads the filters back from it |
| `Friendships` | friendship.dfy | `FriendshipAdmin.save_model`, on a table keyed by (from, to) (a class) |
| `Ingest` | ingest.dfy | what both ingest commands share: release-year parsing, record conversion, the page insertion loop and the memoised genre map (the `Catalogue` class) |
| `IngestPopular` | ingest_popular.dfy | `ingest_tmdb_popular`: `_process_page`, mode, page limit and `handle` |
| `IngestYear` | ingest_year.dfy | `ingest_tmdb_year`: `_process_page`, the 500-page cap, the per-year page loop and the year loop |
| `Backfill` | backfill.dfy | `backfill_stats`: the selection, the per-movie transaction and its cast and crew loops (the `Database` class) |

Randomness and HTTP are inputs:

- The tier drawn by `random.choices` is a parameter, and `order_by('?').first()` is an arbitrary element of the set (`:|`).
- Each TMDb answer is a datatype value, and a command receives a function from request to answer. The same request therefore always gets the same answer.
- `sys.exit(1)` is an outcome (`Exit`, `Exited`), not a process exit.

Code that changes state step by step is modelled as methods on classes (`Views.Ledger`, `Friendships.FriendshipTable`, `Ingest.Catalogue`, `Backfill.Database`). Each method is proved against a specification function whose properties are proved as lemmas. The loops of the source are `while` loops with invariants. Each invariant ties the loop's state to a fold over the rest of the list.

Some behaviour of the code as written is worth knowing:

- Both ingest commands raise `HTTPError` for a 429 inside a `try` whose first handler is `except RequestException`. `HTTPError` is a subclass of `RequestException`, so the page is skipped like any other failed request. The "rate limit" branches of both `handle` loops can never be reached. The model follows the code: a 429 page counts nothing and the loop moves on.
- In `ingest_tmdb_year`, when a year's page 1 has no results the bound stays at 500. Pages 2 to 500 are then requested.
- In `backfill_stats`, a 429 prints "Retrying…", sleeps and `continue`s. The `for` loop then takes the next movie, so the movie that was rate-limited is skipped, not retried. `Backfill.Database.BackfillMovie` models this as written.
- The popular command's probe of page 1 inserts movies, but its count is thrown away (see Findings).

## Model

| member | source | states |
|---|---|---|
| Views.TierOf | tracker/views.py:17-21 | each revenue lies in exactly one tier; tentpole iff revenue ≥ 300,000,000, micro iff < 1,000,000 |
| Views.BoundaryGoesUp | tracker/views.py:28-31 | each boundary value falls in the higher of the two tiers it separates, and is that tier's lower bound |
| Views.WeightsTable | tracker/views.py:22-25 | the weights, in tier order, are 45, 30, 15, 7, 3 and sum to 100 |
| Views.WeightedRandomMovie | tracker/views.py:15-32 | an empty candidate set gives None; a returned movie is a candidate in the chosen tier; None only when no candidate is in that tier |
| Views.UnseenMovies | tracker/views.py:81-95 | the unseen set holds exactly the catalogue movies the user has no record for, in the genre when one is given, with a person name containing the stripped query (ASCII case-insensitively) when it is non-empty |
| Views.FiltersOnlyNarrow | tracker/views.py:87-95 | the genre and person filters only remove movies from the unfiltered unseen set |
| Views.BlankQueryIgnored | tracker/views.py:85-89 | an all-whitespace person query filters nothing |
| Views.NextMovie | tracker/views.py:97-114 | a movie is displayed iff the filtered unseen set is non-empty, and it is in that set; it is from the drawn tier whenever that tier has a candidate; `no_movies_left` iff no movie; the seen count is shown |
| Views.ProfileCounts | tracker/views.py:124-132 | seen count ≤ rated count, and the rated count is 0 iff the user has rated nothing |
| Views.SeenAtMostRated | tracker/views.py:125-126 | the seen count never exceeds the rated count |
| Views.RatedCountZero | tracker/views.py:126 | the rated count is 0 exactly when the user has no record |
| Views.RatedCountAppend | tracker/views.py:126 | appending a record raises the owner's rated count by one and no one else's |
| Views.RatedCountIsDistinctMovies | tracker/views.py:126 | under the (user, movie) uniqueness, the rated count is the number of distinct movies rated |
| Views.RatedNeverUnseen | tracker/views.py:81-82 | a movie the user has a record for is never in their unseen set |
| Views.PostedHasSeen | tracker/views.py:47 | `has_seen` is true exactly when the posted value is the text "True" |
| Views.Ledger.Find | tracker/views.py:54-58 | the lookup half of get-or-create: the index of the user's record for the movie, or None when there is none |
| Views.Ledger.Swipe | tracker/views.py:44-61 | unknown movie: 404 and nothing changes; otherwise a record is appended iff none exists for (user, movie), an existing one is never changed, the (user, movie) pairs stay unique, and `last_activity` becomes now |
| Redirect.BuildRedirect | tracker/views.py:66-76 | the `params` loop and join give `RedirectUrl`: the base alone with no filters, otherwise base + '?' + the parameters |
| Redirect.JoinedParams | tracker/views.py:70-76 | for each combination of filters, '?' + the '&'-join of the `params` list is `QuerySuffix`: `genre=…` before `person_query=…`, each present only when non-empty; no filters give the empty suffix |
| Redirect.RedirectKeepsPlainFilters | tracker/views.py:66-85 | the filters the next GET reads back from the redirect equal the posted ones when their texts hold none of '&', '#', '+', '%' |
| Redirect.AmpersandSplitsPersonQuery | tracker/views.py:73-76 | as written, a person query `a&b` is read back as `a` (Finding) |
| Redirect.AmpersandExample | tracker/views.py:73-76 | the person query "A&B" redirected to "/" is read back as "A" (Finding) |
| Redirect.QuoteRoundTrip | tracker/views.py:72-74 | percent-decoding undoes percent-encoding |
| Redirect.EncodedRedirectKeepsFilters | tracker/views.py:66-85 | with the texts percent-encoded, every pair of filters is read back unchanged (corrected redirect) |
| Text.StripIdempotent | tracker/views.py:69 | stripping a stripped text changes nothing |
| Text.StripAllSpace | tracker/views.py:85 | a text of whitespace strips to the empty text |
| Models.NewMovie | tracker/models.py:47-62 | a new movie has revenue 0, no runtime, no IMDb id, no genres, cast or crew |
| Models.Decade | tracker/models.py:68-70 | the decade is a multiple of ten with decade ≤ year < decade + 10 |
| Models.DecadeIdempotent | tracker/models.py:68-70 | the decade of a decade year is itself |
| Models.DecadeUnique | tracker/models.py:68-70 | the decade is the only multiple of ten in the ten years up to the year |
| Models.MovieLabelShowsYear | tracker/models.py:65-66 | two movies with the same title and label have the same release year |
| Models.NewViewRecord | tracker/models.py:72-80 | a new record is for the given user and movie, stamped now, and `has_seen` defaults to False |
| Models.ViewLabelShowsStatus | tracker/models.py:86-88 | a record's label ends in "(Seen)" exactly when it says seen |
| Friendships.Mirror | tracker/admin.py:104-105 | the reverse edge takes the saved status and accepted time and keeps its users and creation time |
| Friendships.AfterSave | tracker/admin.py:96-108 | the saved edge is stored; on a change the existing reverse edge gets its status and accepted time; no edge is created for a missing reverse; on an add the reverse is untouched; every other edge is unchanged |
| Friendships.SaveKeepsKeyed | tracker/admin.py:96-108 | every edge stays stored under its own (from, to) key |
| Friendships.SaveIdempotent | tracker/admin.py:96-108 | saving the same edge twice gives the table of saving it once |
| Friendships.FriendshipTable.SaveModel | tracker/admin.py:96-108 | the in-place save leaves the table equal to `AfterSave` of the old table |
| Ingest.ReleaseYear | tracker/management/commands/ingest_tmdb_popular.py:113-114 | a year is only found in a non-empty date |
| Ingest.ReleaseYearRoundTrip | tracker/management/commands/ingest_tmdb_popular.py:113-114 | the digits of a year, alone or before '-', parse back to that year |
| Ingest.ReleaseYearNeedsDigit | tracker/management/commands/ingest_tmdb_popular.py:113-117 | an empty date, or one not starting with a digit, has no year |
| Ingest.PosterUrl | tracker/management/commands/ingest_tmdb_popular.py:124 | a poster URL exists iff the path is non-empty, and it starts with the w500 image base |
| Ingest.InsertAll | tracker/management/commands/ingest_tmdb_popular.py:104-133 | inserting a page only appends to the catalogue |
| Ingest.InsertAllDistinct | tracker/management/commands/ingest_tmdb_popular.py:109-110 | TMDb ids stay unique, even when a page repeats an id |
| Ingest.InsertAllCreated | tracker/management/commands/ingest_tmdb_popular.py:116-131 | every appended movie is the conversion of a page record with a year and a TMDb id absent before (its genres are the mapped known ids) |
| Ingest.InsertAllCovers | tracker/management/commands/ingest_tmdb_popular.py:104-133 | after the page, every record with a year has a movie with its TMDb id |
| Ingest.InsertAllNothingNew | tracker/management/commands/ingest_tmdb_popular.py:109-117 | a page whose dated records are all present adds nothing |
| Ingest.InsertAllIdempotent | tracker/management/commands/ingest_tmdb_popular.py:104-133 | processing the same page twice adds nothing the second time |
| Ingest.AddName | tracker/management/commands/ingest_tmdb_popular.py:51-53 | `get_or_create(name=…)` on the Genre table: the name is present afterwards, existing rows are kept, names stay unique |
| Ingest.LoadGenresGrows | tracker/management/commands/ingest_tmdb_popular.py:49-54 | the genre-list loop only appends Genre rows, keeps names unique and keeps the map pointing at rows |
| Ingest.LoadGenresNames | tracker/management/commands/ingest_tmdb_popular.py:50-53 | every listed genre name has a row afterwards |
| Ingest.LoadGenresKeys | tracker/management/commands/ingest_tmdb_popular.py:50-54 | the map gains exactly the listed TMDb ids and keeps every other entry |
| Ingest.LoadGenresLastWins | tracker/management/commands/ingest_tmdb_popular.py:54 | a listed id maps to the row of its last name in the list |
| Ingest.Catalogue.GetOrCreateGenre | tracker/management/commands/ingest_tmdb_popular.py:51-53 | the method's loop gives `AddName` and returns the row's index |
| Ingest.Catalogue.GetOrFetchGenres | tracker/management/commands/ingest_tmdb_popular.py:33-58 | a non-empty map is reused unchanged; a failed fetch of an empty map returns False; otherwise the list is loaded |
| Ingest.Catalogue.LoadGenreList | tracker/management/commands/ingest_tmdb_popular.py:49-54 | the loop leaves the Genre rows and the map equal to `LoadGenres` |
| Ingest.Catalogue.LoadEntry | tracker/management/commands/ingest_tmdb_popular.py:50-54 | one turn of the genre loop: the fold over the rest of the list continues from the new Genre rows and map, and the constraints hold |
| Ingest.Catalogue.InsertResults | tracker/management/commands/ingest_tmdb_popular.py:102-139 | the loop leaves the catalogue equal to `InsertAll`, and the count returned is the number of movies added |
| Ingest.Catalogue.InsertRecord | tracker/management/commands/ingest_tmdb_popular.py:105-133 | one record: added iff its TMDb id is new and it has a year; the catalogue becomes `InsertOne` |
| Ingest.Catalogue.LinkGenres | tracker/management/commands/ingest_tmdb_popular.py:128-131 | the linked genres are exactly the mapped known ids; unknown ids are dropped |
| IngestPopular.ProcessPage | tracker/management/commands/ingest_tmdb_popular.py:60-143 | exit iff 401/403; a 429 or failed request gives (0, False, 0); success iff results are non-empty; the total is read only on page 1; the count is the number of movies inserted |
| IngestPopular.ModeSettings | tracker/management/commands/ingest_tmdb_popular.py:158-170 | every mode that does not abort has a positive page cap; the two rows of the table are stated by `BackfillSettings` and `DailySettings` |
| IngestPopular.BackfillSettings | tracker/management/commands/ingest_tmdb_popular.py:158-162 | "backfill" selects the `popular` endpoint with a cap of 500 |
| IngestPopular.DailySettings | tracker/management/commands/ingest_tmdb_popular.py:163-167 | "daily" selects the `now_playing` endpoint with a cap of 3 |
| IngestPopular.ModeIgnoresCase | tracker/management/commands/ingest_tmdb_popular.py:147 | the mode is compared in lower case |
| IngestPopular.PageLimit | tracker/management/commands/ingest_tmdb_popular.py:181 | the limit is `actual` when 0 < actual ≤ cap, and the cap otherwise |
| IngestPopular.Handle | tracker/management/commands/ingest_tmdb_popular.py:146-221 | aborts without a key, without genres, or on a bad mode; the genre rows and map are loaded from the fetched list when the map was empty and kept otherwise; a completed run leaves the catalogue as `InsertPages` gives for the probe of page 1 followed by pages 1 to the limit the probe reported; the catalogue grows by the probe's count plus the reported total, where the probe's count is what processing page 1 adds to the old catalogue and is left out of the reported total; a run with a key, genres and a valid mode is not aborted, and it exits only when some page up to the cap answers 401/403 |
| IngestPopular.IngestPages | tracker/management/commands/ingest_tmdb_popular.py:188-196 | unless a page exits, pages 1 to the limit are processed in order: the catalogue becomes their `InsertPages` fold, and the sum of counts is the number of movies added |
| IngestPopular.ProbeAbsorbed | tracker/management/commands/ingest_tmdb_popular.py:178-191 | when page 1 answers the loop as it answered the probe, the probe does not change where the catalogue ends up |
| IngestPopular.HandleCounted | tracker/management/commands/ingest_tmdb_popular.py:146-221 | corrected: the reported total is the number of movies the run added; the key, genre-table, mode, catalogue, abort and exit clauses are those of `Handle` |
| Ingest.ResponsesAt | tracker/management/commands/ingest_tmdb_year.py:131-146 | the answers a page loop folds over are those to pages 1, 2, ..., in order |
| Ingest.InsertPagesDistinct | tracker/management/commands/ingest_tmdb_popular.py:107-109 | however many pages are processed, no two movies share a TMDb id |
| Ingest.InsertPagesCons | tracker/management/commands/ingest_tmdb_popular.py:188-191 | folding over pages is processing the first page, then folding over the rest |
| Ingest.PageInsertIdempotent | tracker/management/commands/ingest_tmdb_popular.py:107-109 | processing the same page a second time adds nothing |
| IngestPopular.ProbeCountLost | tracker/management/commands/ingest_tmdb_popular.py:178-195 | a page-1 record inserted by the probe adds one movie, and processing page 1 again adds none |
| IngestPopular.OnePageRun | tracker/management/commands/ingest_tmdb_popular.py:178-191 | on an empty catalogue, with every page holding one dated record and reporting one page, the probe adds one movie and the whole run leaves one movie |
| IngestPopular.ProbeCountLostInRun | tracker/management/commands/ingest_tmdb_popular.py:146-221 | on an empty catalogue in "daily" mode with one dated record on a one-page answer, `handle` as written adds one movie and reports 0 |
| IngestPopular.CountedInRun | tracker/management/commands/ingest_tmdb_popular.py:146-221 | the same run through the corrected `handle` adds one movie and reports 1 |
| IngestYear.CappedTotal | tracker/management/commands/ingest_tmdb_year.py:70-73 | a page's total is 0 without results; otherwise it is at most both 500 and the reported total, and equal to one of them: the smaller, with a negative total kept |
| IngestYear.ProcessPage | tracker/management/commands/ingest_tmdb_year.py:50-107 | exit iff 401/403; 429, other failures and empty results give (0, 0); otherwise the page is inserted and the capped total returned |
| IngestYear.YearBound | tracker/management/commands/ingest_tmdb_year.py:131-142 | the bound is page 1's positive capped total, else 500 |
| IngestYear.IngestOneYear | tracker/management/commands/ingest_tmdb_year.py:131-148 | unless a page exits, the catalogue becomes the `InsertPages` fold over the answers to pages 1 to `YearBound(page 1)`, in order; the genre map is untouched; the count is the number of movies added; it stops early only when some page up to that bound answers 401/403 |
| IngestYear.IngestYears | tracker/management/commands/ingest_tmdb_year.py:123-148 | unless a page exits, the catalogue becomes `InsertYears` from the current year down to 1900, newest first; the total is the number of movies added; it stops early only when some page (at most 500) of some year from 1900 to the current one answers 401/403 |
| IngestYear.InsertYearsStep | tracker/management/commands/ingest_tmdb_year.py:123-126 | ingesting down to year y is ingesting down to y + 1, then year y's pages |
| IngestYear.Handle | tracker/management/commands/ingest_tmdb_year.py:110-164 | aborts exactly without a key or without genres; the genre rows and map are loaded from the fetched list when the map was empty and kept otherwise; a completed run leaves the catalogue as `InsertYears` from the current year down to 1900 gives; the total is the number of movies added; it exits only when some page (at most 500) of some year from 1900 to the current one answers 401/403 |
| Backfill.GetOrCreate | tracker/management/commands/backfill_stats.py:89-92 | an existing person keeps their row and name; a new one takes the credit's name; it fails iff the TMDb id is new and the name is taken; names stay unique |
| Backfill.FirstCast | tracker/management/commands/backfill_stats.py:88 | the first min(25, n) cast entries |
| Backfill.ImdbOf | tracker/management/commands/backfill_stats.py:73-74 | a missing or empty IMDb id is stored as null; any other is kept |
| Backfill.ResultOf | tracker/management/commands/backfill_stats.py:126-140 | "updated" exactly when the transaction commits; an integrity error exactly when a fetched answer rolls back |
| Backfill.RebuildIsRescan | tracker/management/commands/backfill_stats.py:69-124 | a committed movie has the answer's revenue (0 when absent), runtime and IMDb id, and relations that depend only on the credits; each person table keeps its rows and gains exactly the credited people |
| Backfill.RescannedCast | tracker/management/commands/backfill_stats.py:88-98 | the cast is the first 25 entries, in order, credited at positions 0 to 24 |
| Backfill.CastFoldRoles | tracker/management/commands/backfill_stats.py:88-98 | the cast loop appends one credit per entry, numbered by position |
| Backfill.CrewFoldRole | tracker/management/commands/backfill_stats.py:100-124 | the crew loop adds to each relation exactly the ids whose job is that relation's: Director, Producer, Director of Photography or Cinematographer |
| Backfill.RebuildIdempotent | tracker/management/commands/backfill_stats.py:69-124 | rescanning a movie with the same answer changes nothing |
| Backfill.BackfilledConsistent | tracker/management/commands/backfill_stats.py:69-124 | a commit keeps IMDb ids unique, person names unique, and every credited person present |
| Backfill.Transaction | tracker/management/commands/backfill_stats.py:69-124 | the transaction's steps give `Backfilled`: None on a taken IMDb id or a taken name |
| Backfill.CastLoop | tracker/management/commands/backfill_stats.py:88-98 | the cast loop gives the cast fold |
| Backfill.CrewLoop | tracker/management/commands/backfill_stats.py:100-124 | the crew loop, with its three independent job checks, gives the crew fold |
| Backfill.Database.BackfillMovie | tracker/management/commands/backfill_stats.py:63-140 | a commit replaces only movie i and the people; any error (404, 429, other HTTP, integrity, other) leaves every row as it was; the constraints hold |
| Backfill.Database.BackfillEach | tracker/management/commands/backfill_stats.py:60-62 | the loop over the selected movies leaves the rows equal to `BackfillAll`, and its results are `BackfillResults`: each movie's `ResultOf` against the rows as the earlier movies left them |
| Backfill.Database.BackfillNext | tracker/management/commands/backfill_stats.py:61-66 | one turn of the loop: the head movie's result is its `ResultOf` for the answer fetched by its TMDb id; the rows and results of the run over the rest continue from the new rows |
| Backfill.Database.Handle | tracker/management/commands/backfill_stats.py:41-62 | nothing happens without a key; otherwise the selected movies are backfilled in turn, the rows as `BackfillAll` states and the results as `BackfillResults` states |
| Backfill.NoUpdateNoChange | tracker/management/commands/backfill_stats.py:60-140 | a run in which no movie reports "updated" leaves every row as it was |
| Backfill.SelectFrom | tracker/management/commands/backfill_stats.py:46-50 | all movies with `--rescan-all`, otherwise exactly those with no actors, each once; the model fixes index order, where the source leaves the order unspecified |
| Backfill.SelectsUncredited | tracker/management/commands/backfill_stats.py:50 | without `--rescan-all`, a movie is selected iff it has no cast credit |
| Backfill.BackfillAllFrame | tracker/management/commands/backfill_stats.py:46-62 | a movie that is not selected keeps its row |
| Backfill.KeepsCreditedMovies | tracker/management/commands/backfill_stats.py:50 | without `--rescan-all`, a movie with actors keeps its row |

## Left out

- HTTP, JSON decoding, `time.sleep`, `tqdm` and the console messages are not modelled; answers are inputs and the messages are outcome values.
- The request URLs and the API key are not modelled. The key is a boolean "set or not"; an endpoint is its name ("popular", "now_playing").
- A TMDb answer is a function of its request: a repeated request gets the same answer. Answers that change between two requests are not modelled.
- The HTTP-error branches of both ingest `handle` loops are not modelled, because no exception reaches them (a 429 is caught inside `_process_page`).
- In both ingest commands, the per-record `except Exception` inside the insertion loop is not modelled. Neither is the `DatabaseError` exit. Both are database failures with no counterpart in an in-memory table.
- A JSON `null` in a field the code reads with `.get(key, default)` is not modelled.
- Some fields are assumed always present; their failures are not modelled:
  - Every TMDb record has a title. The ingest commands read it with `.get('title')`, and a missing title would fail the non-null `title` column.
  - Every cast and crew entry has an `id` and a `name`. The backfill reads them with `['id']` and `['name']`; a missing key raises `KeyError`, which lands in the general-error branch.
  - Every genre entry has an `id` and a `name`.
- A TMDb record without an `id` is not modelled (the model's records always have one).
- `str.isdigit` accepts non-ASCII digits; the model accepts only '0'–'9'. `strip`, `lower` and `icontains` are modelled on ASCII whitespace and letters.
- `unquote_plus` is modelled for ASCII escapes (`%00`–`%7F`); multi-byte UTF-8 escapes are not.
- The class-level `tmdb_genre_map` is shared by every command instance in one process; the model keeps one map per `Catalogue`.
- The Genre rows are names in table order, and a row's index is its primary key.
- Transactions and concurrent requests are not modelled. The swipe's `IntegrityError` race and the `transaction.atomic` blocks of the ingest commands are left out, and every operation runs alone.
- `MovieCastCredit`, `InviteCode` and `Friendship` are not defined in tracker/models.py, so their exact columns and constraints are not part of this model. With that models.py, the import of `MovieCastCredit` in backfill_stats.py:8 raises `ImportError`, so the command as given cannot load; the model assumes a through table of (movie, actor, order), and a cast credit is (actor TMDb id, order). A friendship's status is free text. Duplicate credits of one actor in one movie are allowed.
- Changing a friendship's users in the admin (which changes its key) is not modelled: the edge is stored under its new key and the old key is left as it was.
- The person tables' `imdb_id` column is never written by the commands and is not modelled.
- The order in which the backfill visits the selected movies is not modelled. `Movie.objects.all()` and `filter(actors__isnull=True)` (backfill_stats.py:48,50) have no `order_by`, and `Movie` has no default ordering, so the order is unspecified; the model visits them in index order. When two selected movies clash on an IMDb id or on a new person's name, whichever comes second rolls back, so the final rows depend on that order.
- A person row without a TMDb id is not modelled: the person tables' `tmdb_id` is nullable (models.py:15,23,31,39), but the model keys people by an integer id. Such a row's name would still make `get_or_create` raise `IntegrityError` (backfill_stats.py:89-92,106-123).
- A non-numeric `genre` parameter is not modelled: `filter(genre__id=genre_id)` and `int(genre_id)` (views.py:88,107) raise `ValueError` on it, while the model takes the genre as an optional number.
- The database column limits are not modelled; on PostgreSQL an out-of-range value raises `DataError`. The limits are:
  - 32-bit `release_year`, `runtime_minutes` and `tmdb_id`;
  - 64-bit `revenue`;
  - at most 255 characters of `title`;
  - at most 15 characters of a movie's `imdb_id`.
  The model's integers and strings are unbounded.
- `Views.WeightedRandomMovie`: states which movies may be returned, not the 45:30:15:7:3 distribution of the draw.
- `IngestPopular.Handle`: after an `Exited` outcome it states only the genre tables and the invariants, not which pages were inserted before the exit.
- `Backfill.Database.BackfillMovie`: a 429 always skips to the next movie. In the source, the handler first runs `int(e.response.headers.get('Retry-After', 5))` (backfill_stats.py:130). A `Retry-After` given as an HTTP date, which HTTP allows, makes that raise `ValueError` out of the loop and stops the command; the remaining movies are never processed. The model has no such header.
- `Views.Ledger.Swipe`: the movie id is a number. In the source, `get_object_or_404(Movie, id=movie_id)` (views.py:45,51) with a non-numeric `movie_id` raises `ValueError` (a server error) rather than a 404; the model cannot express that request.
- `IngestYear.Handle`: after an `Exited` outcome it states only the genre tables and the invariants, not which pages were inserted before the exit.

## Findings

| source | as written | input that shows it | evidently intended | confidence | as-written member | corrected member |
|---|---|---|---|---|---|---|
| tracker/views.py:73-76 | the person query and genre are put in the redirect URL without percent-encoding | person query "A&B": the next GET reads `person_query` as "A" (and "B" becomes an empty field of its own) | the filters survive the swipe unchanged, so each value is encoded (`urlencode`) | not executed | Redirect.AmpersandSplitsPersonQuery | Redirect.EncodedRedirectKeepsFilters |
| tracker/management/commands/ingest_tmdb_popular.py:178-196 | the probe `_process_page` call on page 1 inserts that page's new movies, but its count is discarded (`_, _, actual_total_pages`); the loop then processes page 1 again and finds them all present | an empty catalogue and a page 1 with one dated record: one movie is added and "Total new movies added: 0" is reported | the reported total is the number of movies added by the run | not executed | IngestPopular.ProbeCountLostInRun | IngestPopular.HandleCounted |
