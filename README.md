# Healthcare news scraper pipeline, modelled in Dafny

This project models the core of the healthcare news scraper pipeline:

- **One pipeline run** (`run_once`). It initialises the store and calls the scrape function with bounded retries and linear backoff. It then derives the run status (`success`, `partial` or `failure`) and persists the run, its products and their snapshots. Last, it returns a `RunSummary`.
- **The default scrape function** (`_run_scrape`): the strategy check, the keyword filter and the record limit.
- **The retry policy** (`is_transient_error`, `backoff_seconds`).
- **The keyword filter** (`filter_articles_by_keyword`).
- **The two parsers' record shaping.**
  - The web scraper's anchor, date and category heuristics, its `/news/` link test and its `(title, url)` deduplication.
  - The newsletter parser's link guards, its ignore tokens and its deduplication.
- **The SQLite store** (`SQLiteEventStore`). The three tables are held in memory. `persist_run` is one all-or-nothing transaction. The schema's constraints (the status `CHECK`, the unique `canonical_key`, the `(run_id, product_id)` key and the foreign keys) form an invariant that every operation is proved to keep.

Modules follow the source: `Scheduler`, `Filters`, `Scraper`, `Newsletter`, `Storage` and `Runner`.

The supporting modules are:

- `Wrappers`: `Option` and `Result`.
- `Models`: article records.
- `Exceptions`: the exception hierarchy and `isinstance`.
- `Config`: `PipelineConfig` and its defaults.
- `Strings`: Python's `str.strip`, `str.lower`, `str.split`, `" ".join` and substring `in`.
- `Keyed`: an insertion-ordered `dict` keyed by a function of its values.
- `Collecting`: the walk both parsers make over their links. It appends the value each link yields, skips the links that yield none, and relates the list it builds to the positions of the yielding links.

The store is a class, `Storage.EventStore`, whose methods update its fields. Each method is proved equal to a function on the `Storage.Db` value (`Persist`, `Upsert`, `LatestRun`, `RowCount`), and the lemmas are about those functions. The same holds for `Runner.RunOnce` and `Runner.RunOnceSpec`. The retry loop, `persist_run`'s event loop, and the parsers' collection loops are `while`/`for` loops with invariants.

Three facts about the code shape the store's model:

- **Storage errors.** `StorageError` is declared in `exceptions.py` but nothing raises it. SQLite's own error reaches the caller, for example from `persist_run` on a file with no schema, or for a status that fails the `CHECK`. The model raises `SqliteError`.
- **Url backfill.** The upsert writes `COALESCE(excluded.url, products.url)`, which prefers the new url. `Storage.CoalesceKeepsUrl` proves that a stored url never changes: the canonical key determines the url.
- **Snapshot count.** A run stores one snapshot per distinct canonical key. The snapshot insert is `INSERT OR REPLACE` on `(run_id, product_id)`, so a later event with the same key replaces the earlier one. `Storage.PersistRowCounts` and `Storage.SameKeyInOneCall` state this count.

The source passes records under names that do not line up: `run_once` calls `persist_run(articles=...)` while the store takes `events`, and `PartialScrapeError` keeps `partial_articles`. The model follows the evident data flow: the list the loop ends with is the list persisted.

## Model

| member | source | states |
|---|---|---|
| Scheduler.TransientErrorClasses | src/healthcare_news_scraper/scheduler.py:17-18 | an exception is transient exactly when its class is `ScraperNetworkError` or its subclass `ScraperTimeoutError`; no other class of the hierarchy is |
| Scheduler.TransientErrorClassifier | tests/test_scheduler_unit.py:64-66 | `ScraperNetworkError("timeout")` is transient and `ValueError("bad")` is not |
| Scheduler.BackoffSeconds | src/healthcare_news_scraper/scheduler.py:21-22 | the delay is never negative; it is `base * attempt` for a non-negative base and an attempt of at least 1, and zero for a non-positive base |
| Scheduler.BackoffClampsAttempt | src/healthcare_news_scraper/scheduler.py:21-22 | an attempt number of zero or below waits as long as the first attempt |
| Scheduler.BackoffMonotone | src/healthcare_news_scraper/scheduler.py:21-22 | for a fixed base the delay never shrinks as the attempt number grows |
| Scheduler.BackoffExamples | src/healthcare_news_scraper/scheduler.py:21-22 | base 5 gives 5 s after attempt 1 and 15 s after attempt 3; base -1 gives 0 |
| Filters.FilterMeaning | src/healthcare_news_scraper/filters.py:6-13 | the result is an order-preserving subsequence of the input, no longer than it; every article kept has the lower-cased, stripped keyword in its title or category; an input article is kept if and only if it matches; a matching article is kept as many times as it occurs, and no other article at all |
| Filters.KeepMatchingMeaning | src/healthcare_news_scraper/filters.py:13 | the comprehension keeps, in order, exactly the articles whose title or category holds the needle, each matching one as many times as it occurs |
| Filters.KeepMatchingCount | src/healthcare_news_scraper/filters.py:13 | an article occurs in the result as often as in the input when it matches, and not at all otherwise |
| Filters.KeepMatchingMultiset | src/healthcare_news_scraper/filters.py:13 | the result's multiset is the input's restricted to the matching articles |
| Filters.BlankKeywordKeepsAll | src/healthcare_news_scraper/filters.py:10-12 | an empty or whitespace-only keyword returns the input list unchanged |
| Filters.FilterIdempotent | src/healthcare_news_scraper/filters.py:6-13 | filtering twice with the same keyword gives the same list as filtering once |
| Filters.KeepMatchingIdempotent | src/healthcare_news_scraper/filters.py:13 | the comprehension applied to its own output changes nothing |
| Filters.FilterIgnoresCase | src/healthcare_news_scraper/filters.py:10 | keywords equal up to letter case select the same articles |
| Filters.CategorisedResearch | src/healthcare_news_scraper/filters.py:10-13 | `research` is its own needle, and an article categorised `research` matches it |
| Filters.NoResearchWithout | src/healthcare_news_scraper/filters.py:13 | an article whose title and category both lack some letter of `research`, in either case, does not match it |
| Filters.KeepFirstOfThree | src/healthcare_news_scraper/filters.py:6-13 | of three articles of which only the first matches a non-blank keyword, the filter returns just the first |
| Filters.MatchesTitleAndCategory | tests/test_filter_unit.py:4-13 | filtering the three test articles by `research` returns one article, titled "New Research on Cancer Treatment" |
| Filters.OtherArticleIsNotResearch | tests/test_filter_unit.py:4-13 | neither "Product Meetup" (category `general`) nor "Policy Update" (category `policy`) matches `research` |
| Filters.EmptyKeywordReturnsAll | tests/test_filter_unit.py:16-18 | the empty keyword returns the list as it is |
| Keyed.FirstKeys | src/healthcare_news_scraper/scraper.py:153-156 | the dict's keys: each key of the input exactly once, ordered by first occurrence |
| Keyed.Latest | src/healthcare_news_scraper/scraper.py:153-156 | the dict binds each key of the input to the last value seen with that key |
| Keyed.DictValuesMeaning | src/healthcare_news_scraper/scraper.py:153-158 | `dict.values()` after the fill loop: no longer than the input, one value per key with no key lost, each the last one with its key, in first-occurrence order of the keys |
| Keyed.FillDict | src/healthcare_news_scraper/scraper.py:153-156 | the loop that fills the dict and reads back its values computes `DictValues` |
| Keyed.DictValuesFromList | src/healthcare_news_scraper/scraper.py:153-158 | every value left in the dict is one of the input's |
| Keyed.DictValuesKeepKey | src/healthcare_news_scraper/scraper.py:153-158 | the key of every input value is the key of some value left in the dict |
| Collecting.PickedMeaning | src/healthcare_news_scraper/scraper.py:147-151 | the `k`-th value collected is the one the `k`-th yielding item gives; the yielding positions strictly increase, and a position is among them exactly when its item yields a value: nothing is dropped, nothing is added, and the input order is kept |
| Collecting.PickedComplete | src/healthcare_news_scraper/newsletter_parser.py:27-45 | every value an item yields is in the collected list |
| Collecting.TitleUrlDictKeeps | src/healthcare_news_scraper/newsletter_parser.py:47-48 | after the `(title, url)` dict, every article of the list still has its `(title, url)` present |
| Keyed.RepeatedValueCollapses | src/healthcare_news_scraper/newsletter_parser.py:47 | a value repeated twice leaves one entry |
| Scraper.ExtractCategory | src/healthcare_news_scraper/scraper.py:72-79 | never empty; `general` for blank text; otherwise the first category in declared order with a keyword in the normalised lower-cased text, and `general` exactly when no category matches |
| Scraper.FirstCategory | src/healthcare_news_scraper/scraper.py:75-79 | the category returned is the first matching one from the given position on, and `general` when none matches |
| Scraper.ExtractDate | src/healthcare_news_scraper/scraper.py:81-87 | the result is either empty or the whitespace-normalised text, and non-empty exactly when that text holds a date token |
| Scraper.ExtractAnchor | src/healthcare_news_scraper/scraper.py:89-98 | a pair exists exactly when the element has a link whose text and href are both non-blank; the pair is the stripped text and href |
| Scraper.DateFromTableRow | src/healthcare_news_scraper/scraper.py:100-103 | no date for a row with no cells; otherwise the date of the stripped first cell |
| Scraper.CategoryFromTableRow | src/healthcare_news_scraper/scraper.py:105-108 | never empty; `general` for at most one cell; otherwise the category of the stripped last cell |
| Scraper.DateAndCategory | src/healthcare_news_scraper/scraper.py:110-124 | a `tr` row's category comes from its cells, and so does its date when the first cell has one; otherwise, and for every other element, the fields come from the element's whole text; the category is never empty |
| Scraper.ExtractArticle | src/healthcare_news_scraper/scraper.py:126-134 | an article exists exactly when the anchor does; it carries the anchor's title, the resolved href, the element's date and category, and source `healthcare_web` |
| Scraper.CollectArticles | src/healthcare_news_scraper/scraper.py:147-151 | the collected list is no longer than the links and holds only titled web articles |
| Scraper.CollectedFromNewsLinks | src/healthcare_news_scraper/scraper.py:136-151 | every collected article is the one some `/news/` link's element yields |
| Scraper.CollectArticlesPicked | src/healthcare_news_scraper/scraper.py:147-151 | the first loop is the collecting walk whose value for a link is its element's article when the link is a `/news/` link |
| Scraper.CollectedAllNewsLinks | src/healthcare_news_scraper/scraper.py:136-151 | the `k`-th article collected is the one the `k`-th yielding link gives; the yielding links are in document order; a link is among them exactly when it is a `/news/` link whose element yields an article; and every such article is collected |
| Scraper.DictsKeepNewsLinks | src/healthcare_news_scraper/scraper.py:153-158 | a dict that keeps every collected `(title, url)` has one for each news link yielding an article |
| Scraper.DictsFromNewsLinks | src/healthcare_news_scraper/scraper.py:153-158 | every dict left is the dict of the article some news link yields |
| Scraper.CollectCandidates | src/healthcare_news_scraper/scraper.py:136-151 | the loop over the candidate elements builds `CollectArticles` |
| Scraper.DedupShape | src/healthcare_news_scraper/scraper.py:153-158 | the deduplicated articles are empty for no input, stay web articles, and have pairwise distinct `(title, url)` |
| Scraper.ParseArticles | src/healthcare_news_scraper/scraper.py:144-158 | the result is the dicts of the deduplicated collected articles: empty for no links, each titled and web-sourced, pairwise distinct in `(title, url)`; every `/news/` link whose element yields an article has its `(title, url)` among the results, and every result is the dict of such an article |
| Scraper.AnchorTitleAndHref | tests/test_scraper_unit.py:52-56 | `<div><a href='/news/x'>Title</a></div>` yields `("Title", "/news/x")` |
| Scraper.AnchorBlankTitle | tests/test_scraper_unit.py:45-49 | a link with blank text yields no anchor |
| Scraper.AnchorMissing | tests/test_scraper_unit.py:38-42 | an element with no link yields no anchor |
| Scraper.DateOfNormalText | src/healthcare_news_scraper/scraper.py:81-87 | normalised text holding a date token is its own date |
| Scraper.ResearchOfNormalText | src/healthcare_news_scraper/scraper.py:72-79 | normalised lower-case text holding a `research` keyword has category `research` |
| Scraper.DateCell | src/healthcare_news_scraper/scraper.py:81-87 | a cell of space-joined words holding a date token is its own date after stripping |
| Scraper.ResearchCell | src/healthcare_news_scraper/scraper.py:72-79 | a two-word, lower-case cell holding a `research` keyword has category `research` |
| Scraper.DateFromFirstCell | tests/test_scraper_unit.py:59-64 | the row `Mon Jan 6 / Article` has date `Mon Jan 6` |
| Scraper.CategoryFromLastCell | tests/test_scraper_unit.py:67-73 | the row ending in `research study` has category `research` |
| Scraper.PrefersTableRow | tests/test_scraper_unit.py:76-82 | the test row yields date `Thu Feb 06` and category `research` from its own cells |
| Newsletter.StrippedText | src/healthcare_news_scraper/newsletter_parser.py:28 | the link text is empty exactly when every text piece is whitespace |
| Newsletter.LinkArticle | src/healthcare_news_scraper/newsletter_parser.py:28-45 | a link yields an article exactly when its text and href are non-blank and neither holds an ignore token; the article carries the stripped title and url, an empty date, category `general` and source `healthcare_newsletter` |
| Newsletter.CollectLinks | src/healthcare_news_scraper/newsletter_parser.py:27-45 | the collected list is no longer than the links, and each entry has the newsletter shape with title and url free of ignore tokens |
| Newsletter.CollectedFromLinks | src/healthcare_news_scraper/newsletter_parser.py:27-45 | every collected article is the one some link yields |
| Newsletter.CollectLinksPicked | src/healthcare_news_scraper/newsletter_parser.py:27-45 | the loop is the collecting walk whose value for a link is `LinkArticle` |
| Newsletter.CollectedAllLinks | src/healthcare_news_scraper/newsletter_parser.py:27-45 | the `k`-th article collected is the one the `k`-th passing link gives; the passing links are in document order; a link is among them exactly when it passes the guards; and every passing link's article is collected |
| Newsletter.CollectPassing | src/healthcare_news_scraper/newsletter_parser.py:27-45 | the loop over the links builds `CollectLinks` |
| Newsletter.DictsKeepLinks | src/healthcare_news_scraper/newsletter_parser.py:47-48 | a dict that keeps every collected `(title, url)` has one for each passing link |
| Newsletter.DictsFromLinks | src/healthcare_news_scraper/newsletter_parser.py:47-48 | every dict left is the dict of the article some passing link yields |
| Newsletter.DedupShape | src/healthcare_news_scraper/newsletter_parser.py:47-48 | the deduplicated articles are empty for no input, keep the newsletter shape, and have pairwise distinct `(title, url)` |
| Newsletter.ParseNewsletter | src/healthcare_news_scraper/newsletter_parser.py:11-48 | the result is the dicts of the deduplicated collected articles: empty for no links, each with the fixed fields and a non-blank title and url free of ignore tokens, pairwise distinct in `(title, url)`; every passing link has its `(title, url)` among the results, and every result is the dict of a passing link's article |
| Newsletter.UnsubscribeUrlIgnored | src/healthcare_news_scraper/newsletter_parser.py:15-25 | the test's unsubscribe url holds the `unsubscribe` token |
| Newsletter.IgnoredUrlDropped | src/healthcare_news_scraper/newsletter_parser.py:32-33 | a link whose stripped url holds an ignore token yields nothing, whatever its title |
| Newsletter.UnsubscribeLinkIgnored | tests/test_newsletter_parser_unit.py:14-17 | the e-mail with only the unsubscribe link yields no article |
| Newsletter.RepeatedLinkCollapses | src/healthcare_news_scraper/newsletter_parser.py:47-48 | the same passing link twice gives one article |
| Storage.Persist | src/healthcare_news_scraper/storage.py:121-197 | `persist_run` fails exactly when the tables are missing or the status is outside the `CHECK` list; the failure is a SQLite error and leaves the database as it was |
| Storage.SameCanonicalKey | src/healthcare_news_scraper/storage.py:92-97 | two events share a canonical key exactly when both have the same non-blank stripped url, or both have a blank url and the same lower-cased stripped title |
| Storage.ProductUrlFollowsKey | src/healthcare_news_scraper/storage.py:102 | the url an upsert writes is the one the event's canonical key determines, and it is absent exactly for a blank url |
| Storage.ProductNameMeaning | src/healthcare_news_scraper/storage.py:101 | the name an upsert writes is never empty: the stripped title, or `Untitled` for a blank one |
| Storage.UpsertMeaning | src/healthcare_news_scraper/storage.py:99-119 | after an upsert the key's row carries the event's name and the id returned; an existing row keeps its id, a new row takes the next id, and one id is spent either way; no other row or table changes, so the `RuntimeError` branch is unreachable |
| Storage.UpdateLeavesGap | src/healthcare_news_scraper/storage.py:28-29 | an upsert that updates an existing product still spends an `AUTOINCREMENT` id, so the next new product's id skips one |
| Storage.CoalesceKeepsUrl | src/healthcare_news_scraper/storage.py:104-114 | on rows whose urls follow their keys, the `COALESCE` leaves the key's url as its key determines and never changes an existing url |
| Storage.EmptyDbInv | src/healthcare_news_scraper/storage.py:11-57 | a fresh database file, before and after `init_schema`, satisfies the schema's constraints |
| Storage.WithSchemaKeepsInv | src/healthcare_news_scraper/storage.py:88-90 | `init_schema` keeps the constraints, changes no table, and a second call changes nothing |
| Storage.UpsertKeepsProducts | src/healthcare_news_scraper/storage.py:99-119 | an upsert keeps the product constraints and every existing product id |
| Storage.ApplyEventKeepsInv | src/healthcare_news_scraper/storage.py:164-189 | one pass of the event loop, for a run that exists, keeps the constraints |
| Storage.ApplyEventsKeepsInv | src/healthcare_news_scraper/storage.py:164-189 | the whole event loop keeps the constraints and leaves the runs alone |
| Storage.NewRunKeepsInv | src/healthcare_news_scraper/storage.py:136-161 | inserting the run row keeps the constraints and makes its id a run id |
| Storage.PersistKeepsInv | src/healthcare_news_scraper/storage.py:121-197 | `persist_run`, successful or not, keeps the schema's constraints |
| Storage.ApplyEventsFrame | src/healthcare_news_scraper/storage.py:164-189 | the event loop changes only products and snapshots; the product keys grow by exactly the events' canonical keys; the id counter advances by one per event, new product or not |
| Storage.FreshRun | src/healthcare_news_scraper/storage.py:136-161 | the new run's id exceeds every earlier run's, and no snapshot refers to it yet |
| Storage.PersistSuccess | src/healthcare_news_scraper/storage.py:121-197 | a successful call returns the next run id with `fetched_count = len(events)`, appends exactly that run row, adds exactly the events' new canonical keys as products, keeps every older snapshot and adds only snapshots of the new run |
| Storage.PersistSnapshots | src/healthcare_news_scraper/storage.py:164-189 | each canonical key of the events has a snapshot of the run under its product id, holding the last event with that key, and every snapshot of the run is one of these |
| Storage.PersistProducts | src/healthcare_news_scraper/storage.py:164-189 | each product an event names carries the last such event's name; existing products keep their ids and are untouched when no event names them; new products take ids above all earlier ones |
| Storage.PersistRowCounts | src/healthcare_news_scraper/storage.py:121-197 | a successful call adds one run, one product per unseen canonical key, and one snapshot per distinct canonical key of the events |
| Storage.PersistOnlyGrows | src/healthcare_news_scraper/storage.py:121-197 | no call deletes or rewrites a run or a snapshot, or drops a product |
| Storage.LatestRunIsNewest | src/healthcare_news_scraper/storage.py:199-201 | `fetch_latest_run` fails exactly without the schema, is none exactly when there are no runs, and otherwise returns a stored run with the highest id |
| Storage.OneEventRun | src/healthcare_news_scraper/storage.py:121-197 | a run with one event adds one run, the event's product (keeping an existing id, else the next one) and one snapshot under it; the only product key added is the event's |
| Storage.SameKeyInOneCall | src/healthcare_news_scraper/storage.py:164-189 | two events with one canonical key in one call give one product named after the later event and one snapshot holding it, while `fetched_count` is 2 |
| Storage.SchemaCreation | tests/test_storage_unit.py:4-12 | after `init_schema` every table counts zero rows; before it counting fails |
| Storage.SuccessfulWriteAndSnapshot | tests/test_storage_unit.py:15-42 | one successful run with one event gives status `success`, `fetched_count` 1 and one row in each table |
| Storage.DedupeUpsertByUrl | tests/test_storage_unit.py:45-81 | the same event in two runs gives two runs, one product and two snapshots, both under product id 1 |
| Storage.FailedRunPersistence | tests/test_storage_unit.py:84-106 | a failed run with no events is stored with its status, error and attempts, is the latest run, and leaves no snapshots |
| Storage.EventStore.constructor | src/healthcare_news_scraper/storage.py:70-72 | a new store on a fresh file has no tables and no rows |
| Storage.EventStore.InitSchema | src/healthcare_news_scraper/storage.py:88-90 | the store afterwards is `WithSchema` of the store before |
| Storage.EventStore.UpsertProduct | src/healthcare_news_scraper/storage.py:99-119 | the new state and the id returned are those of `Upsert` on the old state |
| Storage.EventStore.PersistRun | src/healthcare_news_scraper/storage.py:121-197 | the new state and the result are those of `Persist` on the old state |
| Storage.EventStore.FetchLatestRun | src/healthcare_news_scraper/storage.py:199-201 | the row returned is `LatestRun` of the state, which changes nothing |
| Storage.EventStore.CountRows | src/healthcare_news_scraper/storage.py:203-206 | the count returned is `RowCount` of the state for the table |
| Runner.RetryLoopMeaning | src/healthcare_news_scraper/runner_once.py:76-96 | the loop makes between 1 and `max(1, retry_attempts)` calls; every call before the last raised a transient network error; the last did not, unless the budget is spent; the last call's outcome alone decides how the loop ends |
| Runner.AllTransientSpendsBudget | src/healthcare_news_scraper/runner_once.py:80-96 | when every call raises a transient error, the loop spends its whole budget, keeps no records and ends with the last error |
| Runner.DeriveStatus | src/healthcare_news_scraper/runner_once.py:98-105 | the status always passes the `CHECK`; it is `partial` exactly with records and an error, `failure` exactly with an error and no records, `success` exactly without an error |
| Runner.SleepLogGrows | src/healthcare_news_scraper/runner_once.py:90-96 | a run of `n` calls sleeps `n - 1` times; no delay is negative and no delay is shorter than the one before |
| Runner.RunOnceMeaning | src/healthcare_news_scraper/runner_once.py:66-137 | the schema exists afterwards; an exception other than a network or partial error propagates and stores no run; otherwise one run row is appended under the next id and the summary reports its derived status, the attempts, the record count and the error, with the strategy as source |
| Runner.RunOnceKeepsInv | src/healthcare_news_scraper/runner_once.py:66-137 | a run keeps the store's constraints, whether it persists a run or not |
| Runner.RunOnce | src/healthcare_news_scraper/runner_once.py:66-137 | the new store state and the result are those of `RunOnceSpec`, and the sleeps are `backoff_seconds(base, k)` after each retried call `k` |
| Runner.RunScrapeMeaning | src/healthcare_news_scraper/runner_once.py:49-62 | any strategy but `web` raises `ValueError`; a scraper error passes through; otherwise the result is an order-preserving subsequence of the scraped articles, all matching the search term when there is one, and the first `min(limit, len)` of the filtered list for a positive limit |
| Runner.UnsupportedStrategyStoresNothing | src/healthcare_news_scraper/runner_once.py:50-51 | with the default scrape function and a strategy other than `web`, `run_once` raises the `ValueError` and stores no run |
| Runner.RetryOnTransientError | tests/test_scheduler_unit.py:19-41 | one transient error then a list: two calls, one sleep, a `success` summary with one record |
| Runner.NoRetryOnNonTransientError | tests/test_scheduler_unit.py:44-61 | a `ValueError` is not retried: one call, the error propagates, no run is stored |
| Runner.PartialStatusWhenSomeDataAndError | tests/test_scheduler_unit.py:69-94 | a partial error carrying one record gives a `partial` summary with one record and the error's message |
| Runner.RunOnceOnFreshStore | tests/test_protocols_unit.py:69-83 | on a fresh store, a run that returns one record creates the schema and stores one `success` run of one record |

## Left out

- HTTP, and what `_fetch_html` and `get_articles` do with it (`http.py`, the request loop in `scraper.py`). The scrape function's outcome, and the list `get_articles` returns, are parameters.
- HTML parsing with BeautifulSoup. Elements and links arrive pre-extracted: the first `<a href>` of an element, its `<td>` texts, its own text, and each link's container. URL resolution (`_normalize_url`, `urljoin`) is the parameter `resolve`.
- The clocks (`datetime.now` for `fetched_at` and `observed_at`) are parameters. `time.sleep` is recorded in a ghost log of the delays asked for, and `logging` is left out.
- Floating-point arithmetic: `backoff_seconds` is computed on reals.
- `str.lower` is modelled for ASCII letters only. `str.isspace` is the full list of Python whitespace characters.
- A dict value of `None` is not modelled: a field is either a string or missing. Both parsers always fill every field with a string, so only an injected scrape function could pass `None`. The code does not treat `None` like a missing key everywhere. `filters.py:13` raises `AttributeError` on a `None` title or category when a keyword is given. `storage.py:183-186` stores `NULL` in the snapshot's description, category and date columns for a `None` title, category or date. `storage.py:93-94` and `storage.py:101-102` treat `None` like the empty string.
- The `created_at`/`updated_at` columns, the `PRAGMA`s, the indexes and the connection handling of `_connect` are not modelled. The cascade deletes are also left out, since nothing in the core deletes.
- Storage.RowCount: covers only the three tables; any other table name fails in SQLite and is not modelled. The SQLite error messages are approximations of SQLite's own text.
- Storage.EventStore.UpsertProduct: the `RuntimeError` raised when the `SELECT` finds no row is not modelled as a branch. `Storage.UpsertMeaning` proves the row always exists.
- The cron validation in `scheduler.py`, the scheduler loop, and the command-line entry points are not part of this model.
- Loading the configuration from the environment is not part of this model; `Config.DefaultConfig` holds the dataclass defaults.
- `formatters.py`, `protocols.py` and `http.py` are not part of this model.
- The tests that parse fixture files or use HTTP doubles are not restated: the scraper's `parse_articles` and injected-client tests, and the newsletter extraction test. They are covered by the general contracts of `Scraper.ParseArticles` and `Newsletter.ParseNewsletter`.
- The scraper's whole-text fallback test (`tests/test_scraper_unit.py:85-91`) is not restated as a concrete lemma. `Scraper.DateAndCategory` states the fallback in general.
- `_clean` is modelled, including its `None` branch, but `_extract_anchor` only ever passes it a string.
- `list(exc.partial_articles)` copies a list; values have no identity here, so the copy is the list itself.
