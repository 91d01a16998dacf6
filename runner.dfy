/**
  `run_once`: initialise the store, call the scrape function with retries,
  derive the run's status, persist the run and return its summary; and
  `_run_scrape`, the default scrape function.

  The scrape function is `scrape(k)`: the outcome of the k-th call (counting
  from 1), so a test double that fails once and then succeeds is a function
  of the call number. The clock readings for `fetched_at` and `observed_at`
  are parameters; `time.sleep` is recorded in a ghost log of the delays asked for.
 */
module Runner {
  import opened Wrappers
  import opened Models
  import opened Exceptions
  import opened Config
  import opened Scheduler
  import opened Filters
  import opened Storage

  /** What one call of the scrape function does: return a list, or raise. */
  datatype Outcome = Returned(articles: seq<ArticleDict>) | Raised(exc: Exc)

  /** `RunSummary` */
  datatype RunSummary = RunSummary(runId: int, status: string, source: string, attempts: int, fetchedCount: int, error: string)

  /**
    How the retry loop ends: with the `articles` and `error_message` it
    leaves behind, or by letting an exception propagate out of `run_once`.
   */
  datatype LoopEnd =
    | Finished(attempts: int, articles: seq<ArticleDict>, error: string)
    | Propagated(attempts: int, exc: Exc)

  /** `max(1, cfg.retry_attempts)`: the most scrape calls one run makes. */
  function Budget(cfg: PipelineConfig): int {
    MaxInt(1, cfg.retryAttempts)
  }

  /** The outcomes the loop retries: those the `except ScraperNetworkError` clause catches. */
  predicate Retried(o: Outcome) {
    o.Raised? && !IsInstance(o.exc, PartialScrapeError) && IsInstance(o.exc, ScraperNetworkError)
  }

  /**
    The retry loop, after `made` calls that each raised a transient error:
    the next call's outcome either ends the loop or, for a transient error
    with budget left, leads to another call.
   */
  function RetryLoop(scrape: nat -> Outcome, budget: int, made: nat): LoopEnd
    requires made < budget
    decreases budget - made
  {
    var k := made + 1;
    var outcome := scrape(k);
    if outcome.Returned? then Finished(k, outcome.articles, "")
    else if IsInstance(outcome.exc, PartialScrapeError) then Finished(k, outcome.exc.partialArticles, outcome.exc.message)
    else if IsInstance(outcome.exc, ScraperNetworkError) then
      if k >= budget || !IsTransientError(outcome.exc) then Finished(k, [], outcome.exc.message)
      else RetryLoop(scrape, budget, k)
    else Propagated(k, outcome.exc)
  }

  /** How the loop ends when call `k` is the last one, decided by that call's outcome alone. */
  function Ending(k: int, outcome: Outcome): LoopEnd {
    match outcome
    case Returned(articles) => Finished(k, articles, "")
    case Raised(e) =>
      if IsInstance(e, PartialScrapeError) then Finished(k, e.partialArticles, e.message)
      else if IsInstance(e, ScraperNetworkError) then Finished(k, [], e.message)
      else Propagated(k, e)
  }

  /**
    The loop makes calls `made + 1` to `a` for some `a` within the budget:
    every call before the last raised a transient error, the last one did not
    unless the budget is spent, and the last call's outcome alone decides how
    the loop ends. A success clears any earlier error, and the
    `not is_transient_error(exc)` exit is never what stops the loop.
   */
  lemma {:induction false} RetryLoopMeaning(scrape: nat -> Outcome, budget: int, made: nat)
    requires made < budget
    ensures var end := RetryLoop(scrape, budget, made);
      var a := end.attempts;
      && made < a <= budget
      && (forall j :: made < j < a ==> Retried(scrape(j)))
      && (a < budget ==> !Retried(scrape(a)))
      && end == Ending(a, scrape(a))
    decreases budget - made
  {
    var k := made + 1;
    if Retried(scrape(k)) && k < budget {
      assert IsTransientError(scrape(k).exc);
      RetryLoopMeaning(scrape, budget, k);
    }
  }

  /** When every call raises a transient error, the loop spends its whole budget and keeps the last message. */
  lemma AllTransientSpendsBudget(scrape: nat -> Outcome, budget: int)
    requires 1 <= budget
    requires forall j :: 1 <= j <= budget ==> Retried(scrape(j))
    ensures var end := RetryLoop(scrape, budget, 0);
      end.Finished? && end.attempts == budget && end.articles == [] && end == Ending(budget, scrape(budget))
  {
    RetryLoopMeaning(scrape, budget, 0);
  }

  /** The status of the run, from the records and the error message the loop leaves. */
  function DeriveStatus(articles: seq<ArticleDict>, error: string): (status: string)
    ensures status in Statuses
    ensures status == "partial" <==> articles != [] && error != ""
    ensures status == "failure" <==> articles == [] && error != ""
    ensures status == "success" <==> error == ""
  {
    if articles != [] && error != "" then "partial"
    else if articles != [] && error == "" then "success"
    else if articles == [] && error != "" then "failure"
    else "success"
  }

  /** The delays the loop sleeps for when it ends after `attempts` calls: `backoff_seconds(base, k)` after call k. */
  function SleepLog(base: real, attempts: int): seq<real> {
    seq(MaxInt(0, attempts - 1), i requires 0 <= i < MaxInt(0, attempts - 1) => BackoffSeconds(base, i + 1))
  }

  /** The delays never shrink from one retry to the next, and none is negative. */
  lemma SleepLogGrows(base: real, attempts: int)
    ensures var log := SleepLog(base, attempts);
      && |log| == MaxInt(0, attempts - 1)
      && (forall i :: 0 <= i < |log| ==> log[i] >= 0.0)
      && (forall i, j :: 0 <= i <= j < |log| ==> log[i] <= log[j])
  {
    var log := SleepLog(base, attempts);
    forall i, j | 0 <= i <= j < |log| ensures log[i] <= log[j] {
      BackoffMonotone(base, i + 1, j + 1);
    }
  }

  /** The `persist_run` arguments of a run that ended with `attempts`, `articles` and `error`. */
  function Info(cfg: PipelineConfig, fetchedAt: string, attempts: int, articles: seq<ArticleDict>, error: string): RunInfo {
    RunInfo(cfg.scraperStrategy, fetchedAt, cfg.scraperSearchTerm, cfg.scraperLimit, DeriveStatus(articles, error), attempts, error)
  }

  /**
    `run_once` on a store whose database is `db`: the database afterwards,
    and the summary or the exception that propagates.
   */
  function RunOnceSpec(cfg: PipelineConfig, scrape: nat -> Outcome, db: Db, fetchedAt: string, observedAt: string)
    : (Db, Result<RunSummary, Exc>)
  {
    var db0 := WithSchema(db);
    match RetryLoop(scrape, Budget(cfg), 0)
    case Propagated(_, e) => (db0, Failure(e))
    case Finished(attempts, articles, error) =>
      var (db1, record) := Persist(db0, Info(cfg, fetchedAt, attempts, articles, error), articles, observedAt);
      match record
      case Failure(e) => (db1, Failure(e))
      case Success(r) => (db1, Success(RunSummary(r.runId, r.status, cfg.scraperStrategy, r.attempts, r.fetchedCount, r.error)))
  }

  /**
    What one run does. The schema always exists afterwards. An exception
    other than a network or partial error propagates and leaves no run;
    otherwise the run is always persisted (its status always passes the
    `CHECK`), under the next run id, and the summary copies the run record:
    the derived status, the attempts made, `fetched_count = len(articles)`
    and the error message, with the strategy as its source.
   */
  lemma RunOnceMeaning(cfg: PipelineConfig, scrape: nat -> Outcome, db: Db, fetchedAt: string, observedAt: string)
    ensures var (db2, result) := RunOnceSpec(cfg, scrape, db, fetchedAt, observedAt);
      var end := RetryLoop(scrape, Budget(cfg), 0);
      && 1 <= end.attempts <= Budget(cfg)
      && db2.initialized
      && (result.Failure? <==> end.Propagated?)
      && (end.Propagated? ==> result == Failure(end.exc) && db2 == WithSchema(db))
      && (end.Finished? ==>
            && result == Success(RunSummary(db.nextRunId, DeriveStatus(end.articles, end.error), cfg.scraperStrategy,
                                             end.attempts, |end.articles|, end.error))
            && db2 == Persist(WithSchema(db), Info(cfg, fetchedAt, end.attempts, end.articles, end.error), end.articles, observedAt).0
            && db2.runs == db.runs + [NewRun(WithSchema(db), Info(cfg, fetchedAt, end.attempts, end.articles, end.error), |end.articles|)])
  {
    RetryLoopMeaning(scrape, Budget(cfg), 0);
    var end := RetryLoop(scrape, Budget(cfg), 0);
    if end.Finished? {
      var info := Info(cfg, fetchedAt, end.attempts, end.articles, end.error);
      ApplyEventsFrame(Opened(WithSchema(db), info, |end.articles|), db.nextRunId, info.searchTerm, observedAt, end.articles);
    }
  }

  /** A run keeps the store's invariant, whether it persists a run or not. */
  lemma RunOnceKeepsInv(cfg: PipelineConfig, scrape: nat -> Outcome, db: Db, fetchedAt: string, observedAt: string)
    requires Inv(db)
    ensures Inv(RunOnceSpec(cfg, scrape, db, fetchedAt, observedAt).0)
  {
    WithSchemaKeepsInv(db);
    match RetryLoop(scrape, Budget(cfg), 0)
    case Propagated(_, _) =>
    case Finished(attempts, articles, error) =>
      PersistKeepsInv(WithSchema(db), Info(cfg, fetchedAt, attempts, articles, error), articles, observedAt);
  }

  /**
    `run_once(config, scrape_func, store)`. `sleeps` is the log of the
    `time.sleep` calls the loop makes.
   */
  method RunOnce(store: EventStore, cfg: PipelineConfig, scrape: nat -> Outcome, fetchedAt: string, observedAt: string)
    returns (result: Result<RunSummary, Exc>, ghost sleeps: seq<real>)
    modifies store
    ensures (store.State(), result) == RunOnceSpec(cfg, scrape, old(store.State()), fetchedAt, observedAt)
    ensures sleeps == SleepLog(cfg.retryBackoffSeconds, RetryLoop(scrape, Budget(cfg), 0).attempts)
  {
    store.InitSchema();
    var budget := MaxInt(1, cfg.retryAttempts);
    var attempts := 0;
    var articles: seq<ArticleDict> := [];
    var errorMessage := "";
    var raised: Option<Exc> := None;
    sleeps := [];
    while attempts < budget
      invariant 0 <= attempts < budget
      invariant RetryLoop(scrape, budget, 0) == RetryLoop(scrape, budget, attempts)
      invariant articles == [] && raised.None?
      invariant sleeps == SleepLog(cfg.retryBackoffSeconds, attempts + 1)
      decreases budget - attempts
    {
      attempts := attempts + 1;
      var outcome := scrape(attempts);
      if outcome.Returned? {
        articles := outcome.articles;
        errorMessage := "";
        break;
      }
      if IsInstance(outcome.exc, PartialScrapeError) {
        articles := outcome.exc.partialArticles;
        errorMessage := outcome.exc.message;
        break;
      }
      if IsInstance(outcome.exc, ScraperNetworkError) {
        errorMessage := outcome.exc.message;
        if attempts >= budget || !IsTransientError(outcome.exc) {
          break;
        }
        var delay := BackoffSeconds(cfg.retryBackoffSeconds, attempts);
        sleeps := sleeps + [delay];
        continue;
      }
      raised := Some(outcome.exc);
      break;
    }
    assert sleeps == SleepLog(cfg.retryBackoffSeconds, attempts);
    if raised.Some? {
      assert RetryLoop(scrape, budget, 0) == Propagated(attempts, raised.value);
      return Failure(raised.value), sleeps;
    }
    assert RetryLoop(scrape, budget, 0) == Finished(attempts, articles, errorMessage);
    var status := DeriveStatus(articles, errorMessage);
    var info := RunInfo(cfg.scraperStrategy, fetchedAt, cfg.scraperSearchTerm, cfg.scraperLimit, status, attempts, errorMessage);
    var record := store.PersistRun(info, articles, observedAt);
    match record {
      case Failure(e) =>
        result := Failure(e);
      case Success(r) =>
        result := Success(RunSummary(r.runId, r.status, cfg.scraperStrategy, r.attempts, r.fetchedCount, r.error));
    }
  }

  // ---------------------------------------------------------------------------
  // `_run_scrape`

  const UnsupportedStrategy: string := "Unsupported SCRAPER_STRATEGY: "

  /** `articles[:n]` */
  function Take<T>(xs: seq<T>, n: int): seq<T> {
    if n >= |xs| then xs else if n <= 0 then [] else xs[..n]
  }

  /**
    `_run_scrape(config)`, given what the scraper's `get_articles()` does:
    refuse any strategy but `"web"`, let the scraper's error through, filter
    by the search term when there is one, and keep the first
    `scraper_limit` articles when the limit is positive.
   */
  function RunScrape(cfg: PipelineConfig, fetched: Outcome): Outcome {
    if cfg.scraperStrategy != "web" then Raised(Raise(ValueError, UnsupportedStrategy + cfg.scraperStrategy))
    else if fetched.Raised? then fetched
    else
      var articles := fetched.articles;
      var kept := if cfg.scraperSearchTerm != "" then FilterArticlesByKeyword(articles, cfg.scraperSearchTerm) else articles;
      Returned(if cfg.scraperLimit > 0 then Take(kept, cfg.scraperLimit) else kept)
  }

  /** The articles `_run_scrape` keeps before the limit applies. */
  function Kept(cfg: PipelineConfig, articles: seq<ArticleDict>): seq<ArticleDict> {
    if cfg.scraperSearchTerm != "" then FilterArticlesByKeyword(articles, cfg.scraperSearchTerm) else articles
  }

  /**
    `_run_scrape` fails with a `ValueError` before scraping for any strategy
    but `"web"`, and passes a scraper error through. Otherwise it returns,
    in order, a subsequence of the scraped articles: with a search term,
    only articles matching it; with a positive limit, the first
    `min(limit, len)` of the filtered list; else all of it.
   */
  lemma RunScrapeMeaning(cfg: PipelineConfig, fetched: Outcome)
    ensures cfg.scraperStrategy != "web" ==>
      RunScrape(cfg, fetched).Raised? && RunScrape(cfg, fetched).exc.cls == ValueError
    ensures cfg.scraperStrategy == "web" && fetched.Raised? ==> RunScrape(cfg, fetched) == fetched
    ensures cfg.scraperStrategy == "web" && fetched.Returned? ==>
      var r := RunScrape(cfg, fetched);
      var kept := Kept(cfg, fetched.articles);
      && r.Returned?
      && IsSubsequence(r.articles, fetched.articles)
      && (cfg.scraperSearchTerm != "" ==> forall i :: 0 <= i < |r.articles| ==> Matches(r.articles[i], Needle(cfg.scraperSearchTerm)))
      && (cfg.scraperLimit > 0 ==> |r.articles| == MinInt(cfg.scraperLimit, |kept|) && r.articles == kept[..|r.articles|])
      && (cfg.scraperLimit <= 0 ==> r.articles == kept)
  {
    if cfg.scraperStrategy == "web" && fetched.Returned? {
      var articles := fetched.articles;
      var kept := Kept(cfg, articles);
      if cfg.scraperSearchTerm != "" {
        FilterMeaning(articles, cfg.scraperSearchTerm);
      } else {
        SubsequenceReflexive(articles);
      }
      var r := RunScrape(cfg, fetched).articles;
      if cfg.scraperLimit > 0 {
        var n := |r|;
        assert r == kept[..n];
        PrefixIsSubsequence(kept, n);
        SubsequenceTransitive(r, kept, articles);
        if cfg.scraperSearchTerm != "" {
          forall i | 0 <= i < n ensures Matches(r[i], Needle(cfg.scraperSearchTerm)) {
            assert r[i] == kept[i];
          }
        }
      }
    }
  }

  function MinInt(a: int, b: int): int {
    if a <= b then a else b
  }

  lemma {:induction false} SubsequenceReflexive<T>(xs: seq<T>)
    ensures IsSubsequence(xs, xs)
  {
    if xs != [] {
      SubsequenceReflexive(xs[1..]);
    }
  }

  /**
    With the default scrape function and a strategy other than `"web"`,
    `run_once` raises the `ValueError` of the first call and stores no run.
   */
  lemma UnsupportedStrategyStoresNothing(cfg: PipelineConfig, fetch: nat -> Outcome, db: Db, fetchedAt: string, observedAt: string)
    requires cfg.scraperStrategy != "web"
    ensures var (db2, result) := RunOnceSpec(cfg, (k: nat) => RunScrape(cfg, fetch(k)), db, fetchedAt, observedAt);
      && result == Failure(Raise(ValueError, UnsupportedStrategy + cfg.scraperStrategy))
      && db2 == WithSchema(db)
  {
    var scrape := (k: nat) => RunScrape(cfg, fetch(k));
    assert RunScrape(cfg, fetch(1)) == Raised(Raise(ValueError, UnsupportedStrategy + cfg.scraperStrategy));
    assert scrape(1) == RunScrape(cfg, fetch(1));
    assert !IsInstance(Raise(ValueError, UnsupportedStrategy + cfg.scraperStrategy), ScraperNetworkError);
  }

  // ---------------------------------------------------------------------------
  // The runner's tests

  /** `PipelineConfig(db_path=..., retry_attempts=n, retry_backoff_seconds=b)` */
  function TestConfig(retryAttempts: int, backoff: real): PipelineConfig {
    DefaultConfig().(retryAttempts := retryAttempts, retryBackoffSeconds := backoff)
  }

  /** A transient error and then a list: two calls, one sleep of `backoff_seconds(0.01, 1)`, a successful run of one record. */
  lemma RetryOnTransientError(scrape: nat -> Outcome, article: ArticleDict, db: Db, fetchedAt: string, observedAt: string)
    requires scrape(1) == Raised(Raise(ScraperNetworkError, "temporary timeout"))
    requires scrape(2) == Returned([article])
    ensures RetryLoop(scrape, Budget(TestConfig(3, 0.01)), 0) == Finished(2, [article], "")
    ensures SleepLog(0.01, 2) == [0.01]
    ensures var result := RunOnceSpec(TestConfig(3, 0.01), scrape, db, fetchedAt, observedAt).1;
      result.Success? && result.value.status == "success" && result.value.fetchedCount == 1 && result.value.attempts == 2
  {
    assert IsInstance(Raise(ScraperNetworkError, "temporary timeout"), ScraperNetworkError);
    assert !IsInstance(Raise(ScraperNetworkError, "temporary timeout"), PartialScrapeError);
    RunOnceMeaning(TestConfig(3, 0.01), scrape, db, fetchedAt, observedAt);
  }

  /** A `ValueError` is not retried: one call, the error propagates, no run is stored. */
  lemma NoRetryOnNonTransientError(scrape: nat -> Outcome, db: Db, fetchedAt: string, observedAt: string)
    requires scrape(1) == Raised(Raise(ValueError, "bad config"))
    ensures RetryLoop(scrape, Budget(TestConfig(5, 0.01)), 0).attempts == 1
    ensures RunOnceSpec(TestConfig(5, 0.01), scrape, db, fetchedAt, observedAt)
         == (WithSchema(db), Failure(Raise(ValueError, "bad config")))
  {
    assert !IsInstance(Raise(ValueError, "bad config"), ScraperNetworkError);
    assert !IsInstance(Raise(ValueError, "bad config"), PartialScrapeError);
  }

  /** A partial error with one record: one call, status `partial`, one record, the error's message kept. */
  lemma PartialStatusWhenSomeDataAndError(scrape: nat -> Outcome, article: ArticleDict, db: Db, fetchedAt: string, observedAt: string)
    requires scrape(1) == Raised(Exc(PartialScrapeError, "upstream parse warning", [article]))
    ensures var result := RunOnceSpec(TestConfig(3, 5.0), scrape, db, fetchedAt, observedAt).1;
      && result.Success? && result.value.status == "partial" && result.value.fetchedCount == 1
      && result.value.attempts == 1 && result.value.error == "upstream parse warning"
  {
    assert IsInstance(Exc(PartialScrapeError, "upstream parse warning", [article]), PartialScrapeError);
    RunOnceMeaning(TestConfig(3, 5.0), scrape, db, fetchedAt, observedAt);
  }

  /** A scrape function that returns one record on a fresh store: the schema is created and one run of one record stored. */
  lemma RunOnceOnFreshStore(scrape: nat -> Outcome, article: ArticleDict, fetchedAt: string, observedAt: string)
    requires scrape(1) == Returned([article])
    ensures var (db, result) := RunOnceSpec(DefaultConfig(), scrape, EmptyDb(), fetchedAt, observedAt);
      && db.initialized && |db.runs| == 1
      && result.Success? && result.value.fetchedCount == 1 && result.value.status == "success"
  {
    RunOnceMeaning(DefaultConfig(), scrape, EmptyDb(), fetchedAt, observedAt);
  }
}
