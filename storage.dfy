/**
  `SQLiteEventStore`: the three tables (`runs`, `products`,
  `product_snapshots`) held in memory, `persist_run` as one all-or-nothing
  transaction, and the schema's constraints as an invariant every call keeps.

  `Db` is the content of the database file; `EventStore` is the store object
  whose methods change it. Row ids are drawn the way `AUTOINCREMENT` draws them:
  every `INSERT` takes the next id of its table, never reused. The product
  upsert draws its id before the `canonical_key` conflict turns it into an
  `UPDATE`, so an upsert that updates spends an id as well, leaving a gap.
 */
module Storage {
  import opened Wrappers
  import opened Strings
  import opened Models
  import opened Keyed
  import opened Exceptions

  /** `CHECK(status IN ('success', 'partial', 'failure'))` on `runs.status` */
  const Statuses: set<string> := {"success", "partial", "failure"}
  const UrlPrefix: string := "url:"
  const NamePrefix: string := "name:"
  const Untitled: string := "Untitled"
  const NoSuchTable: string := "no such table: runs"
  const CheckFailed: string := "CHECK constraint failed: status IN ('success', 'partial', 'failure')"

  /** A row of `runs` (its timestamps left out). */
  datatype RunRow = RunRow(
    id: int,
    source: string,
    fetchedAt: string,
    searchTerm: string,
    recordLimit: int,
    status: string,
    fetchedCount: int,
    attempts: int,
    error: string)

  /** A row of `products`, less its `canonical_key`, which keys the table. */
  datatype ProductRow = ProductRow(id: int, name: string, url: Option<string>)

  /** A row of `product_snapshots`, less the `(run_id, product_id)` that keys it. */
  datatype SnapshotRow = SnapshotRow(
    votes: Option<int>,
    description: string,
    topics: string,
    category: string,
    eventDate: string,
    observedAt: string)

  /** `RunRecord`, what `persist_run` returns. */
  datatype RunRecord = RunRecord(runId: int, status: string, fetchedCount: int, attempts: int, error: string)

  /** The scalar arguments of `persist_run`. */
  datatype RunInfo = RunInfo(
    source: string,
    fetchedAt: string,
    searchTerm: string,
    recordLimit: int,
    status: string,
    attempts: int,
    error: string)

  datatype Table = Runs | Products | ProductSnapshots

  /**
    The database: whether `init_schema` has created the tables, the three
    tables, and the next id each `AUTOINCREMENT` column hands out.
   */
  datatype Db = Db(
    initialized: bool,
    runs: seq<RunRow>,
    products: map<string, ProductRow>,
    snapshots: map<(int, int), SnapshotRow>,
    nextRunId: int,
    nextProductId: int)

  /** A database file before `init_schema`: no tables. */
  function EmptyDb(): Db {
    Db(false, [], map[], map[], 1, 1)
  }

  /** `init_schema`: `CREATE TABLE IF NOT EXISTS` for each table. */
  function WithSchema(db: Db): Db {
    db.(initialized := true)
  }

  /** `(event.get("url") or "").strip()` */
  function UrlText(event: ArticleDict): string {
    Strip(event.url.GetOr(""))
  }

  /** `(event.get("title") or "").strip()` */
  function TitleText(event: ArticleDict): string {
    Strip(event.title.GetOr(""))
  }

  /** `_canonical_key(event)` */
  function CanonicalKey(event: ArticleDict): string {
    if UrlText(event) != [] then UrlPrefix + UrlText(event)
    else NamePrefix + Lower(TitleText(event))
  }

  /** The product name an upsert writes: the stripped title, or `"Untitled"`. */
  function ProductName(event: ArticleDict): string {
    if TitleText(event) != [] then TitleText(event) else Untitled
  }

  /** The product url an upsert writes: the stripped url, or `None` when blank. */
  function ProductUrl(event: ArticleDict): Option<string> {
    if UrlText(event) != [] then Some(UrlText(event)) else None
  }

  /** The url a canonical key determines: the text after `url:`, none for a `name:` key. */
  function KeyUrl(key: string): Option<string> {
    if |key| >= |UrlPrefix| && key[..|UrlPrefix|] == UrlPrefix then Some(key[|UrlPrefix|..]) else None
  }

  /**
    `_upsert_product`: insert the event's product, or on a `canonical_key`
    conflict keep its id and update its name and (by `COALESCE`) its url;
    then the id the `SELECT` finds for the key. Either way the `INSERT` has
    drawn the next id.
   */
  function Upsert(db: Db, event: ArticleDict): (Db, int)
  {
    var key := CanonicalKey(event);
    var url := ProductUrl(event);
    if key in db.products then
      var row := db.products[key];
      var merged := ProductRow(row.id, ProductName(event), if url.Some? then url else row.url);
      (db.(products := db.products[key := merged], nextProductId := db.nextProductId + 1), row.id)
    else
      var id := db.nextProductId;
      (db.(products := db.products[key := ProductRow(id, ProductName(event), url)], nextProductId := id + 1), id)
  }

  /** The snapshot row `persist_run` writes for an event. */
  function Snapshot(event: ArticleDict, searchTerm: string, observedAt: string): SnapshotRow {
    SnapshotRow(None, event.title.GetOr(""), searchTerm, event.category.GetOr("general"), event.date.GetOr(""), observedAt)
  }

  /** One pass of the event loop: upsert the product, then `INSERT OR REPLACE` its snapshot. */
  function ApplyEvent(db: Db, runId: int, searchTerm: string, observedAt: string, event: ArticleDict): Db {
    var (db1, productId) := Upsert(db, event);
    db1.(snapshots := db1.snapshots[(runId, productId) := Snapshot(event, searchTerm, observedAt)])
  }

  /** The event loop of `persist_run` over `events`, in order. */
  function ApplyEvents(db: Db, runId: int, searchTerm: string, observedAt: string, events: seq<ArticleDict>): Db {
    if events == [] then db
    else
      var n := |events| - 1;
      ApplyEvent(ApplyEvents(db, runId, searchTerm, observedAt, events[..n]), runId, searchTerm, observedAt, events[n])
  }

  /** The `runs` row `persist_run` inserts. */
  function NewRun(db: Db, info: RunInfo, fetchedCount: int): RunRow {
    RunRow(db.nextRunId, info.source, info.fetchedAt, info.searchTerm, info.recordLimit, info.status,
           fetchedCount, info.attempts, info.error)
  }

  /**
    `persist_run`: the run row, then one product upsert and one snapshot per
    event, all in one transaction. The run insert fails (and the transaction
    is rolled back) when the tables do not exist or the status breaks the
    `CHECK` constraint.
   */
  function Persist(db: Db, info: RunInfo, events: seq<ArticleDict>, observedAt: string): (r: (Db, Result<RunRecord, Exc>))
    ensures r.1.Failure? <==> !db.initialized || info.status !in Statuses
    ensures r.1.Failure? ==> r.0 == db && r.1.error.cls == SqliteError
  {
    if !db.initialized then (db, Failure(Raise(SqliteError, NoSuchTable)))
    else if info.status !in Statuses then (db, Failure(Raise(SqliteError, CheckFailed)))
    else
      (ApplyEvents(Opened(db, info, |events|), db.nextRunId, info.searchTerm, observedAt, events),
       Success(RunRecord(db.nextRunId, info.status, |events|, info.attempts, info.error)))
  }

  /** The database inside the transaction once the run row is inserted. */
  function Opened(db: Db, info: RunInfo, fetchedCount: int): Db {
    db.(runs := db.runs + [NewRun(db, info, fetchedCount)], nextRunId := db.nextRunId + 1)
  }

  /** `fetch_latest_run`: `SELECT * FROM runs ORDER BY id DESC LIMIT 1`. */
  function LatestRun(db: Db): Result<Option<RunRow>, Exc> {
    if !db.initialized then Failure(Raise(SqliteError, NoSuchTable))
    else if db.runs == [] then Success(None)
    else Success(Some(db.runs[|db.runs| - 1]))
  }

  /** `count_rows` for one of the three tables. */
  function RowCount(db: Db, table: Table): Result<nat, Exc> {
    if !db.initialized then Failure(Raise(SqliteError, "no such table"))
    else
      match table
      case Runs => Success(|db.runs|)
      case Products => Success(|db.products|)
      case ProductSnapshots => Success(|db.snapshots|)
  }

  // ---------------------------------------------------------------------------
  // Canonical keys and the rows an upsert writes

  /**
    Two events name the same product exactly when both have the same
    non-blank url, or both have a blank url and the same lower-cased title:
    a `url:` key never equals a `name:` key.
   */
  lemma SameCanonicalKey(e1: ArticleDict, e2: ArticleDict)
    ensures CanonicalKey(e1) == CanonicalKey(e2) <==>
      if UrlText(e1) != [] then UrlText(e2) == UrlText(e1)
      else UrlText(e2) == [] && Lower(TitleText(e1)) == Lower(TitleText(e2))
  {
    var k1, k2 := CanonicalKey(e1), CanonicalKey(e2);
    if UrlText(e1) != [] && UrlText(e2) != [] {
      assert k1[|UrlPrefix|..] == UrlText(e1) && k2[|UrlPrefix|..] == UrlText(e2);
    } else if UrlText(e1) == [] && UrlText(e2) == [] {
      assert k1[|NamePrefix|..] == Lower(TitleText(e1)) && k2[|NamePrefix|..] == Lower(TitleText(e2));
    } else {
      assert k1[0] != k2[0];
    }
  }

  /** The url an upsert writes is the one the event's key determines. */
  lemma ProductUrlFollowsKey(event: ArticleDict)
    ensures ProductUrl(event) == KeyUrl(CanonicalKey(event))
    ensures ProductUrl(event).None? <==> AllSpace(event.url.GetOr(""))
  {
    var key := CanonicalKey(event);
    StripMeaning(event.url.GetOr(""));
    if UrlText(event) != [] {
      assert key[..|UrlPrefix|] == UrlPrefix && key[|UrlPrefix|..] == UrlText(event);
    } else {
      assert key[..|UrlPrefix|] != UrlPrefix by {
        assert key[0] == 'n';
      }
    }
  }

  /** The name an upsert writes: the stripped title, or `"Untitled"` for a blank one; never empty. */
  lemma ProductNameMeaning(event: ArticleDict)
    ensures ProductName(event) != []
    ensures !AllSpace(event.title.GetOr("")) ==> ProductName(event) == TitleText(event)
    ensures AllSpace(event.title.GetOr("")) ==> ProductName(event) == Untitled
  {
    StripMeaning(event.title.GetOr(""));
  }

  /**
    After an upsert the key's row has the event's name and the id the
    `SELECT` returns, an existing row keeps its id, a new row takes the id
    the `INSERT` drew, one id is spent either way, and no other row changes.
   */
  lemma UpsertMeaning(db: Db, event: ArticleDict)
    ensures var (db1, id) := Upsert(db, event);
      var key := CanonicalKey(event);
      && key in db1.products && db1.products[key].id == id
      && db1.products[key].name == ProductName(event)
      && db1.products.Keys == db.products.Keys + {key}
      && (forall k :: k in db.products && k != key ==> db1.products[k] == db.products[k])
      && (key in db.products ==> id == db.products[key].id)
      && (key !in db.products ==> id == db.nextProductId)
      && db1.nextProductId == db.nextProductId + 1
      && db1 == db.(products := db1.products, nextProductId := db1.nextProductId)
  {
  }

  /**
    An upsert that updates an existing product still spends an id, so the
    next new product skips one: events `A, A, B` on a fresh table give `B`
    the id 3.
   */
  lemma UpdateLeavesGap(db: Db, e1: ArticleDict, e2: ArticleDict)
    requires CanonicalKey(e1) in db.products && CanonicalKey(e2) !in db.products
    ensures var db1 := Upsert(db, e1).0;
      Upsert(db1, e2).1 == db.nextProductId + 1
  {
    UpsertMeaning(db, e1);
  }

  /**
    Given rows whose urls follow their keys, the `COALESCE(excluded.url,
    products.url)` of an upsert never changes a url.
   */
  lemma CoalesceKeepsUrl(db: Db, event: ArticleDict)
    requires ProductsWellFormed(db)
    ensures var key := CanonicalKey(event);
      var db1 := Upsert(db, event).0;
      && db1.products[key].url == KeyUrl(key)
      && (key in db.products ==> db1.products[key].url == db.products[key].url)
  {
    ProductUrlFollowsKey(event);
  }

  // ---------------------------------------------------------------------------
  // The schema's constraints

  /** `runs.id` is `AUTOINCREMENT`: increasing in insertion order. */
  predicate RunsOrdered(db: Db) {
    forall i, j :: 0 <= i < j < |db.runs| ==> db.runs[i].id < db.runs[j].id
  }

  /** Every run id was handed out already, and every status passed the `CHECK`. */
  predicate RunsWellFormed(db: Db) {
    forall i :: 0 <= i < |db.runs| ==> 1 <= db.runs[i].id < db.nextRunId && db.runs[i].status in Statuses
  }

  /** Product ids were handed out already, names are `NOT NULL` and non-empty, urls follow keys. */
  predicate ProductsWellFormed(db: Db) {
    forall k :: k in db.products ==>
      1 <= db.products[k].id < db.nextProductId && db.products[k].name != [] && db.products[k].url == KeyUrl(k)
  }

  /** `products.id` is a primary key. */
  predicate ProductIdsUnique(db: Db) {
    forall k1, k2 :: k1 in db.products && k2 in db.products && k1 != k2 ==> db.products[k1].id != db.products[k2].id
  }

  predicate IsRunId(db: Db, id: int) {
    exists i :: 0 <= i < |db.runs| && db.runs[i].id == id
  }

  predicate IsProductId(db: Db, id: int) {
    exists k :: k in db.products && db.products[k].id == id
  }

  /** The two `FOREIGN KEY`s of `product_snapshots`. */
  predicate SnapshotsReferenced(db: Db) {
    forall key :: key in db.snapshots ==> IsRunId(db, key.0) && IsProductId(db, key.1)
  }

  /** Before `init_schema` there are no tables, hence no rows. */
  predicate EmptyBeforeSchema(db: Db) {
    !db.initialized ==> db.runs == [] && db.products == map[] && db.snapshots == map[]
  }

  predicate Inv(db: Db) {
    && 1 <= db.nextRunId && 1 <= db.nextProductId
    && RunsOrdered(db) && RunsWellFormed(db)
    && ProductsWellFormed(db) && ProductIdsUnique(db)
    && SnapshotsReferenced(db) && EmptyBeforeSchema(db)
  }

  lemma EmptyDbInv()
    ensures Inv(EmptyDb())
    ensures Inv(WithSchema(EmptyDb()))
  {
  }

  /** `init_schema` keeps every row and the invariant, and a second call changes nothing. */
  lemma WithSchemaKeepsInv(db: Db)
    requires Inv(db)
    ensures Inv(WithSchema(db))
    ensures WithSchema(WithSchema(db)) == WithSchema(db)
    ensures var db1 := WithSchema(db); db1.runs == db.runs && db1.products == db.products && db1.snapshots == db.snapshots
  {
  }

  /** An upsert keeps the product rows well formed and their ids unique, and every product id in use stays in use. */
  lemma UpsertKeepsProducts(db: Db, event: ArticleDict)
    requires 1 <= db.nextProductId && ProductsWellFormed(db) && ProductIdsUnique(db)
    ensures var (db1, pid) := Upsert(db, event);
      && 1 <= db1.nextProductId && ProductsWellFormed(db1) && ProductIdsUnique(db1) && IsProductId(db1, pid)
      && (forall id :: IsProductId(db, id) ==> IsProductId(db1, id))
  {
    var (db1, pid) := Upsert(db, event);
    UpsertMeaning(db, event);
    CoalesceKeepsUrl(db, event);
    ProductNameMeaning(event);
    assert ProductsWellFormed(db1);
    forall id | IsProductId(db, id) ensures IsProductId(db1, id) {
      var k :| k in db.products && db.products[k].id == id;
      assert k in db1.products && db1.products[k].id == id;
    }
  }

  /** One pass of the event loop keeps the invariant, given the run it writes for exists. */
  lemma ApplyEventKeepsInv(db: Db, runId: int, searchTerm: string, observedAt: string, event: ArticleDict)
    requires Inv(db) && IsRunId(db, runId)
    ensures Inv(ApplyEvent(db, runId, searchTerm, observedAt, event))
  {
    var (db1, pid) := Upsert(db, event);
    UpsertMeaning(db, event);
    UpsertKeepsProducts(db, event);
    var db2 := ApplyEvent(db, runId, searchTerm, observedAt, event);
    assert db2 == db1.(snapshots := db1.snapshots[(runId, pid) := Snapshot(event, searchTerm, observedAt)]);
    assert db2.runs == db.runs;
    assert forall id :: IsRunId(db, id) ==> IsRunId(db2, id);
  }

  lemma {:induction false} ApplyEventsKeepsInv(db: Db, runId: int, searchTerm: string, observedAt: string, events: seq<ArticleDict>)
    requires Inv(db) && IsRunId(db, runId)
    ensures Inv(ApplyEvents(db, runId, searchTerm, observedAt, events))
    ensures ApplyEvents(db, runId, searchTerm, observedAt, events).runs == db.runs
  {
    if events != [] {
      var n := |events| - 1;
      ApplyEventsKeepsInv(db, runId, searchTerm, observedAt, events[..n]);
      var mid := ApplyEvents(db, runId, searchTerm, observedAt, events[..n]);
      assert IsRunId(mid, runId) by {
        var i :| 0 <= i < |db.runs| && db.runs[i].id == runId;
        assert mid.runs[i].id == runId;
      }
      ApplyEventKeepsInv(mid, runId, searchTerm, observedAt, events[n]);
      UpsertMeaning(mid, events[n]);
    }
  }

  /** The run row a successful `persist_run` appends keeps the invariant and exists for the event loop. */
  lemma NewRunKeepsInv(db: Db, info: RunInfo, fetchedCount: int)
    requires Inv(db) && db.initialized && info.status in Statuses
    ensures var db1 := Opened(db, info, fetchedCount);
      Inv(db1) && IsRunId(db1, db.nextRunId)
  {
    var db1 := Opened(db, info, fetchedCount);
    assert db1.runs[|db.runs|].id == db.nextRunId;
    forall id | IsRunId(db, id) ensures IsRunId(db1, id) {
      var i :| 0 <= i < |db.runs| && db.runs[i].id == id;
      assert db1.runs[i].id == id;
    }
    assert SnapshotsReferenced(db1);
  }

  /** Every `persist_run`, successful or not, keeps the invariant. */
  lemma PersistKeepsInv(db: Db, info: RunInfo, events: seq<ArticleDict>, observedAt: string)
    requires Inv(db)
    ensures Inv(Persist(db, info, events, observedAt).0)
  {
    if db.initialized && info.status in Statuses {
      var db1 := Opened(db, info, |events|);
      NewRunKeepsInv(db, info, |events|);
      ApplyEventsKeepsInv(db1, db.nextRunId, info.searchTerm, observedAt, events);
    }
  }

  // ---------------------------------------------------------------------------
  // What `persist_run` writes

  /**
    The event loop changes only products and snapshots: the products are the
    old ones plus one per canonical key of the events, and each event spends
    one product id.
   */
  lemma {:induction false} ApplyEventsFrame(db: Db, runId: int, searchTerm: string, observedAt: string, events: seq<ArticleDict>)
    ensures var db2 := ApplyEvents(db, runId, searchTerm, observedAt, events);
      && db2.initialized == db.initialized && db2.runs == db.runs && db2.nextRunId == db.nextRunId
      && db2.products.Keys == db.products.Keys + KeySet(events, CanonicalKey)
      && db2.nextProductId == db.nextProductId + |events|
  {
    if events != [] {
      var n := |events| - 1;
      var mid := ApplyEvents(db, runId, searchTerm, observedAt, events[..n]);
      ApplyEventsFrame(db, runId, searchTerm, observedAt, events[..n]);
      UpsertMeaning(mid, events[n]);
      assert KeySet(events, CanonicalKey) == KeySet(events[..n], CanonicalKey) + {CanonicalKey(events[n])};
    }
  }

  /** A product that existed keeps its id, and is unchanged unless an event has its key. */
  lemma {:induction false} ApplyEventsKeepsProduct(db: Db, runId: int, searchTerm: string, observedAt: string, events: seq<ArticleDict>, k: string)
    requires k in db.products
    ensures var db2 := ApplyEvents(db, runId, searchTerm, observedAt, events);
      && k in db2.products && db2.products[k].id == db.products[k].id
      && (k !in KeySet(events, CanonicalKey) ==> db2.products[k] == db.products[k])
  {
    if events != [] {
      var n := |events| - 1;
      ApplyEventsKeepsProduct(db, runId, searchTerm, observedAt, events[..n], k);
      UpsertMeaning(ApplyEvents(db, runId, searchTerm, observedAt, events[..n]), events[n]);
    }
  }

  /** A key of the events ends with the name of the last event with that key. */
  lemma {:induction false} ApplyEventsName(db: Db, runId: int, searchTerm: string, observedAt: string, events: seq<ArticleDict>, k: string)
    requires k in KeySet(events, CanonicalKey)
    ensures var db2 := ApplyEvents(db, runId, searchTerm, observedAt, events);
      k in db2.products && db2.products[k].name == ProductName(events[LastIndex(events, CanonicalKey, k)])
  {
    var n := |events| - 1;
    var mid := ApplyEvents(db, runId, searchTerm, observedAt, events[..n]);
    UpsertMeaning(mid, events[n]);
    if CanonicalKey(events[n]) != k {
      ApplyEventsName(db, runId, searchTerm, observedAt, events[..n], k);
    }
  }

  /** A product the loop creates has an id above every id handed out before. */
  lemma {:induction false} ApplyEventsNewId(db: Db, runId: int, searchTerm: string, observedAt: string, events: seq<ArticleDict>, k: string)
    requires var db2 := ApplyEvents(db, runId, searchTerm, observedAt, events); k in db2.products && k !in db.products
    ensures var db2 := ApplyEvents(db, runId, searchTerm, observedAt, events);
      db.nextProductId <= db2.products[k].id < db2.nextProductId
  {
    var n := |events| - 1;
    var mid := ApplyEvents(db, runId, searchTerm, observedAt, events[..n]);
    UpsertMeaning(mid, events[n]);
    ApplyEventsFrame(db, runId, searchTerm, observedAt, events[..n]);
    if k in mid.products {
      ApplyEventsNewId(db, runId, searchTerm, observedAt, events[..n], k);
    }
  }

  /** Given no snapshot of the run yet, the event loop keeps every old snapshot and adds only snapshots of the run. */
  lemma {:induction false} ApplyEventsKeepsSnapshots(db: Db, runId: int, searchTerm: string, observedAt: string, events: seq<ArticleDict>)
    requires forall key :: key in db.snapshots ==> key.0 != runId
    ensures var db2 := ApplyEvents(db, runId, searchTerm, observedAt, events);
      && (forall key :: key in db.snapshots ==> key in db2.snapshots && db2.snapshots[key] == db.snapshots[key])
      && (forall key :: key in db2.snapshots ==> key in db.snapshots || key.0 == runId)
  {
    if events != [] {
      var n := |events| - 1;
      ApplyEventsKeepsSnapshots(db, runId, searchTerm, observedAt, events[..n]);
    }
  }

  /** Each key of the events has a snapshot of the run under its product id, holding the last event with that key. */
  lemma {:induction false} ApplyEventsSnapshotOf(db: Db, runId: int, searchTerm: string, observedAt: string, events: seq<ArticleDict>, k: string)
    requires Inv(db) && IsRunId(db, runId)
    requires k in KeySet(events, CanonicalKey)
    ensures var db2 := ApplyEvents(db, runId, searchTerm, observedAt, events);
      && k in db2.products && (runId, db2.products[k].id) in db2.snapshots
      && db2.snapshots[(runId, db2.products[k].id)] == Snapshot(events[LastIndex(events, CanonicalKey, k)], searchTerm, observedAt)
  {
    var n := |events| - 1;
    var e := events[n];
    var mid := ApplyEvents(db, runId, searchTerm, observedAt, events[..n]);
    UpsertMeaning(mid, e);
    if CanonicalKey(e) != k {
      ApplyEventsSnapshotOf(db, runId, searchTerm, observedAt, events[..n], k);
      ApplyEventsKeepsInv(db, runId, searchTerm, observedAt, events);
      var db2 := ApplyEvents(db, runId, searchTerm, observedAt, events);
      assert db2.products[k].id != db2.products[CanonicalKey(e)].id;
    }
  }

  /** Every snapshot of the run belongs to a key of the events. */
  lemma {:induction false} ApplyEventsSnapshotKey(db: Db, runId: int, searchTerm: string, observedAt: string, events: seq<ArticleDict>, key: (int, int))
    requires forall old_key :: old_key in db.snapshots ==> old_key.0 != runId
    requires var db2 := ApplyEvents(db, runId, searchTerm, observedAt, events); key in db2.snapshots && key.0 == runId
    ensures var db2 := ApplyEvents(db, runId, searchTerm, observedAt, events);
      exists k :: k in KeySet(events, CanonicalKey) && k in db2.products && db2.products[k].id == key.1
  {
    var n := |events| - 1;
    var e := events[n];
    var mid := ApplyEvents(db, runId, searchTerm, observedAt, events[..n]);
    UpsertMeaning(mid, e);
    var db2 := ApplyEvents(db, runId, searchTerm, observedAt, events);
    if key == (runId, Upsert(mid, e).1) {
      assert CanonicalKey(e) in KeySet(events, CanonicalKey);
    } else {
      ApplyEventsSnapshotKey(db, runId, searchTerm, observedAt, events[..n], key);
      var k :| k in KeySet(events[..n], CanonicalKey) && k in mid.products && mid.products[k].id == key.1;
      assert k in KeySet(events, CanonicalKey) && db2.products[k].id == key.1;
    }
  }

  /** The run a successful `persist_run` starts: its id is above every earlier run's and no snapshot has it yet. */
  lemma FreshRun(db: Db, info: RunInfo, fetchedCount: int)
    requires Inv(db) && db.initialized && info.status in Statuses
    ensures var db1 := Opened(db, info, fetchedCount);
      && Inv(db1) && IsRunId(db1, db.nextRunId)
      && (forall i :: 0 <= i < |db.runs| ==> db.runs[i].id < db.nextRunId)
      && (forall key :: key in db1.snapshots ==> key.0 != db.nextRunId)
  {
    NewRunKeepsInv(db, info, fetchedCount);
    forall key | key in db.snapshots ensures key.0 != db.nextRunId {
      var i :| 0 <= i < |db.runs| && db.runs[i].id == key.0;
    }
  }

  /**
    A successful `persist_run` appends one run row with the next id, reports
    `fetched_count = len(events)`, adds one product per new canonical key of
    the events, and keeps every older snapshot; its new snapshots all belong
    to the run.
   */
  lemma PersistSuccess(db: Db, info: RunInfo, events: seq<ArticleDict>, observedAt: string)
    requires Inv(db) && db.initialized && info.status in Statuses
    ensures var (db2, result) := Persist(db, info, events, observedAt);
      && result == Success(RunRecord(db.nextRunId, info.status, |events|, info.attempts, info.error))
      && db2.runs == db.runs + [NewRun(db, info, |events|)]
      && (forall i :: 0 <= i < |db.runs| ==> db.runs[i].id < result.value.runId)
      && db2.products.Keys == db.products.Keys + KeySet(events, CanonicalKey)
      && (forall key :: key in db.snapshots ==> key in db2.snapshots && db2.snapshots[key] == db.snapshots[key])
      && (forall key :: key in db2.snapshots ==> key in db.snapshots || key.0 == result.value.runId)
  {
    var db1 := Opened(db, info, |events|);
    FreshRun(db, info, |events|);
    ApplyEventsFrame(db1, db.nextRunId, info.searchTerm, observedAt, events);
    ApplyEventsKeepsSnapshots(db1, db.nextRunId, info.searchTerm, observedAt, events);
  }

  /**
    After a successful `persist_run`, each canonical key of the events has
    exactly one snapshot of the run, under its product id, holding the last
    event with that key, and every snapshot of the run is one of these.
   */
  lemma PersistSnapshots(db: Db, info: RunInfo, events: seq<ArticleDict>, observedAt: string, k: string, key: (int, int))
    requires Inv(db) && db.initialized && info.status in Statuses
    ensures var db2 := Persist(db, info, events, observedAt).0;
      && (k in KeySet(events, CanonicalKey) ==>
            && k in db2.products && (db.nextRunId, db2.products[k].id) in db2.snapshots
            && db2.snapshots[(db.nextRunId, db2.products[k].id)]
               == Snapshot(events[LastIndex(events, CanonicalKey, k)], info.searchTerm, observedAt))
      && (key in db2.snapshots && key.0 == db.nextRunId ==>
            exists k' :: k' in KeySet(events, CanonicalKey) && k' in db2.products && db2.products[k'].id == key.1)
  {
    var db1 := Opened(db, info, |events|);
    FreshRun(db, info, |events|);
    var db2 := ApplyEvents(db1, db.nextRunId, info.searchTerm, observedAt, events);
    if k in KeySet(events, CanonicalKey) {
      ApplyEventsSnapshotOf(db1, db.nextRunId, info.searchTerm, observedAt, events, k);
    }
    if key in db2.snapshots && key.0 == db.nextRunId {
      ApplyEventsSnapshotKey(db1, db.nextRunId, info.searchTerm, observedAt, events, key);
    }
  }

  /**
    After a successful `persist_run`, every product an event names carries
    the name of the last such event; a product that existed keeps its id, and
    is unchanged when no event names it.
   */
  lemma PersistProducts(db: Db, info: RunInfo, events: seq<ArticleDict>, observedAt: string, k: string)
    requires Inv(db) && db.initialized && info.status in Statuses
    ensures var db2 := Persist(db, info, events, observedAt).0;
      && (k in KeySet(events, CanonicalKey) ==>
            k in db2.products && db2.products[k].name == ProductName(events[LastIndex(events, CanonicalKey, k)]))
      && (k in db.products ==> k in db2.products && db2.products[k].id == db.products[k].id)
      && (k in db.products && k !in KeySet(events, CanonicalKey) ==> db2.products[k] == db.products[k])
      && (k in db2.products && k !in db.products ==> db.nextProductId <= db2.products[k].id)
  {
    var db1 := Opened(db, info, |events|);
    var db2 := ApplyEvents(db1, db.nextRunId, info.searchTerm, observedAt, events);
    if k in KeySet(events, CanonicalKey) {
      ApplyEventsName(db1, db.nextRunId, info.searchTerm, observedAt, events, k);
    }
    if k in db.products {
      ApplyEventsKeepsProduct(db1, db.nextRunId, info.searchTerm, observedAt, events, k);
    }
    if k in db2.products && k !in db.products {
      ApplyEventsNewId(db1, db.nextRunId, info.searchTerm, observedAt, events, k);
    }
  }

  /** The keys of the snapshots of run `runId`. */
  function RunSnapshots(db: Db, runId: int): set<(int, int)> {
    set key | key in db.snapshots && key.0 == runId
  }

  /**
    The row counts after a successful `persist_run`: one run more, one
    product more per canonical key of the events not seen before, and one
    snapshot of the run per distinct canonical key of the events.
   */
  lemma PersistRowCounts(db: Db, info: RunInfo, events: seq<ArticleDict>, observedAt: string)
    requires Inv(db) && db.initialized && info.status in Statuses
    ensures var db2 := Persist(db, info, events, observedAt).0;
      var keys := KeySet(events, CanonicalKey);
      && |db2.runs| == |db.runs| + 1
      && |db2.products| == |db.products| + |keys - db.products.Keys|
      && |RunSnapshots(db2, db.nextRunId)| == |keys|
      && |db2.snapshots| == |db.snapshots| + |keys|
  {
    PersistProductCount(db, info, events, observedAt);
    PersistSnapshotCount(db, info, events, observedAt);
  }

  lemma PersistProductCount(db: Db, info: RunInfo, events: seq<ArticleDict>, observedAt: string)
    requires Inv(db) && db.initialized && info.status in Statuses
    ensures var db2 := Persist(db, info, events, observedAt).0;
      var keys := KeySet(events, CanonicalKey);
      && |db2.runs| == |db.runs| + 1
      && |db2.products| == |db.products| + |keys - db.products.Keys|
  {
    var db2 := Persist(db, info, events, observedAt).0;
    var keys := KeySet(events, CanonicalKey);
    PersistSuccess(db, info, events, observedAt);
    assert db2.products.Keys == db.products.Keys + (keys - db.products.Keys);
  }

  lemma PersistSnapshotCount(db: Db, info: RunInfo, events: seq<ArticleDict>, observedAt: string)
    requires Inv(db) && db.initialized && info.status in Statuses
    ensures var db2 := Persist(db, info, events, observedAt).0;
      var keys := KeySet(events, CanonicalKey);
      && |RunSnapshots(db2, db.nextRunId)| == |keys|
      && |db2.snapshots| == |db.snapshots| + |keys|
  {
    var db2 := Persist(db, info, events, observedAt).0;
    var keys := KeySet(events, CanonicalKey);
    PersistSuccess(db, info, events, observedAt);
    PersistKeepsInv(db, info, events, observedAt);
    FreshRun(db, info, |events|);
    forall k | k in keys ensures k in db2.products && (db.nextRunId, db2.products[k].id) in db2.snapshots {
      PersistSnapshots(db, info, events, observedAt, k, (0, 0));
    }
    forall key | key in db2.snapshots && key.0 == db.nextRunId
      ensures exists k :: k in keys && k in db2.products && db2.products[k].id == key.1
    {
      PersistSnapshots(db, info, events, observedAt, "", key);
    }
    RunSnapshotsSize(db2, db.nextRunId, keys);
    SnapshotsAdded(db, db2, db.nextRunId);
  }

  /** Snapshots of a run, one under the product id of each of some keys and no others, number as many as the keys. */
  lemma RunSnapshotsSize(db: Db, runId: int, keys: set<string>)
    requires ProductIdsUnique(db)
    requires forall k :: k in keys ==> k in db.products && (runId, db.products[k].id) in db.snapshots
    requires forall key :: key in db.snapshots && key.0 == runId ==>
      exists k :: k in keys && k in db.products && db.products[k].id == key.1
    ensures |RunSnapshots(db, runId)| == |keys|
  {
    var f := (k: string) => (runId, if k in db.products then db.products[k].id else 0);
    var run := RunSnapshots(db, runId);
    forall key | key in run ensures key in Image(keys, f) {
      var k :| k in keys && k in db.products && db.products[k].id == key.1;
      assert f(k) == key;
    }
    assert run == Image(keys, f);
    forall x, y | x in keys && y in keys && f(x) == f(y) ensures x == y {
      assert db.products[x].id == db.products[y].id;
    }
    InjectiveImageSize(keys, f);
  }

  /** Keeping every old snapshot, none of them of run `runId`, and adding only snapshots of that run adds exactly those. */
  lemma SnapshotsAdded(db: Db, db2: Db, runId: int)
    requires forall key :: key in db.snapshots ==> key.0 != runId
    requires forall key :: key in db.snapshots ==> key in db2.snapshots
    requires forall key :: key in db2.snapshots ==> key in db.snapshots || key.0 == runId
    ensures |db2.snapshots| == |db.snapshots| + |RunSnapshots(db2, runId)|
  {
    var run := RunSnapshots(db2, runId);
    assert db2.snapshots.Keys == db.snapshots.Keys + run;
    assert db.snapshots.Keys * run == {};
  }

  /** The store only grows: no call of `persist_run` deletes or rewrites a run or a snapshot, or drops a product. */
  lemma PersistOnlyGrows(db: Db, info: RunInfo, events: seq<ArticleDict>, observedAt: string)
    requires Inv(db)
    ensures var db2 := Persist(db, info, events, observedAt).0;
      && db.runs <= db2.runs && db.products.Keys <= db2.products.Keys
      && (forall key :: key in db.snapshots ==> key in db2.snapshots && db2.snapshots[key] == db.snapshots[key])
  {
    if db.initialized && info.status in Statuses {
      PersistSuccess(db, info, events, observedAt);
    }
  }

  /** `fetch_latest_run` returns the run with the highest id, and none only when there are no runs. */
  lemma LatestRunIsNewest(db: Db)
    requires Inv(db)
    ensures LatestRun(db).Failure? <==> !db.initialized
    ensures LatestRun(db) == Success(None) <==> db.initialized && db.runs == []
    ensures LatestRun(db).Success? && LatestRun(db).value.Some? ==>
      var row := LatestRun(db).value.value;
      row in db.runs && forall i :: 0 <= i < |db.runs| ==> db.runs[i].id <= row.id
  {
  }

  // ---------------------------------------------------------------------------
  // The store's tests, on a fresh database file after `init_schema`

  /** A fresh database file after `init_schema` keeps the invariant and counts no rows in any table. */
  lemma SchemaCreation(table: Table)
    ensures Inv(EmptyDb()) && Inv(WithSchema(EmptyDb()))
    ensures RowCount(WithSchema(EmptyDb()), table) == Success(0)
    ensures RowCount(EmptyDb(), table).Failure?
  {
  }

  /** `persist_run` with one event on an open database: one run row, then the event loop once. */
  lemma PersistOne(db: Db, info: RunInfo, event: ArticleDict, observedAt: string)
    requires db.initialized && info.status in Statuses
    ensures Persist(db, info, [event], observedAt)
         == (ApplyEvent(Opened(db, info, 1), db.nextRunId, info.searchTerm, observedAt, event),
             Success(RunRecord(db.nextRunId, info.status, 1, info.attempts, info.error)))
  {
    assert [event][..0] == [];
    assert ApplyEvents(Opened(db, info, 1), db.nextRunId, info.searchTerm, observedAt, [event])
        == ApplyEvent(Opened(db, info, 1), db.nextRunId, info.searchTerm, observedAt, event);
  }

  /** One successful run with one event: one run, one product, one snapshot. */
  lemma SuccessfulWriteAndSnapshot(info: RunInfo, event: ArticleDict, observedAt: string)
    requires info.status == "success"
    ensures var (db, result) := Persist(WithSchema(EmptyDb()), info, [event], observedAt);
      && result.Success? && result.value.status == "success" && result.value.fetchedCount == 1
      && RowCount(db, Runs) == Success(1)
      && RowCount(db, Products) == Success(1)
      && RowCount(db, ProductSnapshots) == Success(1)
  {
    PersistOne(WithSchema(EmptyDb()), info, event, observedAt);
  }

  /** A run with one event: one more run row, the event's product, and one more snapshot under it. */
  lemma OneEventRun(db: Db, info: RunInfo, event: ArticleDict, observedAt: string)
    requires db.initialized && info.status in Statuses
    ensures var (db2, result) := Persist(db, info, [event], observedAt);
      var key := CanonicalKey(event);
      && result.Success? && result.value.runId == db.nextRunId
      && |db2.runs| == |db.runs| + 1 && db2.nextRunId == db.nextRunId + 1 && db2.initialized
      && db2.products.Keys == db.products.Keys + {key}
      && db2.products[key].id == (if key in db.products then db.products[key].id else db.nextProductId)
      && db2.snapshots.Keys == db.snapshots.Keys + {(db.nextRunId, db2.products[key].id)}
  {
    PersistOne(db, info, event, observedAt);
    UpsertMeaning(Opened(db, info, 1), event);
  }

  /** The same event in two runs: two runs and two snapshots, but one product, under the same id. */
  lemma DedupeUpsertByUrl(info1: RunInfo, info2: RunInfo, event: ArticleDict, observedAt1: string, observedAt2: string)
    requires info1.status in Statuses && info2.status in Statuses
    ensures var (db1, r1) := Persist(WithSchema(EmptyDb()), info1, [event], observedAt1);
      var (db2, r2) := Persist(db1, info2, [event], observedAt2);
      && r1.Success? && r2.Success? && r1.value.runId != r2.value.runId
      && RowCount(db2, Runs) == Success(2)
      && RowCount(db2, Products) == Success(1)
      && RowCount(db2, ProductSnapshots) == Success(2)
      && db2.snapshots.Keys == {(r1.value.runId, 1), (r2.value.runId, 1)}
  {
    var db0 := WithSchema(EmptyDb());
    var key := CanonicalKey(event);
    OneEventRun(db0, info1, event, observedAt1);
    var (db1, r1) := Persist(db0, info1, [event], observedAt1);
    assert db1.products.Keys == {key} && db1.products[key].id == 1;
    assert db1.snapshots.Keys == {(1, 1)} && |db1.runs| == 1 && db1.nextRunId == 2;
    OneEventRun(db1, info2, event, observedAt2);
    var (db2, r2) := Persist(db1, info2, [event], observedAt2);
    assert db2.products.Keys == {key} && |db2.runs| == 2;
    assert db2.snapshots.Keys == {(1, 1), (2, 1)};
    assert |db2.snapshots.Keys| == 2;
  }

  /**
    Two events with the same canonical key in one call: one product, named
    after the later event, and one snapshot, holding the later event, while
    `fetched_count` still counts both events.
   */
  lemma SameKeyInOneCall(info: RunInfo, e1: ArticleDict, e2: ArticleDict, observedAt: string)
    requires info.status in Statuses && CanonicalKey(e1) == CanonicalKey(e2)
    ensures var (db, result) := Persist(WithSchema(EmptyDb()), info, [e1, e2], observedAt);
      var k := CanonicalKey(e2);
      && result.Success? && result.value.fetchedCount == 2
      && RowCount(db, Products) == Success(1)
      && RowCount(db, ProductSnapshots) == Success(1)
      && k in db.products && db.products[k].name == ProductName(e2)
      && (result.value.runId, db.products[k].id) in db.snapshots
      && db.snapshots[(result.value.runId, db.products[k].id)] == Snapshot(e2, info.searchTerm, observedAt)
  {
    var db0 := WithSchema(EmptyDb());
    var events := [e1, e2];
    var k := CanonicalKey(e2);
    var db1 := Opened(db0, info, 2);
    assert events[..1] == [e1];
    assert [e1][..0] == [];
    var mid := ApplyEvent(db1, 1, info.searchTerm, observedAt, e1);
    assert ApplyEvents(db1, 1, info.searchTerm, observedAt, [e1]) == mid;
    assert ApplyEvents(db1, 1, info.searchTerm, observedAt, events) == ApplyEvent(mid, 1, info.searchTerm, observedAt, e2);
    UpsertMeaning(db1, e1);
    assert mid.products.Keys == {k} && mid.products[k].id == 1 && mid.snapshots.Keys == {(1, 1)};
    UpsertMeaning(mid, e2);
    var db := ApplyEvent(mid, 1, info.searchTerm, observedAt, e2);
    assert db.products.Keys == {k} && db.products[k].id == 1;
    assert db.snapshots == map[(1, 1) := Snapshot(e2, info.searchTerm, observedAt)];
    assert |db.products.Keys| == 1;
  }

  /** A failed run with no events is stored with its error and attempts, and is what `fetch_latest_run` returns. */
  lemma FailedRunPersistence(info: RunInfo, observedAt: string)
    requires info.status == "failure"
    ensures var (db, result) := Persist(WithSchema(EmptyDb()), info, [], observedAt);
      && result.Success? && result.value.status == "failure"
      && LatestRun(db).Success? && LatestRun(db).value.Some?
      && RowCount(db, ProductSnapshots) == Success(0)
      && var row := LatestRun(db).value.value;
         row.status == "failure" && row.error == info.error && row.attempts == info.attempts
  {
  }

  class EventStore {
    var initialized: bool
    var runs: seq<RunRow>
    var products: map<string, ProductRow>
    var snapshots: map<(int, int), SnapshotRow>
    var nextRunId: int
    var nextProductId: int

    function State(): Db
      reads this
    {
      Db(initialized, runs, products, snapshots, nextRunId, nextProductId)
    }

    /** `SQLiteEventStore(db_path)` on a fresh database file. */
    constructor ()
      ensures State() == EmptyDb()
    {
      initialized := false;
      runs := [];
      products := map[];
      snapshots := map[];
      nextRunId := 1;
      nextProductId := 1;
    }

    method InitSchema()
      modifies this
      ensures State() == WithSchema(old(State()))
    {
      initialized := true;
    }

    /** `_upsert_product`, on the open connection of a `persist_run`. */
    method UpsertProduct(event: ArticleDict) returns (productId: int)
      requires initialized
      modifies this
      ensures (State(), productId) == Upsert(old(State()), event)
    {
      ghost var before := State();
      var key := CanonicalKey(event);
      var name := ProductName(event);
      var url := ProductUrl(event);
      if key in products {
        var row := products[key];
        products := products[key := ProductRow(row.id, name, if url.Some? then url else row.url)];
      } else {
        products := products[key := ProductRow(nextProductId, name, url)];
      }
      nextProductId := nextProductId + 1;
      productId := products[key].id;
      assert State() == Upsert(before, event).0;
    }

    method PersistRun(info: RunInfo, events: seq<ArticleDict>, observedAt: string) returns (result: Result<RunRecord, Exc>)
      modifies this
      ensures (State(), result) == Persist(old(State()), info, events, observedAt)
    {
      if !initialized {
        return Failure(Raise(SqliteError, NoSuchTable));
      }
      if info.status !in Statuses {
        return Failure(Raise(SqliteError, CheckFailed));
      }
      var runId := nextRunId;
      runs := runs + [NewRun(State(), info, |events|)];
      nextRunId := runId + 1;
      ghost var start := State();
      for i := 0 to |events|
        invariant initialized
        invariant State() == ApplyEvents(start, runId, info.searchTerm, observedAt, events[..i])
      {
        assert events[..i + 1][..i] == events[..i];
        var productId := UpsertProduct(events[i]);
        snapshots := snapshots[(runId, productId) := Snapshot(events[i], info.searchTerm, observedAt)];
      }
      assert events[..|events|] == events;
      result := Success(RunRecord(runId, info.status, |events|, info.attempts, info.error));
    }

    method FetchLatestRun() returns (row: Result<Option<RunRow>, Exc>)
      ensures row == LatestRun(State())
    {
      if !initialized {
        return Failure(Raise(SqliteError, NoSuchTable));
      }
      if runs == [] {
        return Success(None);
      }
      row := Success(Some(runs[|runs| - 1]));
    }

    /** `count_rows(table_name)` for one of the three tables. */
    method CountRows(table: Table) returns (count: Result<nat, Exc>)
      ensures count == RowCount(State(), table)
    {
      if !initialized {
        return Failure(Raise(SqliteError, "no such table"));
      }
      match table {
        case Runs => count := Success(|runs|);
        case Products => count := Success(|products|);
        case ProductSnapshots => count := Success(|snapshots|);
      }
    }
  }
}
