/**
 The durable crawl queue of `backend/db.py`: one row per target, and every SQL
 statement that touches the table as one atomic step.

 `Table` is the value of the table; the functions on it say what each statement
 does, and the methods of `Queue` do it in place.
 */
module CrawlQueue {
  import opened Options

  type RowId = nat
  type Time = int
  type Worker = string
  type CrawlerId = int

  const QUEUE_PRIORITY_INTERACTIVE: nat := 1

  datatype Target = Release(discogsId: string) | Stock(itemKey: string)

  datatype Status = Pending | InProgress | Done

  /** A `crawl_queue` row. `crawlers` is `pending_crawler_ids`. */
  datatype Row = Row(
    target: Target,
    status: Status,
    priority: nat,
    requestedAt: Time,
    availableAt: Time,
    claimedBy: Option<Worker>,
    claimedAt: Option<Time>,
    completedAt: Option<Time>,
    crawlers: Option<seq<CrawlerId>>)
  {
    /** What every routine path back to 'pending' writes over a claim. */
    function HandedBack(): Row {
      this.(status := Pending, claimedBy := None, claimedAt := None)
    }

    function Revived(now: Time): Row {
      HandedBack().(requestedAt := now, availableAt := now, completedAt := None, crawlers := None)
    }

    /** The save's DO UPDATE arm, for a row that is not in progress. */
    function Expedited(now: Time): Row {
      HandedBack().(
      priority := QUEUE_PRIORITY_INTERACTIVE,
      requestedAt := if status == Pending && priority > 0 then requestedAt else now,
      availableAt := if status == Done then now else availableAt,
      completedAt := None,
      crawlers := None)
    }

    /** Claim columns are null exactly where the status says nobody holds the row,
        and a narrowed crawler set names each crawler once. */
    predicate Consistent() {
      && (status == Pending ==> claimedBy == None && claimedAt == None)
      && (status == InProgress ==> claimedBy.Some? && claimedAt.Some?)
      && (crawlers.Some? ==> NoDuplicates(crawlers.value))
    }
  }

  predicate NoDuplicates<T(==)>(s: seq<T>) {
    forall i, j :: 0 <= i < j < |s| ==> s[i] != s[j]
  }

  function FreshRow(target: Target, priority: nat, now: Time): Row {
    Row(target, Pending, priority, now, now, None, None, None, None)
  }

  /** The store and library state the gates read. `listed` holds the item keys some
      enabled store still lists, `wanted` the keys somebody saved or owns. */
  datatype Gate = Gate(listed: set<string>, wanted: set<string>, libraryOnly: bool) {
    predicate Crawlable(key: string) {
      key in listed && (libraryOnly ==> key in wanted)
    }

    predicate Admits(target: Target) {
      target.Stock? ==> Crawlable(target.itemKey)
    }
  }

  /** The rows by id, and the unique indexes on `discogs_id` and `item_key`. */
  datatype Table = Table(rows: map<RowId, Row>, index: map<Target, RowId>, nextId: RowId) {
    ghost predicate Valid() {
      && (forall id :: id in rows ==> rows[id].target in index && index[rows[id].target] == id)
      && (forall t :: t in index ==> index[t] in rows && rows[index[t]].target == t)
      && (forall id :: id in rows ==> id < nextId)
      && (forall id :: id in rows ==> rows[id].Consistent())
    }

    function With(id: RowId, row: Row): Table
      requires id in rows
    {
      this.(rows := rows[id := row])
    }

    function Insert(row: Row): Table {
      Table(rows[nextId := row], index[row.target := nextId], nextId + 1)
    }

    predicate Has(target: Target) {
      target in index && index[target] in rows
    }

    /** INSERT .. ON CONFLICT DO UPDATE .. WHERE status = 'done'. */
    function InsertOrRevive(target: Target, now: Time, resetPriority: bool): Table {
      if !Has(target) then Insert(FreshRow(target, 0, now))
      else
        var row := rows[index[target]];
        if row.status != Done then this
        else With(index[target], row.Revived(now).(priority := if resetPriority then 0 else row.priority))
    }

    /** INSERT .. ON CONFLICT DO NOTHING. */
    function InsertIfAbsent(target: Target, now: Time): Table {
      if Has(target) then this else Insert(FreshRow(target, 0, now))
    }

    /** enqueue_crawl_queue_for_saved_stock_item: insert, expedite, or only stamp the
        priority of a row a worker is holding. */
    function Save(key: string, gate: Gate, now: Time): Table {
      if key !in gate.listed then this
      else if !Has(Stock(key)) then Insert(FreshRow(Stock(key), QUEUE_PRIORITY_INTERACTIVE, now))
      else
        var id := index[Stock(key)];
        var row := rows[id];
        With(id, if row.status == InProgress then row.(priority := QUEUE_PRIORITY_INTERACTIVE)
                 else row.Expedited(now))
    }

    predicate Claimable(id: RowId, gate: Gate, now: Time) {
      id in rows && rows[id].status == Pending && rows[id].availableAt <= now && gate.Admits(rows[id].target)
    }

    /** ORDER BY priority DESC, (item_key IS NOT NULL), requested_at, id. */
    predicate Before(a: RowId, b: RowId)
      requires a in rows && b in rows
    {
      var x, y := rows[a], rows[b];
      if x.priority != y.priority then x.priority > y.priority
      else if x.target.Stock? != y.target.Stock? then x.target.Release?
      else if x.requestedAt != y.requestedAt then x.requestedAt < y.requestedAt
      else a < b
    }

    /** What the claim's SELECT may take: claimable rows no other transaction has locked. */
    function Candidates(gate: Gate, now: Time, locked: set<RowId>): set<RowId> {
      set id | id in rows && id !in locked && Claimable(id, gate, now)
    }

    function Claim(batch: seq<RowId>, worker: Worker, now: Time): Table {
      this.(rows := map id | id in rows ::
        if id in batch then rows[id].(status := InProgress, claimedBy := Some(worker), claimedAt := Some(now))
        else rows[id])
    }

    /** The WHERE id = .. AND claimed_by = .. that gates every write of a pass. */
    predicate Held(id: RowId, worker: Worker) {
      id in rows && rows[id].claimedBy == Some(worker)
    }

    function MarkDone(id: RowId, worker: Worker, now: Time): Table {
      if Held(id, worker) then With(id, rows[id].(status := Done, completedAt := Some(now))) else this
    }

    function Defer(id: RowId, worker: Worker, crawlers: seq<CrawlerId>, delay: nat, now: Time): Table {
      if Held(id, worker)
      then With(id, rows[id].HandedBack().(crawlers := Some(crawlers), availableAt := now + delay))
      else this
    }

    function HandBack(ids: set<RowId>): Table {
      this.(rows := map id | id in rows :: if id in ids then rows[id].HandedBack() else rows[id])
    }

    /** The claims older than the stranded cutoff, less the rows another transaction holds. */
    function Stranded(after: nat, now: Time, locked: set<RowId>): set<RowId> {
      set id | id in rows && id !in locked && rows[id].status == InProgress
               && rows[id].claimedAt.Some? && rows[id].claimedAt.value < now - after
    }

    /** The done rows an enabled crawler has no price for. */
    function Unpriced(priced: set<Target>, releaseOnly: bool, locked: set<RowId>): set<RowId> {
      set id | id in rows && id !in locked && rows[id].status == Done
               && (releaseOnly ==> rows[id].target.Release?) && rows[id].target !in priced
    }

    /** backfill_crawl_queue_for_crawler's first statement. */
    function ReviveFor(crawler: CrawlerId, ids: set<RowId>, now: Time): Table {
      this.(rows := map id | id in rows ::
        if id in ids then rows[id].Revived(now).(crawlers := Some([crawler]), priority := 0) else rows[id])
    }

    /** backfill_crawl_queue_for_crawler's second statement: widen the narrowed rows. */
    function WidenFor(crawler: CrawlerId, now: Time, locked: set<RowId>): Table {
      this.(rows := map id | id in rows ::
        var row := rows[id];
        if id !in locked && row.status == Pending && row.crawlers.Some? && crawler !in row.crawlers.value
        then row.(crawlers := Some(row.crawlers.value + [crawler]), availableAt := now)
        else row)
    }

    function Dead(gate: Gate): set<RowId> {
      set id | id in rows && rows[id].status == Pending && rows[id].target.Stock?
               && !gate.Crawlable(rows[id].target.itemKey)
    }

    function Delete(ids: set<RowId>): Table {
      this.(rows := map id | id in rows && id !in ids :: rows[id],
      index := map t | t in index && index[t] !in ids :: index[t])
    }
  }

  /** A batch the claim may return: as many candidates as fit, in claim order, with
      nothing left behind that sorts before a row it took. */
  ghost predicate ClaimBatch(t: Table, candidates: set<RowId>, limit: nat, batch: seq<RowId>)
    requires candidates <= t.rows.Keys
  {
    && (forall i :: 0 <= i < |batch| ==> batch[i] in candidates)
    && (forall i, j :: 0 <= i < j < |batch| ==> t.Before(batch[i], batch[j]))
    && (forall i, id :: 0 <= i < |batch| && id in candidates && id !in batch ==> t.Before(batch[i], id))
    && |batch| == if |candidates| < limit then |candidates| else limit
  }

  ghost predicate IsFirst(t: Table, ids: set<RowId>, m: RowId)
    requires ids <= t.rows.Keys
  {
    m in ids && forall o :: o in ids && o != m ==> t.Before(m, o)
  }

  lemma {:induction false} FirstExists(t: Table, ids: set<RowId>) returns (m: RowId)
    requires ids <= t.rows.Keys && ids != {}
    ensures IsFirst(t, ids, m)
  {
    var x :| x in ids;
    m := x;
    if ids != {x} {
      var least := FirstExists(t, ids - {x});
      m := if t.Before(x, least) then x else least;
      assert forall o :: o in ids && o != x && o != least ==> t.Before(least, o) by {
        assert forall o :: o in ids && o != x ==> o in ids - {x};
      }
      assert t.Before(x, least) || t.Before(least, x);
    }
  }

  lemma FirstPrecedes(t: Table, candidates: set<RowId>, limit: nat, m: RowId, rest: seq<RowId>)
    requires candidates <= t.rows.Keys && limit > 0
    requires IsFirst(t, candidates, m) && ClaimBatch(t, candidates - {m}, limit - 1, rest)
    ensures ClaimBatch(t, candidates, limit, [m] + rest)
  {
    var batch := [m] + rest;
    forall i, j | 0 <= i < j < |batch| ensures t.Before(batch[i], batch[j]) {
      assert batch[j] == rest[j - 1];
      if i > 0 { assert batch[i] == rest[i - 1]; }
    }
    forall i, id | 0 <= i < |batch| && id in candidates && id !in batch ensures t.Before(batch[i], id) {
      assert id != m && id !in rest;
      if i > 0 { assert batch[i] == rest[i - 1]; }
    }
    assert |candidates - {m}| == |candidates| - 1;
  }

  /** The first `limit` candidates in claim order. */
  function FirstInOrder(t: Table, candidates: set<RowId>, limit: nat): (batch: seq<RowId>)
    requires candidates <= t.rows.Keys
    ensures ClaimBatch(t, candidates, limit, batch)
  {
    if limit == 0 || candidates == {} then []
    else
      assert exists m :: IsFirst(t, candidates, m) by { var m := FirstExists(t, candidates); }
      var m :| m in candidates && forall o :: o in candidates && o != m ==> t.Before(m, o);
      var rest := FirstInOrder(t, candidates - {m}, limit - 1);
      FirstPrecedes(t, candidates, limit, m, rest);
      [m] + rest
  }

  /** The claim's two ORDER BYs determine the batch, the order it is worked in included. */
  lemma {:induction false} ClaimBatchUnique(t: Table, candidates: set<RowId>, limit: nat, a: seq<RowId>, b: seq<RowId>)
    requires candidates <= t.rows.Keys
    requires ClaimBatch(t, candidates, limit, a) && ClaimBatch(t, candidates, limit, b)
    ensures a == b
    decreases |a|
  {
    if |a| > 0 {
      assert a[0] == b[0] || t.Before(a[0], b[0]);
      assert a[0] == b[0] || t.Before(b[0], a[0]);
      var rest := candidates - {a[0]};
      assert ClaimBatch(t, rest, limit - 1, a[1..]) by { TailIsBatch(t, candidates, limit, a); }
      assert ClaimBatch(t, rest, limit - 1, b[1..]) by { TailIsBatch(t, candidates, limit, b); }
      ClaimBatchUnique(t, rest, limit - 1, a[1..], b[1..]);
      assert a == [a[0]] + a[1..] && b == [b[0]] + b[1..];
    }
  }

  lemma TailIsBatch(t: Table, candidates: set<RowId>, limit: nat, a: seq<RowId>)
    requires candidates <= t.rows.Keys
    requires |a| > 0 && ClaimBatch(t, candidates, limit, a)
    ensures ClaimBatch(t, candidates - {a[0]}, limit - 1, a[1..])
  {
    forall i | 0 <= i < |a[1..]| ensures a[1..][i] in candidates - {a[0]} {
      assert t.Before(a[0], a[i + 1]);
    }
    assert forall id :: id in candidates - {a[0]} && id !in a[1..] ==> id !in a;
  }

  /** An expedited candidate is never left behind by a batch that takes a routine row,
      and within the batch it is worked first. */
  lemma ExpeditedFirst(t: Table, candidates: set<RowId>, limit: nat, saved: RowId, routine: RowId)
    requires candidates <= t.rows.Keys && saved in candidates && routine in candidates
    requires t.rows[saved].priority > 0 && t.rows[routine].priority == 0
    ensures var batch := FirstInOrder(t, candidates, limit);
            forall j :: 0 <= j < |batch| && batch[j] == routine ==> saved in batch[..j]
  {
    var batch := FirstInOrder(t, candidates, limit);
    forall j | 0 <= j < |batch| && batch[j] == routine ensures saved in batch[..j] {
      assert saved in batch || t.Before(batch[j], saved);
      var i :| 0 <= i < |batch| && batch[i] == saved;
      assert i < j || i == j || t.Before(batch[j], batch[i]);
      assert batch[..j][i] == saved;
    }
  }

  // ----- What each statement keeps -----

  lemma InsertValid(t: Table, row: Row)
    requires t.Valid() && row.target !in t.index && row.Consistent()
    ensures t.Insert(row).Valid()
  {
  }

  lemma WithValid(t: Table, id: RowId, row: Row)
    requires t.Valid() && id in t.rows && row.target == t.rows[id].target && row.Consistent()
    ensures t.With(id, row).Valid()
  {
  }

  /** Statements that rewrite rows in place, never moving one to another target. */
  lemma RewriteValid(t: Table, u: Table)
    requires t.Valid() && u.index == t.index && u.nextId == t.nextId && u.rows.Keys == t.rows.Keys
    requires forall id :: id in t.rows ==> u.rows[id].target == t.rows[id].target && u.rows[id].Consistent()
    ensures u.Valid()
  {
  }

  lemma ClaimValid(t: Table, batch: seq<RowId>, worker: Worker, now: Time)
    requires t.Valid()
    ensures t.Claim(batch, worker, now).Valid()
  {
    var u := t.Claim(batch, worker, now);
    forall id | id in t.rows ensures u.rows[id].target == t.rows[id].target && u.rows[id].Consistent() {
      assert t.rows[id].Consistent();
    }
    RewriteValid(t, u);
  }

  lemma WidenValid(t: Table, crawler: CrawlerId, now: Time, locked: set<RowId>)
    requires t.Valid()
    ensures t.WidenFor(crawler, now, locked).Valid()
  {
    var u := t.WidenFor(crawler, now, locked);
    forall id | id in t.rows ensures u.rows[id].target == t.rows[id].target && u.rows[id].Consistent() {
      assert t.rows[id].Consistent();
    }
    RewriteValid(t, u);
  }

  lemma DeleteValid(t: Table, ids: set<RowId>)
    requires t.Valid()
    ensures t.Delete(ids).Valid()
  {
  }

  /** A second save of the same item changes no column, whatever state the first one
      found the row in and however much later the second arrives. */
  lemma RepeatedSaveChangesNothing(t: Table, key: string, gate: Gate, first: Time, second: Time)
    requires t.Valid()
    ensures t.Save(key, gate, first).Valid()
    ensures t.Save(key, gate, first).Save(key, gate, second) == t.Save(key, gate, first)
  {
    if key in gate.listed && Stock(key) in t.index {
      var id := t.index[Stock(key)];
      var once := t.Save(key, gate, first);
      assert t.rows[id].Consistent();
      WithValid(t, id, once.rows[id]);
      assert once.Save(key, gate, second).rows == once.rows;
    }
  }

  /** A save leaves a row that is first in the expedited lane to be claimed, or already
      held: never a done row, and never an unclaimed row still narrowed to some crawlers. */
  lemma SaveReachesEveryState(t: Table, key: string, gate: Gate, now: Time)
    requires t.Valid() && key in gate.listed
    ensures var u := t.Save(key, gate, now);
            && Stock(key) in u.index && u.index[Stock(key)] in u.rows
            && var row := u.rows[u.index[Stock(key)]];
            && row.priority == QUEUE_PRIORITY_INTERACTIVE
            && (row.status == Pending ==> row.crawlers == None)
            && (row.status == InProgress || row.status == Pending)
            && (Stock(key) in t.index && t.rows[t.index[Stock(key)]].status == InProgress
                ==> row == t.rows[t.index[Stock(key)]].(priority := QUEUE_PRIORITY_INTERACTIVE))
  {
  }

  /** The table, changed in place one statement at a time. */
  class Queue {
    var rows: map<RowId, Row>
    var index: map<Target, RowId>
    var nextId: RowId

    function View(): Table
      reads this
    {
      Table(rows, index, nextId)
    }

    constructor ()
      ensures View() == Table(map[], map[], 0) && View().Valid()
    {
      rows, index, nextId := map[], map[], 0;
    }

    method EnqueueRelease(discogsId: string, now: Time)
      requires View().Valid()
      modifies this
      ensures View() == old(View()).InsertOrRevive(Release(discogsId), now, false) && View().Valid()
    {
      var target := Release(discogsId);
      if target !in index {
        rows, index, nextId := rows[nextId := FreshRow(target, 0, now)], index[target := nextId], nextId + 1;
      } else if rows[index[target]].status == Done {
        rows := rows[index[target] := rows[index[target]].Revived(now)];
      }
    }

    method EnqueueStockItem(key: string, gate: Gate, now: Time)
      requires View().Valid()
      modifies this
      ensures View() == (if gate.Crawlable(key) then old(View()).InsertOrRevive(Stock(key), now, true) else old(View()))
      ensures View().Valid()
    {
      var target := Stock(key);
      if gate.Crawlable(key) {
        if target !in index {
          rows, index, nextId := rows[nextId := FreshRow(target, 0, now)], index[target := nextId], nextId + 1;
        } else if rows[index[target]].status == Done {
          rows := rows[index[target] := rows[index[target]].Revived(now).(priority := 0)];
        }
      }
    }

    /** Returns the row count the caller reads as "the item is queued because of this call". */
    method EnqueueSaved(key: string, gate: Gate, now: Time) returns (queued: nat)
      requires View().Valid()
      modifies this
      ensures View() == old(View()).Save(key, gate, now) && View().Valid()
      ensures queued == if key in gate.listed then 1 else 0
    {
      var target := Stock(key);
      queued := 0;
      if key in gate.listed {
        queued := 1;
        if target !in index {
          rows, index, nextId :=
            rows[nextId := FreshRow(target, QUEUE_PRIORITY_INTERACTIVE, now)], index[target := nextId], nextId + 1;
        } else {
          var row := rows[index[target]];
          if row.status != InProgress {
            rows := rows[index[target] := row.Expedited(now)];
          } else {
            rows := rows[index[target] := row.(priority := QUEUE_PRIORITY_INTERACTIVE)];
          }
        }
      }
    }

    method ClaimBatch(worker: Worker, limit: nat, gate: Gate, now: Time, locked: set<RowId>)
      returns (batch: seq<RowId>)
      requires View().Valid()
      modifies this
      ensures batch == FirstInOrder(old(View()), old(View()).Candidates(gate, now, locked), limit)
      ensures View() == old(View()).Claim(batch, worker, now) && View().Valid()
    {
      batch := FirstInOrder(View(), View().Candidates(gate, now, locked), limit);
      rows := map id | id in rows ::
        if id in batch then rows[id].(status := InProgress, claimedBy := Some(worker), claimedAt := Some(now))
        else rows[id];
      ClaimValid(old(View()), batch, worker, now);
    }

    method ClaimHeld(id: RowId, worker: Worker) returns (held: bool)
      ensures held == View().Held(id, worker)
    {
      held := id in rows && rows[id].claimedBy == Some(worker);
    }

    method MarkDone(id: RowId, worker: Worker, now: Time) returns (applied: nat)
      requires View().Valid()
      modifies this
      ensures View() == old(View()).MarkDone(id, worker, now) && View().Valid()
      ensures applied == if old(View()).Held(id, worker) then 1 else 0
    {
      applied := 0;
      if id in rows && rows[id].claimedBy == Some(worker) {
        assert rows[id].Consistent();
        rows := rows[id := rows[id].(status := Done, completedAt := Some(now))];
        applied := 1;
      }
    }

    method Defer(id: RowId, worker: Worker, crawlers: seq<CrawlerId>, delay: nat, now: Time) returns (applied: nat)
      requires View().Valid() && NoDuplicates(crawlers)
      modifies this
      ensures View() == old(View()).Defer(id, worker, crawlers, delay, now) && View().Valid()
      ensures applied == if old(View()).Held(id, worker) then 1 else 0
    {
      applied := 0;
      if id in rows && rows[id].claimedBy == Some(worker) {
        rows := rows[id := rows[id].HandedBack().(crawlers := Some(crawlers), availableAt := now + delay)];
        applied := 1;
      }
    }

    method RevertClaim(ids: set<RowId>)
      requires View().Valid()
      modifies this
      ensures View() == old(View()).HandBack(ids) && View().Valid()
    {
      rows := map id | id in rows :: if id in ids then rows[id].HandedBack() else rows[id];
      forall id | id in rows ensures rows[id].Consistent() { assert old(rows)[id].Consistent(); }
      RewriteValid(old(View()), View());
    }

    method ReclaimStranded(after: nat, now: Time, locked: set<RowId>) returns (reclaimed: nat)
      requires View().Valid()
      modifies this
      ensures View() == old(View()).HandBack(old(View()).Stranded(after, now, locked)) && View().Valid()
      ensures reclaimed == |old(View()).Stranded(after, now, locked)|
    {
      var ids := View().Stranded(after, now, locked);
      RevertClaim(ids);
      reclaimed := |ids|;
    }

    /** `requiresRelease` is the crawler's own flag, and None when it is no release crawler
        any more, which leaves the queue alone. */
    method BackfillForCrawler(crawler: CrawlerId, requiresRelease: Option<bool>, priced: set<Target>, now: Time,
                              lockedDone: set<RowId>, lockedPending: set<RowId>) returns (revived: nat)
      requires View().Valid()
      modifies this
      ensures View().Valid()
      ensures requiresRelease.None? ==> View() == old(View()) && revived == 0
      ensures requiresRelease.Some? ==>
                var ids := old(View()).Unpriced(priced, requiresRelease.value, lockedDone);
                && View() == old(View()).ReviveFor(crawler, ids, now).WidenFor(crawler, now, lockedPending)
                && revived == |ids|
    {
      if requiresRelease.None? { return 0; }
      var ids := View().Unpriced(priced, requiresRelease.value, lockedDone);
      revived := |ids|;
      rows := map id | id in rows ::
        if id in ids then rows[id].Revived(now).(crawlers := Some([crawler]), priority := 0) else rows[id];
      forall id | id in rows ensures rows[id].Consistent() { assert old(rows)[id].Consistent(); }
      RewriteValid(old(View()), View());
      ghost var t := View();
      rows := map id | id in rows ::
        var row := rows[id];
        if id !in lockedPending && row.status == Pending && row.crawlers.Some? && crawler !in row.crawlers.value
        then row.(crawlers := Some(row.crawlers.value + [crawler]), availableAt := now)
        else row;
      WidenValid(t, crawler, now, lockedPending);
      assert View() == t.WidenFor(crawler, now, lockedPending);
    }

    method DeleteDead(gate: Gate) returns (deleted: nat)
      requires View().Valid()
      modifies this
      ensures View() == old(View()).Delete(old(View()).Dead(gate)) && View().Valid()
      ensures deleted == |old(View()).Dead(gate)|
    {
      var dead := View().Dead(gate);
      deleted := |dead|;
      DeleteValid(View(), dead);
      rows := map id | id in rows && id !in dead :: rows[id];
      index := map t | t in index && index[t] !in dead :: index[t];
    }
  }
}
