/**
 Who may write what, over every interleaving of the queue's statements.

 A `World` is the table, the clock and the log of claims, hand-backs and writes that
 took effect. Workers are any number of processes on any number of Machines; the only
 thing asked of them is that each works one pass at a time, so a write is issued for a
 row of the worker's most recent claim.
 */
module QueueOwnership {
  import opened Options
  import opened CrawlQueue

  datatype Kind = Listing | Completion | Deferral

  datatype Event =
    | Claimed(worker: Worker, batch: seq<RowId>)
    | HandedBack(ids: set<RowId>)
    | Wrote(worker: Worker, id: RowId, kind: Kind)
  {
    /** The events that change who holds row `id`. */
    predicate Touches(id: RowId) {
      match this
      case Claimed(_, batch) => id in batch
      case HandedBack(ids) => id in ids
      case Wrote(_, _, _) => false
    }
  }

  datatype World = World(table: Table, now: Time, log: seq<Event>)

  datatype Step =
    | Tick(elapsed: nat)
    | EnqueueRelease(discogsId: string)
    | EnqueueStockItem(key: string, gate: Gate)
    | Save(key: string, gate: Gate)
    | RestoreLibraryItem(key: string, gate: Gate)
    | Claim(worker: Worker, limit: nat, gate: Gate, locked: set<RowId>)
    | WriteListing(worker: Worker, id: RowId)
    | MarkDone(worker: Worker, id: RowId)
    | Defer(worker: Worker, id: RowId, crawlers: seq<CrawlerId>, delay: nat)
    | Revert(ids: set<RowId>)
    | Reclaim(after: nat, locked: set<RowId>)
    | Revive(crawler: CrawlerId, priced: set<Target>, releaseOnly: bool, locked: set<RowId>)
    | Widen(crawler: CrawlerId, locked: set<RowId>)
    | Sweep(gate: Gate)
  {
    predicate IsWrite() { WriteListing? || MarkDone? || Defer? }

    function WriteKind(): Kind
      requires IsWrite()
    {
      if WriteListing? then Listing else if MarkDone? then Completion else Deferral
    }
  }

  const Start := World(Table(map[], map[], 0), 0, [])

  /** The rows of the worker's most recent claim. */
  function CurrentBatch(log: seq<Event>, worker: Worker): seq<RowId> {
    if log == [] then []
    else
      var last := log[|log| - 1];
      if last.Claimed? && last.worker == worker then last.batch else CurrentBatch(log[..|log| - 1], worker)
  }

  /** Whose claim of the row is the latest thing that happened to it, if any is. */
  function LatestOwner(log: seq<Event>, id: RowId): Option<Worker> {
    if log == [] then None
    else
      var last := log[|log| - 1];
      if last.Touches(id) then (if last.Claimed? then Some(last.worker) else None)
      else LatestOwner(log[..|log| - 1], id)
  }

  /** One pass at a time, and a deferral names each crawler once. */
  predicate Enabled(w: World, s: Step) {
    && (s.IsWrite() ==> s.id in CurrentBatch(w.log, s.worker))
    && (s.Defer? ==> NoDuplicates(s.crawlers))
  }

  function Revival(t: Table, target: Target): seq<Event> {
    if t.Has(target) && t.rows[t.index[target]].status == Done then [HandedBack({t.index[target]})] else []
  }

  function Next(w: World, s: Step): World {
    var t := w.table;
    match s
    case Tick(elapsed) => w.(now := w.now + elapsed)
    case EnqueueRelease(d) =>
      World(t.InsertOrRevive(Release(d), w.now, false), w.now, w.log + Revival(t, Release(d)))
    case EnqueueStockItem(key, gate) =>
      if gate.Crawlable(key)
      then World(t.InsertOrRevive(Stock(key), w.now, true), w.now, w.log + Revival(t, Stock(key)))
      else w
    case Save(key, gate) =>
      World(t.Save(key, gate, w.now), w.now, w.log + if key in gate.listed then Revival(t, Stock(key)) else [])
    case RestoreLibraryItem(key, gate) =>
      if key in gate.listed then w.(table := t.InsertIfAbsent(Stock(key), w.now)) else w
    case Claim(worker, limit, gate, locked) =>
      var batch := FirstInOrder(t, t.Candidates(gate, w.now, locked), limit);
      World(t.Claim(batch, worker, w.now), w.now, w.log + [Claimed(worker, batch)])
    case WriteListing(worker, id) =>
      if t.Held(id, worker) then w.(log := w.log + [Wrote(worker, id, Listing)]) else w
    case MarkDone(worker, id) =>
      World(t.MarkDone(id, worker, w.now), w.now,
            w.log + if t.Held(id, worker) then [Wrote(worker, id, Completion)] else [])
    case Defer(worker, id, crawlers, delay) =>
      World(t.Defer(id, worker, crawlers, delay, w.now), w.now,
            w.log + if t.Held(id, worker) then [Wrote(worker, id, Deferral), HandedBack({id})] else [])
    case Revert(ids) =>
      World(t.HandBack(ids), w.now, w.log + [HandedBack(ids)])
    case Reclaim(after, locked) =>
      var ids := t.Stranded(after, w.now, locked);
      World(t.HandBack(ids), w.now, w.log + [HandedBack(ids)])
    case Revive(crawler, priced, releaseOnly, locked) =>
      var ids := t.Unpriced(priced, releaseOnly, locked);
      World(t.ReviveFor(crawler, ids, w.now), w.now, w.log + [HandedBack(ids)])
    case Widen(crawler, locked) =>
      w.(table := t.WidenFor(crawler, w.now, locked))
    case Sweep(gate) =>
      w.(table := t.Delete(t.Dead(gate)))
  }

  /** The table is consistent, and `claimed_by` is exactly the latest owner: null for a
      row somebody handed back, and for an id that has no row. */
  ghost predicate Inv(w: World) {
    && w.table.Valid()
    && forall id: RowId :: Claimant(w.table, id) == LatestOwner(w.log, id)
  }

  function Claimant(t: Table, id: RowId): Option<Worker> {
    if id in t.rows then t.rows[id].claimedBy else None
  }

  predicate Leads(prior: World, s: Step, w: World) {
    Enabled(prior, s) && w == Next(prior, s)
  }

  ghost predicate Reachable(w: World, steps: seq<Step>)
    decreases |steps|
  {
    if steps == [] then w == Start
    else
      var earlier, last := steps[..|steps| - 1], steps[|steps| - 1];
      exists prior: World :: Leads(prior, last, w) && Reachable(prior, earlier)
  }

  lemma OwnerAfter(log: seq<Event>, e: Event, id: RowId)
    ensures LatestOwner(log + [e], id) ==
            if e.Touches(id) then (if e.Claimed? then Some(e.worker) else None) else LatestOwner(log, id)
  {
    assert (log + [e])[..|log|] == log;
  }

  lemma BatchAfter(log: seq<Event>, e: Event, worker: Worker)
    ensures CurrentBatch(log + [e], worker) ==
            if e.Claimed? && e.worker == worker then e.batch else CurrentBatch(log, worker)
  {
    assert (log + [e])[..|log|] == log;
  }

  // ----- The invariant, one statement at a time -----

  /** A statement that clears the claim of exactly the rows it reports handed back. */
  lemma HandBackKeeps(w: World, u: Table, ids: set<RowId>)
    requires Inv(w) && u.Valid()
    requires forall id: RowId :: Claimant(u, id) == if id in ids then None else Claimant(w.table, id)
    ensures Inv(World(u, w.now, w.log + [HandedBack(ids)]))
  {
    forall id: RowId ensures Claimant(u, id) == LatestOwner(w.log + [HandedBack(ids)], id) {
      OwnerAfter(w.log, HandedBack(ids), id);
    }
  }

  lemma ReviveKeeps(w: World, target: Target, u: Table)
    requires Inv(w) && u.Valid()
    requires target in w.table.index && w.table.rows[w.table.index[target]].status == Done
    requires u.rows.Keys == w.table.rows.Keys
    requires forall id :: id in u.rows ==>
      u.rows[id].claimedBy == if id == w.table.index[target] then None else w.table.rows[id].claimedBy
    ensures Inv(World(u, w.now, w.log + Revival(w.table, target)))
  {
    HandBackKeeps(w, u, {w.table.index[target]});
  }

  lemma EnqueueKeeps(w: World, target: Target, reset: bool)
    requires Inv(w)
    ensures Inv(World(w.table.InsertOrRevive(target, w.now, reset), w.now, w.log + Revival(w.table, target)))
  {
    var t := w.table;
    var u := t.InsertOrRevive(target, w.now, reset);
    if target !in t.index {
      InsertValid(t, FreshRow(target, 0, w.now));
      assert w.log + Revival(t, target) == w.log;
    } else {
      var id := t.index[target];
      if t.rows[id].status == Done {
        WithValid(t, id, u.rows[id]);
        ReviveKeeps(w, target, u);
      } else {
        assert w.log + Revival(t, target) == w.log;
      }
    }
  }

  lemma SaveKeeps(w: World, key: string, gate: Gate)
    requires Inv(w)
    ensures Inv(Next(w, Save(key, gate)))
  {
    var t := w.table;
    var u := t.Save(key, gate, w.now);
    RepeatedSaveChangesNothing(t, key, gate, w.now, w.now);
    if key in gate.listed && Stock(key) in t.index {
      var id := t.index[Stock(key)];
      assert t.rows[id].Consistent();
      if t.rows[id].status == Done {
        ReviveKeeps(w, Stock(key), u);
      } else {
        assert w.log + Revival(t, Stock(key)) == w.log;
      }
    } else {
      assert w.log + [] == w.log;
    }
  }

  lemma ClaimKeeps(w: World, worker: Worker, batch: seq<RowId>)
    requires Inv(w)
    requires forall id :: id in batch ==> id in w.table.rows
    ensures Inv(World(w.table.Claim(batch, worker, w.now), w.now, w.log + [Claimed(worker, batch)]))
  {
    var u := w.table.Claim(batch, worker, w.now);
    ClaimValid(w.table, batch, worker, w.now);
    forall id: RowId ensures Claimant(u, id) == LatestOwner(w.log + [Claimed(worker, batch)], id) {
      OwnerAfter(w.log, Claimed(worker, batch), id);
    }
  }

  lemma WriteKeeps(w: World, s: Step)
    requires Inv(w) && Enabled(w, s) && s.IsWrite()
    ensures Inv(Next(w, s))
  {
    var t := w.table;
    if t.Held(s.id, s.worker) {
      var wrote := Wrote(s.worker, s.id, s.WriteKind());
      assert t.rows[s.id].Consistent();
      var u := Next(w, s).table;
      var written := World(t, w.now, w.log + [wrote]);
      forall id: RowId ensures Claimant(t, id) == LatestOwner(written.log, id) {
        OwnerAfter(w.log, wrote, id);
      }
      if s.MarkDone? {
        WithValid(t, s.id, u.rows[s.id]);
      } else if s.Defer? {
        WithValid(t, s.id, u.rows[s.id]);
        HandBackKeeps(written, u, {s.id});
        assert written.log + [HandedBack({s.id})] == w.log + [wrote, HandedBack({s.id})];
      }
    } else {
      assert w.log + [] == w.log;
    }
  }

  lemma BulkHandBackKeeps(w: World, ids: set<RowId>)
    requires Inv(w)
    ensures Inv(World(w.table.HandBack(ids), w.now, w.log + [HandedBack(ids)]))
  {
    var u := w.table.HandBack(ids);
    forall id | id in u.rows ensures u.rows[id].Consistent() { assert w.table.rows[id].Consistent(); }
    RewriteValid(w.table, u);
    HandBackKeeps(w, u, ids);
  }

  lemma BulkReviveKeeps(w: World, crawler: CrawlerId, ids: set<RowId>)
    requires Inv(w)
    ensures Inv(World(w.table.ReviveFor(crawler, ids, w.now), w.now, w.log + [HandedBack(ids)]))
  {
    var u := w.table.ReviveFor(crawler, ids, w.now);
    forall id | id in u.rows ensures u.rows[id].Consistent() { assert w.table.rows[id].Consistent(); }
    RewriteValid(w.table, u);
    HandBackKeeps(w, u, ids);
  }

  lemma SweepKeeps(w: World, gate: Gate)
    requires Inv(w)
    ensures Inv(Next(w, Sweep(gate)))
  {
    var dead := w.table.Dead(gate);
    DeleteValid(w.table, dead);
    forall id: RowId ensures Claimant(w.table.Delete(dead), id) == Claimant(w.table, id) {
      if id in dead { assert w.table.rows[id].Consistent(); }
    }
  }

  lemma RestoreKeeps(w: World, key: string, gate: Gate)
    requires Inv(w)
    ensures Inv(Next(w, RestoreLibraryItem(key, gate)))
  {
    if key in gate.listed && Stock(key) !in w.table.index { InsertValid(w.table, FreshRow(Stock(key), 0, w.now)); }
  }

  lemma BatchKeeps(w: World, worker: Worker, limit: nat, gate: Gate, locked: set<RowId>)
    requires Inv(w)
    ensures Inv(Next(w, Claim(worker, limit, gate, locked)))
  {
    hide Inv;
    var candidates := w.table.Candidates(gate, w.now, locked);
    ClaimKeeps(w, worker, FirstInOrder(w.table, candidates, limit));
  }

  lemma WidenKeeps(w: World, crawler: CrawlerId, locked: set<RowId>)
    requires Inv(w)
    ensures Inv(Next(w, Widen(crawler, locked)))
  {
    WidenValid(w.table, crawler, w.now, locked);
  }

  lemma EnqueueStepKeeps(w: World, s: Step)
    requires Inv(w) && (s.EnqueueRelease? || s.EnqueueStockItem? || s.Tick?)
    ensures Inv(Next(w, s))
  {
    match s
    case Tick(_) =>
    case EnqueueRelease(d) => EnqueueKeeps(w, Release(d), false);
    case EnqueueStockItem(key, gate) => if gate.Crawlable(key) { EnqueueKeeps(w, Stock(key), true); }
  }

  lemma BulkKeeps(w: World, s: Step)
    requires Inv(w) && (s.Revert? || s.Reclaim? || s.Revive?)
    ensures Inv(Next(w, s))
  {
    hide Inv;
    match s
    case Revert(ids) => BulkHandBackKeeps(w, ids);
    case Reclaim(after, locked) => BulkHandBackKeeps(w, w.table.Stranded(after, w.now, locked));
    case Revive(crawler, priced, releaseOnly, locked) =>
      BulkReviveKeeps(w, crawler, w.table.Unpriced(priced, releaseOnly, locked));
  }

  /** Every statement keeps the claim columns null exactly where nobody holds the row. */
  lemma StepKeeps(w: World, s: Step)
    requires Inv(w) && Enabled(w, s)
    ensures Inv(Next(w, s))
  {
    hide Inv, Next, Enabled;
    match s
    case Save(key, gate) => SaveKeeps(w, key, gate);
    case RestoreLibraryItem(key, gate) => RestoreKeeps(w, key, gate);
    case Claim(worker, limit, gate, locked) => BatchKeeps(w, worker, limit, gate, locked);
    case WriteListing(_, _) => WriteKeeps(w, s);
    case MarkDone(_, _) => WriteKeeps(w, s);
    case Defer(_, _, _, _) => WriteKeeps(w, s);
    case Widen(crawler, locked) => WidenKeeps(w, crawler, locked);
    case Sweep(gate) => SweepKeeps(w, gate);
    case Tick(_) => EnqueueStepKeeps(w, s);
    case EnqueueRelease(_) => EnqueueStepKeeps(w, s);
    case EnqueueStockItem(_, _) => EnqueueStepKeeps(w, s);
    case _ => BulkKeeps(w, s);
  }

  /** Every reachable world satisfies the invariant, and the next step of any enabled
      kind can be taken from it: nothing blocks a run. */
  lemma {:induction false} RunKeeps(w: World, steps: seq<Step>)
    requires Reachable(w, steps)
    ensures Inv(w)
    decreases |steps|
  {
    if steps != [] {
      var prior: World :|
        Leads(prior, steps[|steps| - 1], w) && Reachable(prior, steps[..|steps| - 1]);
      RunKeeps(prior, steps[..|steps| - 1]);
      StepKeeps(prior, steps[|steps| - 1]);
    }
  }

  /** A listing or terminal write takes effect if and only if its worker made the latest
      claim of the row and nothing has handed the row back since; a refused write changes
      nothing at all. */
  lemma WriteTakesEffectIffOwner(w: World, s: Step, steps: seq<Step>)
    requires Reachable(w, steps) && s.IsWrite()
    ensures var after := Next(w, s);
            if LatestOwner(w.log, s.id) == Some(s.worker)
            then |w.log| < |after.log| && after.log[|w.log|] == Wrote(s.worker, s.id, s.WriteKind())
            else after == w
  {
    RunKeeps(w, steps);
    assert Claimant(w.table, s.id) == LatestOwner(w.log, s.id);
    assert w.log + [] == w.log;
  }

  /** The write recorded at `i` is covered by a claim at `j` that the same worker has not
      followed with another pass, with no other claim or hand-back of the row in between. */
  ghost predicate CoveredBy(log: seq<Event>, i: nat, j: nat)
    requires j < i < |log| && log[i].Wrote?
  {
    && log[j].Claimed? && log[j].worker == log[i].worker && log[i].id in log[j].batch
    && forall k :: j < k < i ==>
         !log[k].Touches(log[i].id) && !(log[k].Claimed? && log[k].worker == log[i].worker)
  }

  ghost predicate AllCovered(log: seq<Event>) {
    forall i :: 0 <= i < |log| && log[i].Wrote? ==> exists j: nat :: j < i && CoveredBy(log, i, j)
  }

  lemma {:induction false} OwnerWitness(log: seq<Event>, id: RowId, worker: Worker) returns (j: nat)
    requires LatestOwner(log, id) == Some(worker)
    ensures j < |log| && log[j].Claimed? && log[j].worker == worker && id in log[j].batch
    ensures forall k :: j < k < |log| ==> !log[k].Touches(id)
  {
    var n := |log| - 1;
    if log[n].Touches(id) {
      j := n;
    } else {
      j := OwnerWitness(log[..n], id, worker);
    }
  }

  lemma {:induction false} BatchWitness(log: seq<Event>, id: RowId, worker: Worker) returns (j: nat)
    requires id in CurrentBatch(log, worker)
    ensures j < |log| && log[j].Claimed? && log[j].worker == worker && id in log[j].batch
    ensures forall k :: j < k < |log| ==> !(log[k].Claimed? && log[k].worker == worker)
  {
    var n := |log| - 1;
    if log[n].Claimed? && log[n].worker == worker {
      j := n;
    } else {
      j := BatchWitness(log[..n], id, worker);
    }
  }

  lemma CoveredExtends(log: seq<Event>, all: seq<Event>)
    requires AllCovered(log) && log <= all
    requires forall k :: |log| <= k < |all| ==> !all[k].Wrote?
    ensures AllCovered(all)
  {
    forall i | 0 <= i < |all| && all[i].Wrote? ensures exists j: nat :: j < i && CoveredBy(all, i, j) {
      var j: nat :| j < i && CoveredBy(log, i, j);
      assert CoveredBy(all, i, j);
    }
  }

  lemma WriteIsCovered(log: seq<Event>, e: Event)
    requires AllCovered(log) && e.Wrote?
    requires LatestOwner(log, e.id) == Some(e.worker) && e.id in CurrentBatch(log, e.worker)
    ensures AllCovered(log + [e])
  {
    var all := log + [e];
    forall i | 0 <= i < |all| && all[i].Wrote? ensures exists j: nat :: j < i && CoveredBy(all, i, j) {
      if i < |log| {
        var j: nat :| j < i && CoveredBy(log, i, j);
        assert CoveredBy(all, i, j);
      } else {
        var j := OwnerWitness(log, e.id, e.worker);
        var pass := BatchWitness(log, e.id, e.worker);
        assert log[pass].Touches(e.id);
        assert pass == j;
        assert CoveredBy(all, i, j);
      }
    }
  }

  /** Over every run: each write that took effect was made by the worker of the latest
      claim of that row, in the pass that claim began, with the row never handed back or
      claimed again in between. */
  lemma {:induction false} EveryWriteIsOwned(w: World, steps: seq<Step>)
    requires Reachable(w, steps)
    ensures AllCovered(w.log)
    decreases |steps|
  {
    if steps != [] {
      var s := steps[|steps| - 1];
      var prior: World :|
        Leads(prior, s, w) && Reachable(prior, steps[..|steps| - 1]);
      RunKeeps(prior, steps[..|steps| - 1]);
      EveryWriteIsOwned(prior, steps[..|steps| - 1]);
      StepIsCovered(prior, s);
    }
  }

  /** A step adds to the log; only a write adds a write, and only a claim adds a claim. */
  lemma LogGrows(w: World, s: Step)
    ensures w.log <= Next(w, s).log
    ensures !s.IsWrite() ==> forall k :: |w.log| <= k < |Next(w, s).log| ==> !Next(w, s).log[k].Wrote?
    ensures !s.Claim? ==> forall k :: |w.log| <= k < |Next(w, s).log| ==> !Next(w, s).log[k].Claimed?
  {
  }

  lemma StepIsCovered(prior: World, s: Step)
    requires Inv(prior) && Enabled(prior, s) && AllCovered(prior.log)
    ensures AllCovered(Next(prior, s).log)
  {
    var log := Next(prior, s).log;
    LogGrows(prior, s);
    if s.IsWrite() {
      assert Claimant(prior.table, s.id) == LatestOwner(prior.log, s.id);
      if prior.table.Held(s.id, s.worker) {
        var wrote := Wrote(s.worker, s.id, s.WriteKind());
        WriteIsCovered(prior.log, wrote);
        CoveredExtends(prior.log + [wrote], log);
      } else {
        assert log == prior.log;
      }
    } else {
      CoveredExtends(prior.log, log);
    }
  }

  /** Two claims of one row always have a hand-back of it between them. */
  ghost predicate Exclusive(log: seq<Event>) {
    forall i, j, id :: 0 <= i < j < |log| && log[i].Claimed? && log[j].Claimed? && id in log[i].batch && id in log[j].batch
      ==> exists k :: i < k < j && log[k].HandedBack? && id in log[k].ids
  }

  lemma {:induction false} HandedBackWitness(log: seq<Event>, id: RowId, i: nat)
    requires i < |log| && log[i].Claimed? && id in log[i].batch && LatestOwner(log, id) == None
    ensures exists k :: i < k < |log| && log[k].HandedBack? && id in log[k].ids
    decreases |log|
  {
    var n := |log| - 1;
    if !log[n].Touches(id) {
      HandedBackWitness(log[..n], id, i);
      var k :| i < k < n && log[..n][k].HandedBack? && id in log[..n][k].ids;
      assert log[k] == log[..n][k];
    } else {
      assert log[n].HandedBack? && id in log[n].ids;
    }
  }

  lemma ExclusiveExtends(log: seq<Event>, all: seq<Event>)
    requires Exclusive(log) && log <= all
    requires forall k :: |log| <= k < |all| ==> !all[k].Claimed?
    ensures Exclusive(all)
  {
    forall i, j, id | 0 <= i < j < |all| && all[i].Claimed? && all[j].Claimed? && id in all[i].batch && id in all[j].batch
      ensures exists k :: i < k < j && all[k].HandedBack? && id in all[k].ids
    {
      assert id in log[i].batch && id in log[j].batch;
      var k :| i < k < j && log[k].HandedBack? && id in log[k].ids;
      assert all[k] == log[k];
    }
  }

  /** Over every run, no row is ever held by two workers at once. */
  lemma {:induction false} NoRowIsHeldTwice(w: World, steps: seq<Step>)
    requires Reachable(w, steps)
    ensures Exclusive(w.log)
    decreases |steps|
  {
    if steps != [] {
      var s := steps[|steps| - 1];
      var prior: World :|
        Leads(prior, s, w) && Reachable(prior, steps[..|steps| - 1]);
      RunKeeps(prior, steps[..|steps| - 1]);
      NoRowIsHeldTwice(prior, steps[..|steps| - 1]);
      LogGrows(prior, s);
      if s.Claim? {
        ClaimIsExclusive(prior, s);
      } else {
        ExclusiveExtends(prior.log, w.log);
      }
    }
  }

  lemma ClaimIsExclusive(w: World, s: Step)
    requires Inv(w) && s.Claim? && Exclusive(w.log)
    ensures Exclusive(Next(w, s).log)
  {
    var batch := FirstInOrder(w.table, w.table.Candidates(s.gate, w.now, s.locked), s.limit);
    var log := w.log;
    var all := log + [Claimed(s.worker, batch)];
    forall i, j, id | 0 <= i < j < |all| && all[i].Claimed? && all[j].Claimed? && id in all[i].batch && id in all[j].batch
      ensures exists k :: i < k < j && all[k].HandedBack? && id in all[k].ids
    {
      if j < |log| {
        assert id in log[i].batch && id in log[j].batch;
        var k :| i < k < j && log[k].HandedBack? && id in log[k].ids;
        assert all[k] == log[k];
      } else {
        assert w.table.rows[id].Consistent() && Claimant(w.table, id) == LatestOwner(log, id);
        HandedBackWitness(log, id, i);
        var k :| i < k < |log| && log[k].HandedBack? && id in log[k].ids;
        assert all[k] == log[k];
      }
    }
  }
}
