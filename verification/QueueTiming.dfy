/**
 When a row of the queue is handed out, handed back and dropped, over every run of
 `QueueOwnership`: said in terms of when things happened, not of the tests the statements
 make.
 */
module QueueTiming {
  import opened Options
  import opened CrawlQueue
  import opened QueueOwnership

  /** Where a run of `steps` from `w` ends. */
  function After(w: World, steps: seq<Step>): World
    decreases |steps|
  {
    if steps == [] then w else Next(After(w, steps[..|steps| - 1]), steps[|steps| - 1])
  }

  ghost predicate Runs(w: World, steps: seq<Step>) {
    forall i: nat :: i < |steps| ==> Enabled(After(w, steps[..i]), steps[i])
  }

  /** What a claim says it took. */
  function Batch(w: World, s: Step): seq<RowId>
    requires s.Claim?
  {
    Next(w, s).log[|w.log|].batch
  }

  lemma RunsInit(w: World, steps: seq<Step>)
    requires Runs(w, steps) && steps != []
    ensures Runs(w, steps[..|steps| - 1]) && Enabled(After(w, steps[..|steps| - 1]), steps[|steps| - 1])
  {
    var init := steps[..|steps| - 1];
    forall i: nat | i < |init| ensures Enabled(After(w, init[..i]), init[i]) {
      assert init[..i] == steps[..i];
    }
  }

  lemma {:induction false} RunOn(w: World, steps: seq<Step>)
    requires Inv(w) && Runs(w, steps)
    ensures Inv(After(w, steps)) && w.now <= After(w, steps).now && w.log <= After(w, steps).log
    decreases |steps|
  {
    hide Inv, Enabled;
    if steps != [] {
      RunsInit(w, steps);
      var init := steps[..|steps| - 1];
      RunOn(w, init);
      StepKeeps(After(w, init), steps[|steps| - 1]);
      LogGrows(After(w, init), steps[|steps| - 1]);
      TimePasses(After(w, init), steps[|steps| - 1]);
    }
  }

  lemma TimePasses(w: World, s: Step)
    ensures w.now <= Next(w, s).now
  {
  }

  // ----- What a claim takes -----

  /** A release always is; an item is while an enabled store lists it and, under the
      library-only setting, somebody wants it. */
  predicate Wanted(gate: Gate, target: Target) {
    match target
    case Release(_) => true
    case Stock(key) => key in gate.listed && (gate.libraryOnly ==> key in gate.wanted)
  }

  /** Waiting, due, wanted, and not locked by another transaction. */
  predicate Ready(w: World, s: Step, id: RowId)
    requires s.Claim?
  {
    && id in w.table.rows && id !in s.locked
    && var row := w.table.rows[id]; row.status == Pending && row.availableAt <= w.now && Wanted(s.gate, row.target)
  }

  lemma CandidatesAreReady(w: World, s: Step, id: RowId)
    requires s.Claim?
    ensures id in w.table.Candidates(s.gate, w.now, s.locked) <==> Ready(w, s, id)
  {
  }

  lemma {:induction false} DistinctFit(batch: seq<RowId>, ids: set<RowId>)
    requires NoDuplicates(batch) && forall id :: id in batch ==> id in ids
    ensures |batch| <= |ids| && (|batch| == |ids| ==> forall id :: id in ids ==> id in batch)
  {
    if batch != [] {
      var n := |batch| - 1;
      DistinctFit(batch[..n], ids - {batch[n]});
      assert batch == batch[..n] + [batch[n]];
    }
  }

  lemma BatchIs(w: World, s: Step)
    requires s.Claim?
    ensures Batch(w, s) == FirstInOrder(w.table, w.table.Candidates(s.gate, w.now, s.locked), s.limit)
    ensures NoDuplicates(Batch(w, s))
  {
    var batch := Batch(w, s);
    forall i, j | 0 <= i < j < |batch| ensures batch[i] != batch[j] {
      assert w.table.Before(batch[i], batch[j]);
    }
  }

  /** A claim takes nothing that is not ready, everything that is while there is room, and
      what it leaves for want of room comes behind everything it took. */
  lemma ClaimTakesTheReady(w: World, s: Step)
    requires s.Claim?
    ensures var batch := Batch(w, s);
            && |batch| <= s.limit && NoDuplicates(batch)
            && (forall id :: id in batch ==> Ready(w, s, id))
            && (|batch| < s.limit ==> forall id :: Ready(w, s, id) ==> id in batch)
            && (forall id, taken :: Ready(w, s, id) && id !in batch && taken in batch ==> w.table.Before(taken, id))
  {
    hide Ready;
    var batch, candidates := Batch(w, s), w.table.Candidates(s.gate, w.now, s.locked);
    BatchIs(w, s);
    forall id ensures id in candidates <==> Ready(w, s, id) { CandidatesAreReady(w, s, id); }
    DistinctFit(batch, candidates);
  }

  /** Of two ready rows, one that is expedited goes before one that is not; of two alike in
      that, a release before an item; and of two alike in both, the one asked for first. A
      claim that takes the later one has taken the earlier one ahead of it. */
  lemma EarlierFirst(w: World, s: Step, earlier: RowId, later: RowId)
    requires s.Claim? && Ready(w, s, earlier) && Ready(w, s, later)
    requires var (x, y) := (w.table.rows[earlier], w.table.rows[later]);
             || x.priority > y.priority
             || (x.priority == y.priority && x.target.Release? && y.target.Stock?)
             || (x.priority == y.priority && x.target.Release? == y.target.Release? && x.requestedAt < y.requestedAt)
    ensures forall j :: 0 <= j < |Batch(w, s)| && Batch(w, s)[j] == later ==> earlier in Batch(w, s)[..j]
  {
    ClaimTakesTheReady(w, s);
    BatchIs(w, s);
    var batch := Batch(w, s);
    forall j | 0 <= j < |batch| && batch[j] == later ensures earlier in batch[..j] {
      assert !w.table.Before(later, earlier);
      var i :| 0 <= i < |batch| && batch[i] == earlier;
      InClaimOrder(w, s, j, i);
      assert batch[..j][i] == earlier;
    }
  }

  lemma InClaimOrder(w: World, s: Step, i: nat, j: nat)
    requires s.Claim? && i < |Batch(w, s)| && j < |Batch(w, s)|
    ensures i < j ==> w.table.Before(Batch(w, s)[i], Batch(w, s)[j])
  {
    BatchIs(w, s);
  }

  // ----- A deferred row is left alone until it is due -----

  /** The step widens the row to one more crawler, which makes it due at once. */
  predicate Widens(w: World, s: Step, id: RowId) {
    && s.Widen? && id in w.table.rows && id in Next(w, s).table.rows
    && w.table.rows[id] != Next(w, s).table.rows[id]
  }

  predicate ClaimsRow(w: World, s: Step, id: RowId) { s.Claim? && id in Batch(w, s) }

  ghost predicate NeverWidened(w: World, steps: seq<Step>, id: RowId) {
    forall i: nat :: i < |steps| ==> !Widens(After(w, steps[..i]), steps[i], id)
  }

  ghost predicate NeverClaimed(w: World, steps: seq<Step>, id: RowId) {
    forall i: nat :: i < |steps| ==> !ClaimsRow(After(w, steps[..i]), steps[i], id)
  }

  /** Still waiting to be due at `until`, or gone for good. */
  predicate Waiting(w: World, id: RowId, until: Time) {
    && id < w.table.nextId
    && (id in w.table.rows ==> w.table.rows[id].status == Pending && w.table.rows[id].availableAt == until)
  }

  lemma EnqueueWaits(w: World, target: Target, reset: bool, id: RowId, until: Time)
    requires Inv(w) && Waiting(w, id, until)
    ensures Waiting(w.(table := w.table.InsertOrRevive(target, w.now, reset)), id, until)
  {
  }

  lemma WaitsOn(w: World, s: Step, id: RowId, until: Time)
    requires Inv(w) && Enabled(w, s) && Waiting(w, id, until)
    requires !Widens(w, s, id) && !ClaimsRow(w, s, id)
    ensures Waiting(Next(w, s), id, until)
  {
    match s
    case EnqueueRelease(d) => EnqueueWaits(w, Release(d), false, id, until);
    case EnqueueStockItem(key, gate) => EnqueueWaits(w, Stock(key), true, id, until);
    case MarkDone(_, x) => if x == id && id in w.table.rows { assert w.table.rows[id].Consistent(); }
    case Defer(_, x, _, _) => if x == id && id in w.table.rows { assert w.table.rows[id].Consistent(); }
    case _ =>
  }

  lemma NotDueIsNotTaken(w: World, s: Step, id: RowId, until: Time)
    requires Waiting(w, id, until) && w.now < until
    ensures !ClaimsRow(w, s, id)
  {
    if s.Claim? { ClaimTakesTheReady(w, s); }
  }

  lemma {:induction false} StillWaiting(w: World, steps: seq<Step>, id: RowId, until: Time)
    requires Inv(w) && Waiting(w, id, until) && Runs(w, steps) && NeverWidened(w, steps, id)
    requires After(w, steps).now < until || NeverClaimed(w, steps, id)
    ensures Waiting(After(w, steps), id, until)
    decreases |steps|
  {
    hide Inv, Waiting, Next, Enabled, Runs, Widens, ClaimsRow;
    if steps != [] {
      var init, last := steps[..|steps| - 1], steps[|steps| - 1];
      var before := After(w, init);
      RunsInit(w, steps);
      forall i: nat | i < |init| ensures init[..i] == steps[..i] {}
      assert steps[..|init|] == init;
      RunOn(w, init);
      TimePasses(before, last);
      StillWaiting(w, init, id, until);
      if After(w, steps).now < until { NotDueIsNotTaken(before, last, id, until); }
      WaitsOn(before, last, id, until);
    }
  }

  lemma DeferralWaits(w: World, s: Step)
    requires Inv(w) && Enabled(w, s) && s.Defer? && w.table.Held(s.id, s.worker)
    ensures Inv(Next(w, s)) && Waiting(Next(w, s), s.id, w.now + s.delay)
  {
    StepKeeps(w, s);
  }

  /** A row a worker put off for `delay` is not handed out before that time is up, whatever
      else is enqueued, saved, revived, reclaimed, swept or claimed meanwhile -- unless a
      backfill widens it to another crawler. And once the time is up it is handed out by the
      first claim with room for it, if it is still there, wanted, and not locked. */
  lemma PutOffUntilDue(past: seq<Step>, w: World, s: Step, steps: seq<Step>, claim: Step)
    requires Reachable(w, past) && Enabled(w, s) && s.Defer? && w.table.Held(s.id, s.worker)
    requires Runs(Next(w, s), steps) && NeverWidened(Next(w, s), steps, s.id) && claim.Claim?
    ensures var u := After(Next(w, s), steps);
            && (u.now < w.now + s.delay ==> s.id !in Batch(u, claim))
            && (&& NeverClaimed(Next(w, s), steps, s.id) && s.id in u.table.rows && s.id !in claim.locked
                && Wanted(claim.gate, u.table.rows[s.id].target) && |Batch(u, claim)| < claim.limit
                ==> (s.id in Batch(u, claim) <==> w.now + s.delay <= u.now))
  {
    hide Inv, Next, Enabled, Runs, NeverWidened, NeverClaimed, Wanted;
    var d, until := Next(w, s), w.now + s.delay;
    var u := After(d, steps);
    RunKeeps(w, past);
    DeferralWaits(w, s);
    if u.now < until || NeverClaimed(d, steps, s.id) { StillWaiting(d, steps, s.id, until); }
    ClaimTakesTheReady(u, claim);
    if u.now < until { NotDueIsNotTaken(u, claim, s.id, until); }
  }

  // ----- A claim is handed back only when it is overdue -----

  /** Nothing that was logged since `from` ends the claim of the row. */
  ghost predicate QuietSince(log: seq<Event>, from: nat, id: RowId) {
    forall k :: from <= k < |log| ==> !EndsClaim(log[k], id)
  }

  predicate EndsClaim(e: Event, id: RowId) {
    e.Touches(id) || (e.Wrote? && e.id == id && e.kind == Completion)
  }

  predicate InHand(w: World, id: RowId, since: Time) {
    id in w.table.rows && w.table.rows[id].status == InProgress && w.table.rows[id].claimedAt == Some(since)
  }

  lemma InHandOn(w: World, s: Step, id: RowId, since: Time)
    requires Inv(w) && Enabled(w, s) && InHand(w, id, since) && QuietSince(Next(w, s).log, |w.log|, id)
    ensures InHand(Next(w, s), id, since)
  {
    var u := Next(w, s);
    LogGrows(w, s);
    if |w.log| < |u.log| { assert !EndsClaim(u.log[|w.log|], id); }
    if |w.log| + 1 < |u.log| { assert !EndsClaim(u.log[|w.log| + 1], id); }
  }

  lemma {:induction false} StillInHand(w: World, steps: seq<Step>, id: RowId, since: Time)
    requires Inv(w) && InHand(w, id, since) && Runs(w, steps) && QuietSince(After(w, steps).log, |w.log|, id)
    ensures InHand(After(w, steps), id, since)
    decreases |steps|
  {
    hide Inv, InHand, Next, Enabled, Runs, EndsClaim;
    if steps != [] {
      var init, last := steps[..|steps| - 1], steps[|steps| - 1];
      var before := After(w, init);
      RunsInit(w, steps);
      RunOn(w, init);
      LogGrows(before, last);
      assert forall k :: 0 <= k < |before.log| ==> before.log[k] == After(w, steps).log[k];
      StillInHand(w, init, id, since);
      InHandOn(before, last, id, since);
    }
  }

  lemma ClaimIsInHand(w: World, s: Step, id: RowId)
    requires Inv(w) && Enabled(w, s) && s.Claim? && id in Batch(w, s)
    ensures Inv(Next(w, s)) && InHand(Next(w, s), id, w.now)
  {
    StepKeeps(w, s);
    ClaimTakesTheReady(w, s);
  }

  lemma StrandedIff(w: World, r: Step, id: RowId, since: Time)
    requires r.Reclaim? && InHand(w, id, since)
    ensures var log := Next(w, r).log;
            && |log| == |w.log| + 1 && log[|w.log|].HandedBack?
            && (id in log[|w.log|].ids <==> id !in r.locked && since < w.now - r.after)
  {
  }

  /** A claim that nothing has ended is taken away by a reclaim if and only if it was made
      longer ago than the reclaim allows and no transaction holds the row. */
  lemma ReclaimedIffOverdue(past: seq<Step>, w: World, s: Step, id: RowId, steps: seq<Step>, r: Step)
    requires Reachable(w, past) && Enabled(w, s) && s.Claim? && id in Batch(w, s)
    requires Runs(Next(w, s), steps) && r.Reclaim?
    requires QuietSince(After(Next(w, s), steps).log, |Next(w, s).log|, id)
    ensures var (u, log) := (After(Next(w, s), steps), Next(After(Next(w, s), steps), r).log);
            && |log| == |u.log| + 1 && log[|u.log|].HandedBack?
            && (id in log[|u.log|].ids <==> id !in r.locked && w.now + r.after < u.now)
  {
    hide Inv, Next, Enabled, Runs, QuietSince, InHand;
    RunKeeps(w, past);
    ClaimIsInHand(w, s, id);
    StillInHand(Next(w, s), steps, id, w.now);
    StrandedIff(After(Next(w, s), steps), r, id, w.now);
  }

  // ----- Rows that go, and rows a backfill reaches -----

  /** No statement ever drops a row but the sweep, and it drops exactly the waiting items
      nothing wants any more. */
  lemma DroppedIffDead(past: seq<Step>, w: World, s: Step, id: RowId)
    requires Reachable(w, past) && Enabled(w, s) && id in w.table.rows
    ensures id !in Next(w, s).table.rows <==>
            s.Sweep? && w.table.rows[id].status == Pending && !Wanted(s.gate, w.table.rows[id].target)
  {
    RunKeeps(w, past);
    match s
    case EnqueueRelease(d) =>
    case _ =>
  }

  /** What an enqueue is for, and whether its gate lets it through. */
  predicate Enqueues(s: Step, target: Target) {
    match s
    case EnqueueRelease(d) => target == Release(d)
    case EnqueueStockItem(key, gate) => target == Stock(key) && Wanted(gate, target)
    case _ => false
  }

  /** After an enqueue the target has a row, and unless a row was waiting or being worked
      already, which it leaves alone, that row waits for every crawler from now on; only an
      item's loses the priority a save once gave it. */
  lemma EnqueueReaches(past: seq<Step>, w: World, s: Step, target: Target)
    requires Reachable(w, past) && Enqueues(s, target)
    ensures var (t, u) := (w.table, Next(w, s).table);
            && target in u.index && u.index[target] in u.rows
            && var row := u.rows[u.index[target]];
            && row.target == target
            && if t.Has(target) && t.rows[t.index[target]].status != Done then u == t
               else
                 && row.status == Pending && row.crawlers == None && row.claimedBy == None
                 && row.requestedAt == w.now && row.availableAt == w.now
                 && row.priority == if t.Has(target) && target.Release? then t.rows[t.index[target]].priority else 0
  {
    RunKeeps(w, past);
  }

  /** The row waits in the lane of the saved. */
  predicate InTheLane(t: Table, id: RowId) { id in t.rows && t.rows[id].status == Pending && t.rows[id].priority > 0 }

  /** Saves queue up in the order they came: an item joins the lane behind every row that
      was asked for earlier, and saving it again while it waits there moves it neither
      forward nor back. */
  lemma SavesQueueUp(past: seq<Step>, w: World, key: string, gate: Gate, other: RowId)
    requires Reachable(w, past) && key in gate.listed && InTheLane(w.table, other) && w.table.rows[other].requestedAt < w.now
    requires w.table.Has(Stock(key)) ==>
               w.table.rows[w.table.index[Stock(key)]].status != InProgress && w.table.index[Stock(key)] != other
    ensures var (t, u) := (w.table, Next(w, Save(key, gate)).table);
            && Stock(key) in u.index && InTheLane(u, u.index[Stock(key)]) && other in u.rows
            && var id := u.index[Stock(key)];
            && (!InTheLane(t, id) ==>
                  u.rows[id].requestedAt == w.now
                  && (t.rows[other].priority == QUEUE_PRIORITY_INTERACTIVE && t.rows[other].target.Stock? ==> u.Before(other, id)))
            && (InTheLane(t, id) ==> u.rows[id].requestedAt == t.rows[id].requestedAt)
  {
    RunKeeps(w, past);
  }

  /** The row is waiting for this crawler. */
  predicate Owed(row: Row, c: CrawlerId) {
    row.status == Pending && (row.crawlers.None? || c in row.crawlers.value)
  }

  /** A backfill reaches every row the new crawler has no price for, and owes nothing new to
      any other: a waiting row that is not locked is now waiting for it too; a done one is
      waiting for it alone, if it is of its kind, unpriced and not locked; and what has
      become owed can be claimed at once. */
  lemma BackfillReaches(w: World, c: CrawlerId, priced: set<Target>, releaseOnly: bool,
                        lockedDone: set<RowId>, lockedPending: set<RowId>, id: RowId)
    requires id in w.table.rows
    ensures var u := Next(Next(w, Revive(c, priced, releaseOnly, lockedDone)), Widen(c, lockedPending));
            && id in u.table.rows
            && var (before, after) := (w.table.rows[id], u.table.rows[id]);
            && (Owed(after, c) <==>
                  || Owed(before, c)
                  || (before.status == Pending && id !in lockedPending)
                  || (&& before.status == Done && id !in lockedDone && before.target !in priced
                      && (releaseOnly ==> before.target.Release?)))
            && (forall other :: other != c ==> (Owed(after, other) <==> Owed(before, other)))
            && (Owed(after, c) && !Owed(before, c) ==> after.availableAt == w.now)
  {
  }
}
