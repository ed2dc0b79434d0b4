/**
 Saves racing the dead-row sweep: `enqueue_crawl_queue_for_saved_stock_item` and
 `delete_dead_stock_crawl_queue_rows` as transactions under READ COMMITTED, serialised by
 the reconciliation advisory lock.

 A statement sees what is committed when it begins. A DELETE is such a snapshot and then
 one visit to each row it found dead: a visit waits for whoever has written the row, sees
 the row as it is by then, and still asks the snapshot whether anybody wants the item. A
 written row is its writer's until the transaction ends, and so is the advisory lock.
 `locking` says whether that lock is taken at all, so that the race it closes can be shown.
 */
module SaveSweep {
  import opened Options

  type Key = string
  type User = int
  type Tx = nat

  datatype Transaction =
    | Saving(user: User, key: Key, phase: SavePhase)
    | Sweeping(libraryOnly: bool, progress: SweepPhase)
  {
    /** Its advisory lock statement is behind it. */
    predicate HoldsLock() {
      if Saving? then phase != InterestWritten else progress != Begun
    }

    /** It has written the queue row of `k` and not committed. */
    predicate HoldsRow(k: Key) {
      if Saving? then phase == Enqueued(true) && key == k else progress.Deleting? && k in progress.deleted
    }

    predicate Finished() {
      if Saving? then phase.Enqueued? else progress.Deleting? && progress.dead == {}
    }
  }

  datatype SavePhase = InterestWritten | LockTaken | Enqueued(queued: bool)

  /** `dead` is what the snapshot found dead and the DELETE has not visited yet. */
  datatype SweepPhase = Begun | Locked | Deleting(dead: set<Key>, deleted: set<Key>)

  /** `rows` are the queue's stock rows and `busy` those not 'pending'; `interest` the
      saves; `matched` the keys some library matches; `listed` what an enabled store
      lists. `promised` collects the saves that committed with a row queued, for as long
      as the user keeps the save and the item stays listed. */
  datatype World = World(
    locking: bool,
    rows: set<Key>, busy: set<Key>,
    interest: set<(User, Key)>, matched: set<Key>, listed: set<Key>,
    lock: Option<Tx>, open: map<Tx, Transaction>,
    promised: set<(User, Key)>)
  {
    predicate Wanted(key: Key) {
      key in matched || exists s :: s in interest && s.1 == key
    }

    function Dead(libraryOnly: bool): set<Key> {
      set k | k in rows && k !in busy && !(k in listed && (libraryOnly ==> Wanted(k)))
    }

    predicate LockFree() {
      locking ==> lock == None
    }

    /** No transaction but `tx` has written the row. */
    predicate RowFree(tx: Option<Tx>, key: Key) {
      forall other :: other in open && Some(other) != tx ==> !open[other].HoldsRow(key)
    }

    function Close(tx: Tx): World {
      this.(open := open - {tx}, lock := if lock == Some(tx) then None else lock)
    }
  }

  datatype Step =
    | BeginSave(tx: Tx, user: User, key: Key)
    | BeginSweep(tx: Tx, libraryOnly: bool)
    | TakeLock(tx: Tx)
    | Upsert(tx: Tx)
    | BeginDelete(tx: Tx)
    | Visit(tx: Tx, key: Key)
    | Commit(tx: Tx)
    | Abort(tx: Tx)
    | Unsave(user: User, key: Key)
    | Relist(key: Key, now: bool)
    | Rematch(key: Key, now: bool)
    | EnqueueByStockSync(key: Key)
    | SetBusy(key: Key, now: bool)

  function Start(locking: bool): World {
    World(locking, {}, {}, {}, {}, {}, None, map[], {})
  }

  /** Whatever writes a row waits until nobody else has it. */
  predicate Enabled(w: World, s: Step) {
    match s
    case BeginSave(tx, _, _) => tx !in w.open
    case BeginSweep(tx, _) => tx !in w.open
    case TakeLock(tx) =>
      tx in w.open && w.LockFree() && !w.open[tx].HoldsLock()
    case Upsert(tx) =>
      tx in w.open && w.open[tx].Saving? && w.open[tx].phase == LockTaken && w.RowFree(Some(tx), w.open[tx].key)
    case BeginDelete(tx) => tx in w.open && w.open[tx].Sweeping? && w.open[tx].progress == Locked
    case Visit(tx, key) =>
      && tx in w.open && w.open[tx].Sweeping? && w.open[tx].progress.Deleting?
      && key in w.open[tx].progress.dead && w.RowFree(Some(tx), key)
    case Commit(tx) => tx in w.open && w.open[tx].Finished()
    case Abort(tx) => tx in w.open
    case EnqueueByStockSync(key) => w.RowFree(None, key)
    case SetBusy(key, _) => key in w.rows && w.RowFree(None, key)
    case _ => true
  }

  function Next(w: World, s: Step): World
    requires Enabled(w, s)
  {
    match s
    case BeginSave(tx, user, key) => w.(open := w.open[tx := Saving(user, key, InterestWritten)])
    case BeginSweep(tx, libraryOnly) => w.(open := w.open[tx := Sweeping(libraryOnly, Begun)])
    case TakeLock(tx) =>
      var t := w.open[tx];
      w.(lock := Some(tx),
         open := w.open[tx := if t.Saving? then t.(phase := LockTaken) else t.(progress := Locked)])
    case Upsert(tx) =>
      var t := w.open[tx];
      w.(open := w.open[tx := t.(phase := Enqueued(t.key in w.listed))])
    case BeginDelete(tx) =>
      var t := w.open[tx];
      w.(open := w.open[tx := t.(progress := Deleting(w.Dead(t.libraryOnly), {}))])
    case Visit(tx, key) =>
      var t := w.open[tx];
      var p := t.progress;
      var stillPending := key in w.rows && key !in w.busy;
      w.(open := w.open[tx := t.(progress :=
           Deleting(p.dead - {key}, if stillPending then p.deleted + {key} else p.deleted))])
    case Commit(tx) =>
      var t := w.open[tx];
      if t.Saving? then
        w.Close(tx).(
        interest := w.interest + {(t.user, t.key)},
        rows := if t.phase.queued then w.rows + {t.key} else w.rows,
        promised := if t.phase.queued && t.key in w.listed then w.promised + {(t.user, t.key)} else w.promised)
      else
        w.Close(tx).(rows := w.rows - t.progress.deleted, busy := w.busy - t.progress.deleted)
    case Abort(tx) => w.Close(tx)
    case Unsave(user, key) =>
      w.(interest := w.interest - {(user, key)}, promised := w.promised - {(user, key)})
    case Relist(key, now) =>
      if now then w.(listed := w.listed + {key})
      else w.(listed := w.listed - {key}, promised := set p | p in w.promised && p.1 != key)
    case Rematch(key, now) => w.(matched := if now then w.matched + {key} else w.matched - {key})
    case EnqueueByStockSync(key) => if key in w.listed then w.(rows := w.rows + {key}) else w
    case SetBusy(key, now) => w.(busy := if now then w.busy + {key} else w.busy - {key})
  }

  predicate Leads(prior: World, s: Step, w: World) {
    Enabled(prior, s) && w == Next(prior, s)
  }

  ghost predicate Reachable(w: World, locking: bool, steps: seq<Step>)
    decreases |steps|
  {
    if steps == [] then w == Start(locking)
    else
      var earlier, last := steps[..|steps| - 1], steps[|steps| - 1];
      exists prior: World :: Leads(prior, last, w) && Reachable(prior, locking, earlier)
  }

  /** A sweep means to delete the row, or has. */
  predicate Threatens(t: Transaction, key: Key) {
    t.Sweeping? && t.progress.Deleting? && (key in t.progress.dead || key in t.progress.deleted)
  }

  /** Whoever is past its lock statement holds the lock; and every promise is backed by
      the save, the listing, a row, and no open sweep about to delete that row. */
  ghost predicate Inv(w: World) {
    && (forall tx :: tx in w.open && w.open[tx].HoldsLock() ==> w.lock == Some(tx))
    && (forall p :: p in w.promised ==> p in w.interest && p.1 in w.listed && p.1 in w.rows)
    && (forall tx, p :: tx in w.open && p in w.promised ==> !Threatens(w.open[tx], p.1))
  }

  lemma DeleteKeeps(w: World, tx: Tx)
    requires w.locking && Inv(w) && Enabled(w, BeginDelete(tx))
    ensures Inv(Next(w, BeginDelete(tx)))
  {
    forall p | p in w.promised ensures p.1 !in w.Dead(w.open[tx].libraryOnly) {
      assert w.Wanted(p.1);
    }
  }

  /** A save commits while it holds the lock, so no sweep is past its own lock statement. */
  lemma CommitKeeps(w: World, tx: Tx)
    requires w.locking && Inv(w) && Enabled(w, Commit(tx))
    ensures Inv(Next(w, Commit(tx)))
  {
    if w.open[tx].Saving? {
      forall other | other in w.open && other != tx ensures !w.open[other].HoldsLock() {
        assert w.lock == Some(tx);
      }
    }
  }

  lemma StepKeeps(w: World, s: Step)
    requires w.locking && Inv(w) && Enabled(w, s)
    ensures Inv(Next(w, s)) && Next(w, s).locking
  {
    match s
    case BeginDelete(tx) => DeleteKeeps(w, tx);
    case Commit(tx) => CommitKeeps(w, tx);
    case _ =>
  }

  lemma {:induction false} RunKeeps(w: World, steps: seq<Step>)
    requires Reachable(w, true, steps)
    ensures Inv(w) && w.locking
    decreases |steps|
  {
    if steps != [] {
      var earlier, last := steps[..|steps| - 1], steps[|steps| - 1];
      var prior: World :| Leads(prior, last, w) && Reachable(prior, true, earlier);
      RunKeeps(prior, earlier);
      StepKeeps(prior, last);
    }
  }

  /** In every interleaving of saves, sweeps, stock-sync enqueues and claims, a save of a
      listed item that has committed has its queue row for as long as the user keeps the
      save and a store keeps listing the item. */
  lemma SavedItemHasARow(w: World, steps: seq<Step>, user: User, key: Key)
    requires Reachable(w, true, steps)
    requires (user, key) in w.promised
    ensures key in w.rows && (user, key) in w.interest && key in w.listed
  {
    RunKeeps(w, steps);
  }

  /** A committing save that found the item listed is promised its row. */
  lemma CommittedSaveIsPromised(w: World, steps: seq<Step>, tx: Tx)
    requires Reachable(w, true, steps)
    requires tx in w.open && w.open[tx].Saving? && w.open[tx].phase == Enqueued(true) && w.open[tx].key in w.listed
    ensures var after := Next(w, Commit(tx));
            && (w.open[tx].user, w.open[tx].key) in after.promised
            && w.open[tx].key in after.rows
            && after.lock == None
  {
    RunKeeps(w, steps);
  }

  // ----- A row a worker is on -----

  /** No sweep has deleted a row that is not 'pending'. */
  ghost predicate SparesBusy(w: World) {
    forall tx :: tx in w.open && w.open[tx].Sweeping? && w.open[tx].progress.Deleting? ==> w.open[tx].progress.deleted !! w.busy
  }

  lemma StepSparesBusy(w: World, s: Step)
    requires SparesBusy(w) && Enabled(w, s)
    ensures SparesBusy(Next(w, s))
  {
    if s.SetBusy? {
      forall tx | tx in w.open && w.open[tx].Sweeping? && w.open[tx].progress.Deleting?
        ensures s.key !in w.open[tx].progress.deleted
      {
        assert !w.open[tx].HoldsRow(s.key);
      }
    }
  }

  lemma {:induction false} RunSparesBusy(w: World, locking: bool, steps: seq<Step>)
    requires Reachable(w, locking, steps)
    ensures SparesBusy(w)
    decreases |steps|
  {
    hide SparesBusy, Next, Enabled;
    if steps != [] {
      var earlier, last := steps[..|steps| - 1], steps[|steps| - 1];
      var prior: World :| Leads(prior, last, w) && Reachable(prior, locking, earlier);
      RunSparesBusy(prior, locking, earlier);
      StepSparesBusy(prior, last);
    } else {
      StartSparesBusy(locking);
    }
  }

  lemma StartSparesBusy(locking: bool)
    ensures SparesBusy(Start(locking))
  {
  }

  /** A row a worker has taken is never deleted under it, with the lock or without: a sweep
      that found it dead before it was claimed passes it by. */
  lemma BusyRowsStay(w: World, locking: bool, steps: seq<Step>, s: Step, key: Key)
    requires Reachable(w, locking, steps) && Enabled(w, s) && key in w.rows && key in w.busy
    ensures key in Next(w, s).rows
  {
    RunSparesBusy(w, locking, steps);
  }

  // ----- The race the lock closes -----

  ghost predicate Reaches(w: World) {
    exists steps :: Reachable(w, false, steps)
  }

  lemma ReachesNext(w: World, s: Step, after: World)
    requires Reaches(w) && Leads(w, s, after)
    ensures Reaches(after)
  {
    var steps :| Reachable(w, false, steps);
    var all := steps + [s];
    assert all[..|all| - 1] == steps && all[|all| - 1] == s;
    assert Reachable(after, false, all);
  }

  /** A world of the race over the one item "k", with transactions 0 and 1 as given. */
  function Race(rows: set<Key>, interest: set<(User, Key)>, promised: set<(User, Key)>,
                lock: Option<Tx>, open: map<Tx, Transaction>): World {
    World(false, rows, {}, interest, {}, {"k"}, lock, open, promised)
  }

  const SNAPPED := Sweeping(true, Deleting({"k"}, {}))
  const VISITED := Sweeping(true, Deleting({}, {"k"}))

  lemma SweepBegins()
    ensures Reaches(Race({"k"}, {}, {}, None, map[0 := Sweeping(true, Begun)]))
  {
    assert Reachable(Start(false), false, []);
    var listed := Race({}, {}, {}, None, map[]);
    ReachesNext(Start(false), Relist("k", true), listed);
    hide Reaches;
    var queued := Race({"k"}, {}, {}, None, map[]);
    ReachesNext(listed, EnqueueByStockSync("k"), queued);
    ReachesNext(queued, BeginSweep(0, true), Race({"k"}, {}, {}, None, map[0 := Sweeping(true, Begun)]));
  }

  lemma SweepSnapsFirst()
    ensures Reaches(Race({"k"}, {}, {}, Some(0), map[0 := SNAPPED]))
  {
    hide Reaches;
    SweepBegins();
    var begun := Race({"k"}, {}, {}, None, map[0 := Sweeping(true, Begun)]);
    var locked := Race({"k"}, {}, {}, Some(0), map[0 := Sweeping(true, Locked)]);
    ReachesNext(begun, TakeLock(0), locked);
    NobodyWantsIt(Some(0), map[0 := Sweeping(true, Locked)]);
    ReachesNext(locked, BeginDelete(0), Race({"k"}, {}, {}, Some(0), map[0 := SNAPPED]));
  }

  lemma NobodyWantsIt(lock: Option<Tx>, open: map<Tx, Transaction>)
    ensures Race({"k"}, {}, {}, lock, open).Dead(true) == {"k"}
  {
  }

  lemma SaveFindsTheRow()
    ensures Reaches(Race({"k"}, {(7, "k")}, {(7, "k")}, None, map[0 := SNAPPED]))
  {
    SweepSnapsFirst();
    hide Reaches;
    var snapped := Race({"k"}, {}, {}, Some(0), map[0 := SNAPPED]);
    var begun := Race({"k"}, {}, {}, Some(0), map[0 := SNAPPED, 1 := Saving(7, "k", InterestWritten)]);
    ReachesNext(snapped, BeginSave(1, 7, "k"), begun);
    var locked := Race({"k"}, {}, {}, Some(1), map[0 := SNAPPED, 1 := Saving(7, "k", LockTaken)]);
    ReachesNext(begun, TakeLock(1), locked);
    var enqueued := Race({"k"}, {}, {}, Some(1), map[0 := SNAPPED, 1 := Saving(7, "k", Enqueued(true))]);
    ReachesNext(locked, Upsert(1), enqueued);
    var saved := Race({"k"}, {(7, "k")}, {(7, "k")}, None, map[0 := SNAPPED]);
    assert enqueued.open - {1} == saved.open;
    ReachesNext(enqueued, Commit(1), saved);
  }

  /** A library-only sweep whose snapshot is older than the save's commit visits the row the
      save found and expedited, once the save has let it go, and deletes it: the committed
      save is left with none. */
  lemma WithoutTheLockTheRowIsLost()
    ensures exists w: World :: Reaches(w) && (7, "k") in w.promised && "k" !in w.rows
  {
    SaveFindsTheRow();
    hide Reaches;
    var saved := Race({"k"}, {(7, "k")}, {(7, "k")}, None, map[0 := SNAPPED]);
    var visited := Race({"k"}, {(7, "k")}, {(7, "k")}, None, map[0 := VISITED]);
    assert {"k"} - {"k"} == {} && {} + {"k"} == {"k"};
    ReachesNext(saved, Visit(0, "k"), visited);
    var lost := Race({}, {(7, "k")}, {(7, "k")}, None, map[]);
    assert visited.open - {0} == lost.open && {"k"} - {"k"} == {};
    ReachesNext(visited, Commit(0), lost);
  }
}
