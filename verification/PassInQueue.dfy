/**
 A worker's pass inside the queue that all workers share: whether its claim is lost, and
 whether its close lands, are read off the world the statements run in, whatever other
 workers, reclaims, saves and sweeps did between one statement and the next.
 */
module PassInQueue {
  import opened Options
  import opened CrawlQueue
  import QueueOwnership
  import opened WorkerPass
  import opened WorkerObligations

  /** The statement a logged close issues. */
  function Statement(close: Event, worker: Worker, delay: nat): QueueOwnership.Step
    requires close.ClosedDone? || close.ClosedDeferred?
  {
    if close.ClosedDone? then QueueOwnership.MarkDone(worker, close.id)
    else QueueOwnership.Defer(worker, close.id, close.crawlers, delay)
  }

  /** The last search's answer is the one the queue gave: a search that returned found the
      row reclaimed exactly when the worker no longer held it as its listing was written. */
  predicate AnswersAsHeld(a: Answer, w: QueueOwnership.World, id: RowId, worker: Worker) {
    a.SearchReturned? ==> (a.outcome.Reclaimed? <==> !w.table.Held(id, worker))
  }

  /** A pass closes a row if and only if, when the row's last search wrote its listing, the
      worker's claim was still the latest thing that had happened to the row -- or that
      search never got so far as to ask. */
  lemma ClosedIffOwned(rows: seq<ClaimedRow>, answers: seq<Answer>, i: nat, worker: Worker,
                       w: QueueOwnership.World, steps: seq<QueueOwnership.Step>) returns (base: nat)
    requires DistinctIds(rows) && i < |rows| && |answers| == UnitCount(rows)
    requires HasUnits(rows[i]) && NoDuplicates(rows[i].eligible)
    requires QueueOwnership.Reachable(w, steps)
    ensures base + |rows[i].eligible| <= |answers| && AnswersFrom(rows, i, base)
    ensures var (mine, n) := (Of(PassLog(rows, answers), rows[i].id), |rows[i].eligible|);
            var last := answers[base + n - 1];
            AnswersAsHeld(last, w, rows[i].id, worker) ==>
              (|mine| == n + 1 <==>
               (!last.SearchReturned? || QueueOwnership.LatestOwner(w.log, rows[i].id) == Some(worker)))
  {
    hide Of, PassLog, AnswersFrom, NoDuplicates, DistinctIds, UnitCount, AccountsFor;
    base := ClosedOnceIffHeld(rows, answers, i);
    QueueOwnership.RunKeeps(w, steps);
    assert QueueOwnership.Claimant(w.table, rows[i].id) == QueueOwnership.LatestOwner(w.log, rows[i].id);
  }

  /** In any reachable world the close the pass logs for a row is a statement the worker may
      issue. If its claim is still the latest thing that happened to the row, the row is
      done when nothing was put off, and otherwise pending, unclaimed and narrowed to
      exactly the crawlers that were; if not, the statement changes nothing at all. */
  lemma CloseInTheQueue(rows: seq<ClaimedRow>, answers: seq<Answer>, i: nat, worker: Worker, delay: nat,
                        w: QueueOwnership.World, steps: seq<QueueOwnership.Step>)
    requires DistinctIds(rows) && i < |rows| && |answers| == UnitCount(rows)
    requires HasUnits(rows[i]) && NoDuplicates(rows[i].eligible)
    requires QueueOwnership.Reachable(w, steps) && rows[i].id in QueueOwnership.CurrentBatch(w.log, worker)
    requires |Of(PassLog(rows, answers), rows[i].id)| == |rows[i].eligible| + 1
    ensures var (mine, n, id) := (Of(PassLog(rows, answers), rows[i].id), |rows[i].eligible|, rows[i].id);
            && mine[n].Closes(id)
            && var s := Statement(mine[n], worker, delay);
            && QueueOwnership.Enabled(w, s)
            && var u := QueueOwnership.Next(w, s);
            if QueueOwnership.LatestOwner(w.log, id) == Some(worker)
            then id in u.table.rows && LeftAs(u.table.rows[id], mine, rows[i].eligible)
            else u == w
  {
    var mine := Of(PassLog(rows, answers), rows[i].id);
    NoObligationLost(rows, answers, i);
    QueueOwnership.RunKeeps(w, steps);
    hide Of, PassLog, DistinctIds, UnitCount, QueueOwnership.Reachable, QueueOwnership.Inv;
    ClosedRow(mine, rows[i], worker, delay, w);
    QueueOwnership.WriteTakesEffectIffOwner(w, Statement(mine[|rows[i].eligible|], worker, delay), steps);
    OwnerHolds(w, rows[i].id, steps);
  }

  lemma OwnerHolds(w: QueueOwnership.World, id: RowId, steps: seq<QueueOwnership.Step>)
    requires QueueOwnership.Reachable(w, steps)
    ensures forall worker :: w.table.Held(id, worker) <==> QueueOwnership.LatestOwner(w.log, id) == Some(worker)
  {
    QueueOwnership.RunKeeps(w, steps);
    assert QueueOwnership.Claimant(w.table, id) == QueueOwnership.LatestOwner(w.log, id);
  }

  /** What the row must be after its close, from what the log says of its crawlers. */
  ghost predicate LeftAs(row: Row, mine: seq<Event>, eligible: seq<CrawlerId>)
    requires |mine| == |eligible| + 1
  {
    var n := |eligible|;
    if exists p :: 0 <= p < n && mine[p].PutOff? then
      && row.status == Pending && row.claimedBy == None && row.crawlers.Some?
      && forall c :: c in row.crawlers.value <==> exists p :: 0 <= p < n && eligible[p] == c && mine[p].PutOff?
    else
      row.status == Done
  }

  lemma ClosedRow(mine: seq<Event>, row: ClaimedRow, worker: Worker, delay: nat, w: QueueOwnership.World)
    requires AccountsFor(mine, row) && |mine| == |row.eligible| + 1
    requires row.id in QueueOwnership.CurrentBatch(w.log, worker)
    ensures var (n, id) := (|row.eligible|, row.id);
            && mine[n].Closes(id)
            && var s := Statement(mine[n], worker, delay);
            && QueueOwnership.Enabled(w, s) && s.IsWrite() && s.id == id && s.worker == worker
            && var u := QueueOwnership.Next(w, s);
            w.table.Held(id, worker) ==> id in u.table.rows && LeftAs(u.table.rows[id], mine, row.eligible)
  {
    var n := |row.eligible|;
    if mine[n].ClosedDeferred? {
      var c := mine[n].crawlers[0];
      assert c in mine[n].crawlers;
      var p :| 0 <= p < n && row.eligible[p] == c && mine[p].PutOff?;
    }
  }
}
