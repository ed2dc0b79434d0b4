/**
 The fenced run leases of `backend/db.py`: `library_sync_runs` and
 `stock_judgment_runs` each keep one row a user, claimed with a fresh token, kept
 alive by a heartbeat, and lost for good once the heartbeat goes stale.

 `Lease` is what the two rows share. The classes are the rows themselves, written in
 place one statement at a time.
 */
module RunLease {
  import opened Options

  type Token = nat
  type Time = int

  /** Fifteen minutes, in seconds. */
  const STALE_AFTER: nat := 15 * 60

  datatype Outcome = Complete | Stopped | Failed(message: string)

  datatype Status = Running | PlexMatching | Closed(outcome: Outcome)

  datatype Lease = Lease(status: Status, token: Token, heartbeat: Time) {
    predicate Claimed() { status.Running? || status.PlexMatching? }

    predicate Stale(now: Time) { heartbeat < now - STALE_AFTER }

    /** The fence on a heartbeat, and so on every checkpoint. */
    predicate Passes(claim: Token, now: Time) { Claimed() && token == claim && !Stale(now) }

    /** The fence on the statements that end the phase `phase`. */
    predicate MayLeave(phase: Status, claim: Token, now: Time) { status == phase && Passes(claim, now) }

    function Beaten(now: Time): Lease { this.(heartbeat := now) }

    function Moved(to: Status, now: Time): Lease { this.(status := to, heartbeat := now) }
  }

  predicate Claimable(l: Option<Lease>, now: Time) {
    l.None? || !l.value.Claimed() || l.value.Stale(now)
  }

  function Coalesce<T>(given: Option<T>, kept: Option<T>): Option<T> {
    if given.Some? then given else kept
  }

  datatype SyncRun = SyncRun(
    lease: Lease, mode: string, scope: string,
    page: Option<nat>, totalPages: Option<nat>, synced: nat, wishlistSynced: Option<nat>,
    error: Option<string>, startedAt: Time, finishedAt: Option<Time>)
  {
    function Counted(synced: Option<nat>, wishlist: Option<nat>): SyncRun {
      this.(synced := if synced.Some? then synced.value else this.synced,
            wishlistSynced := Coalesce(wishlist, wishlistSynced))
    }
  }

  function ErrorOf(o: Outcome): Option<string> {
    if o.Failed? then Some(o.message) else None
  }

  /** The row of one user in `library_sync_runs`. */
  class SyncRuns {
    var run: Option<SyncRun>

    constructor ()
      ensures run == None
    {
      run := None;
    }

    function Held(): Option<Lease>
      reads this
    {
      if run.None? then None else Some(run.value.lease)
    }

    method Claim(token: Token, mode: string, scope: string, now: Time) returns (granted: bool)
      modifies this
      ensures granted == Claimable(old(Held()), now)
      ensures !granted ==> run == old(run)
      ensures granted ==> run == Some(SyncRun(Lease(Running, token, now), mode, scope,
                                              None, None, 0, None, None, now, None))
    {
      granted := run.None? || !run.value.lease.Claimed() || run.value.lease.Stale(now);
      if granted {
        run := Some(SyncRun(Lease(Running, token, now), mode, scope, None, None, 0, None, None, now, None));
      }
    }

    method RecordProgress(token: Token, page: Option<nat>, totalPages: Option<nat>, synced: Option<nat>,
                          wishlist: Option<nat>, now: Time) returns (ours: bool)
      modifies this
      ensures ours == (old(Held()).Some? && old(Held()).value.Passes(token, now))
      ensures !ours ==> run == old(run)
      ensures ours ==> run == Some(old(run).value.Counted(synced, wishlist).(
                                   page := Coalesce(page, old(run).value.page),
                                   totalPages := Coalesce(totalPages, old(run).value.totalPages),
                                   lease := old(Held()).value.Beaten(now)))
    {
      ours := run.Some? && run.value.lease.Passes(token, now);
      if ours {
        var r := run.value.Counted(synced, wishlist);
        run := Some(r.(page := Coalesce(page, r.page), totalPages := Coalesce(totalPages, r.totalPages),
                       lease := r.lease.Beaten(now)));
      }
    }

    method Finish(token: Token, outcome: Outcome, synced: Option<nat>, wishlist: Option<nat>, now: Time)
      returns (closed: bool)
      modifies this
      ensures closed == (old(Held()).Some? && old(Held()).value.MayLeave(Running, token, now))
      ensures !closed ==> run == old(run)
      ensures closed ==> run == Some(old(run).value.Counted(synced, wishlist).(
                                     error := ErrorOf(outcome), finishedAt := Some(now),
                                     lease := old(Held()).value.Moved(Closed(outcome), now)))
    {
      closed := run.Some? && run.value.lease.MayLeave(Running, token, now);
      if closed {
        var r := run.value.Counted(synced, wishlist);
        run := Some(r.(error := ErrorOf(outcome), finishedAt := Some(now),
                       lease := r.lease.Moved(Closed(outcome), now)));
      }
    }

    method StartPlexPhase(token: Token, synced: Option<nat>, wishlist: Option<nat>, now: Time)
      returns (handed: bool)
      modifies this
      ensures handed == (old(Held()).Some? && old(Held()).value.MayLeave(Running, token, now))
      ensures !handed ==> run == old(run)
      ensures handed ==> run == Some(old(run).value.Counted(synced, wishlist).(
                                     error := None, finishedAt := Some(now),
                                     lease := old(Held()).value.Moved(PlexMatching, now)))
    {
      handed := run.Some? && run.value.lease.MayLeave(Running, token, now);
      if handed {
        var r := run.value.Counted(synced, wishlist);
        run := Some(r.(error := None, finishedAt := Some(now), lease := r.lease.Moved(PlexMatching, now)));
      }
    }

    method FinishPlexPhase(token: Token, now: Time) returns (released: bool)
      modifies this
      ensures released == (old(Held()).Some? && old(Held()).value.MayLeave(PlexMatching, token, now))
      ensures !released ==> run == old(run)
      ensures released ==> run == Some(old(run).value.(
                                       finishedAt := Some(now),
                                       lease := old(Held()).value.Moved(Closed(Complete), now)))
    {
      released := run.Some? && run.value.lease.MayLeave(PlexMatching, token, now);
      if released {
        run := Some(run.value.(finishedAt := Some(now), lease := run.value.lease.Moved(Closed(Complete), now)));
      }
    }
  }

  datatype JudgmentRun = JudgmentRun(
    lease: Lease, judged: nat, inherited: nat, total: Option<nat>, error: Option<string>,
    stopRequested: bool, startedAt: Time, finishedAt: Option<Time>)

  /** The row of one user in `stock_judgment_runs`, which has no Plex phase. */
  class JudgmentRuns {
    var run: Option<JudgmentRun>

    constructor ()
      ensures run == None
    {
      run := None;
    }

    /** The only statuses this table holds are 'running' and the closed ones. */
    predicate Valid()
      reads this
    {
      run.Some? ==> !run.value.lease.status.PlexMatching?
    }

    function Held(): Option<Lease>
      reads this
    {
      if run.None? then None else Some(run.value.lease)
    }

    /** A claim forgets a stop that was meant for an earlier run. */
    method Claim(token: Token, now: Time) returns (granted: bool)
      requires Valid()
      modifies this
      ensures Valid()
      ensures granted == Claimable(old(Held()), now)
      ensures !granted ==> run == old(run)
      ensures granted ==> run == Some(JudgmentRun(Lease(Running, token, now), 0, 0, None, None, false, now, None))
    {
      granted := run.None? || !run.value.lease.status.Running? || run.value.lease.Stale(now);
      if granted {
        run := Some(JudgmentRun(Lease(Running, token, now), 0, 0, None, None, false, now, None));
      }
    }

    /** None when the run is no longer the caller's, and otherwise whether to stop. */
    method RecordProgress(token: Token, judged: Option<nat>, total: Option<nat>, inherited: Option<nat>, now: Time)
      returns (stop: Option<bool>)
      requires Valid()
      modifies this
      ensures Valid()
      ensures stop.Some? == (old(Held()).Some? && old(Held()).value.Passes(token, now))
      ensures stop.None? ==> run == old(run)
      ensures stop.Some? ==>
        var r := old(run).value;
        stop.value == r.stopRequested &&
        run == Some(r.(judged := if judged.Some? then judged.value else r.judged,
                       inherited := if inherited.Some? then inherited.value else r.inherited,
                       total := Coalesce(total, r.total), lease := r.lease.Beaten(now)))
    {
      stop := None;
      if run.Some? && run.value.lease.MayLeave(Running, token, now) {
        var r := run.value;
        run := Some(r.(judged := if judged.Some? then judged.value else r.judged,
                       inherited := if inherited.Some? then inherited.value else r.inherited,
                       total := Coalesce(total, r.total), lease := r.lease.Beaten(now)));
        stop := Some(r.stopRequested);
      }
    }

    method Finish(token: Token, outcome: Outcome, judged: Option<nat>, inherited: Option<nat>, now: Time)
      returns (closed: bool)
      requires Valid()
      modifies this
      ensures Valid()
      ensures closed == (old(Held()).Some? && old(Held()).value.MayLeave(Running, token, now))
      ensures !closed ==> run == old(run)
      ensures closed ==>
        var r := old(run).value;
        run == Some(r.(judged := if judged.Some? then judged.value else r.judged,
                       inherited := if inherited.Some? then inherited.value else r.inherited,
                       error := ErrorOf(outcome), finishedAt := Some(now),
                       lease := r.lease.Moved(Closed(outcome), now)))
    {
      closed := run.Some? && run.value.lease.MayLeave(Running, token, now);
      if closed {
        var r := run.value;
        run := Some(r.(judged := if judged.Some? then judged.value else r.judged,
                       inherited := if inherited.Some? then inherited.value else r.inherited,
                       error := ErrorOf(outcome), finishedAt := Some(now),
                       lease := r.lease.Moved(Closed(outcome), now)));
      }
    }

    /** Asks whatever live run there is, by no token, and moves no heartbeat. */
    method RequestStop(now: Time) returns (asked: bool)
      requires Valid()
      modifies this
      ensures Valid()
      ensures asked == (old(Held()).Some? && !Claimable(old(Held()), now))
      ensures run == if asked then Some(old(run).value.(stopRequested := true)) else old(run)
    {
      asked := run.Some? && run.value.lease.status.Running? && !run.value.lease.Stale(now);
      if asked { run := Some(run.value.(stopRequested := true)); }
    }
  }
}
