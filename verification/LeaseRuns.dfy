/**
 Every run of a fenced lease, with any number of workers on any number of Machines.

 A step is one statement against the row, or one end of a transaction that holds the
 row's lock. A checkpoint of a sync opens with the fence (`Fence`) and ends by
 committing the library writes made since the last one (`Commit`) or by rolling them
 back, the heartbeat included; in between, every other statement on the row waits.
 A close that never reached the row is a step that is not taken.
 */
module LeaseRuns {
  import opened Options
  import opened RunLease

  datatype Event =
    | Issued(token: Token)
    | Committed(token: Token)
    | HandedOver(token: Token)
    | Intended(token: Token, outcome: Outcome)
    | Recorded(token: Token, outcome: Outcome)
    | Released(token: Token)
  {
    /** A write that reached the row or the library on this token's authority. */
    predicate Effective() { Committed? || HandedOver? || Recorded? || Released? }

    predicate Ends(t: Token) { (Recorded? || Released?) && token == t }
  }

  /** A transaction that passed the fence: who holds the row lock, and the row a
      rollback puts back. */
  datatype Hold = Hold(token: Token, before: Lease)

  /** What a worker's closing code still means to record: `intended_outcome`, which an
      answered close empties. */
  datatype Intent = Meant(outcome: Outcome) | Answered

  datatype World = World(
    row: Option<Lease>, lock: Option<Hold>, now: Time, intents: map<Token, Intent>, log: seq<Event>)
  {
    predicate Passes(t: Token) { row.Some? && row.value.Passes(t, now) }

    predicate MayLeave(phase: Status, t: Token) { row.Some? && row.value.MayLeave(phase, t, now) }

    predicate Known(t: Token) { Issued(t) in log }
  }

  datatype Step =
    | Tick(elapsed: nat)
    | Claim(token: Token)
    | Fence(token: Token)
    | Commit(token: Token)
    | Rollback(token: Token)
    | StartPlex(token: Token)
    | FinishPlex(token: Token)
    | Intend(token: Token, outcome: Outcome)
    | AttemptClose(token: Token)
    | Backstop(token: Token)

  const ENDED_UNEXPECTEDLY := Failed("Sync ended unexpectedly")

  const Start := World(None, None, 0, map[], [])

  /** Tokens are fresh, a worker acts only on a token it was issued, a transaction is
      ended by the worker that opened it, and everything else waits for the row lock. */
  predicate Enabled(w: World, s: Step) {
    match s
    case Tick(_) => true
    case Claim(t) => w.lock.None? && !w.Known(t)
    case Commit(t) => w.lock.Some? && w.lock.value.token == t
    case Rollback(t) => w.lock.Some? && w.lock.value.token == t
    case Intend(t, _) => w.Known(t)
    case AttemptClose(t) => w.lock.None? && w.Known(t) && t in w.intents && w.intents[t].Meant?
    case _ => w.lock.None? && w.Known(s.token)
  }

  /** `finish_run` reaching the row: the answer, whichever it is, empties the intent. */
  function Close(w: World, t: Token, outcome: Outcome): World {
    if w.MayLeave(Running, t)
    then w.(row := Some(w.row.value.Moved(Closed(outcome), w.now)), intents := w.intents[t := Answered],
            log := w.log + [Recorded(t, outcome)])
    else w.(intents := w.intents[t := Answered])
  }

  function Next(w: World, s: Step): World {
    match s
    case Tick(elapsed) => w.(now := w.now + elapsed)
    case Claim(t) =>
      if Claimable(w.row, w.now)
      then w.(row := Some(Lease(Running, t, w.now)), log := w.log + [Issued(t)])
      else w
    case Fence(t) =>
      if w.Passes(t)
      then w.(row := Some(w.row.value.Beaten(w.now)), lock := Some(Hold(t, w.row.value)))
      else w
    case Commit(t) => w.(lock := None, log := w.log + [Committed(t)])
    case Rollback(t) => if w.lock.None? then w else w.(row := Some(w.lock.value.before), lock := None)
    case StartPlex(t) =>
      if w.MayLeave(Running, t)
      then w.(row := Some(w.row.value.Moved(PlexMatching, w.now)), log := w.log + [HandedOver(t)])
      else w
    case FinishPlex(t) =>
      if w.MayLeave(PlexMatching, t)
      then w.(row := Some(w.row.value.Moved(Closed(Complete), w.now)), log := w.log + [Released(t)])
      else w
    case Intend(t, outcome) =>
      w.(intents := w.intents[t := Meant(outcome)], log := w.log + [Intended(t, outcome)])
    case AttemptClose(t) =>
      if t in w.intents && w.intents[t].Meant? then Close(w, t, w.intents[t].outcome) else w
    case Backstop(t) =>
      Close(w, t, if t in w.intents && w.intents[t].Meant? then w.intents[t].outcome else ENDED_UNEXPECTEDLY)
  }

  predicate Leads(prior: World, s: Step, w: World) {
    Enabled(prior, s) && w == Next(prior, s)
  }

  /** `w` can be reached from `origin` by some run of `steps`. */
  ghost predicate Reaches(origin: World, steps: seq<Step>, w: World)
    decreases |steps|
  {
    if steps == [] then w == origin
    else
      var earlier, last := steps[..|steps| - 1], steps[|steps| - 1];
      exists prior: World :: Leads(prior, last, w) && Reaches(origin, earlier, prior)
  }

  /** The token of the latest claim. */
  function Latest(log: seq<Event>): Option<Token> {
    if log == [] then None
    else
      var last := log[|log| - 1];
      if last.Issued? then Some(last.token) else Latest(log[..|log| - 1])
  }

  /** The outcome the worker last chose for the run, if it ever chose one. */
  function LastIntent(log: seq<Event>, t: Token): Option<Outcome> {
    if log == [] then None
    else
      var last := log[|log| - 1];
      if last.Intended? && last.token == t then Some(last.outcome) else LastIntent(log[..|log| - 1], t)
  }

  /** What the worker's closing code owes the row: its last choice, or the generic
      failure if it never made one. */
  function Chosen(log: seq<Event>, t: Token): Outcome {
    match LastIntent(log, t)
    case Some(outcome) => outcome
    case None => ENDED_UNEXPECTEDLY
  }

  // ----- The log's own invariant -----

  /** Event `k` is one the protocol allows after the events before it. */
  ghost predicate Lawful(log: seq<Event>, k: nat)
    requires k < |log|
  {
    var e, before := log[k], log[..k];
    && (e.Issued? ==> e !in before)
    && (e.Effective() ==>
          && Latest(before) == Some(e.token)
          && forall i :: 0 <= i < k ==> !before[i].Ends(e.token))
    && (e.HandedOver? ==> e !in before)
    && (e.Recorded? ==>
          && HandedOver(e.token) !in before
          && e.outcome == Chosen(before, e.token))
  }

  ghost predicate LawfulLog(log: seq<Event>) {
    forall k: nat :: k < |log| ==> Lawful(log, k)
  }

  lemma LawfulExtends(log: seq<Event>, e: Event)
    requires LawfulLog(log) && Lawful(log + [e], |log|)
    ensures LawfulLog(log + [e])
  {
    var all := log + [e];
    forall k: nat | k < |all| ensures Lawful(all, k) {
      if k < |log| {
        assert Lawful(log, k);
        assert all[..k] == log[..k];
      }
    }
  }

  lemma LogAfter(log: seq<Event>, e: Event, t: Token)
    ensures (log + [e])[..|log|] == log
    ensures Latest(log + [e]) == if e.Issued? then Some(e.token) else Latest(log)
    ensures LastIntent(log + [e], t) == if e.Intended? && e.token == t then Some(e.outcome) else LastIntent(log, t)
  {
    assert (log + [e])[..|log|] == log;
  }

  lemma {:induction false} LatestIsKnown(log: seq<Event>)
    ensures match Latest(log)
            case Some(t) => Issued(t) in log
            case None => forall t: Token :: Issued(t) !in log
  {
    if log != [] && !log[|log| - 1].Issued? {
      var shorter := log[..|log| - 1];
      LatestIsKnown(shorter);
      forall t: Token ensures Issued(t) in log <==> Issued(t) in shorter {
        assert log == shorter + [log[|log| - 1]];
      }
    }
  }

  /** The token has written its last terminal status, or never had one to write. */
  ghost predicate Ended(log: seq<Event>, t: Token) {
    exists i :: 0 <= i < |log| && log[i].Ends(t)
  }

  // ----- The invariant of the world -----

  /** What the row's status says about its token's past. */
  ghost predicate RowTellsThePast(w: World) {
    w.row.Some? ==>
      var l := w.row.value;
      && (Ended(w.log, l.token) ==> l.status.Closed?)
      && (HandedOver(l.token) in w.log ==> !l.status.Running?)
  }

  ghost predicate IntentsTellThePast(w: World) {
    forall t: Token ::
      if t !in w.intents then LastIntent(w.log, t) == None
      else match w.intents[t]
           case Meant(o) => LastIntent(w.log, t) == Some(o)
           case Answered => w.Known(t) && !w.MayLeave(Running, t)
  }

  ghost predicate Inv(w: World) {
    && LawfulLog(w.log)
    && Latest(w.log) == (if w.row.Some? then Some(w.row.value.token) else None)
    && (w.row.Some? ==> w.row.value.heartbeat <= w.now)
    && (w.lock.Some? ==>
          && w.row.Some? && w.row.value.Claimed()
          && w.lock.value.token == w.row.value.token
          && w.lock.value.before.status == w.row.value.status
          && w.lock.value.before.token == w.row.value.token
          && w.lock.value.before.heartbeat <= w.row.value.heartbeat)
    && RowTellsThePast(w)
    && IntentsTellThePast(w)
  }

  /** A token a fence has refused. */
  predicate Refused(w: World, t: Token) { w.Known(t) && !w.Passes(t) }

  lemma EndedAfter(log: seq<Event>, e: Event, t: Token)
    ensures Ended(log + [e], t) <==> Ended(log, t) || e.Ends(t)
  {
    var all := log + [e];
    if e.Ends(t) { assert all[|log|].Ends(t); }
    if Ended(log, t) {
      var i :| 0 <= i < |log| && log[i].Ends(t);
      assert all[i].Ends(t);
    }
    if Ended(all, t) {
      var i :| 0 <= i < |all| && all[i].Ends(t);
      assert i < |log| ==> log[i].Ends(t);
    }
  }

  // ----- One step -----

  /** A write that passed the fence, logged as the event `e` of the row's own token. */
  lemma WriteKeeps(w: World, u: World, e: Event)
    requires Inv(w) && e.Effective() && u.log == w.log + [e] && u.now == w.now
    requires w.row.Some? && u.row.Some? && e.token == w.row.value.token == u.row.value.token
    requires w.row.value.Claimed()
    requires e.HandedOver? ==> w.row.value.status.Running? && !u.row.value.status.Running?
    requires e.Recorded? ==> w.row.value.status.Running? && e.outcome == Chosen(w.log, e.token)
    requires e.Recorded? || e.Released? ==> u.row.value.status.Closed?
    requires !w.row.value.status.Running? ==> !u.row.value.status.Running?
    ensures LawfulLog(u.log) && Latest(u.log) == Some(u.row.value.token)
    ensures RowTellsThePast(u)
    ensures forall t: Token :: LastIntent(u.log, t) == LastIntent(w.log, t) && (u.Known(t) <==> w.Known(t))
  {
    assert !Ended(w.log, e.token);
    LogAfter(w.log, e, e.token);
    assert Lawful(u.log, |w.log|);
    LawfulExtends(w.log, e);
    EndedAfter(w.log, e, e.token);
    forall t: Token ensures LastIntent(u.log, t) == LastIntent(w.log, t) { LogAfter(w.log, e, t); }
  }

  /** A token nobody was issued has written nothing. */
  lemma FreshHasNoPast(log: seq<Event>, t: Token)
    requires LawfulLog(log) && Issued(t) !in log
    ensures !Ended(log, t) && HandedOver(t) !in log
  {
    forall i | 0 <= i < |log| ensures !(log[i].Effective() && log[i].token == t) {
      assert Lawful(log, i);
      LatestIsKnown(log[..i]);
      assert log[..i] <= log;
    }
  }

  lemma ClaimKeeps(w: World, t: Token)
    requires Inv(w) && Enabled(w, Claim(t))
    ensures Inv(Next(w, Claim(t)))
  {
    if Claimable(w.row, w.now) {
      var e := Issued(t);
      var u := Next(w, Claim(t));
      assert Lawful(u.log, |w.log|) by { LogAfter(w.log, e, t); }
      LawfulExtends(w.log, e);
      LogAfter(w.log, e, t);
      forall s: Token ensures LastIntent(u.log, s) == LastIntent(w.log, s) { LogAfter(w.log, e, s); }
      FreshHasNoPast(w.log, t);
      EndedAfter(w.log, e, t);
    }
  }

  lemma IntendKeeps(w: World, t: Token, outcome: Outcome)
    requires Inv(w) && w.Known(t)
    ensures Inv(Next(w, Intend(t, outcome)))
  {
    var e := Intended(t, outcome);
    var u := Next(w, Intend(t, outcome));
    LogAfter(w.log, e, t);
    assert Lawful(u.log, |w.log|);
    LawfulExtends(w.log, e);
    forall s: Token ensures LastIntent(u.log, s) == if s == t then Some(outcome) else LastIntent(w.log, s) {
      LogAfter(w.log, e, s);
    }
    if w.row.Some? { EndedAfter(w.log, e, w.row.value.token); }
  }

  lemma CloseKeeps(w: World, t: Token, outcome: Outcome)
    requires Inv(w) && w.lock.None? && w.Known(t)
    requires (t in w.intents && w.intents[t].Answered?) ||
             outcome == Chosen(w.log, t)
    ensures Inv(Close(w, t, outcome))
  {
    if w.MayLeave(Running, t) {
      WriteKeeps(w, Close(w, t, outcome), Recorded(t, outcome));
    }
  }

  /** Every statement and every end of a transaction keeps the invariant. */
  lemma StepKeeps(w: World, s: Step)
    requires Inv(w) && Enabled(w, s)
    ensures Inv(Next(w, s))
  {
    var u := Next(w, s);
    match s
    case Tick(_) =>
    case Claim(t) => ClaimKeeps(w, t);
    case Fence(_) =>
    case Commit(t) => WriteKeeps(w, u, Committed(t));
    case Rollback(_) =>
    case StartPlex(t) => if w.MayLeave(Running, t) { WriteKeeps(w, u, HandedOver(t)); }
    case FinishPlex(t) => if w.MayLeave(PlexMatching, t) { WriteKeeps(w, u, Released(t)); }
    case Intend(t, outcome) => IntendKeeps(w, t, outcome);
    case AttemptClose(t) => CloseKeeps(w, t, w.intents[t].outcome);
    case Backstop(t) =>
      CloseKeeps(w, t, if t in w.intents && w.intents[t].Meant? then w.intents[t].outcome else ENDED_UNEXPECTEDLY);
  }

  // ----- Whole runs -----

  lemma {:induction false} RunKeeps(steps: seq<Step>, w: World)
    requires Reaches(Start, steps, w)
    ensures Inv(w)
    decreases |steps|
  {
    if steps != [] {
      var earlier := steps[..|steps| - 1];
      var prior: World :| Leads(prior, steps[|steps| - 1], w) && Reaches(Start, earlier, prior);
      RunKeeps(earlier, prior);
      StepKeeps(prior, steps[|steps| - 1]);
    }
  }

  /** At any moment at most one token can pass a fence, and it is the latest claim's. */
  lemma OnlyTheLatestClaimPasses(steps: seq<Step>, w: World, t: Token)
    requires Reaches(Start, steps, w) && w.Passes(t)
    ensures Latest(w.log) == Some(t)
  {
    RunKeeps(steps, w);
  }

  /** Being refused survives any step whatever. */
  lemma StepKeepsRefused(w: World, s: Step, t: Token)
    requires Inv(w) && Enabled(w, s) && Refused(w, t)
    ensures Refused(Next(w, s), t)
  {
  }

  lemma {:induction false} RefusalLasts(w: World, t: Token, steps: seq<Step>, u: World)
    requires Inv(w) && Refused(w, t) && Reaches(w, steps, u)
    ensures Inv(u) && Refused(u, t)
    decreases |steps|
  {
    if steps != [] {
      var earlier := steps[..|steps| - 1];
      var prior: World :| Leads(prior, steps[|steps| - 1], u) && Reaches(w, earlier, prior);
      RefusalLasts(w, t, earlier, prior);
      StepKeeps(prior, steps[|steps| - 1]);
      StepKeepsRefused(prior, steps[|steps| - 1], t);
    }
  }

  /** Expiry and dispossession are irreversible: once a checkpoint of an issued token is
      refused, then in every later world its checkpoints, its hand-off, its closes and
      its backstop all leave the row and the log as they are. */
  lemma RefusedForGood(before: seq<Step>, w: World, t: Token, after: seq<Step>, u: World, s: Step)
    requires Reaches(Start, before, w) && Enabled(w, Fence(t)) && Next(w, Fence(t)) == w
    requires w.lock.None? && !w.Passes(t)
    requires Reaches(w, after, u) && Enabled(u, s)
    requires s in {Fence(t), StartPlex(t), FinishPlex(t), AttemptClose(t), Backstop(t)}
    ensures Next(u, s).row == u.row && Next(u, s).log == u.log && Next(u, s).lock == u.lock
  {
    RunKeeps(before, w);
    RefusalLasts(w, t, after, u);
  }

  lemma EndsOnce(log: seq<Event>, i: nat, j: nat, t: Token)
    requires LawfulLog(log) && i < j < |log| && log[i].Ends(t)
    ensures !log[j].Ends(t)
  {
    assert Lawful(log, j);
    assert log[..j][i] == log[i];
  }

  /** A run records at most one terminal status, retries and the backstop included. */
  lemma OneTerminalStatus(steps: seq<Step>, w: World, t: Token, i: nat, j: nat)
    requires Reaches(Start, steps, w)
    requires i < |w.log| && j < |w.log| && w.log[i].Ends(t) && w.log[j].Ends(t)
    ensures i == j
  {
    RunKeeps(steps, w);
    if i < j { EndsOnce(w.log, i, j, t); }
    if j < i { EndsOnce(w.log, j, i, t); }
  }

  /** What a run records is the outcome its worker last chose; the generic failure is
      recorded only for a worker that never chose one; and a run handed to the Plex phase
      is never closed by the sync's own closes or backstop. */
  lemma RecordedAsIntended(steps: seq<Step>, w: World, k: nat)
    requires Reaches(Start, steps, w)
    requires k < |w.log| && w.log[k].Recorded?
    ensures var before, t := w.log[..k], w.log[k].token;
            && HandedOver(t) !in before
            && w.log[k].outcome == Chosen(before, t)
  {
    RunKeeps(steps, w);
    assert Lawful(w.log, k);
  }

  // ----- Commits of two runs never interleave -----

  lemma {:induction false} LatestStays(log: seq<Event>, i: nat, k: nat, t: Token)
    requires LawfulLog(log) && i <= k <= |log|
    requires Latest(log[..i]) == Some(t) && Latest(log[..k]) == Some(t)
    ensures forall j | i <= j <= k :: Latest(log[..j]) == Some(t)
    decreases k
  {
    if i < k {
      var e := log[k - 1];
      assert log[..k] == log[..k - 1] + [e];
      LogAfter(log[..k - 1], e, t);
      assert Lawful(log, k - 1);
      LatestIsKnown(log[..i]);
      assert Issued(t) in log[..k - 1] by { assert log[..i] <= log[..k - 1]; }
      assert Latest(log[..k - 1]) == Some(t);
      LatestStays(log, i, k - 1, t);
    }
  }

  /** Between two library commits of one run there is no commit and no terminal write
      of any other: all commits of a dispossessed run come before every commit of the
      run that replaced it. */
  lemma CommitsNeverInterleave(steps: seq<Step>, w: World, i: nat, j: nat, k: nat)
    requires Reaches(Start, steps, w) && i <= j <= k < |w.log|
    requires w.log[i].Effective() && w.log[j].Effective() && w.log[k].Effective()
    requires w.log[i].token == w.log[k].token
    ensures w.log[j].token == w.log[i].token
  {
    RunKeeps(steps, w);
    assert Lawful(w.log, i) && Lawful(w.log, j) && Lawful(w.log, k);
    LatestStays(w.log, i, k, w.log[i].token);
  }

  lemma {:induction false} Superseded(log: seq<Event>, i: nat, m: nat, t: Token)
    requires LawfulLog(log) && i < m <= |log| && log[i].Issued? && Issued(t) in log[..i]
    ensures Latest(log[..m]) != Some(t)
    decreases m
  {
    var e := log[m - 1];
    assert log[..m] == log[..m - 1] + [e];
    LogAfter(log[..m - 1], e, t);
    assert Lawful(log, m - 1);
    assert Issued(t) in log[..m - 1] by { assert log[..i] <= log[..m - 1]; }
    if i < m - 1 { Superseded(log, i, m - 1, t); }
  }

  /** Nothing is written on a token's authority once a later claim was granted. */
  lemma NoWriteAfterTakeover(steps: seq<Step>, w: World, i: nat, k: nat, t: Token)
    requires Reaches(Start, steps, w) && i < k < |w.log|
    requires w.log[i].Issued? && Issued(t) in w.log[..i] && w.log[k].Effective()
    ensures w.log[k].token != t
  {
    RunKeeps(steps, w);
    Superseded(w.log, i, k, t);
    assert Lawful(w.log, k);
  }
}
