/**
 How long a claim lasts, over every run of `LeaseRuns`: as long as its worker is heard
 from, and not a fence longer.
 */
module LeaseTiming {
  import opened Options
  import opened RunLease
  import opened LeaseRuns

  /** The token's claim was granted by this step. */
  predicate Grants(w: World, t: Token) { Enabled(w, Claim(t)) && Next(w, Claim(t)).log == w.log + [Issued(t)] }

  /** A claim is granted if and only if no token would pass a fence. */
  lemma GrantedIffNobodyPasses(steps: seq<Step>, w: World, t: Token)
    requires Reaches(Start, steps, w) && Enabled(w, Claim(t))
    ensures Grants(w, t) <==> forall other: Token :: !w.Passes(other)
  {
    assert w.log != w.log + [Issued(t)];
    if forall other: Token :: !w.Passes(other) {
      if w.row.Some? { assert !w.Passes(w.row.value.token); }
    }
  }

  /** The row is the token's, claimed, and was last heard of at `since` or later. */
  predicate HeardSince(w: World, t: Token, since: Time) {
    && w.row.Some? && w.row.value.token == t && w.row.value.Claimed() && since <= w.row.value.heartbeat
    && (w.lock.Some? ==> w.lock.value.token == t && w.lock.value.before.Claimed()
                         && w.lock.value.before.token == t && since <= w.lock.value.before.heartbeat)
  }

  lemma StillHeard(w: World, s: Step, t: Token, since: Time)
    requires Inv(w) && Enabled(w, s) && HeardSince(w, t, since)
    requires Next(w, s).now <= since + STALE_AFTER && !Ended(Next(w, s).log, t) && since <= w.now
    ensures HeardSince(Next(w, s), t, since)
  {
    var u := Next(w, s);
    if u.log != w.log {
      assert u.log[|w.log|] in u.log;
      assert !u.log[|w.log|].Ends(t);
    }
  }

  lemma LogOnly(w: World, s: Step)
    ensures w.log <= Next(w, s).log && w.now <= Next(w, s).now
  {
  }

  lemma NotEndedBefore(log: seq<Event>, all: seq<Event>, t: Token)
    requires log <= all && !Ended(all, t)
    ensures !Ended(log, t)
  {
    forall i | 0 <= i < |log| ensures !log[i].Ends(t) { assert all[i] == log[i]; }
  }

  lemma {:induction false} HeardThrough(w: World, t: Token, since: Time, steps: seq<Step>, u: World)
    requires Inv(w) && HeardSince(w, t, since) && Reaches(w, steps, u) && since <= w.now
    requires u.now <= since + STALE_AFTER && !Ended(u.log, t)
    ensures Inv(u) && HeardSince(u, t, since) && w.now <= u.now
    decreases |steps|
  {
    hide Inv, HeardSince, Enabled, Next, Ended;
    if steps != [] {
      var earlier, s := steps[..|steps| - 1], steps[|steps| - 1];
      var prior: World :| Leads(prior, s, u) && Reaches(w, earlier, prior);
      LogOnly(prior, s);
      NotEndedBefore(prior.log, u.log, t);
      HeardThrough(w, t, since, earlier, prior);
      StepKeeps(prior, s);
      StillHeard(prior, s, t, since);
    }
  }

  lemma GrantIsHeard(w: World, t: Token)
    requires Inv(w) && Grants(w, t)
    ensures var u := Next(w, Claim(t)); Inv(u) && HeardSince(u, t, w.now) && u.now == w.now
  {
    StepKeeps(w, Claim(t));
    assert w.log != w.log + [Issued(t)];
  }

  /** For a quarter of an hour after it is granted nothing but its own ending takes a claim
      away: the worker passes every fence, what it writes is committed, and nobody else is
      granted anything. */
  lemma HeldWhileFresh(before: seq<Step>, w: World, t: Token, after: seq<Step>, u: World, other: Token)
    requires Reaches(Start, before, w) && Grants(w, t) && Reaches(Next(w, Claim(t)), after, u)
    requires u.now <= w.now + STALE_AFTER && !Ended(u.log, t)
    ensures u.Passes(t) && !Grants(u, other)
    ensures u.lock.None? ==>
              Enabled(u, Fence(t)) && Enabled(Next(u, Fence(t)), Commit(t))
              && Next(Next(u, Fence(t)), Commit(t)).log == u.log + [Committed(t)]
  {
    hide Reaches;
    RunKeeps(before, w);
    GrantIsHeard(w, t);
    HeardThrough(Next(w, Claim(t)), t, w.now, after, u);
    LatestIsKnown(u.log);
    assert u.log != u.log + [Issued(other)];
  }

  // ----- Silence -----

  /** The step is one its worker is heard by. */
  predicate Speaks(s: Step, t: Token) { s == Fence(t) || s == StartPlex(t) }

  ghost predicate Silent(steps: seq<Step>, t: Token) { forall i :: 0 <= i < |steps| ==> !Speaks(steps[i], t) }

  /** While nobody else was granted the run it is over, or was last heard of at `since`. */
  predicate NotHeardSince(w: World, t: Token, since: Time) {
    Latest(w.log) == Some(t) ==>
      && w.row.Some? && w.row.value.token == t && w.lock.None?
      && (w.row.value.Claimed() ==> w.row.value.heartbeat == since)
  }

  lemma StillSilent(w: World, s: Step, t: Token, since: Time)
    requires Inv(w) && Enabled(w, s) && NotHeardSince(w, t, since) && !Speaks(s, t) && w.Known(t)
    ensures NotHeardSince(Next(w, s), t, since) && Next(w, s).Known(t)
  {
    var u := Next(w, s);
    LatestIsKnown(w.log);
    if u.log != w.log { LogAfter(w.log, u.log[|w.log|], t); }
  }

  lemma {:induction false} SilentThrough(w: World, t: Token, since: Time, steps: seq<Step>, u: World)
    requires Inv(w) && NotHeardSince(w, t, since) && w.Known(t) && Reaches(w, steps, u) && Silent(steps, t)
    ensures Inv(u) && NotHeardSince(u, t, since) && u.Known(t)
    decreases |steps|
  {
    hide Inv, NotHeardSince, Enabled, Next, Speaks;
    if steps != [] {
      var earlier, s := steps[..|steps| - 1], steps[|steps| - 1];
      var prior: World :| Leads(prior, s, u) && Reaches(w, earlier, prior);
      SilentThrough(w, t, since, earlier, prior);
      StepKeeps(prior, s);
      StillSilent(prior, s, t, since);
    }
  }

  lemma GrantIsLatest(w: World, t: Token)
    requires Inv(w) && Grants(w, t)
    ensures var u := Next(w, Claim(t)); NotHeardSince(u, t, w.now) && u.Known(t)
  {
    assert w.log != w.log + [Issued(t)];
    LogAfter(w.log, Issued(t), t);
  }

  /** A worker that falls silent keeps nobody out: once the quarter of an hour is over, the
      next claim is granted, unless another has been already. */
  lemma SilenceLosesTheClaim(before: seq<Step>, w: World, t: Token, after: seq<Step>, u: World, next: Token)
    requires Reaches(Start, before, w) && Grants(w, t) && Reaches(Next(w, Claim(t)), after, u) && Silent(after, t)
    requires w.now + STALE_AFTER < u.now && Enabled(u, Claim(next))
    ensures Latest(u.log) == Some(t) ==> Grants(u, next)
  {
    hide Reaches, Silent;
    RunKeeps(before, w);
    GrantIsHeard(w, t);
    GrantIsLatest(w, t);
    SilentThrough(Next(w, Claim(t)), t, w.now, after, u);
  }

  /** A checkpoint that is rolled back was never heard: the row is as it was, heartbeat and
      all. */
  lemma ARollbackIsSilence(w: World, t: Token)
    requires w.Passes(t) && Enabled(w, Fence(t))
    ensures Enabled(Next(w, Fence(t)), Rollback(t)) && Next(Next(w, Fence(t)), Rollback(t)) == w
  {
  }
}
