/**
 The two lease tables under the runs of `LeaseRuns`: each statement on a row, issued in
 place, moves the lease exactly as the step of the run does. So what is proved of every
 run there holds of `library_sync_runs` with its Plex phase, and of `stock_judgment_runs`,
 whose runs are those that never hand over.
 */
module LeaseStatements {
  import opened Options
  import opened RunLease
  import opened LeaseRuns

  /** The step is one statement on the row. */
  predicate IsStatement(s: Step) {
    s.Claim? || s.Fence? || s.StartPlex? || s.FinishPlex? || s.AttemptClose? || s.Backstop?
  }

  /** What the worker's closing code has in hand. */
  predicate InHand(w: World, t: Token, intended: Option<Outcome>) {
    intended == if t in w.intents && w.intents[t].Meant? then Some(w.intents[t].outcome) else None
  }

  method SyncStatement(runs: SyncRuns, s: Step, now: Time, mode: string, scope: string, synced: Option<nat>,
                       intended: Option<Outcome>, ghost w: World) returns (answer: bool)
    requires runs.Held() == w.row && now == w.now && IsStatement(s) && Enabled(w, s) && InHand(w, s.token, intended)
    modifies runs
    ensures runs.Held() == Next(w, s).row
    ensures answer == (Next(w, s).row != w.row || Next(w, s).lock != w.lock || Next(w, s).log != w.log)
  {
    match s
    case Claim(t) => answer := runs.Claim(t, mode, scope, now);
    case Fence(t) => answer := runs.RecordProgress(t, None, None, synced, None, now);
    case StartPlex(t) => answer := runs.StartPlexPhase(t, synced, None, now);
    case FinishPlex(t) => answer := runs.FinishPlexPhase(t, now);
    case AttemptClose(t) => answer := runs.Finish(t, intended.value, synced, None, now);
    case Backstop(t) =>
      var outcome := if intended.Some? then intended.value else ENDED_UNEXPECTEDLY;
      answer := runs.Finish(t, outcome, synced, None, now);
  }

  /** The judgment run's backstop is an intent of its own and one more close. */
  method JudgmentStatement(runs: JudgmentRuns, s: Step, now: Time, judged: Option<nat>,
                           intended: Option<Outcome>, ghost w: World) returns (answer: bool)
    requires runs.Valid() && runs.Held() == w.row && now == w.now
    requires s.Claim? || s.Fence? || s.AttemptClose?
    requires Enabled(w, s) && InHand(w, s.token, intended)
    modifies runs
    ensures runs.Valid() && runs.Held() == Next(w, s).row
    ensures answer == (Next(w, s).row != w.row || Next(w, s).lock != w.lock || Next(w, s).log != w.log)
  {
    match s
    case Claim(t) => answer := runs.Claim(t, now);
    case Fence(t) =>
      var stop := runs.RecordProgress(t, judged, None, None, now);
      answer := stop.Some?;
    case AttemptClose(t) => answer := runs.Finish(t, intended.value, judged, None, now);
  }

  /** A run with no hand-over never shows a Plex phase, nor puts one back. */
  lemma {:induction false} NoPlexPhaseWithoutAHandOver(steps: seq<Step>, w: World)
    requires Reaches(Start, steps, w) && forall s :: s in steps ==> !s.StartPlex?
    ensures w.row.Some? ==> !w.row.value.status.PlexMatching?
    ensures w.lock.Some? ==> !w.lock.value.before.status.PlexMatching?
    decreases |steps|
  {
    if steps != [] {
      var earlier := steps[..|steps| - 1];
      var prior: World :| Leads(prior, steps[|steps| - 1], w) && Reaches(Start, earlier, prior);
      assert steps[|steps| - 1] in steps && forall s :: s in earlier ==> s in steps;
      NoPlexPhaseWithoutAHandOver(earlier, prior);
    }
  }
}
