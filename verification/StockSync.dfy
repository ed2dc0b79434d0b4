/**
 A stock sync over its stores: the loop of `_sync_stock` in `backend/crawl_manager.py`,
 the abort on two rate-limited stores in a row, and the resume it schedules.
 */
module StockSync {
  import opened CrawlQueue

  /** What became of one store when the loop reached it. */
  datatype Answer = Cooling | Disabled | RateLimited | Failed | KindDropped | Synced

  /** The lists a run ends with; `resume` is empty unless it aborted. */
  datatype Report = Report(
    aborted: bool, visited: nat,
    synced: seq<CrawlerId>, dropped: seq<CrawlerId>, failed: seq<CrawlerId>,
    cooling: seq<CrawlerId>, disabled: seq<CrawlerId>, rateLimited: seq<CrawlerId>, resume: seq<CrawlerId>)

  /** The stores among the first `n` that got this answer, in visiting order. */
  function Of(crawlers: seq<CrawlerId>, answers: seq<Answer>, n: nat, a: Answer): seq<CrawlerId>
    requires n <= |crawlers| == |answers|
  {
    if n == 0 then []
    else Of(crawlers, answers, n - 1, a) + if answers[n - 1] == a then [crawlers[n - 1]] else []
  }

  /** How many rate-limited stores in a row end at `n`. A store that was skipped says
      nothing about the platform and does not break the row. */
  function Streak(answers: seq<Answer>, n: nat): nat
    requires n <= |answers|
  {
    if n == 0 then 0
    else match answers[n - 1]
      case RateLimited => Streak(answers, n - 1) + 1
      case Cooling => Streak(answers, n - 1)
      case Disabled => Streak(answers, n - 1)
      case _ => 0
  }

  predicate AbortsAt(answers: seq<Answer>, i: nat) {
    i < |answers| && answers[i] == RateLimited && Streak(answers, i + 1) >= 2
  }

  /** The stores visited when the loop stops: up to the first abort, or all of them. */
  predicate StopsAfter(answers: seq<Answer>, n: nat, aborted: bool) {
    && n <= |answers| && (forall i :: 0 <= i < n - 1 ==> !AbortsAt(answers, i))
    && if aborted then n > 0 && AbortsAt(answers, n - 1) else n == |answers| && (n > 0 ==> !AbortsAt(answers, n - 1))
  }

  /** The lists sort the first `n` stores by their answer. */
  predicate Listed(crawlers: seq<CrawlerId>, answers: seq<Answer>, n: nat, r: Report)
    requires n <= |crawlers| == |answers|
  {
    && r.synced == Of(crawlers, answers, n, Synced) && r.dropped == Of(crawlers, answers, n, KindDropped)
    && r.failed == Of(crawlers, answers, n, Failed) && r.cooling == Of(crawlers, answers, n, Cooling)
    && r.disabled == Of(crawlers, answers, n, Disabled) && r.rateLimited == Of(crawlers, answers, n, RateLimited)
  }

  /** What a run over these stores, which answered so, ends with: the lists sort the visited
      stores by their answer, and an abort leaves the rate-limited ones and the unvisited. */
  predicate Reported(crawlers: seq<CrawlerId>, answers: seq<Answer>, r: Report) {
    && |answers| == |crawlers| && StopsAfter(answers, r.visited, r.aborted)
    && Listed(crawlers, answers, r.visited, r)
    && r.resume == if r.aborted then r.rateLimited + crawlers[r.visited..] else []
  }

  lemma ListedNext(crawlers: seq<CrawlerId>, answers: seq<Answer>, n: nat, r: Report, c: CrawlerId)
    requires n < |crawlers| == |answers| && c == crawlers[n] && Listed(crawlers, answers, n, r)
    ensures Listed(crawlers, answers, n + 1,
                   match answers[n]
                   case Cooling => r.(cooling := r.cooling + [c])
                   case Disabled => r.(disabled := r.disabled + [c])
                   case RateLimited => r.(rateLimited := r.rateLimited + [c])
                   case Failed => r.(failed := r.failed + [c])
                   case KindDropped => r.(dropped := r.dropped + [c])
                   case Synced => r.(synced := r.synced + [c]))
  {
    forall a: Answer
      ensures Of(crawlers, answers, n + 1, a) == if answers[n] == a then Of(crawlers, answers, n, a) + [c] else Of(crawlers, answers, n, a)
    {
    }
  }

  method SyncStores(crawlers: seq<CrawlerId>, answers: seq<Answer>) returns (r: Report)
    requires |answers| == |crawlers|
    ensures Reported(crawlers, answers, r)
  {
    hide Of;
    var consecutive: seq<CrawlerId> := [];
    r := Report(false, 0, [], [], [], [], [], [], []);
    NothingListed(crawlers, answers, r);
    for i := 0 to |crawlers|
      invariant r.visited == i && !r.aborted && r.resume == []
      invariant forall k :: 0 <= k < i ==> !AbortsAt(answers, k)
      invariant |consecutive| == Streak(answers, i)
      invariant Listed(crawlers, answers, i, r)
    {
      var c := crawlers[i];
      ListedNext(crawlers, answers, i, r, c);
      r := r.(visited := i + 1);
      match answers[i]
      case Cooling => r := r.(cooling := r.cooling + [c]);
      case Disabled => r := r.(disabled := r.disabled + [c]);
      case RateLimited =>
        consecutive := consecutive + [c];
        r := r.(rateLimited := r.rateLimited + [c]);
        if |consecutive| >= 2 {
          r := r.(aborted := true, resume := r.rateLimited + crawlers[i + 1..]);
          return;
        }
      case Failed =>
        r := r.(failed := r.failed + [c]);
        consecutive := [];
      case KindDropped =>
        consecutive := [];
        r := r.(dropped := r.dropped + [c]);
      case Synced =>
        consecutive := [];
        r := r.(synced := r.synced + [c]);
    }
  }

  lemma NothingListed(crawlers: seq<CrawlerId>, answers: seq<Answer>, r: Report)
    requires |crawlers| == |answers| && r == Report(false, 0, [], [], [], [], [], [], [])
    ensures Listed(crawlers, answers, 0, r)
  {
  }

  /** Where a store ended up. */
  function Settled(r: Report): multiset<CrawlerId> {
    multiset(r.synced) + multiset(r.dropped) + multiset(r.failed) + multiset(r.cooling) + multiset(r.disabled)
  }

  function Sorted(crawlers: seq<CrawlerId>, answers: seq<Answer>, n: nat): multiset<CrawlerId>
    requires n <= |crawlers| == |answers|
  {
    multiset(Of(crawlers, answers, n, Synced)) + multiset(Of(crawlers, answers, n, KindDropped)) +
    multiset(Of(crawlers, answers, n, Failed)) + multiset(Of(crawlers, answers, n, Cooling)) +
    multiset(Of(crawlers, answers, n, Disabled)) + multiset(Of(crawlers, answers, n, RateLimited))
  }

  lemma OfNext(crawlers: seq<CrawlerId>, answers: seq<Answer>, n: nat, a: Answer)
    requires n < |crawlers| == |answers|
    ensures multiset(Of(crawlers, answers, n + 1, a)) ==
            multiset(Of(crawlers, answers, n, a)) + if answers[n] == a then multiset{crawlers[n]} else multiset{}
  {
  }

  lemma {:induction false} SortedIsAll(crawlers: seq<CrawlerId>, answers: seq<Answer>, n: nat)
    requires n <= |crawlers| == |answers|
    ensures Sorted(crawlers, answers, n) == multiset(crawlers[..n])
  {
    hide Sorted, Of;
    if n == 0 {
      NoneSorted(crawlers, answers);
    } else {
      SortedIsAll(crawlers, answers, n - 1);
      SortedNext(crawlers, answers, n - 1);
      OneMore(crawlers, n - 1);
    }
  }

  lemma OneMore(s: seq<CrawlerId>, n: nat)
    requires n < |s|
    ensures multiset(s[..n + 1]) == multiset(s[..n]) + multiset{s[n]}
  {
    assert s[..n + 1] == s[..n] + [s[n]];
  }

  lemma NoneSorted(crawlers: seq<CrawlerId>, answers: seq<Answer>)
    requires |crawlers| == |answers|
    ensures Sorted(crawlers, answers, 0) == multiset(crawlers[..0])
  {
  }

  lemma SortedNext(crawlers: seq<CrawlerId>, answers: seq<Answer>, n: nat)
    requires n < |crawlers| == |answers|
    ensures Sorted(crawlers, answers, n + 1) == Sorted(crawlers, answers, n) + multiset{crawlers[n]}
  {
    hide Of;
    OfNext(crawlers, answers, n, Synced);
    OfNext(crawlers, answers, n, KindDropped);
    OfNext(crawlers, answers, n, Failed);
    OfNext(crawlers, answers, n, Cooling);
    OfNext(crawlers, answers, n, Disabled);
    OfNext(crawlers, answers, n, RateLimited);
  }

  /** An aborted run loses no store and doubles none: its stores are exactly the settled
      ones and the ones to resume, each once, and none is resumed twice. */
  lemma NoStoreIsLost(crawlers: seq<CrawlerId>, answers: seq<Answer>, r: Report)
    requires Reported(crawlers, answers, r) && r.aborted
    ensures Settled(r) + multiset(r.resume) == multiset(crawlers)
    ensures NoDuplicates(crawlers) ==> NoDuplicates(r.resume)
  {
    Accounts(crawlers, answers, r);
    if NoDuplicates(crawlers) { PartOnceEach(r.resume, crawlers); }
  }

  lemma Accounts(crawlers: seq<CrawlerId>, answers: seq<Answer>, r: Report)
    requires Reported(crawlers, answers, r) && r.aborted
    ensures Settled(r) + multiset(r.resume) == multiset(crawlers)
    ensures multiset(r.resume) <= multiset(crawlers)
  {
    assert r.visited <= |crawlers|;
    hide Of, StopsAfter;
    SortedIsAll(crawlers, answers, r.visited);
    assert Sorted(crawlers, answers, r.visited) == Settled(r) + multiset(r.rateLimited);
    assert crawlers == crawlers[..r.visited] + crawlers[r.visited..];
  }

  lemma PartOnceEach(part: seq<CrawlerId>, whole: seq<CrawlerId>)
    requires NoDuplicates(whole) && multiset(part) <= multiset(whole)
    ensures NoDuplicates(part)
  {
    OnceEach(whole);
    forall i, j | 0 <= i < j < |part| ensures part[i] != part[j] {
      if part[i] == part[j] { TwiceThere(part, i, j); }
    }
  }

  lemma {:induction false} OnceEach(s: seq<CrawlerId>)
    requires NoDuplicates(s)
    ensures forall c :: multiset(s)[c] <= 1
  {
    if s != [] {
      var n := |s| - 1;
      OnceEach(s[..n]);
      assert s == s[..n] + [s[n]];
    }
  }

  lemma TwiceThere(s: seq<CrawlerId>, i: nat, j: nat)
    requires i < j < |s| && s[i] == s[j]
    ensures multiset(s)[s[i]] >= 2
  {
    assert s == s[..j] + s[j..] && s[..j][i] == s[i] && s[j..][0] == s[i];
  }

  /** A rate-limited store, and an earlier one with nothing but skipped stores between. */
  predicate TwoInARow(answers: seq<Answer>, i: nat) {
    && i < |answers| && answers[i] == RateLimited
    && exists m :: 0 <= m < i && answers[m] == RateLimited && OnlySkipped(answers, m, i)
  }

  predicate OnlySkipped(answers: seq<Answer>, m: int, i: nat)
    requires i <= |answers|
  {
    forall k :: 0 <= k && m < k < i ==> answers[k].Cooling? || answers[k].Disabled?
  }

  lemma {:induction false} StreakMeans(answers: seq<Answer>, n: nat)
    requires n <= |answers|
    ensures Streak(answers, n) >= 1 <==> exists m :: 0 <= m < n && answers[m] == RateLimited && OnlySkipped(answers, m, n)
  {
    if n > 0 {
      StreakMeans(answers, n - 1);
      if answers[n - 1] == RateLimited {
        assert OnlySkipped(answers, n - 1, n);
      } else if m :| 0 <= m < n - 1 && answers[m] == RateLimited && OnlySkipped(answers, m, n - 1)
                     && (answers[n - 1].Cooling? || answers[n - 1].Disabled?) {
        assert OnlySkipped(answers, m, n);
      } else if m :| 0 <= m < n && answers[m] == RateLimited && OnlySkipped(answers, m, n) {
        assert OnlySkipped(answers, m, n - 1);
      }
    }
  }

  /** The loop stops after `n` stores if and only if the last of them is the first to
      complete two rate-limited stores in a row; a store that was skipped breaks no row. */
  lemma AbortMeans(answers: seq<Answer>, n: nat)
    ensures StopsAfter(answers, n, true) <==>
            0 < n <= |answers| && TwoInARow(answers, n - 1) && forall i :: 0 <= i < n - 1 ==> !TwoInARow(answers, i)
  {
    if n <= |answers| {
      forall i: nat | i < n ensures AbortsAt(answers, i) <==> TwoInARow(answers, i) { StreakMeans(answers, i); }
    }
  }

  // ----- The chain of resumes -----

  /** A resume visits the stores it was left, in that order, less those no longer enabled. */
  function Still(resume: seq<CrawlerId>, enabled: set<CrawlerId>): seq<CrawlerId> {
    if resume == [] then []
    else Still(resume[..|resume| - 1], enabled) + if resume[|resume| - 1] in enabled then [resume[|resume| - 1]] else []
  }

  function Gone(resume: seq<CrawlerId>, enabled: set<CrawlerId>): seq<CrawlerId> {
    if resume == [] then []
    else Gone(resume[..|resume| - 1], enabled) + if resume[|resume| - 1] in enabled then [] else [resume[|resume| - 1]]
  }

  lemma {:induction false} StillAndGone(resume: seq<CrawlerId>, enabled: set<CrawlerId>)
    ensures multiset(Still(resume, enabled)) + multiset(Gone(resume, enabled)) == multiset(resume)
  {
    hide Still, Gone;
    if resume == [] {
      NoneLeft(enabled);
    } else {
      var n := |resume| - 1;
      StillAndGone(resume[..n], enabled);
      OneLeft(resume, enabled);
      OneMore(resume, n);
      assert resume[..n + 1] == resume;
    }
  }

  lemma NoneLeft(enabled: set<CrawlerId>)
    ensures Still([], enabled) == [] && Gone([], enabled) == []
  {
  }

  lemma OneLeft(resume: seq<CrawlerId>, enabled: set<CrawlerId>)
    requires resume != []
    ensures var (init, last) := (resume[..|resume| - 1], resume[|resume| - 1]);
            && multiset(Still(resume, enabled)) ==
               multiset(Still(init, enabled)) + (if last in enabled then multiset{last} else multiset{})
            && multiset(Gone(resume, enabled)) ==
               multiset(Gone(init, enabled)) + (if last in enabled then multiset{} else multiset{last})
  {
  }

  /** One aborted run and what was enabled when its resume began. */
  datatype Leg = Leg(answers: seq<Answer>, report: Report, enabled: set<CrawlerId>)

  ghost predicate Chain(crawlers: seq<CrawlerId>, legs: seq<Leg>)
    decreases |legs|
  {
    legs == [] ||
    (Reported(crawlers, legs[0].answers, legs[0].report) && legs[0].report.aborted &&
     Chain(Still(legs[0].report.resume, legs[0].enabled), legs[1..]))
  }

  function Left(crawlers: seq<CrawlerId>, legs: seq<Leg>): seq<CrawlerId>
    decreases |legs|
  {
    if legs == [] then crawlers else Left(Still(legs[0].report.resume, legs[0].enabled), legs[1..])
  }

  function Accounted(legs: seq<Leg>): multiset<CrawlerId> {
    if legs == [] then multiset{}
    else Settled(legs[0].report) + multiset(Gone(legs[0].report.resume, legs[0].enabled)) + Accounted(legs[1..])
  }

  /** However often a sync aborts, every store of the first run was settled by exactly one
      of the runs, was disabled before its turn, or is still to be visited. */
  lemma {:induction false} ChainLosesNoStore(crawlers: seq<CrawlerId>, legs: seq<Leg>)
    requires Chain(crawlers, legs)
    ensures Accounted(legs) + multiset(Left(crawlers, legs)) == multiset(crawlers)
    decreases |legs|
  {
    if legs != [] {
      var r := legs[0].report;
      NoStoreIsLost(crawlers, legs[0].answers, r);
      StillAndGone(r.resume, legs[0].enabled);
      ChainLosesNoStore(Still(r.resume, legs[0].enabled), legs[1..]);
    }
  }

  // ----- The delay -----

  const STOCK_RESUME_BASE_DELAY: nat := 30 * 60
  const STOCK_RESUME_MAX_DELAY: nat := 8 * 60 * 60

  function Power2(n: nat): (p: nat)
    ensures p >= 1
  {
    if n == 0 then 1 else 2 * Power2(n - 1)
  }

  function Delay(streak: nat): nat
    requires streak > 0
  {
    var delay := STOCK_RESUME_BASE_DELAY * Power2(streak - 1);
    if delay < STOCK_RESUME_MAX_DELAY then delay else STOCK_RESUME_MAX_DELAY
  }

  class ResumeSchedule {
    var abortStreak: nat
    var pending: seq<CrawlerId>

    constructor ()
      ensures abortStreak == 0 && pending == []
    {
      abortStreak, pending := 0, [];
    }

    /** `_schedule_stock_resume` */
    method Schedule(crawlers: seq<CrawlerId>) returns (delay: nat)
      modifies this
      ensures abortStreak == old(abortStreak) + 1 && pending == crawlers
      ensures delay == Delay(abortStreak)
    {
      abortStreak := abortStreak + 1;
      delay := STOCK_RESUME_BASE_DELAY * Power2(abortStreak - 1);
      if delay >= STOCK_RESUME_MAX_DELAY { delay := STOCK_RESUME_MAX_DELAY; }
      pending := crawlers;
    }

    /** A run that visited everything ends the streak, and a full one covers the resume. */
    method Completed(full: bool)
      modifies this
      ensures abortStreak == 0 && pending == if full then [] else old(pending)
    {
      abortStreak := 0;
      if full { pending := []; }
    }
  }

  /** The delay starts at the base, doubles with every further abort, and stays at the cap. */
  lemma DelayDoubles(streak: nat)
    requires streak > 0
    ensures Delay(1) == STOCK_RESUME_BASE_DELAY
    ensures Delay(streak + 1) == if 2 * Delay(streak) < STOCK_RESUME_MAX_DELAY then 2 * Delay(streak) else STOCK_RESUME_MAX_DELAY
  {
  }
}
