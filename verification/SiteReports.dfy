/**
 What a pass tells each site's circuit breaker: read off the same log as the
 obligations, and held against the answers the searches gave.
 */
module SiteReports {
  import opened Options
  import opened CrawlQueue
  import opened WorkerPass
  import opened WorkerObligations

  /** The search read a match off the site, and nothing fended it off. */
  predicate Worked(a: Answer) { a.SearchReturned? && a.matched && !a.botDetected }

  /** The site could not be searched, or fended the search off; or it had nothing for a
      release, and its crawler does not promise to tell that from a page it cannot read. */
  predicate Broke(row: ClaimedRow, a: Answer) {
    match a
    case PluginMissing => true
    case CoolingDown => false
    case SearchRaised => true
    case SearchReturned(matched, botDetected, emptyIsExpected, _) =>
      botDetected || (!matched && row.isRelease && !emptyIsExpected)
  }

  predicate Settling(e: Event) { e.Searched? || e.Failed? || e.PutOff? }

  /** The report standing directly before position `q`. */
  function Told(log: seq<Event>, q: nat): (told: Option<Event>)
    requires q < |log|
  {
    if q > 0 && log[q - 1].SiteResult? then Some(log[q - 1]) else None
  }

  /** `e` settles the search that answered `a`, and `told` is all its site heard of it. */
  predicate Settled(row: ClaimedRow, c: CrawlerId, a: Answer, told: Option<Event>, e: Event) {
    && e.Settles(row.id, c)
    && (e.Searched? <==> a.SearchReturned?) && (e.PutOff? <==> a.CoolingDown?)
    && (told == Some(SiteResult(c, true)) <==> Worked(a))
    && (told == Some(SiteResult(c, false)) <==> Broke(row, a))
    && (told.Some? ==> Worked(a) || Broke(row, a))
  }

  ghost predicate LiveSettled(live: seq<ClaimedRow>, answers: seq<Answer>, told: Option<Event>, e: Event) {
    exists k: nat, p: nat ::
      k < |live| && p < |live[k].eligible| && SettledAt(live, answers, k, p, told, e)
  }

  predicate SettledAt(live: seq<ClaimedRow>, answers: seq<Answer>, k: nat, p: nat, told: Option<Event>, e: Event)
    requires k < |live| && p < |live[k].eligible|
  {
    && Units(live, k) + p < |answers|
    && Settled(live[k], live[k].eligible[p], answers[Units(live, k) + p], told, e)
  }

  /** A report is directly followed by the end of the search it is about. */
  predicate Followed(log: seq<Event>, q: nat)
    requires q < |log|
  {
    log[q].SiteResult? ==>
      q + 1 < |log| && (log[q + 1].Searched? || log[q + 1].Failed?) && log[q + 1].crawler == log[q].crawler
  }

  ghost predicate WellTold(live: seq<ClaimedRow>, answers: seq<Answer>, log: seq<Event>) {
    forall q: nat :: q < |log| ==>
      Followed(log, q) && (Settling(log[q]) ==> LiveSettled(live, answers, Told(log, q), log[q]))
  }

  lemma Joins(live: seq<ClaimedRow>, answers: seq<Answer>, a: seq<Event>, b: seq<Event>)
    requires WellTold(live, answers, a) && WellTold(live, answers, b)
    ensures WellTold(live, answers, a + b)
  {
    hide LiveSettled;
    var log := a + b;
    forall q: nat | q < |log|
      ensures Followed(log, q) && (Settling(log[q]) ==> LiveSettled(live, answers, Told(log, q), log[q]))
    {
      if q < |a| {
        assert Followed(a, q) && (q > 0 ==> Followed(a, q - 1));
        assert log[q] == a[q] && Told(log, q) == Told(a, q);
      } else {
        var r := q - |a|;
        assert Followed(b, r) && log[q] == b[r];
        if r == 0 {
          if a != [] { assert Followed(a, |a| - 1); }
          assert Told(log, q) == None == Told(b, r);
        } else {
          assert log[q - 1] == b[r - 1];
        }
      }
    }
  }

  /** A stretch of the log that only closes rows. */
  lemma ClosesOnly(live: seq<ClaimedRow>, answers: seq<Answer>, log: seq<Event>)
    requires forall e :: e in log ==> e.ClosedDone? || e.ClosedDeferred?
    ensures WellTold(live, answers, log)
  {
    forall q: nat | q < |log| ensures Followed(log, q) && !Settling(log[q]) { assert log[q] in log; }
  }

  lemma UnitIsSettled(row: ClaimedRow, c: CrawlerId, a: Answer)
    ensures var log := Unit(row, c, a);
            && 1 <= |log| <= 2 && (|log| == 2 ==> log[0].SiteResult? && log[0].crawler == c)
            && (|log| == 2 ==> log[1].Searched? || log[1].Failed?) && Settling(log[|log| - 1])
            && Settled(row, c, a, Told(log, |log| - 1), log[|log| - 1])
  {
  }

  lemma UnitIsTold(live: seq<ClaimedRow>, answers: seq<Answer>, k: nat, p: nat)
    requires k < |live| && p < |live[k].eligible| && Units(live, k) + p < |answers|
    ensures WellTold(live, answers, Unit(live[k], live[k].eligible[p], answers[Units(live, k) + p]))
  {
    var c, a := live[k].eligible[p], answers[Units(live, k) + p];
    var log := Unit(live[k], c, a);
    UnitIsSettled(live[k], c, a);
    hide Unit, Settled;
    assert SettledAt(live, answers, k, p, Told(log, |log| - 1), log[|log| - 1]);
  }

  lemma {:induction false} UnitsAreTold(live: seq<ClaimedRow>, answers: seq<Answer>, k: nat, n: nat)
    requires k < |live| && n <= |live[k].eligible| && Units(live, k) + n <= |answers|
    ensures WellTold(live, answers, UnitLog(live[k], answers, Units(live, k), n))
  {
    hide WellTold, Unit;
    if n == 0 {
      ClosesOnly(live, answers, []);
    } else {
      UnitsAreTold(live, answers, k, n - 1);
      UnitIsTold(live, answers, k, n - 1);
      Joins(live, answers, UnitLog(live[k], answers, Units(live, k), n - 1),
            Unit(live[k], live[k].eligible[n - 1], answers[Units(live, k) + n - 1]));
    }
  }

  lemma {:induction false} LiveIsTold(live: seq<ClaimedRow>, answers: seq<Answer>, k: nat)
    requires AllHaveUnits(live) && k <= |live| && Units(live, k) <= |answers|
    ensures WellTold(live, answers, LiveLog(live, answers, k))
  {
    hide WellTold, UnitLog, PutOffCrawlers;
    if k == 0 {
      ClosesOnly(live, answers, []);
    } else {
      var row, base := live[k - 1], Units(live, k - 1);
      var n := |row.eligible|;
      var close := if ClaimLost(answers[base + n - 1]) then [] else [Close(row.id, PutOffCrawlers(row, answers, base, n))];
      LiveIsTold(live, answers, k - 1);
      UnitsAreTold(live, answers, k - 1, n);
      ClosesOnly(live, answers, close);
      Joins(live, answers, UnitLog(row, answers, base, n), close);
      Joins(live, answers, LiveLog(live, answers, k - 1), RowLog(row, answers, base));
    }
  }

  lemma {:induction false} EarlyCloses(rows: seq<ClaimedRow>, n: nat)
    requires n <= |rows|
    ensures forall e :: e in GoneLog(rows, n) + IdleLog(rows, n) ==> e.ClosedDone?
  {
    if n > 0 { EarlyCloses(rows, n - 1); }
  }

  lemma PassIsTold(rows: seq<ClaimedRow>, answers: seq<Answer>)
    requires |answers| == UnitCount(rows)
    ensures WellTold(Live(rows, |rows|), answers, PassLog(rows, answers))
  {
    hide WellTold, LiveLog, GoneLog, IdleLog;
    var live := Live(rows, |rows|);
    EarlyCloses(rows, |rows|);
    ClosesOnly(live, answers, GoneLog(rows, |rows|) + IdleLog(rows, |rows|));
    LiveIsTold(live, answers, |live|);
    Joins(live, answers, GoneLog(rows, |rows|) + IdleLog(rows, |rows|), LiveLog(live, answers, |live|));
  }

  /** `answers[base + p]` is what the search of row `i` at its `p`th crawler came to. */
  ghost predicate AnswerOf(rows: seq<ClaimedRow>, answers: seq<Answer>, i: nat, p: nat, base: nat) {
    i < |rows| && p < |rows[i].eligible| && AnswersFrom(rows, i, base) && base + p < |answers|
  }

  /** No site is told anything but what a search of this pass came to: every report stands
      directly before the end of a search of that crawler, and what stands before the end of
      any search is exactly what its answer calls for, or nothing. */
  lemma SitesAreToldTheTruth(rows: seq<ClaimedRow>, answers: seq<Answer>, q: nat)
    requires DistinctIds(rows) && |answers| == UnitCount(rows) && q < |PassLog(rows, answers)|
    ensures var log := PassLog(rows, answers);
            && Followed(log, q)
            && (Settling(log[q]) ==>
                  exists i: nat, p: nat, base: nat ::
                    AnswerOf(rows, answers, i, p, base)
                    && Settled(rows[i], rows[i].eligible[p], answers[base + p], Told(log, q), log[q]))
  {
    hide PassLog, Followed, Settled;
    PassIsTold(rows, answers);
    LiveIsSubset(rows, |rows|);
    var log, live := PassLog(rows, answers), Live(rows, |rows|);
    if Settling(log[q]) {
      var k: nat, p: nat :|
        k < |live| && p < |live[k].eligible| && SettledAt(live, answers, k, p, Told(log, q), log[q]);
      assert live[k] in live;
      var i: nat :| i < |rows| && rows[i] == live[k];
      assert AnswerOf(rows, answers, i, p, Units(live, k));
    }
  }

  lemma {:induction false} OfIsIn(log: seq<Event>, id: RowId, e: Event) returns (q: nat)
    requires e in Of(log, id)
    ensures q < |log| && log[q] == e
  {
    var n := |log| - 1;
    if e == log[n] { q := n; } else { q := OfIsIn(log[..n], id, e); }
  }

  lemma OneBase(rows: seq<ClaimedRow>, i: nat, base: nat, other: nat)
    requires DistinctIds(rows) && i < |rows| && AnswersFrom(rows, i, base) && AnswersFrom(rows, i, other)
    ensures base == other
  {
    LiveIsSubset(rows, |rows|);
  }

  /** And every search has its say: each eligible crawler of each row with work to do ends
      at some place in the log, and its site is told there that it worked, that it broke, or
      nothing, by the answer alone. */
  lemma EverySearchIsReported(rows: seq<ClaimedRow>, answers: seq<Answer>, i: nat, p: nat) returns (base: nat, q: nat)
    requires DistinctIds(rows) && i < |rows| && |answers| == UnitCount(rows)
    requires HasUnits(rows[i]) && NoDuplicates(rows[i].eligible) && p < |rows[i].eligible|
    ensures AnswerOf(rows, answers, i, p, base) && q < |PassLog(rows, answers)|
    ensures Settled(rows[i], rows[i].eligible[p], answers[base + p], Told(PassLog(rows, answers), q), PassLog(rows, answers)[q])
  {
    hide PassLog, Of, Settled, AnswersFrom;
    var log := PassLog(rows, answers);
    base := ClosedOnceIffHeld(rows, answers, i);
    var mine := Of(log, rows[i].id);
    q := OfIsIn(log, rows[i].id, mine[p]);
    SitesAreToldTheTruth(rows, answers, q);
    var j: nat, r: nat, other: nat :|
      AnswerOf(rows, answers, j, r, other)
      && Settled(rows[j], rows[j].eligible[r], answers[other + r], Told(log, q), log[q]);
    SettlesOnce(rows[j], rows[j].eligible[r], answers[other + r], Told(log, q), log[q]);
    assert rows[j].id == rows[i].id && rows[j].eligible[r] == rows[i].eligible[p];
    OneBase(rows, i, base, other);
  }

  lemma SettlesOnce(row: ClaimedRow, c: CrawlerId, a: Answer, told: Option<Event>, e: Event)
    requires Settled(row, c, a, told, e)
    ensures Settling(e) && e.id == row.id && e.crawler == c
  {
  }
}
