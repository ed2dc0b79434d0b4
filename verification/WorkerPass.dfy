/**
 One pass of a crawl worker over the rows it has claimed: `_process_claimed_rows` in
 `backend/crawl_manager.py`.

 The code flattens the claimed rows into one list of (row, crawler) units and recognises
 a row's last unit by looking at the next one. What it must amount to is stated row by
 row (`RowLog`), and the method is proved to produce exactly that. Everything outside
 the worker -- plugins, cooldowns, searches, whether the claim survived -- answers
 through `answer`, one arbitrary answer per unit.
 */
module WorkerPass {
  import opened Options
  import opened CrawlQueue

  /** A claimed row with what `_resolve_target` found: its target, if it still has one,
      and the crawlers eligible for it in id order. */
  datatype ClaimedRow = ClaimedRow(id: RowId, isRelease: bool, resolvable: bool, eligible: seq<CrawlerId>)

  datatype WriteOutcome = Written | Reclaimed | KindChanged

  datatype Answer =
    | PluginMissing
    | CoolingDown
    | SearchRaised
    | SearchReturned(matched: bool, botDetected: bool, emptyIsExpected: bool, outcome: WriteOutcome)

  datatype Event =
    | SiteResult(crawler: CrawlerId, succeeded: bool)
    | Searched(id: RowId, crawler: CrawlerId)
    | Failed(id: RowId, crawler: CrawlerId)
    | PutOff(id: RowId, crawler: CrawlerId)
    | ClosedDone(id: RowId)
    | ClosedDeferred(id: RowId, crawlers: seq<CrawlerId>)
  {
    predicate Closes(rowId: RowId) {
      (ClosedDone? || ClosedDeferred?) && this.id == rowId
    }

    /** What the event says became of one crawler's search for the row. */
    predicate Settles(rowId: RowId, c: CrawlerId) {
      (Searched? || Failed? || PutOff?) && this.id == rowId && crawler == c
    }
  }

  // ----- What a pass amounts to, row by row -----

  /** What the breaker is told about one unit. */
  function Breaker(row: ClaimedRow, c: CrawlerId, a: Answer): seq<Event> {
    match a
    case PluginMissing => [SiteResult(c, false)]
    case CoolingDown => []
    case SearchRaised => [SiteResult(c, false)]
    case SearchReturned(matched, bot, emptyIsExpected, _) =>
      if row.isRelease && !emptyIsExpected then [SiteResult(c, matched && !bot)]
      else if bot || matched then [SiteResult(c, !bot)]
      else []
  }

  function Settlement(row: ClaimedRow, c: CrawlerId, a: Answer): Event {
    match a
    case PluginMissing => Failed(row.id, c)
    case CoolingDown => PutOff(row.id, c)
    case SearchRaised => Failed(row.id, c)
    case SearchReturned(_, _, _, _) => Searched(row.id, c)
  }

  function Unit(row: ClaimedRow, c: CrawlerId, a: Answer): seq<Event> {
    Breaker(row, c, a) + [Settlement(row, c, a)]
  }

  function UnitLog(row: ClaimedRow, answers: seq<Answer>, base: nat, n: nat): seq<Event>
    requires n <= |row.eligible| && base + n <= |answers|
  {
    if n == 0 then []
    else
      var c, a := row.eligible[n - 1], answers[base + n - 1];
      UnitLog(row, answers, base, n - 1) + Unit(row, c, a)
  }

  /** The crawlers among the first `n` that were put off, in order. */
  function PutOffCrawlers(row: ClaimedRow, answers: seq<Answer>, base: nat, n: nat): seq<CrawlerId>
    requires n <= |row.eligible| && base + n <= |answers|
  {
    if n == 0 then []
    else PutOffCrawlers(row, answers, base, n - 1) + (if answers[base + n - 1].CoolingDown? then [row.eligible[n - 1]] else [])
  }

  function Close(id: RowId, putOff: seq<CrawlerId>): Event {
    if putOff == [] then ClosedDone(id) else ClosedDeferred(id, putOff)
  }

  predicate ClaimLost(a: Answer) {
    a.SearchReturned? && a.outcome.Reclaimed?
  }

  /** A row with units: each in turn, then one closing write -- unless the last search
      found the row reclaimed, which leaves it to its new claimant. */
  function RowLog(row: ClaimedRow, answers: seq<Answer>, base: nat): seq<Event>
    requires HasUnits(row) && base + |row.eligible| <= |answers|
  {
    var n := |row.eligible|;
    UnitLog(row, answers, base, n) +
    (if ClaimLost(answers[base + n - 1]) then [] else [Close(row.id, PutOffCrawlers(row, answers, base, n))])
  }

  predicate HasUnits(row: ClaimedRow) {
    row.resolvable && row.eligible != []
  }

  /** The rows with units among the first `n`, in claim order. */
  function Live(rows: seq<ClaimedRow>, n: nat): (live: seq<ClaimedRow>)
    requires n <= |rows|
    ensures forall k :: 0 <= k < |live| ==> HasUnits(live[k])
  {
    if n == 0 then [] else Live(rows, n - 1) + if HasUnits(rows[n - 1]) then [rows[n - 1]] else []
  }

  /** How many units the first `k` live rows have. */
  function Units(live: seq<ClaimedRow>, k: nat): nat
    requires k <= |live|
  {
    if k == 0 then 0 else Units(live, k - 1) + |live[k - 1].eligible|
  }

  predicate AllHaveUnits(live: seq<ClaimedRow>) {
    forall k :: 0 <= k < |live| ==> HasUnits(live[k])
  }

  function LiveLog(live: seq<ClaimedRow>, answers: seq<Answer>, k: nat): seq<Event>
    requires AllHaveUnits(live) && k <= |live| && Units(live, k) <= |answers|
  {
    if k == 0 then [] else LiveLog(live, answers, k - 1) + RowLog(live[k - 1], answers, Units(live, k - 1))
  }

  /** Rows whose target is gone, closed while targets are being resolved. */
  function GoneLog(rows: seq<ClaimedRow>, n: nat): seq<Event>
    requires n <= |rows|
  {
    if n == 0 then []
    else GoneLog(rows, n - 1) + if rows[n - 1].resolvable then [] else [ClosedDone(rows[n - 1].id)]
  }

  /** Rows no crawler is eligible for, closed before the first unit. */
  function IdleLog(rows: seq<ClaimedRow>, n: nat): seq<Event>
    requires n <= |rows|
  {
    if n == 0 then []
    else IdleLog(rows, n - 1) +
         if rows[n - 1].resolvable && rows[n - 1].eligible == [] then [ClosedDone(rows[n - 1].id)] else []
  }

  function UnitCount(rows: seq<ClaimedRow>): nat {
    Units(Live(rows, |rows|), |Live(rows, |rows|)|)
  }

  function PassLog(rows: seq<ClaimedRow>, answers: seq<Answer>): seq<Event>
    requires |answers| == UnitCount(rows)
  {
    var live := Live(rows, |rows|);
    GoneLog(rows, |rows|) + IdleLog(rows, |rows|) + LiveLog(live, answers, |live|)
  }

  // ----- The pass as the worker runs it -----

  ghost predicate DistinctIds(rows: seq<ClaimedRow>) {
    forall i, j :: 0 <= i < j < |rows| ==> rows[i].id != rows[j].id
  }

  /** The p-th crawler of the k-th live row stands where the rows before it end, plus p. */
  ghost predicate UnitAt(units: seq<(RowId, CrawlerId)>, live: seq<ClaimedRow>, k: nat, p: nat)
    requires k < |live| && p < |live[k].eligible|
  {
    var i := Units(live, k) + p;
    i < |units| && units[i] == (live[k].id, live[k].eligible[p])
  }

  ghost predicate Flattens(units: seq<(RowId, CrawlerId)>, live: seq<ClaimedRow>) {
    && |units| == Units(live, |live|)
    && forall k: nat, p: nat :: k < |live| && p < |live[k].eligible| ==> UnitAt(units, live, k, p)
  }

  lemma {:induction false} UnitsGrow(live: seq<ClaimedRow>, k: nat, n: nat)
    requires k <= n <= |live|
    ensures Units(live, k) <= Units(live, n)
    decreases n - k
  {
    if k < n { UnitsGrow(live, k, n - 1); }
  }

  lemma {:induction false} UnitsOfPrefix(live: seq<ClaimedRow>, row: ClaimedRow, k: nat)
    requires k <= |live|
    ensures Units(live + [row], k) == Units(live, k)
  {
    if k > 0 { UnitsOfPrefix(live, row, k - 1); }
  }

  lemma {:induction false} LiveIsSubset(rows: seq<ClaimedRow>, n: nat)
    requires DistinctIds(rows) && n <= |rows|
    ensures DistinctIds(Live(rows, n))
    ensures forall r :: r in Live(rows, n) ==> exists i :: 0 <= i < n && rows[i] == r
  {
    if n > 0 {
      LiveIsSubset(rows, n - 1);
      forall r | r in Live(rows, n - 1) ensures r.id != rows[n - 1].id {
        var i :| 0 <= i < n - 1 && rows[i] == r;
      }
      var before := Live(rows, n - 1);
      assert forall k :: 0 <= k < |before| ==> before[k] in before;
    }
  }

  lemma FlattensMore(units: seq<(RowId, CrawlerId)>, live: seq<ClaimedRow>, row: ClaimedRow, added: seq<(RowId, CrawlerId)>)
    requires Flattens(units, live) && |added| == |row.eligible|
    requires forall p :: 0 <= p < |added| ==> added[p] == (row.id, row.eligible[p])
    ensures Flattens(units + added, live + [row])
  {
    UnitsOfPrefix(live, row, |live|);
    forall k: nat, p: nat | k < |live + [row]| && p < |(live + [row])[k].eligible|
      ensures UnitAt(units + added, live + [row], k, p)
    {
      UnitsOfPrefix(live, row, k);
      if k < |live| {
        assert UnitAt(units, live, k, p);
      } else {
        assert (units + added)[|units| + p] == added[p];
      }
    }
  }

  /** Resolves the targets, closing rows whose target is gone as it meets them. */
  method ResolveTargets(rows: seq<ClaimedRow>)
    returns (units: seq<(RowId, CrawlerId)>, targets: map<RowId, ClaimedRow>, log: seq<Event>)
    requires DistinctIds(rows)
    ensures Flattens(units, Live(rows, |rows|)) && log == GoneLog(rows, |rows|)
    ensures forall r :: r in Live(rows, |rows|) ==> r.id in targets && targets[r.id] == r
  {
    units, targets, log := [], map[], [];
    for i := 0 to |rows|
      invariant Flattens(units, Live(rows, i)) && log == GoneLog(rows, i)
      invariant forall j :: 0 <= j < i && rows[j].resolvable ==> rows[j].id in targets && targets[rows[j].id] == rows[j]
    {
      var row := rows[i];
      if !row.resolvable {
        log := log + [ClosedDone(row.id)];
        assert Live(rows, i + 1) == Live(rows, i);
        continue;
      }
      targets := targets[row.id := row];
      ghost var before := units;
      for j := 0 to |row.eligible|
        invariant |units| == |before| + j && before <= units
        invariant forall p :: 0 <= p < j ==> units[|before| + p] == (row.id, row.eligible[p])
      {
        units := units + [(row.id, row.eligible[j])];
      }
      assert units == before + units[|before|..];
      if HasUnits(row) {
        FlattensMore(before, Live(rows, i), row, units[|before|..]);
      } else {
        assert units == before && Live(rows, i + 1) == Live(rows, i);
      }
    }
    LiveIsSubset(rows, |rows|);
  }

  /** Where the pass stands: unit `i` is crawler `p` of live row `k`, whose units start at `base`. */
  ghost predicate AtUnit(units: seq<(RowId, CrawlerId)>, live: seq<ClaimedRow>, i: nat, k: nat, p: nat, base: nat) {
    && k <= |live| && base == Units(live, k) && i == base + p <= |units|
    && (if k < |live| then p < |live[k].eligible| && i < |units| else p == 0 && i == |units|)
  }

  function Lookup(deferred: map<RowId, seq<CrawlerId>>, id: RowId): seq<CrawlerId> {
    if id in deferred then deferred[id] else []
  }

  /** Only the row being worked and the rows already closed have anything put off. */
  ghost predicate DeferredSoFar(deferred: map<RowId, seq<CrawlerId>>, live: seq<ClaimedRow>, answers: seq<Answer>,
                                k: nat, p: nat, base: nat)
    requires k < |live| ==> p <= |live[k].eligible| && base + p <= |answers|
  {
    && (k < |live| ==> Lookup(deferred, live[k].id) == PutOffCrawlers(live[k], answers, base, p))
    && (forall q :: k < q < |live| ==> live[q].id !in deferred)
    && (forall id :: id in deferred ==> deferred[id] != [])
  }

  /** The next unit belongs to another row exactly at a row's last crawler. */
  lemma UnitIs(units: seq<(RowId, CrawlerId)>, live: seq<ClaimedRow>, i: nat, k: nat, p: nat, base: nat)
    requires Flattens(units, live) && DistinctIds(live) && AllHaveUnits(live)
    requires AtUnit(units, live, i, k, p, base) && i < |units|
    ensures units[i] == (live[k].id, live[k].eligible[p])
    ensures (i + 1 == |units| || units[i + 1].0 != live[k].id) <==> p + 1 == |live[k].eligible|
    ensures if p + 1 < |live[k].eligible| then AtUnit(units, live, i + 1, k, p + 1, base)
            else AtUnit(units, live, i + 1, k + 1, 0, base + |live[k].eligible|)
  {
    assert UnitAt(units, live, k, p);
    if p + 1 < |live[k].eligible| {
      assert UnitAt(units, live, k, p + 1);
    } else if k + 1 < |live| {
      assert UnitAt(units, live, k + 1, 0);
    }
  }

  lemma DeferralAdvances(live: seq<ClaimedRow>, answers: seq<Answer>, k: nat, p: nat, base: nat,
                         before: map<RowId, seq<CrawlerId>>, deferred: map<RowId, seq<CrawlerId>>)
    requires DistinctIds(live) && k < |live| && p < |live[k].eligible| && base + |live[k].eligible| <= |answers|
    requires DeferredSoFar(before, live, answers, k, p, base)
    requires deferred == if answers[base + p].CoolingDown?
                         then before[live[k].id := Lookup(before, live[k].id) + [live[k].eligible[p]]] else before
    ensures DeferredSoFar(deferred, live, answers, k, p + 1, base)
    ensures DeferredSoFar(deferred, live, answers, k + 1, 0, base + |live[k].eligible|)
    ensures var id := live[k].id;
            (if id in deferred then ClosedDeferred(id, deferred[id]) else ClosedDone(id))
            == Close(id, PutOffCrawlers(live[k], answers, base, p + 1))
  {
    if k + 1 < |live| {
      assert live[k + 1].id !in before;
      assert live[k + 1].id != live[k].id;
    }
  }

  method ProcessClaimedRows(rows: seq<ClaimedRow>, answers: seq<Answer>) returns (log: seq<Event>)
    requires DistinctIds(rows) && |answers| == UnitCount(rows)
    ensures log == PassLog(rows, answers)
  {
    var units, targets;
    units, targets, log := ResolveTargets(rows);
    LiveIsSubset(rows, |rows|);
    for i := 0 to |rows|
      invariant log == GoneLog(rows, |rows|) + IdleLog(rows, i)
    {
      if rows[i].resolvable && rows[i].eligible == [] {
        log := log + [ClosedDone(rows[i].id)];
      }
    }
    var worked := ProcessUnits(units, targets, Live(rows, |rows|), answers);
    log := log + worked;
  }

  lemma UnitLogStep(row: ClaimedRow, answers: seq<Answer>, base: nat, p: nat)
    requires p < |row.eligible| && base + p < |answers|
    ensures UnitLog(row, answers, base, p + 1) ==
            UnitLog(row, answers, base, p) + Unit(row, row.eligible[p], answers[base + p])
  {
  }

  lemma RowLogSplits(live: seq<ClaimedRow>, answers: seq<Answer>, k: nat, closed: seq<Event>, close: seq<Event>)
    requires AllHaveUnits(live) && k < |live| && Units(live, k + 1) <= |answers| && closed == LiveLog(live, answers, k)
    requires var (row, base) := (live[k], Units(live, k)); var n := |row.eligible|;
             close == if ClaimLost(answers[base + n - 1]) then [] else [Close(row.id, PutOffCrawlers(row, answers, base, n))]
    ensures closed + UnitLog(live[k], answers, Units(live, k), |live[k].eligible|) + close == LiveLog(live, answers, k + 1)
  {
    hide UnitLog, Unit, PutOffCrawlers;
    var units := UnitLog(live[k], answers, Units(live, k), |live[k].eligible|);
    Regroup(closed, units, close);
    assert units + close == RowLog(live[k], answers, Units(live, k));
  }

  lemma Regroup(a: seq<Event>, b: seq<Event>, c: seq<Event>)
    ensures (a + b) + c == a + (b + c)
  {
  }

  ghost function LogAt(live: seq<ClaimedRow>, answers: seq<Answer>, k: nat, p: nat, base: nat): seq<Event>
    requires AllHaveUnits(live) && k <= |live| && Units(live, k) <= |answers|
    requires p > 0 ==> k < |live| && p <= |live[k].eligible| && base + p <= |answers|
  {
    if p == 0 then LiveLog(live, answers, k) else LiveLog(live, answers, k) + UnitLog(live[k], answers, base, p)
  }

  ghost predicate Working(units: seq<(RowId, CrawlerId)>, live: seq<ClaimedRow>, answers: seq<Answer>, i: nat,
                          k: nat, p: nat, base: nat, log: seq<Event>, deferred: map<RowId, seq<CrawlerId>>) {
    && Flattens(units, live) && DistinctIds(live) && AllHaveUnits(live) && |answers| == |units|
    && AtUnit(units, live, i, k, p, base)
    && log == LogAt(live, answers, k, p, base)
    && DeferredSoFar(deferred, live, answers, k, p, base)
  }

  /** One turn of the loop: what it does to `deferred` and to the log. */
  ghost predicate Turn(row: ClaimedRow, c: CrawlerId, a: Answer, last: bool,
                       before: map<RowId, seq<CrawlerId>>, deferred: map<RowId, seq<CrawlerId>>,
                       earlier: seq<Event>, log: seq<Event>)
  {
    && deferred == (if a.CoolingDown? then before[row.id := Lookup(before, row.id) + [c]] else before)
    && log == earlier + Unit(row, c, a) + Closing(row.id, a, last, deferred)
  }

  function Closing(id: RowId, a: Answer, last: bool, deferred: map<RowId, seq<CrawlerId>>): seq<Event> {
    if last && !ClaimLost(a) then [if id in deferred then ClosedDeferred(id, deferred[id]) else ClosedDone(id)] else []
  }

  /** What the row's close must be, from the put-off crawlers its own answers name. */
  function Due(row: ClaimedRow, answers: seq<Answer>, p: nat, base: nat): seq<Event>
    requires p < |row.eligible| && base + |row.eligible| <= |answers|
  {
    if p + 1 < |row.eligible| || ClaimLost(answers[base + p]) then []
    else [Close(row.id, PutOffCrawlers(row, answers, base, p + 1))]
  }

  /** The log half of a turn. */
  lemma LogTurn(live: seq<ClaimedRow>, answers: seq<Answer>, k: nat, p: nat, base: nat)
    requires AllHaveUnits(live) && k < |live| && p < |live[k].eligible|
    requires base == Units(live, k) && base + |live[k].eligible| <= |answers|
    ensures LogAt(live, answers, k, p, base) + Unit(live[k], live[k].eligible[p], answers[base + p])
            + Due(live[k], answers, p, base) ==
            if p + 1 < |live[k].eligible| then LogAt(live, answers, k, p + 1, base)
            else LogAt(live, answers, k + 1, 0, base + |live[k].eligible|)
  {
    hide Unit, PutOffCrawlers, RowLog, Close, ClaimLost;
    var row := live[k];
    var closed, current := LiveLog(live, answers, k), UnitLog(row, answers, base, p);
    assert LogAt(live, answers, k, p, base) == closed + current;
    var unit := Unit(row, row.eligible[p], answers[base + p]);
    Regroup(closed, current, unit);
    UnitLogStep(row, answers, base, p);
    if p + 1 == |row.eligible| {
      RowLogSplits(live, answers, k, closed, Due(row, answers, p, base));
    } else {
      assert Due(row, answers, p, base) == [];
    }
  }

  lemma ClosingIsDue(live: seq<ClaimedRow>, answers: seq<Answer>, k: nat, p: nat, base: nat,
                     before: map<RowId, seq<CrawlerId>>, deferred: map<RowId, seq<CrawlerId>>)
    requires DistinctIds(live) && k < |live| && p < |live[k].eligible| && base + |live[k].eligible| <= |answers|
    requires DeferredSoFar(before, live, answers, k, p, base)
    requires deferred == if answers[base + p].CoolingDown?
                         then before[live[k].id := Lookup(before, live[k].id) + [live[k].eligible[p]]] else before
    ensures Closing(live[k].id, answers[base + p], p + 1 == |live[k].eligible|, deferred) == Due(live[k], answers, p, base)
  {
    DeferralAdvances(live, answers, k, p, base, before, deferred);
  }

  lemma TurnKeeps(units: seq<(RowId, CrawlerId)>, live: seq<ClaimedRow>, answers: seq<Answer>, i: nat,
                  k: nat, p: nat, base: nat,
                  before: map<RowId, seq<CrawlerId>>, deferred: map<RowId, seq<CrawlerId>>,
                  earlier: seq<Event>, log: seq<Event>)
    returns (k': nat, p': nat, base': nat)
    requires Working(units, live, answers, i, k, p, base, earlier, before) && i < |units|
    requires Turn(live[k], live[k].eligible[p], answers[i], p + 1 == |live[k].eligible|, before, deferred, earlier, log)
    ensures Working(units, live, answers, i + 1, k', p', base', log, deferred)
  {
    hide Unit, PutOffCrawlers, RowLog, UnitLog, LiveLog, Due, Closing;
    UnitIs(units, live, i, k, p, base);
    UnitsGrow(live, k + 1, |live|);
    DeferralAdvances(live, answers, k, p, base, before, deferred);
    ClosingIsDue(live, answers, k, p, base, before, deferred);
    LogTurn(live, answers, k, p, base);
    if p + 1 < |live[k].eligible| {
      k', p', base' := k, p + 1, base;
    } else {
      k', p', base' := k + 1, 0, base + |live[k].eligible|;
    }
  }

  lemma Starts(units: seq<(RowId, CrawlerId)>, live: seq<ClaimedRow>, answers: seq<Answer>)
    requires Flattens(units, live) && DistinctIds(live) && AllHaveUnits(live) && |answers| == |units|
    ensures Working(units, live, answers, 0, 0, 0, 0, [], map[])
  {
    if live != [] { assert UnitAt(units, live, 0, 0); }
  }

  lemma AtTurn(units: seq<(RowId, CrawlerId)>, live: seq<ClaimedRow>, answers: seq<Answer>, i: nat,
               k: nat, p: nat, base: nat, log: seq<Event>, deferred: map<RowId, seq<CrawlerId>>)
    requires Working(units, live, answers, i, k, p, base, log, deferred) && i < |units|
    ensures |answers| == |units| && k < |live| && live[k] in live && p < |live[k].eligible|
    ensures units[i] == (live[k].id, live[k].eligible[p])
    ensures (i + 1 == |units| || units[i + 1].0 != live[k].id) <==> p + 1 == |live[k].eligible|
  {
    UnitIs(units, live, i, k, p, base);
  }

  lemma Ends(units: seq<(RowId, CrawlerId)>, live: seq<ClaimedRow>, answers: seq<Answer>,
             k: nat, p: nat, base: nat, log: seq<Event>, deferred: map<RowId, seq<CrawlerId>>)
    requires Working(units, live, answers, |units|, k, p, base, log, deferred)
    ensures Units(live, |live|) <= |answers| && log == LiveLog(live, answers, |live|)
  {
    UnitsGrow(live, k, |live|);
  }

  /** Works the units in order, closing each row at its last one. */
  method ProcessUnits(units: seq<(RowId, CrawlerId)>, targets: map<RowId, ClaimedRow>, ghost live: seq<ClaimedRow>, answers: seq<Answer>)
    returns (log: seq<Event>)
    requires Flattens(units, live) && DistinctIds(live) && AllHaveUnits(live)
    requires forall r :: r in live ==> r.id in targets && targets[r.id] == r
    requires |answers| == |units|
    ensures log == LiveLog(live, answers, |live|)
  {
    hide Working, Flattens, LiveLog, DistinctIds, AllHaveUnits;
    log := [];
    var deferred: map<RowId, seq<CrawlerId>> := map[];
    ghost var k: nat, p: nat, base: nat := 0, 0, 0;
    Starts(units, live, answers);
    for i := 0 to |units|
      invariant Working(units, live, answers, i, k, p, base, log, deferred)
    {
      var (rowId, crawler) := units[i];
      AtTurn(units, live, answers, i, k, p, base, log, deferred);
      var row := targets[rowId];
      var isLastUnitForRow := i + 1 == |units| || units[i + 1].0 != rowId;
      ghost var before, earlier := deferred, log;

      match answers[i] {
        case PluginMissing =>
          log := log + [SiteResult(crawler, false), Failed(rowId, crawler)];
        case CoolingDown =>
          deferred := deferred[rowId := Lookup(deferred, rowId) + [crawler]];
          log := log + [PutOff(rowId, crawler)];
        case SearchRaised =>
          log := log + [SiteResult(crawler, false), Failed(rowId, crawler)];
        case SearchReturned(matched, botDetected, emptyIsExpected, _) =>
          var emptyCountsAsFailure := row.isRelease && !emptyIsExpected;
          if emptyCountsAsFailure {
            log := log + [SiteResult(crawler, matched && !botDetected)];
          } else if botDetected || matched {
            log := log + [SiteResult(crawler, !botDetected)];
          }
          log := log + [Searched(rowId, crawler)];
      }
      assert log == earlier + Unit(row, crawler, answers[i]);
      var reclaimed := answers[i].SearchReturned? && answers[i].outcome.Reclaimed?;
      if isLastUnitForRow && !reclaimed {
        log := log + [if rowId in deferred then ClosedDeferred(rowId, deferred[rowId]) else ClosedDone(rowId)];
      }
      k, p, base := TurnKeeps(units, live, answers, i, k, p, base, before, deferred, earlier, log);
    }
    Ends(units, live, answers, k, p, base, log, deferred);
  }
}
