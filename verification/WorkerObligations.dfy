/**
 What a worker pass owes each row it claimed, read off the log `ProcessClaimedRows` is
 proved to produce.
 */
module WorkerObligations {
  import opened Options
  import opened CrawlQueue
  import opened WorkerPass

  /** The events about row `id`, in order. */
  function Of(log: seq<Event>, id: RowId): seq<Event> {
    if log == [] then []
    else Of(log[..|log| - 1], id) + if Concerns(log[|log| - 1], id) then [log[|log| - 1]] else []
  }

  predicate Concerns(e: Event, id: RowId) {
    match e
    case SiteResult(_, _) => false
    case Searched(r, _) => r == id
    case Failed(r, _) => r == id
    case PutOff(r, _) => r == id
    case ClosedDone(r) => r == id
    case ClosedDeferred(r, _) => r == id
  }

  lemma {:induction false} OfConcat(a: seq<Event>, b: seq<Event>, id: RowId)
    ensures Of(a + b, id) == Of(a, id) + Of(b, id)
    decreases |b|
  {
    if b == [] {
      assert a + b == a;
    } else {
      OfConcat(a, b[..|b| - 1], id);
      assert (a + b)[..|a + b| - 1] == a + b[..|b| - 1];
    }
  }

  lemma OfNil(id: RowId)
    ensures Of([], id) == []
  {
  }

  lemma OfOne(e: Event, id: RowId)
    ensures Of([e], id) == if Concerns(e, id) then [e] else []
  {
    assert [e][..0] == [];
  }

  function Settlements(row: ClaimedRow, answers: seq<Answer>, base: nat, n: nat): (s: seq<Event>)
    requires n <= |row.eligible| && base + n <= |answers|
    ensures |s| == n
    ensures forall p :: 0 <= p < n ==> s[p] == Settlement(row, row.eligible[p], answers[base + p])
  {
    if n == 0 then []
    else Settlements(row, answers, base, n - 1) + [Settlement(row, row.eligible[n - 1], answers[base + n - 1])]
  }

  /** The whole history of a row with units: one settlement per crawler, then the close. */
  function History(row: ClaimedRow, answers: seq<Answer>, base: nat): seq<Event>
    requires HasUnits(row) && base + |row.eligible| <= |answers|
  {
    var n := |row.eligible|;
    Settlements(row, answers, base, n) +
    if ClaimLost(answers[base + n - 1]) then [] else [Close(row.id, PutOffCrawlers(row, answers, base, n))]
  }

  lemma OfUnit(row: ClaimedRow, c: CrawlerId, a: Answer, id: RowId)
    ensures Of(Unit(row, c, a), id) == if row.id == id then [Settlement(row, c, a)] else []
  {
    var told := Breaker(row, c, a);
    OfConcat(told, [Settlement(row, c, a)], id);
    OfOne(Settlement(row, c, a), id);
    if told != [] {
      assert told == [told[0]];
      OfOne(told[0], id);
    }
  }

  lemma {:induction false} OfUnitLog(row: ClaimedRow, answers: seq<Answer>, base: nat, n: nat, id: RowId)
    requires n <= |row.eligible| && base + n <= |answers|
    ensures Of(UnitLog(row, answers, base, n), id) == if row.id == id then Settlements(row, answers, base, n) else []
  {
    hide Of, Unit, Settlement, Breaker;
    if n == 0 {
      OfNil(id);
    } else {
      var c, a := row.eligible[n - 1], answers[base + n - 1];
      OfUnitLog(row, answers, base, n - 1, id);
      OfConcat(UnitLog(row, answers, base, n - 1), Unit(row, c, a), id);
      OfUnit(row, c, a, id);
    }
  }

  lemma OfRowLog(row: ClaimedRow, answers: seq<Answer>, base: nat, id: RowId)
    requires HasUnits(row) && base + |row.eligible| <= |answers|
    ensures Of(RowLog(row, answers, base), id) == if row.id == id then History(row, answers, base) else []
  {
    hide Of, UnitLog, Settlements, PutOffCrawlers;
    var n := |row.eligible|;
    OfNil(id);
    OfUnitLog(row, answers, base, n, id);
    var close := Close(row.id, PutOffCrawlers(row, answers, base, n));
    OfOne(close, id);
    OfConcat(UnitLog(row, answers, base, n), if ClaimLost(answers[base + n - 1]) then [] else [close], id);
  }

  lemma {:induction false} OfLiveLog(live: seq<ClaimedRow>, answers: seq<Answer>, m: nat, k: nat)
    requires AllHaveUnits(live) && DistinctIds(live) && k < |live| && m <= |live| && Units(live, |live|) <= |answers|
    ensures Units(live, m) <= |answers| && Units(live, k) + |live[k].eligible| <= |answers|
    ensures Of(LiveLog(live, answers, m), live[k].id) ==
            if k < m then History(live[k], answers, Units(live, k)) else []
  {
    hide RowLog, UnitLog, Unit, History, Settlements, Breaker, Live, Of, HasUnits;
    UnitsGrow(live, m, |live|);
    UnitsGrow(live, k + 1, |live|);
    if m == 0 {
      OfNil(live[k].id);
    } else {
      OfLiveLog(live, answers, m - 1, k);
      OfConcat(LiveLog(live, answers, m - 1), RowLog(live[m - 1], answers, Units(live, m - 1)), live[k].id);
      OfRowLog(live[m - 1], answers, Units(live, m - 1), live[k].id);
    }
  }

  lemma {:induction false} OfOthers(live: seq<ClaimedRow>, answers: seq<Answer>, m: nat, id: RowId)
    requires AllHaveUnits(live) && m <= |live| && Units(live, |live|) <= |answers|
    requires forall k :: 0 <= k < |live| ==> live[k].id != id
    ensures Units(live, m) <= |answers| && Of(LiveLog(live, answers, m), id) == []
  {
    hide RowLog, UnitLog, Unit, History, Settlements, Breaker, Live, Of, HasUnits;
    UnitsGrow(live, m, |live|);
    if m == 0 {
      OfNil(id);
    } else {
      OfOthers(live, answers, m - 1, id);
      OfConcat(LiveLog(live, answers, m - 1), RowLog(live[m - 1], answers, Units(live, m - 1)), id);
      OfRowLog(live[m - 1], answers, Units(live, m - 1), id);
    }
  }

  /** One more event, if any, about row `rowId`. */
  lemma OfMore(log: seq<Event>, rowId: RowId, more: bool, id: RowId)
    ensures Of(log + (if more then [ClosedDone(rowId)] else []), id) ==
            Of(log, id) + if more && rowId == id then [ClosedDone(id)] else []
  {
    if more {
      OfOne(ClosedDone(rowId), id);
      OfConcat(log, [ClosedDone(rowId)], id);
    } else {
      assert log + [] == log;
    }
  }

  lemma {:induction false} OfGone(rows: seq<ClaimedRow>, n: nat, i: nat)
    requires DistinctIds(rows) && i < |rows| && n <= |rows|
    ensures Of(GoneLog(rows, n), rows[i].id) == if i < n && !rows[i].resolvable then [ClosedDone(rows[i].id)] else []
  {
    hide Of;
    if n == 0 {
      OfNil(rows[i].id);
    } else {
      OfGone(rows, n - 1, i);
      OfMore(GoneLog(rows, n - 1), rows[n - 1].id, !rows[n - 1].resolvable, rows[i].id);
    }
  }

  lemma {:induction false} OfIdle(rows: seq<ClaimedRow>, n: nat, i: nat)
    requires DistinctIds(rows) && i < |rows| && n <= |rows|
    ensures Of(IdleLog(rows, n), rows[i].id) ==
            if i < n && rows[i].resolvable && rows[i].eligible == [] then [ClosedDone(rows[i].id)] else []
  {
    hide Of;
    if n == 0 {
      OfNil(rows[i].id);
    } else {
      var last := rows[n - 1];
      OfIdle(rows, n - 1, i);
      OfMore(IdleLog(rows, n - 1), last.id, last.resolvable && last.eligible == [], rows[i].id);
    }
  }

  lemma OfEarly(rows: seq<ClaimedRow>, n: nat, i: nat)
    requires DistinctIds(rows) && i < |rows| && n <= |rows|
    ensures Of(GoneLog(rows, n), rows[i].id) == if i < n && !rows[i].resolvable then [ClosedDone(rows[i].id)] else []
    ensures Of(IdleLog(rows, n), rows[i].id) ==
            if i < n && rows[i].resolvable && rows[i].eligible == [] then [ClosedDone(rows[i].id)] else []
  {
    OfGone(rows, n, i);
    OfIdle(rows, n, i);
  }

  lemma {:induction false} LiveHas(rows: seq<ClaimedRow>, n: nat, i: nat) returns (k: nat)
    requires i < n <= |rows| && HasUnits(rows[i])
    ensures k < |Live(rows, n)| && Live(rows, n)[k] == rows[i]
  {
    if i == n - 1 { k := |Live(rows, n - 1)|; } else { k := LiveHas(rows, n - 1, i); }
  }

  /** Row `i`'s answers begin at `base`: behind those of the rows with units before it. */
  ghost predicate AnswersFrom(rows: seq<ClaimedRow>, i: nat, base: nat)
    requires i < |rows|
  {
    exists k: nat :: k < |Live(rows, |rows|)| && Live(rows, |rows|)[k] == rows[i] && base == Units(Live(rows, |rows|), k)
  }

  /** The complete account of row `i`, whatever the pass met on the way. A row whose target
      is gone, or that no crawler is eligible for, is closed as done once and nothing else
      happens to it. Any other row has its History. */
  lemma RowAccount(rows: seq<ClaimedRow>, answers: seq<Answer>, i: nat) returns (base: nat)
    requires DistinctIds(rows) && i < |rows| && |answers| == UnitCount(rows)
    ensures HasUnits(rows[i]) ==> base + |rows[i].eligible| <= |answers| && AnswersFrom(rows, i, base)
    ensures Of(PassLog(rows, answers), rows[i].id) ==
            if HasUnits(rows[i]) then History(rows[i], answers, base) else [ClosedDone(rows[i].id)]
  {
    hide RowLog, UnitLog, Unit, History, Settlements, Breaker, LiveLog, GoneLog, IdleLog, Of, Live;
    var live := Live(rows, |rows|);
    var id := rows[i].id;
    LiveIsSubset(rows, |rows|);
    OfEarly(rows, |rows|, i);
    OfConcat(GoneLog(rows, |rows|) + IdleLog(rows, |rows|), LiveLog(live, answers, |live|), id);
    OfConcat(GoneLog(rows, |rows|), IdleLog(rows, |rows|), id);
    base := 0;
    if HasUnits(rows[i]) {
      var k := LiveHas(rows, |rows|, i);
      base := Units(live, k);
      OfLiveLog(live, answers, |live|, k);
    } else {
      forall k | 0 <= k < |live| ensures live[k].id != id {
        assert live[k] in live;
        var j :| 0 <= j < |rows| && rows[j] == live[k];
      }
      OfOthers(live, answers, |live|, id);
    }
  }

  lemma {:induction false} PutOffMeaning(row: ClaimedRow, answers: seq<Answer>, base: nat, n: nat)
    requires n <= |row.eligible| && base + n <= |answers| && NoDuplicates(row.eligible)
    ensures var putOff := PutOffCrawlers(row, answers, base, n);
            && NoDuplicates(putOff)
            && forall c :: c in putOff <==> exists p :: 0 <= p < n && row.eligible[p] == c && answers[base + p].CoolingDown?
  {
    if n > 0 {
      PutOffMeaning(row, answers, base, n - 1);
      var before := PutOffCrawlers(row, answers, base, n - 1);
      var putOff := PutOffCrawlers(row, answers, base, n);
      var last := row.eligible[n - 1];
      forall c ensures c in putOff <==> exists p :: 0 <= p < n && row.eligible[p] == c && answers[base + p].CoolingDown? {
        assert c in putOff <==> c in before || (c == last && answers[base + n - 1].CoolingDown?);
        if c == last && answers[base + n - 1].CoolingDown? {
          assert 0 <= n - 1 < n && row.eligible[n - 1] == c && answers[base + (n - 1)].CoolingDown?;
        }
      }
      forall p, q | 0 <= p < q < |putOff| ensures putOff[p] != putOff[q] {
        assert putOff[p] in before;
      }
    }
  }

  /** `mine` names every one of the row's crawlers exactly once, in order, as searched,
      failed or put off; and then at most one terminal write closes the row -- as done when
      nothing was put off, otherwise narrowed to exactly the crawlers that were. Only a last
      search that returned can leave the row unclosed. */
  ghost predicate AccountsFor(mine: seq<Event>, row: ClaimedRow) {
    var n := |row.eligible|;
    && n <= |mine| <= n + 1
    && (forall p :: 0 <= p < n ==> mine[p].Settles(row.id, row.eligible[p]))
    && (|mine| == n + 1 ==> mine[n].Closes(row.id))
    && (|mine| == n + 1 && mine[n].ClosedDone? ==> forall p :: 0 <= p < n ==> !mine[p].PutOff?)
    && (|mine| == n + 1 && mine[n].ClosedDeferred? ==>
          && NoDuplicates(mine[n].crawlers) && mine[n].crawlers != []
          && forall c :: c in mine[n].crawlers <==> exists p :: 0 <= p < n && row.eligible[p] == c && mine[p].PutOff?)
    && (|mine| == n ==> n > 0 && mine[n - 1].Searched?)
  }

  lemma HistoryAccountsFor(row: ClaimedRow, answers: seq<Answer>, base: nat)
    requires HasUnits(row) && base + |row.eligible| <= |answers| && NoDuplicates(row.eligible)
    ensures AccountsFor(History(row, answers, base), row)
  {
    hide PutOffCrawlers, Settlements;
    var n := |row.eligible|;
    var mine := History(row, answers, base);
    PutOffMeaning(row, answers, base, n);
    var putOff := PutOffCrawlers(row, answers, base, n);
    assert forall p :: 0 <= p < n ==> mine[p] == Settlement(row, row.eligible[p], answers[base + p]);
    forall p | 0 <= p < n ensures mine[p].PutOff? <==> row.eligible[p] in putOff {
      if row.eligible[p] in putOff {
        var q :| 0 <= q < n && row.eligible[q] == row.eligible[p] && answers[base + q].CoolingDown?;
        assert q == p;
      }
    }
    forall c ensures c in putOff <==> exists p :: 0 <= p < n && row.eligible[p] == c && mine[p].PutOff? {
      if c in putOff {
        var p :| 0 <= p < n && row.eligible[p] == c && answers[base + p].CoolingDown?;
        assert mine[p].PutOff?;
      }
    }
  }

  /** No crawler obligation is lost, in any pass, for any row it claimed with work to do. */
  lemma NoObligationLost(rows: seq<ClaimedRow>, answers: seq<Answer>, i: nat)
    requires DistinctIds(rows) && i < |rows| && |answers| == UnitCount(rows)
    requires HasUnits(rows[i]) && NoDuplicates(rows[i].eligible)
    ensures AccountsFor(Of(PassLog(rows, answers), rows[i].id), rows[i])
  {
    hide *;
    var base := RowAccount(rows, answers, i);
    HistoryAccountsFor(rows[i], answers, base);
  }

  lemma HistoryCloses(row: ClaimedRow, answers: seq<Answer>, base: nat)
    requires HasUnits(row) && base + |row.eligible| <= |answers|
    ensures var (mine, n) := (History(row, answers, base), |row.eligible|);
            && |mine| >= n && (forall p :: 0 <= p < n ==> mine[p] == Settlement(row, row.eligible[p], answers[base + p]))
            && (|mine| == n + 1 <==> !ClaimLost(answers[base + n - 1]))
  {
    hide Settlement, PutOffCrawlers;
  }

  /** A row with work to do is closed, exactly once, if and only if its own last search did
      not find it reclaimed -- whatever became of the other rows of the batch. */
  lemma ClosedOnceIffHeld(rows: seq<ClaimedRow>, answers: seq<Answer>, i: nat) returns (base: nat)
    requires DistinctIds(rows) && i < |rows| && |answers| == UnitCount(rows)
    requires HasUnits(rows[i]) && NoDuplicates(rows[i].eligible)
    ensures base + |rows[i].eligible| <= |answers| && AnswersFrom(rows, i, base)
    ensures var (mine, n) := (Of(PassLog(rows, answers), rows[i].id), |rows[i].eligible|);
            && AccountsFor(mine, rows[i])
            && (forall p :: 0 <= p < n ==> mine[p] == Settlement(rows[i], rows[i].eligible[p], answers[base + p]))
            && (|mine| == n + 1 <==> !ClaimLost(answers[base + n - 1]))
  {
    hide Of, PassLog, AccountsFor, History, Settlement, AnswersFrom, NoDuplicates, DistinctIds, ClaimLost, UnitCount;
    base := RowAccount(rows, answers, i);
    HistoryAccountsFor(rows[i], answers, base);
    HistoryCloses(rows[i], answers, base);
  }

  /** Every row is closed before a later row's first unit runs: the log splits into a part
      holding all of row `k`'s events and a part holding all of row `m`'s. */
  lemma ClosedBeforeTheNextRow(rows: seq<ClaimedRow>, answers: seq<Answer>, k: nat, m: nat)
    returns (first: seq<Event>, rest: seq<Event>)
    requires DistinctIds(rows) && |answers| == UnitCount(rows)
    requires k < m < |Live(rows, |rows|)|
    ensures PassLog(rows, answers) == first + rest
    ensures Of(rest, Live(rows, |rows|)[k].id) == [] && Of(first, Live(rows, |rows|)[m].id) == []
  {
    hide RowLog, UnitLog, Unit, History, Settlements, Breaker, Of, GoneLog, IdleLog;
    var live := Live(rows, |rows|);
    LiveIsSubset(rows, |rows|);
    var early := GoneLog(rows, |rows|) + IdleLog(rows, |rows|);
    UnitsGrow(live, k + 1, |live|);
    first := early + LiveLog(live, answers, k + 1);
    rest := LiveTail(live, answers, k + 1, |live|, k);
    assert early + (LiveLog(live, answers, k + 1) + rest) == first + rest;
    assert live[m] in live;
    var i :| 0 <= i < |rows| && rows[i] == live[m];
    OfEarly(rows, |rows|, i);
    OfConcat(GoneLog(rows, |rows|), IdleLog(rows, |rows|), live[m].id);
    OfConcat(early, LiveLog(live, answers, k + 1), live[m].id);
    OfLiveLog(live, answers, k + 1, m);
  }

  lemma {:induction false} LiveTail(live: seq<ClaimedRow>, answers: seq<Answer>, lo: nat, hi: nat, k: nat)
    returns (rest: seq<Event>)
    requires AllHaveUnits(live) && DistinctIds(live) && k < lo <= hi <= |live| && Units(live, |live|) <= |answers|
    ensures Units(live, lo) <= |answers| && Units(live, hi) <= |answers|
    ensures LiveLog(live, answers, hi) == LiveLog(live, answers, lo) + rest
    ensures Of(rest, live[k].id) == []
    decreases hi
  {
    assert lo < hi ==> live[hi - 1].id != live[k].id;
    hide RowLog, UnitLog, Unit, History, Settlements, Breaker, Live, Of, DistinctIds, HasUnits;
    UnitsGrow(live, lo, |live|);
    UnitsGrow(live, hi, |live|);
    rest := [];
    if lo == hi {
      OfNil(live[k].id);
      assert LiveLog(live, answers, lo) + [] == LiveLog(live, answers, lo);
    } else {
      var before := LiveTail(live, answers, lo, hi - 1, k);
      var last := RowLog(live[hi - 1], answers, Units(live, hi - 1));
      rest := before + last;
      WorkerPass.Regroup(LiveLog(live, answers, lo), before, last);
      OfConcat(before, last, live[k].id);
      OfRowLog(live[hi - 1], answers, Units(live, hi - 1), live[k].id);
    }
  }

  /** The terminal write the log records, as the statement it issues. */
  function Closed(t: Table, worker: Worker, close: Event, delay: nat, now: Time): Table
    requires close.ClosedDone? || close.ClosedDeferred?
  {
    if close.ClosedDone? then t.MarkDone(close.id, worker, now)
    else t.Defer(close.id, worker, close.crawlers, delay, now)
  }

  /** A close lands exactly when the worker still holds the row, and then leaves the row
      either done or waiting for exactly the crawlers that were put off, in its old place
      in the queue. */
  lemma CloseLandsIffHeld(t: Table, worker: Worker, close: Event, delay: nat, now: Time)
    requires t.Valid() && (close.ClosedDone? || close.ClosedDeferred?)
    requires close.ClosedDeferred? ==> NoDuplicates(close.crawlers)
    ensures var u := Closed(t, worker, close, delay, now);
            && u.Valid()
            && (!t.Held(close.id, worker) ==> u == t)
            && (t.Held(close.id, worker) ==>
                  var before, after := t.rows[close.id], u.rows[close.id];
                  && after.requestedAt == before.requestedAt && after.priority == before.priority
                  && after.target == before.target
                  && (close.ClosedDone? ==> after.status == Done && after.completedAt == Some(now))
                  && (close.ClosedDeferred? ==>
                        after.status == Pending && after.crawlers == Some(close.crawlers) && after.claimedBy == None
                        && after.availableAt == now + delay))
  {
    if t.Held(close.id, worker) {
      assert t.rows[close.id].Consistent();
      WithValid(t, close.id, Closed(t, worker, close, delay, now).rows[close.id]);
    }
  }
}
