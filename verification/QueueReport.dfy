/**
 The queue report's per-crawler figures: `queue_summary` of `backend/db.py` builds them
 from two grouped queries, one over the rows every eligible crawler is owed and one over
 the rows narrowed to some, and never lists pending rows against crawlers.

 They are held here against exactly that list.
 */
module QueueReport {
  import opened Options
  import opened CrawlQueue

  datatype Crawler = Crawler(id: CrawlerId, requiresRelease: bool)

  /** One row of either query before it is grouped: a pending row, or a pending row and
      one of the crawlers it is narrowed to. */
  datatype Unit = Unit(key: Key, age: int)

  /** What the queries group by. */
  datatype Key = Key(crawler: Option<CrawlerId>, isRelease: bool, held: bool) {
    /** The `continue`s of the two loops. */
    predicate CountsFor(c: Crawler) {
      && (crawler.Some? ==> crawler.value == c.id)
      && (!isRelease ==> !c.requiresRelease)
    }
  }

  /** The aggregate columns of one group. */
  datatype Agg = Agg(units: nat, oldest: Option<int>, under1h: nat, under24h: nat, over24h: nat)

  datatype Bucket = Bucket(
    claimable: nat, held: nat, release: nat, stock: nat, claimableStock: nat,
    under1h: nat, under24h: nat, over24h: nat, oldest: Option<int>)

  const EMPTY := Bucket(0, 0, 0, 0, 0, 0, 0, 0, None)

  const HOUR: int := 3600
  const DAY: int := 24 * 3600

  function Older(a: Option<int>, b: Option<int>): Option<int> {
    if a.None? then b else if b.None? || b.value <= a.value then a else b
  }

  function Count(b: bool): nat { if b then 1 else 0 }

  function Plus(a: Bucket, b: Bucket): Bucket {
    Bucket(a.claimable + b.claimable, a.held + b.held, a.release + b.release, a.stock + b.stock,
           a.claimableStock + b.claimableStock, a.under1h + b.under1h, a.under24h + b.under24h,
           a.over24h + b.over24h, Older(a.oldest, b.oldest))
  }

  /** What one unit of work adds to its crawler's figures. */
  function Single(u: Unit): Bucket {
    Bucket(Count(!u.key.held), Count(u.key.held), Count(u.key.isRelease), Count(!u.key.isRelease),
           Count(!u.key.held && !u.key.isRelease),
           Count(u.age < HOUR), Count(HOUR <= u.age < DAY), Count(DAY <= u.age), Some(u.age))
  }

  /** The naive report: every row against the crawler, one at a time. */
  function CrossProduct(rows: seq<Row>, c: Crawler, now: Time, n: nat): Bucket
    requires n <= |rows|
  {
    if n == 0 then EMPTY
    else
      var before, row := CrossProduct(rows, c, now, n - 1), rows[n - 1];
      if Eligible(row, c) then Plus(before, Single(UnitOf(row, None, now))) else before
  }

  predicate Eligible(row: Row, c: Crawler) {
    (row.crawlers.None? || c.id in row.crawlers.value) && (row.target.Release? || !c.requiresRelease)
  }

  function UnitOf(row: Row, crawler: Option<CrawlerId>, now: Time): Unit {
    Unit(Key(crawler, row.target.Release?, row.availableAt > now), now - row.requestedAt)
  }

  // ----- The two queries -----

  function BroadUnits(rows: seq<Row>, now: Time, n: nat): seq<Unit>
    requires n <= |rows|
  {
    if n == 0 then []
    else
      BroadUnits(rows, now, n - 1) + if rows[n - 1].crawlers.None? then [UnitOf(rows[n - 1], None, now)] else []
  }

  function NarrowedUnits(rows: seq<Row>, now: Time, n: nat): seq<Unit>
    requires n <= |rows|
  {
    if n == 0 then []
    else
      var row := rows[n - 1];
      NarrowedUnits(rows, now, n - 1) + if row.crawlers.Some? then Unnested(row, row.crawlers.value, now) else []
  }

  function Unnested(row: Row, crawlers: seq<CrawlerId>, now: Time): seq<Unit> {
    if crawlers == [] then []
    else Unnested(row, crawlers[..|crawlers| - 1], now) + [UnitOf(row, Some(crawlers[|crawlers| - 1]), now)]
  }

  function AggOf(units: seq<Unit>, key: Key): Agg {
    if units == [] then Agg(0, None, 0, 0, 0)
    else
      var a, u := AggOf(units[..|units| - 1], key), units[|units| - 1];
      if u.key != key then a
      else Agg(a.units + 1, Older(a.oldest, Some(u.age)), a.under1h + Count(u.age < HOUR),
               a.under24h + Count(HOUR <= u.age < DAY), a.over24h + Count(DAY <= u.age))
  }

  /** GROUP BY: one row a key, in no particular order, for exactly the keys there are. */
  ghost predicate GroupsOf(units: seq<Unit>, groups: seq<(Key, Agg)>) {
    && (forall i, j :: 0 <= i < j < |groups| ==> groups[i].0 != groups[j].0)
    && (forall u :: u in units ==> exists i :: 0 <= i < |groups| && groups[i].0 == u.key)
    && (forall i :: 0 <= i < |groups| ==> groups[i].1 == AggOf(units, groups[i].0))
  }

  // ----- Accumulating -----

  function FromAgg(key: Key, a: Agg): Bucket {
    Bucket(if key.held then 0 else a.units, if key.held then a.units else 0,
           if key.isRelease then a.units else 0, if key.isRelease then 0 else a.units,
           if key.held || key.isRelease then 0 else a.units,
           a.under1h, a.under24h, a.over24h, a.oldest)
  }

  /** `_queue_accumulate` */
  method Accumulate(was: Bucket, key: Key, agg: Agg) returns (bucket: Bucket)
    ensures bucket == Plus(was, FromAgg(key, agg))
  {
    bucket := was;
    if key.held {
      bucket := bucket.(held := bucket.held + agg.units);
    } else {
      bucket := bucket.(claimable := bucket.claimable + agg.units);
      if !key.isRelease { bucket := bucket.(claimableStock := bucket.claimableStock + agg.units); }
    }
    if key.isRelease {
      bucket := bucket.(release := bucket.release + agg.units);
    } else {
      bucket := bucket.(stock := bucket.stock + agg.units);
    }
    bucket := bucket.(under1h := bucket.under1h + agg.under1h, under24h := bucket.under24h + agg.under24h,
                      over24h := bucket.over24h + agg.over24h);
    if agg.oldest.Some? && (bucket.oldest.None? || agg.oldest.value > bucket.oldest.value) {
      bucket := bucket.(oldest := agg.oldest);
    }
  }

  /** What the units with a key in `keys` come to. */
  function Tally(units: seq<Unit>, keys: set<Key>): Bucket {
    if units == [] then EMPTY
    else
      var before, u := Tally(units[..|units| - 1], keys), units[|units| - 1];
      if u.key in keys then Plus(before, Single(u)) else before
  }

  lemma {:induction false} TallyOfNone(units: seq<Unit>, keys: set<Key>)
    requires forall u :: u in units ==> u.key !in keys
    ensures Tally(units, keys) == EMPTY
  {
    if units != [] {
      assert units[|units| - 1] in units;
      TallyOfNone(units[..|units| - 1], keys);
    }
  }

  /** One more group adds what its aggregate says. */
  lemma {:induction false} TallyOfGroup(units: seq<Unit>, keys: set<Key>, key: Key)
    requires key !in keys
    ensures Tally(units, keys + {key}) == Plus(Tally(units, keys), FromAgg(key, AggOf(units, key)))
  {
    if units != [] { TallyOfGroup(units[..|units| - 1], keys, key); }
  }

  function CountedKeys(groups: seq<(Key, Agg)>, c: Crawler, n: nat): set<Key>
    requires n <= |groups|
  {
    set i | 0 <= i < n && groups[i].0.CountsFor(c) :: groups[i].0
  }

  /** One loop over the rows of one query. */
  method AddGroups(was: Bucket, c: Crawler, groups: seq<(Key, Agg)>, ghost units: seq<Unit>) returns (bucket: Bucket)
    requires GroupsOf(units, groups)
    ensures bucket == Plus(was, Tally(units, CountedKeys(groups, c, |groups|)))
  {
    bucket := was;
    TallyOfNone(units, {});
    assert CountedKeys(groups, c, 0) == {};
    for i := 0 to |groups|
      invariant bucket == Plus(was, Tally(units, CountedKeys(groups, c, i)))
    {
      var (key, agg) := groups[i];
      CountedNext(groups, c, i);
      if !key.CountsFor(c) { continue; }
      TallyOfGroup(units, CountedKeys(groups, c, i), key);
      bucket := Accumulate(bucket, key, agg);
    }
  }

  lemma CountedNext(groups: seq<(Key, Agg)>, c: Crawler, i: nat)
    requires i < |groups| && forall i, j :: 0 <= i < j < |groups| ==> groups[i].0 != groups[j].0
    ensures CountedKeys(groups, c, i + 1) ==
            if groups[i].0.CountsFor(c) then CountedKeys(groups, c, i) + {groups[i].0} else CountedKeys(groups, c, i)
    ensures groups[i].0 !in CountedKeys(groups, c, i)
  {
  }

  // ----- The two halves against the cross product -----

  /** What the units a crawler counts come to. */
  function Counted(units: seq<Unit>, c: Crawler): Bucket {
    if units == [] then EMPTY
    else
      var before, u := Counted(units[..|units| - 1], c), units[|units| - 1];
      if u.key.CountsFor(c) then Plus(before, Single(u)) else before
  }

  lemma {:induction false} TallyIsCounted(units: seq<Unit>, keys: set<Key>, c: Crawler)
    requires forall u :: u in units ==> (u.key in keys <==> u.key.CountsFor(c))
    ensures Tally(units, keys) == Counted(units, c)
  {
    if units != [] {
      assert units[|units| - 1] in units;
      TallyIsCounted(units[..|units| - 1], keys, c);
    }
  }

  lemma GroupsCount(units: seq<Unit>, groups: seq<(Key, Agg)>, c: Crawler)
    requires GroupsOf(units, groups)
    ensures Tally(units, CountedKeys(groups, c, |groups|)) == Counted(units, c)
  {
    TallyIsCounted(units, CountedKeys(groups, c, |groups|), c);
  }

  lemma {:induction false} CountedConcat(a: seq<Unit>, b: seq<Unit>, c: Crawler)
    ensures Counted(a + b, c) == Plus(Counted(a, c), Counted(b, c))
  {
    PlusEmpty(Counted(a, c));
    hide Plus, Single;
    if b == [] {
      assert a + b == a;
    } else {
      var n := |b| - 1;
      CountedConcat(a, b[..n], c);
      assert (a + b)[..|a + b| - 1] == a + b[..n];
      PlusAssociates(Counted(a, c), Counted(b[..n], c), Single(b[n]));
    }
  }

  lemma PlusEmpty(b: Bucket)
    ensures Plus(b, EMPTY) == b && Plus(EMPTY, b) == b
  {
  }

  lemma PlusAssociates(x: Bucket, y: Bucket, z: Bucket)
    ensures Plus(Plus(x, y), z) == Plus(x, Plus(y, z))
  {
  }

  /** Where the middle goes does not matter. */
  lemma PlusMoves(x: Bucket, y: Bucket, z: Bucket)
    ensures Plus(Plus(x, z), y) == Plus(Plus(x, y), z)
  {
  }

  /** A row narrowed to crawlers named once each counts once for a crawler it names. */
  lemma {:induction false} UnnestedCounts(row: Row, crawlers: seq<CrawlerId>, now: Time, c: Crawler)
    requires NoDuplicates(crawlers)
    ensures Counted(Unnested(row, crawlers, now), c) ==
            if c.id in crawlers && (row.target.Release? || !c.requiresRelease)
            then Single(UnitOf(row, None, now)) else EMPTY
  {
    if crawlers != [] {
      var n := |crawlers| - 1;
      var rest, last := crawlers[..n], UnitOf(row, Some(crawlers[n]), now);
      UnnestedCounts(row, rest, now, c);
      var units := Unnested(row, crawlers, now);
      assert units[..|units| - 1] == Unnested(row, rest, now) && units[|units| - 1] == last;
      assert c.id in crawlers <==> c.id in rest || c.id == crawlers[n];
      assert Single(last) == Single(UnitOf(row, None, now));
    }
  }

  function Own(row: Row, c: Crawler, now: Time): Bucket {
    if Eligible(row, c) then Single(UnitOf(row, None, now)) else EMPTY
  }

  lemma BroadNext(rows: seq<Row>, c: Crawler, now: Time, n: nat)
    requires n < |rows| && rows[n].crawlers.None?
    ensures Counted(BroadUnits(rows, now, n + 1), c) == Plus(Counted(BroadUnits(rows, now, n), c), Own(rows[n], c, now))
    ensures NarrowedUnits(rows, now, n + 1) == NarrowedUnits(rows, now, n)
  {
    hide Plus, Single, UnitOf, Counted;
    var units := BroadUnits(rows, now, n);
    var added := [UnitOf(rows[n], None, now)];
    assert BroadUnits(rows, now, n + 1) == units + added;
    CountedConcat(units, added, c);
    OwnBroad(rows[n], now, c);
    assert NarrowedUnits(rows, now, n) + [] == NarrowedUnits(rows, now, n);
  }

  lemma NarrowedNext(rows: seq<Row>, c: Crawler, now: Time, n: nat)
    requires n < |rows| && rows[n].crawlers.Some? && rows[n].Consistent()
    ensures Counted(NarrowedUnits(rows, now, n + 1), c) == Plus(Counted(NarrowedUnits(rows, now, n), c), Own(rows[n], c, now))
    ensures BroadUnits(rows, now, n + 1) == BroadUnits(rows, now, n)
  {
    hide Plus, Single, UnitOf, Counted, Unnested;
    var units := NarrowedUnits(rows, now, n);
    var added := Unnested(rows[n], rows[n].crawlers.value, now);
    assert NarrowedUnits(rows, now, n + 1) == units + added;
    CountedConcat(units, added, c);
    UnnestedCounts(rows[n], rows[n].crawlers.value, now, c);
    assert BroadUnits(rows, now, n) + [] == BroadUnits(rows, now, n);
  }

  lemma NoRows(rows: seq<Row>, c: Crawler, now: Time)
    ensures Plus(Counted(BroadUnits(rows, now, 0), c), Counted(NarrowedUnits(rows, now, 0), c)) == EMPTY
  {
    hide Plus, Single, Counted;
    assert BroadUnits(rows, now, 0) == [] == NarrowedUnits(rows, now, 0);
    NothingCounted(c);
    PlusEmpty(EMPTY);
  }

  lemma NothingCounted(c: Crawler)
    ensures Counted([], c) == EMPTY
  {
  }

  lemma {:induction false} HalvesMakeTheWhole(rows: seq<Row>, c: Crawler, now: Time, n: nat)
    requires n <= |rows| && forall row :: row in rows ==> row.Consistent()
    ensures Plus(Counted(BroadUnits(rows, now, n), c), Counted(NarrowedUnits(rows, now, n), c)) ==
            CrossProduct(rows, c, now, n)
  {
    NoRows(rows, c, now);
    hide Plus, Single, UnitOf, Unnested, Counted, BroadUnits, NarrowedUnits, Row.Consistent;
    if n > 0 {
      HalvesMakeTheWhole(rows, c, now, n - 1);
      var x, y := Counted(BroadUnits(rows, now, n - 1), c), Counted(NarrowedUnits(rows, now, n - 1), c);
      var own := Own(rows[n - 1], c, now);
      PlusEmpty(Plus(x, y));
      if rows[n - 1].crawlers.None? {
        BroadNext(rows, c, now, n - 1);
        PlusMoves(x, y, own);
      } else {
        NarrowedNext(rows, c, now, n - 1);
        PlusAssociates(x, y, own);
      }
    }
  }

  lemma OwnBroad(row: Row, now: Time, c: Crawler)
    requires row.crawlers.None?
    ensures Counted([UnitOf(row, None, now)], c) == if Eligible(row, c) then Single(UnitOf(row, None, now)) else EMPTY
  {
    CountedOne(UnitOf(row, None, now), c);
  }

  lemma CountedOne(u: Unit, c: Crawler)
    ensures Counted([u], c) == if u.key.CountsFor(c) then Single(u) else EMPTY
  {
    assert [u][..0] == [];
  }

  // ----- The report -----

  /** `rows` are the pending rows that pass the gate, each once, in any order. */
  ghost predicate PendingLive(t: Table, gate: Gate, ids: seq<RowId>, rows: seq<Row>) {
    && NoDuplicates(ids) && |rows| == |ids|
    && (forall id :: id in ids <==> id in t.rows && t.rows[id].status == Pending && gate.Admits(t.rows[id].target))
    && (forall i :: 0 <= i < |ids| ==> rows[i] == t.rows[ids[i]])
  }

  lemma RowsAreConsistent(t: Table, gate: Gate, ids: seq<RowId>, rows: seq<Row>)
    requires t.Valid() && PendingLive(t, gate, ids, rows)
    ensures forall row :: row in rows ==> row.Consistent()
  {
    forall row | row in rows ensures row.Consistent() {
      var i :| 0 <= i < |rows| && rows[i] == row;
      assert ids[i] in ids;
    }
  }

  /** The figures of one crawler, built from whatever order the two queries group in, are
      those of listing every pending live row against it. */
  method CrawlerFigures(c: Crawler, broad: seq<(Key, Agg)>, narrowed: seq<(Key, Agg)>,
                        ghost t: Table, ghost gate: Gate, ghost now: Time, ghost ids: seq<RowId>, ghost rows: seq<Row>)
    returns (bucket: Bucket)
    requires t.Valid() && PendingLive(t, gate, ids, rows)
    requires GroupsOf(BroadUnits(rows, now, |rows|), broad) && GroupsOf(NarrowedUnits(rows, now, |rows|), narrowed)
    ensures bucket == CrossProduct(rows, c, now, |rows|)
  {
    hide Plus, Tally, Counted, CrossProduct, BroadUnits, NarrowedUnits, CountedKeys, GroupsOf;
    PlusEmpty(Counted(BroadUnits(rows, now, |rows|), c));
    ghost var broadUnits, narrowedUnits := BroadUnits(rows, now, |rows|), NarrowedUnits(rows, now, |rows|);
    bucket := AddGroups(EMPTY, c, broad, broadUnits);
    bucket := AddGroups(bucket, c, narrowed, narrowedUnits);
    GroupsCount(broadUnits, broad, c);
    GroupsCount(narrowedUnits, narrowed, c);
    RowsAreConsistent(t, gate, ids, rows);
    HalvesMakeTheWhole(rows, c, now, |rows|);
  }

  // ----- What the figures count -----

  /** The row is waiting for the crawler, and is of a kind it takes. */
  predicate WaitsFor(row: Row, c: Crawler) {
    && (row.crawlers.None? || c.id in row.crawlers.value)
    && (match row.target case Release(_) => true case Stock(_) => !c.requiresRelease)
  }

  /** The rows that wait for the crawler and are `such`. */
  function Such(rows: seq<Row>, c: Crawler, n: nat, such: Row -> bool): (ids: set<nat>)
    requires n <= |rows|
  {
    set i: nat | i < n && WaitsFor(rows[i], c) && such(rows[i])
  }

  lemma SuchNext(rows: seq<Row>, c: Crawler, n: nat, such: Row -> bool)
    requires n < |rows|
    ensures |Such(rows, c, n + 1, such)| ==
            |Such(rows, c, n, such)| + Count(WaitsFor(rows[n], c) && such(rows[n]))
  {
    hide WaitsFor;
    var before, after := Such(rows, c, n, such), Such(rows, c, n + 1, such);
    var one := WaitsFor(rows[n], c) && such(rows[n]);
    forall i: nat ensures i in after <==> i in before || (i == n && one) {}
    hide Such;
    OneMoreMember(before, after, n, one);
  }

  lemma OneMoreMember(before: set<nat>, after: set<nat>, n: nat, one: bool)
    requires n !in before && forall i: nat :: i in after <==> i in before || (i == n && one)
    ensures |after| == |before| + Count(one)
  {
    assert after == if one then before + {n} else before;
  }

  function Due(now: Time): Row -> bool { (row: Row) => row.availableAt <= now }

  function Delayed(now: Time): Row -> bool { (row: Row) => now < row.availableAt }

  function OfReleases(): Row -> bool { (row: Row) => row.target.Release? }

  function OfItems(): Row -> bool { (row: Row) => row.target.Stock? }

  function DueItems(now: Time): Row -> bool { (row: Row) => row.target.Stock? && row.availableAt <= now }

  /** Asked for between `youngest` and just under `oldest` seconds ago. */
  function Aged(now: Time, youngest: Option<int>, oldest: Option<int>): Row -> bool {
    (row: Row) =>
      (youngest.Some? ==> youngest.value <= now - row.requestedAt) && (oldest.Some? ==> now - row.requestedAt < oldest.value)
  }

  predicate IsOldestWait(rows: seq<Row>, c: Crawler, now: Time, n: nat, oldest: Option<int>)
    requires n <= |rows|
  {
    match oldest
    case None => forall i :: 0 <= i < n ==> !WaitsFor(rows[i], c)
    case Some(age) =>
      && (exists i :: 0 <= i < n && WaitsFor(rows[i], c) && now - rows[i].requestedAt == age)
      && forall i :: 0 <= i < n && WaitsFor(rows[i], c) ==> now - rows[i].requestedAt <= age
  }

  lemma EligibleWaits(row: Row, c: Crawler)
    ensures Eligible(row, c) <==> WaitsFor(row, c)
  {
  }

  /** What one more row adds to each figure. */
  lemma OneMoreRow(rows: seq<Row>, c: Crawler, now: Time, n: nat)
    requires n < |rows|
    ensures var (a, b, row) := (CrossProduct(rows, c, now, n), CrossProduct(rows, c, now, n + 1), rows[n]);
            var waits := WaitsFor(row, c);
            && b.claimable == a.claimable + Count(waits && Due(now)(row))
            && b.held == a.held + Count(waits && Delayed(now)(row))
            && b.release == a.release + Count(waits && OfReleases()(row))
            && b.stock == a.stock + Count(waits && OfItems()(row))
            && b.claimableStock == a.claimableStock + Count(waits && DueItems(now)(row))
            && b.under1h == a.under1h + Count(waits && Aged(now, None, Some(3600))(row))
            && b.under24h == a.under24h + Count(waits && Aged(now, Some(3600), Some(86400))(row))
            && b.over24h == a.over24h + Count(waits && Aged(now, Some(86400), None)(row))
  {
    EligibleWaits(rows[n], c);
    hide WaitsFor, Eligible;
  }

  lemma {:induction false} CrossProductCounts(rows: seq<Row>, c: Crawler, now: Time, n: nat)
    requires n <= |rows|
    ensures var b := CrossProduct(rows, c, now, n);
            && b.claimable == |Such(rows, c, n, Due(now))| && b.held == |Such(rows, c, n, Delayed(now))|
            && b.release == |Such(rows, c, n, OfReleases())| && b.stock == |Such(rows, c, n, OfItems())|
            && b.claimableStock == |Such(rows, c, n, DueItems(now))|
            && b.under1h == |Such(rows, c, n, Aged(now, None, Some(3600)))|
            && b.under24h == |Such(rows, c, n, Aged(now, Some(3600), Some(86400)))|
            && b.over24h == |Such(rows, c, n, Aged(now, Some(86400), None))|
  {
    hide Such, WaitsFor, CrossProduct, Due, Delayed, OfReleases, OfItems, DueItems, Aged;
    if n == 0 {
      NoneSuch(rows, c, now);
    } else {
      CrossProductCounts(rows, c, now, n - 1);
      OneMoreRow(rows, c, now, n - 1);
      SuchNext(rows, c, n - 1, Due(now));
      SuchNext(rows, c, n - 1, Delayed(now));
      SuchNext(rows, c, n - 1, OfReleases());
      SuchNext(rows, c, n - 1, OfItems());
      SuchNext(rows, c, n - 1, DueItems(now));
      SuchNext(rows, c, n - 1, Aged(now, None, Some(3600)));
      SuchNext(rows, c, n - 1, Aged(now, Some(3600), Some(86400)));
      SuchNext(rows, c, n - 1, Aged(now, Some(86400), None));
    }
  }

  lemma NoneSuch(rows: seq<Row>, c: Crawler, now: Time)
    ensures CrossProduct(rows, c, now, 0) == EMPTY && forall such: Row -> bool :: Such(rows, c, 0, such) == {}
  {
  }

  lemma {:induction false} OldestIsLongest(rows: seq<Row>, c: Crawler, now: Time, n: nat)
    requires n <= |rows|
    ensures IsOldestWait(rows, c, now, n, CrossProduct(rows, c, now, n).oldest)
  {
    hide WaitsFor, Eligible;
    if n > 0 {
      OldestIsLongest(rows, c, now, n - 1);
      EligibleWaits(rows[n - 1], c);
      var before := CrossProduct(rows, c, now, n - 1).oldest;
      assert before.Some? ==> exists i :: 0 <= i < n && WaitsFor(rows[i], c) && now - rows[i].requestedAt == before.value;
    }
  }

  /** So each figure of the report is a number of rows: those that wait for the crawler and
      are due, delayed, releases, items, due items, or so long in the queue; and the oldest
      wait is the longest of them. */
  lemma FiguresCount(rows: seq<Row>, c: Crawler, now: Time)
    ensures var (b, n) := (CrossProduct(rows, c, now, |rows|), |rows|);
            && b.claimable == |Such(rows, c, n, Due(now))| && b.held == |Such(rows, c, n, Delayed(now))|
            && b.release == |Such(rows, c, n, OfReleases())| && b.stock == |Such(rows, c, n, OfItems())|
            && b.claimableStock == |Such(rows, c, n, DueItems(now))|
            && b.under1h == |Such(rows, c, n, Aged(now, None, Some(3600)))|
            && b.under24h == |Such(rows, c, n, Aged(now, Some(3600), Some(86400)))|
            && b.over24h == |Such(rows, c, n, Aged(now, Some(86400), None))|
            && IsOldestWait(rows, c, now, n, b.oldest)
  {
    hide CrossProduct, Such, IsOldestWait;
    CrossProductCounts(rows, c, now, |rows|);
    OldestIsLongest(rows, c, now, |rows|);
  }

  /** Without that invariant the report would count a row twice: a crawler named twice is
      two units of one row. */
  lemma DuplicatesWouldCountTwice(row: Row, c: Crawler, now: Time)
    requires row.target.Release?
    ensures Counted(Unnested(row, [c.id, c.id], now), c).release == 2
    ensures CrossProduct([row.(crawlers := Some([c.id, c.id]))], c, now, 1).release == 1
  {
    var u := UnitOf(row, Some(c.id), now);
    assert [c.id, c.id][..1] == [c.id] && [c.id][..0] == [];
    assert Unnested(row, [c.id], now) == [u];
    assert Unnested(row, [c.id, c.id], now) == [u, u] && [u, u][..1] == [u];
    CountedOne(u, c);
  }
}
