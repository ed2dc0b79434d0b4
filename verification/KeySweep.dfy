/**
 The sweep that makes the fold keys converge: `backfill_stock_keys` of `backend/db.py`,
 here with no other writer beside it. What concurrent writers can do to its
 compare-and-sets is in `FoldKeys`.
 */
module KeySweep {
  import opened Options
  import opened FoldKeys

  /** The row the identity pass repairs from: the latest seen, ties to the larger id. */
  predicate IsNewest(s: Store, id: RowId, key: ItemKey) {
    && s.LiveRow(id, key)
    && forall other :: other in s.rows && s.LiveRow(other, key) ==>
         s.rows[other].lastSeen < s.rows[id].lastSeen
         || (s.rows[other].lastSeen == s.rows[id].lastSeen && other <= id)
  }

  /** Some live row of the item carries the key its identity holds. */
  predicate MatchesARow(s: Store, key: ItemKey)
    requires key in s.identities
  {
    exists id :: id in s.rows && s.LiveRow(id, key) && s.rows[id].recordKey.Some?
                 && s.rows[id].recordKey == s.identities[key].recordKey
  }

  /** What the identity pass leaves of one identity. */
  ghost predicate IdentityAfter(f: Folds, s: Store, key: ItemKey, after: Identity)
    requires key in s.identities
  {
    var i := s.identities[key];
    if !s.Live(key) then
      after == if i.recordKey.None? then i.(recordKey := Some(f.record(i.title, i.artist))) else i
    else if MatchesARow(s, key) then
      after == i
    else
      exists id :: IsNewest(s, id, key) && after == RepairedFrom(i, s.rows[id])
  }

  /** A row with no key yet has nothing to copy. */
  function RepairedFrom(i: Identity, row: StockRow): Identity {
    if row.recordKey.None? then i else i.(recordKey := row.recordKey)
  }

  function RowsSwept(f: Folds, s: Store): Store {
    s.(rows := map id | id in s.rows :: s.rows[id].Refolded(f))
  }

  ghost predicate Swept(f: Folds, s: Store, after: Store) {
    && after.rows == RowsSwept(f, s).rows && after.nextId == s.nextId
    && after.identities.Keys == s.identities.Keys
    && forall key :: key in s.identities ==> IdentityAfter(f, RowsSwept(f, s), key, after.identities[key])
  }

  function StaleIn(f: Folds, s: Store): set<RowId> {
    set id | id in s.rows && s.rows[id] != s.rows[id].Refolded(f)
  }

  function ChangedRows(s: Store, after: Store): set<RowId> {
    set id | id in s.rows && id in after.rows && s.rows[id] != after.rows[id]
  }

  function ChangedIdentities(s: Store, after: Store): set<ItemKey> {
    set key | key in s.identities && key in after.identities && s.identities[key] != after.identities[key]
  }

  lemma {:induction false} NewestExists(s: Store, ids: set<RowId>) returns (newest: RowId)
    requires ids != {} && ids <= s.rows.Keys
    ensures newest in ids
    ensures forall other :: other in ids ==>
              s.rows[other].lastSeen < s.rows[newest].lastSeen
              || (s.rows[other].lastSeen == s.rows[newest].lastSeen && other <= newest)
  {
    var id :| id in ids;
    if ids == {id} {
      newest := id;
    } else {
      var rest := NewestExists(s, ids - {id});
      newest := if s.rows[id].lastSeen > s.rows[rest].lastSeen
                   || (s.rows[id].lastSeen == s.rows[rest].lastSeen && id > rest) then id else rest;
    }
  }

  /** The rows in `done` are rekeyed, and nothing else has moved. */
  ghost predicate PartlyRekeyed(f: Folds, before: Store, s: Store, done: set<RowId>) {
    && s == before.(rows := s.rows) && s.rows.Keys == before.rows.Keys
    && forall id :: id in before.rows ==>
         s.rows[id] == if id in done then before.rows[id].Refolded(f) else before.rows[id]
  }

  lemma RekeyedOne(f: Folds, before: Store, s: Store, done: set<RowId>, id: RowId)
    requires PartlyRekeyed(f, before, s, done) && id in before.rows && id !in done
    ensures id in s.rows && s.rows[id].SameSources(before.rows[id])
    ensures PartlyRekeyed(f, before, s.Rekey(f, id, before.rows[id]), done + {id})
  {
    assert s.Rekey(f, id, before.rows[id]).rows == s.rows[id := before.rows[id].Refolded(f)];
  }

  lemma NoneRekeyed(f: Folds, s: Store)
    ensures PartlyRekeyed(f, s, s, {})
  {
  }

  lemma AllRekeyed(f: Folds, before: Store, s: Store)
    requires PartlyRekeyed(f, before, s, StaleIn(f, before))
    ensures s == RowsSwept(f, before)
  {
    assert s.rows == RowsSwept(f, before).rows;
  }

  ghost predicate PartlyCorrected(before: Store, s: Store, wrong: map<ItemKey, (string, Identity)>, todo: set<ItemKey>) {
    && s == before.(identities := s.identities) && s.identities.Keys == before.identities.Keys
    && forall key :: key in before.identities ==>
         s.identities[key] == if key in todo then before.identities[key] else Corrected(before.identities, wrong, key)
  }

  lemma CorrectedOne(before: Store, s: Store, wrong: map<ItemKey, (string, Identity)>, todo: set<ItemKey>, key: ItemKey)
    requires PartlyCorrected(before, s, wrong, todo)
    requires key in todo && key in wrong && key in before.identities && wrong[key].1 == before.identities[key]
    ensures key in s.identities && s.identities[key] == wrong[key].1
    ensures var i := wrong[key].1.(recordKey := Some(wrong[key].0));
            IdentityTriggered(wrong[key].1, i) == i &&
            PartlyCorrected(before, s.(identities := s.identities[key := i]), wrong, todo - {key})
  {
  }

  lemma NoneCorrected(s: Store, wrong: map<ItemKey, (string, Identity)>)
    requires wrong.Keys <= s.identities.Keys
    ensures PartlyCorrected(s, s, wrong, wrong.Keys)
  {
  }

  lemma AllCorrected(before: Store, s: Store, wrong: map<ItemKey, (string, Identity)>)
    requires PartlyCorrected(before, s, wrong, {}) && wrong.Keys <= before.identities.Keys
    requires forall key :: key in wrong ==> before.identities[key].recordKey != Some(wrong[key].0)
    ensures wrong.Keys == ChangedIdentities(before, s)
    ensures s == before.(identities := s.identities) && s.identities.Keys == before.identities.Keys
    ensures forall key :: key in s.identities ==> s.identities[key] == Corrected(before.identities, wrong, key)
  {
  }

  class Tables {
    var store: Store

    constructor (s: Store)
      ensures store == s
    {
      store := s;
    }

    /** The rows whose stored keys are not the fold of what they say. */
    method StaleRows(f: Folds) returns (stale: map<RowId, StockRow>)
      ensures stale.Keys == StaleIn(f, store)
      ensures forall id :: id in stale ==> stale[id] == store.rows[id]
    {
      var todo := store.rows.Keys;
      stale := map[];
      while todo != {}
        invariant todo <= store.rows.Keys
        invariant forall id :: id in stale <==> id in StaleIn(f, store) && id !in todo
        invariant forall id :: id in stale ==> stale[id] == store.rows[id]
      {
        var id :| id in todo;
        var row := store.rows[id];
        if row.titleKey != Some(f.title(row.Source(), row.artist))
           || row.recordKey != Some(f.record(row.Source(), row.artist)) {
          stale := stale[id := row];
        }
        todo := todo - {id};
      }
    }

    /** The UPDATE: it matches only a row that still reads as it did. */
    method WriteIfUnmoved(f: Folds, id: RowId, read: StockRow) returns (written: bool)
      modifies this
      ensures store == old(store).Rekey(f, id, read)
      ensures written == (id in old(store).rows && old(store).rows[id].SameSources(read))
    {
      written := id in store.rows && store.rows[id].SameSources(read);
      if written {
        var row := store.rows[id];
        var keyed := row.(titleKey := Some(f.title(read.Source(), read.artist)),
                          recordKey := Some(f.record(read.Source(), read.artist)));
        store := store.(rows := store.rows[id := Triggered(row, keyed)]);
      }
    }

    method WriteAll(f: Folds, stale: map<RowId, StockRow>) returns (keyed: nat)
      requires stale.Keys <= store.rows.Keys && forall id :: id in stale ==> stale[id] == store.rows[id]
      modifies this
      ensures PartlyRekeyed(f, old(store), store, stale.Keys)
      ensures keyed == |stale.Keys|
    {
      hide PartlyRekeyed, Store.Rekey, StockRow.SameSources;
      ghost var before := store;
      NoneRekeyed(f, store);
      keyed := 0;
      var todo := stale.Keys;
      ghost var done: set<RowId> := {};
      while todo != {}
        invariant todo !! done && todo + done == stale.Keys && keyed == |done|
        invariant PartlyRekeyed(f, before, store, done)
      {
        var id :| id in todo;
        RekeyedOne(f, before, store, done, id);
        done := done + {id};
        var written := WriteIfUnmoved(f, id, stale[id]);
        if written { keyed := keyed + 1; }
        todo := todo - {id};
      }
      assert done == stale.Keys;
    }

    /** The stock pass: fold every row, and write the ones whose keys are not that. */
    method RekeyRows(f: Folds) returns (keyed: nat)
      modifies this
      ensures store == RowsSwept(f, old(store))
      ensures keyed == |StaleIn(f, old(store))|
    {
      var stale := StaleRows(f);
      keyed := WriteAll(f, stale);
      AllRekeyed(f, old(store), store);
    }

    /** What the identity pass means to write over one identity, if anything. */
    method Repair(f: Folds, key: ItemKey) returns (wanted: Option<string>)
      requires key in store.identities
      ensures var i := store.identities[key];
              IdentityAfter(f, store, key, if wanted.None? then i else i.(recordKey := wanted))
      ensures wanted.Some? ==> wanted != store.identities[key].recordKey
    {
      var i := store.identities[key];
      var live := set id | id in store.rows && store.LiveRow(id, key);
      if live == {} {
        assert !store.Live(key) by { forall id | id in store.rows ensures !store.LiveRow(id, key) { assert id !in live; } }
        return if i.recordKey.None? then Some(f.record(i.title, i.artist)) else None;
      }
      assert store.Live(key) by { var id :| id in live; assert store.LiveRow(id, key); }
      if MatchesARow(store, key) { return None; }
      ghost var newest := NewestExists(store, live);
      assert IsNewest(store, newest, key);
      var id :| id in store.rows && IsNewest(store, id, key);
      wanted := if store.rows[id].recordKey == i.recordKey then None else store.rows[id].recordKey;
      assert RepairedFrom(i, store.rows[id]) == if wanted.None? then i else i.(recordKey := wanted);
    }

    /** What the identity pass means to write, beside what it read. */
    method WrongIdentities(f: Folds) returns (wrong: map<ItemKey, (string, Identity)>)
      ensures wrong.Keys <= store.identities.Keys
      ensures forall key :: key in wrong ==>
                wrong[key].1 == store.identities[key] && store.identities[key].recordKey != Some(wrong[key].0)
      ensures forall key :: key in store.identities ==>
                IdentityAfter(f, store, key, Corrected(store.identities, wrong, key))
    {
      hide IdentityAfter;
      var todo := store.identities.Keys;
      wrong := map[];
      while todo != {}
        invariant todo <= store.identities.Keys && wrong.Keys <= store.identities.Keys - todo
        invariant forall key :: key in wrong ==>
                    wrong[key].1 == store.identities[key] && store.identities[key].recordKey != Some(wrong[key].0)
        invariant forall key :: key in store.identities && key !in todo ==>
                    IdentityAfter(f, store, key, Corrected(store.identities, wrong, key))
      {
        var key :| key in todo;
        var wanted := Repair(f, key);
        if wanted.Some? { wrong := wrong[key := (wanted.value, store.identities[key])]; }
        todo := todo - {key};
      }
    }

    method RekeyIdentities(f: Folds) returns (keyed: nat)
      modifies this
      ensures store == old(store).(identities := store.identities)
      ensures store.identities.Keys == old(store).identities.Keys
      ensures forall key :: key in store.identities ==> IdentityAfter(f, old(store), key, store.identities[key])
      ensures keyed == |ChangedIdentities(old(store), store)|
    {
      hide IdentityAfter, PartlyCorrected, IdentityTriggered, Corrected, ChangedIdentities;
      ghost var before := store;
      var wrong := WrongIdentities(f);
      NoneCorrected(store, wrong);
      keyed := 0;
      var todo := wrong.Keys;
      ghost var done: set<ItemKey> := {};
      while todo != {}
        invariant todo !! done && todo + done == wrong.Keys && keyed == |done|
        invariant PartlyCorrected(before, store, wrong, todo)
      {
        var key :| key in todo;
        CorrectedOne(before, store, wrong, todo, key);
        done := done + {key};
        var (wanted, read) := wrong[key];
        if store.identities[key] == read {
          store := store.(identities := store.identities[key := IdentityTriggered(read, read.(recordKey := Some(wanted)))]);
          keyed := keyed + 1;
        }
        todo := todo - {key};
      }
      assert done == wrong.Keys;
      AllCorrected(before, store, wrong);
    }

    method BackfillStockKeys(f: Folds) returns (rewritten: nat)
      modifies this
      ensures Swept(f, old(store), store)
      ensures rewritten == |ChangedRows(old(store), store)| + |ChangedIdentities(old(store), store)|
    {
      ghost var before := store;
      var rows := RekeyRows(f);
      var identities := RekeyIdentities(f);
      rewritten := rows + identities;
      assert StaleIn(f, before) == ChangedRows(before, store);
    }
  }

  function Corrected(identities: map<ItemKey, Identity>, wrong: map<ItemKey, (string, Identity)>, key: ItemKey): Identity
    requires key in identities
  {
    if key in wrong then identities[key].(recordKey := Some(wrong[key].0)) else identities[key]
  }

  // ----- Convergence -----

  lemma NewestIsUnique(s: Store, a: RowId, b: RowId, key: ItemKey)
    requires IsNewest(s, a, key) && IsNewest(s, b, key)
    ensures a == b
  {
  }

  /** After one sweep every row carries its own folds, every identity with live rows holds
      the key of one of them, a keyed orphan is as it was, and an unkeyed one has the fold
      of its own name. */
  lemma SweepConverges(f: Folds, s: Store, after: Store, key: ItemKey)
    requires Swept(f, s, after) && key in s.identities
    ensures forall id :: id in after.rows ==> after.rows[id] == s.rows[id].Refolded(f) == after.rows[id].Refolded(f)
    ensures after.Live(key) ==> MatchesARow(after, key)
    ensures !after.Live(key) ==>
              var was := s.identities[key];
              after.identities[key] ==
              if was.recordKey.Some? then was else was.(recordKey := Some(f.record(was.title, was.artist)))
  {
    var mid := RowsSwept(f, s);
    assert IdentityAfter(f, mid, key, after.identities[key]);
    forall id ensures mid.LiveRow(id, key) <==> after.LiveRow(id, key) {}
    assert mid.Live(key) <==> after.Live(key);
    if after.Live(key) { LiveIdentityMatches(f, s, after, key); }
  }

  lemma LiveIdentityMatches(f: Folds, s: Store, after: Store, key: ItemKey)
    requires Swept(f, s, after) && key in s.identities && after.Live(key)
    ensures MatchesARow(after, key)
  {
    var mid := RowsSwept(f, s);
    assert IdentityAfter(f, mid, key, after.identities[key]);
    if MatchesARow(mid, key) {
      var id :| id in mid.rows && mid.LiveRow(id, key) && mid.rows[id].recordKey.Some?
                && mid.rows[id].recordKey == mid.identities[key].recordKey;
      assert after.LiveRow(id, key);
    } else {
      var live :| live in after.rows && after.LiveRow(live, key);
      assert mid.LiveRow(live, key);
      var id :| IsNewest(mid, id, key) && after.identities[key] == RepairedFrom(mid.identities[key], mid.rows[id]);
      assert after.LiveRow(id, key);
    }
  }

  /** Which of them: the one it had, if a live row folds to it; and otherwise that of the row
      seen last, the larger id where two were seen at once. */
  lemma IdentityFollowsTheNewest(f: Folds, s: Store, after: Store, key: ItemKey, newest: RowId)
    requires Swept(f, s, after) && key in s.identities
    requires newest in s.rows && s.rows[newest].key == key
    requires forall id :: id in s.rows && s.rows[id].key == key ==>
               s.rows[id].lastSeen < s.rows[newest].lastSeen || (s.rows[id].lastSeen == s.rows[newest].lastSeen && id <= newest)
    ensures var was := s.identities[key];
            after.identities[key] ==
            if exists id :: id in s.rows && s.rows[id].key == key && s.rows[id].Refolded(f).recordKey == was.recordKey
            then was else was.(recordKey := s.rows[newest].Refolded(f).recordKey)
  {
    var mid := RowsSwept(f, s);
    assert mid.LiveRow(newest, key);
    assert IsNewest(mid, newest, key) by {
      forall other | other in mid.rows && mid.LiveRow(other, key)
        ensures s.rows[other].lastSeen < s.rows[newest].lastSeen || (s.rows[other].lastSeen == s.rows[newest].lastSeen && other <= newest)
      {
        assert s.rows[other].key == key;
      }
    }
    forall id | id in s.rows && s.rows[id].key == key && s.rows[id].Refolded(f).recordKey == s.identities[key].recordKey
      ensures MatchesARow(mid, key)
    {
      assert mid.LiveRow(id, key) && mid.rows[id].recordKey.Some?;
    }
    NewestSettles(f, s, after, key, newest);
  }

  lemma NewestSettles(f: Folds, s: Store, after: Store, key: ItemKey, newest: RowId)
    requires Swept(f, s, after) && key in s.identities && IsNewest(RowsSwept(f, s), newest, key) && newest in s.rows
    ensures var (mid, was) := (RowsSwept(f, s), s.identities[key]);
            after.identities[key] == if MatchesARow(mid, key) then was else was.(recordKey := s.rows[newest].Refolded(f).recordKey)
  {
    var mid := RowsSwept(f, s);
    assert IdentityAfter(f, mid, key, after.identities[key]);
    assert mid.LiveRow(newest, key) && mid.Live(key);
    if !MatchesARow(mid, key) {
      var id :| IsNewest(mid, id, key) && after.identities[key] == RepairedFrom(mid.identities[key], mid.rows[id]);
      NewestIsUnique(mid, id, newest, key);
    }
  }

  /** A second sweep rewrites nothing. */
  lemma SecondSweepRewritesNothing(f: Folds, s: Store, once: Store, twice: Store)
    requires Swept(f, s, once) && Swept(f, once, twice)
    ensures twice == once && ChangedRows(once, twice) == {} && ChangedIdentities(once, twice) == {}
  {
    forall id | id in once.rows ensures once.rows[id].Refolded(f) == once.rows[id] {
      assert once.rows[id] == s.rows[id].Refolded(f);
    }
    assert RowsSwept(f, once).rows == once.rows;
    forall key | key in once.identities ensures twice.identities[key] == once.identities[key] {
      SweepConverges(f, s, once, key);
      assert IdentityAfter(f, RowsSwept(f, once), key, twice.identities[key]);
    }
    assert twice.identities == once.identities;
  }
}
