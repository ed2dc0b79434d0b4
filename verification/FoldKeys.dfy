/**
 The fold keys `backend/db.py` stores beside every stock row, and what keeps them true:
 the two writers, the triggers that clear a key its writer left behind, and the sweep
 that folds every row again.

 The folds themselves are a parameter, so everything here holds of any pair of them.
 */
module FoldKeys {
  import opened Options

  type RowId = nat
  type Time = int

  /** The two canonicalisers, each applied to a name and the artist beside it, and the
      artist half of the group a judgment is billed for (`_artist_sort_sql`). */
  datatype Folds = Folds(title: (string, string) -> string, record: (string, string) -> string, artist: string -> string)

  /** `compute_item_key` hashes these; two different triples are two item keys. */
  datatype ItemKey = ItemKey(artist: string, title: string, url: string)

  /** What a writer has to say about one listing. */
  datatype Found = Found(key: ItemKey, artist: string, title: string, listing: Option<string>) {
    function Source(): string { SourceOf(title, listing) }
  }

  function SourceOf(title: string, listing: Option<string>): string {
    if listing.Some? && listing.value != "" then listing.value else title
  }

  datatype StockRow = StockRow(
    crawler: nat, release: Option<string>, key: ItemKey,
    artist: string, title: string, listing: Option<string>,
    titleKey: Option<string>, recordKey: Option<string>, lastSeen: Time)
  {
    function Source(): string { SourceOf(title, listing) }

    predicate SameSources(other: StockRow) {
      artist == other.artist && title == other.title && listing == other.listing
    }

    function Refolded(f: Folds): StockRow {
      this.(titleKey := Some(f.title(Source(), artist)), recordKey := Some(f.record(Source(), artist)))
    }

    /** Neither key is anything but missing or the fold of what the row says now. */
    predicate Fresh(f: Folds) {
      && (titleKey.Some? ==> titleKey == Refolded(f).titleKey)
      && (recordKey.Some? ==> recordKey == Refolded(f).recordKey)
    }
  }

  datatype Identity = Identity(artist: string, title: string, recordKey: Option<string>)

  /** A writer knows both key columns, only the older one, or neither. */
  datatype Binary = Current | BeforeRecordKey | BeforeBothKeys

  /** What an INSERT or DO UPDATE names: a column the writer has never heard of keeps the
      value it had, which is NULL on a new row. */
  function Named(binary: Binary, f: Folds, was: Option<StockRow>, crawler: nat, release: Option<string>,
                 found: Found, now: Time): StockRow
  {
    var keptTitle := if was.Some? then was.value.titleKey else None;
    var keptRecord := if was.Some? then was.value.recordKey else None;
    StockRow(crawler, release, found.key, found.artist, found.title, found.listing,
             if binary.BeforeBothKeys? then keptTitle else Some(f.title(found.Source(), found.artist)),
             if binary.Current? then Some(f.record(found.Source(), found.artist)) else keptRecord, now)
  }

  /** The BEFORE UPDATE trigger on `stock_items`. */
  function Triggered(was: StockRow, row: StockRow): StockRow {
    if row.SameSources(was) then row
    else row.(titleKey := if row.titleKey == was.titleKey then None else row.titleKey,
              recordKey := if row.recordKey == was.recordKey then None else row.recordKey)
  }

  /** And the one on `stock_item_identities`. */
  function IdentityTriggered(was: Identity, i: Identity): Identity {
    if (i.artist != was.artist || i.title != was.title) && i.recordKey == was.recordKey
    then i.(recordKey := None) else i
  }

  datatype Store = Store(rows: map<RowId, StockRow>, identities: map<ItemKey, Identity>, nextId: RowId) {
    /** A live row of the item. */
    predicate LiveRow(id: RowId, key: ItemKey) { id in rows && rows[id].key == key }

    predicate Live(key: ItemKey) { exists id :: id in rows && LiveRow(id, key) }

    /** Row ids are handed out once, and every listing has an identity. */
    predicate Valid() {
      forall id :: id in rows ==> id < nextId && rows[id].key in identities
    }

    function PutIdentity(binary: Binary, f: Folds, found: Found): Store {
      var was := if found.key in identities then Some(identities[found.key]) else None;
      var kept := if was.Some? then was.value.recordKey else None;
      var named := Identity(found.artist, found.title,
                            if binary.Current? then Some(f.record(found.Source(), found.artist)) else kept);
      this.(identities := identities[found.key := if was.Some? then IdentityTriggered(was.value, named) else named])
    }

    function Insert(row: StockRow): Store {
      this.(rows := rows[nextId := row], nextId := nextId + 1)
    }

    /** `upsert_stock_item_from_release`: identity first, then the row of that crawler and
        release, at `at` if there is one. */
    function Upsert(binary: Binary, f: Folds, crawler: nat, release: string, found: Found,
                    at: Option<RowId>, now: Time): Store
      requires at.Some? ==> at.value in rows
    {
      var s := PutIdentity(binary, f, found);
      if at.None? then s.Insert(Named(binary, f, None, crawler, Some(release), found, now))
      else
        var was := rows[at.value];
        s.(rows := rows[at.value := Triggered(was, Named(binary, f, Some(was), crawler, Some(release), found, now))])
    }

    /** `replace_stock_items`, from the DELETE on. */
    function Replace(binary: Binary, f: Folds, crawler: nat, items: seq<Found>, now: Time): Store {
      this.(rows := map id | id in rows && rows[id].crawler != crawler :: rows[id])
      .InsertAll(binary, f, crawler, items, |items|, now)
    }

    function InsertAll(binary: Binary, f: Folds, crawler: nat, items: seq<Found>, n: nat, now: Time): Store
      requires n <= |items|
    {
      if n == 0 then this
      else
        var s := InsertAll(binary, f, crawler, items, n - 1, now);
        s.PutIdentity(binary, f, items[n - 1]).Insert(Named(binary, f, None, crawler, None, items[n - 1], now))
    }

    function DeleteRelease(crawler: nat, release: string): Store {
      this.(rows := map id | id in rows && !(rows[id].crawler == crawler && rows[id].release == Some(release)) :: rows[id])
    }

    /** A crawler that changes kind drops the rows its old kind wrote: a catalog's carry no
        release, a release crawler's do. */
    function DeleteKind(crawler: nat, ofReleases: bool): Store {
      this.(rows := map id | id in rows && !(rows[id].crawler == crawler && rows[id].release.Some? == ofReleases) :: rows[id])
    }

    /** One compare-and-set of the sweep: the folds of what the row said when it was read,
        if it still says that. */
    function Rekey(f: Folds, id: RowId, read: StockRow): Store {
      if id in rows && rows[id].SameSources(read)
      then this.(rows := rows[id := Triggered(rows[id], rows[id].(titleKey := read.Refolded(f).titleKey,
                                                                 recordKey := read.Refolded(f).recordKey))])
      else this
    }

    /** And one of its identity pass, on everything that was read. */
    function RekeyIdentity(key: ItemKey, read: Identity, wanted: string): Store {
      if key in identities && identities[key] == read
      then this.(identities := identities[key := IdentityTriggered(read, read.(recordKey := Some(wanted)))])
      else this
    }
  }

  // ----- No stale key is reachable -----

  /** What sweeps in progress have selected and not yet written: rows, and identities. */
  datatype World = World(store: Store, inFlight: set<(RowId, StockRow)>, identitiesInFlight: set<(ItemKey, Identity)>)

  datatype Step =
    | Upsert(binary: Binary, crawler: nat, release: string, found: Found, at: Option<RowId>, now: Time)
    | Replace(binary: Binary, crawler: nat, items: seq<Found>, now: Time)
    | Delete(crawler: nat, release: string)
    | Convert(crawler: nat, ofReleases: bool)
    | SweepRead(id: RowId)
    | SweepWrite(id: RowId, read: StockRow)
    | IdentityRead(key: ItemKey)
    | IdentityWrite(key: ItemKey, was: Identity, wanted: string)

  const Start := World(Store(map[], map[], 0), {}, {})

  /** `at` is the row the conflict target finds; a sweep writes back what it read. What the
      identity pass wants written may be out of date by then, so it is any key at all. */
  predicate Enabled(w: World, s: Step) {
    match s
    case Upsert(_, crawler, release, _, at, _) =>
      (at.Some? ==> at.value in w.store.rows && w.store.rows[at.value].crawler == crawler &&
                    w.store.rows[at.value].release == Some(release))
    case SweepRead(id) => id in w.store.rows
    case SweepWrite(id, read) => (id, read) in w.inFlight
    case IdentityRead(key) => key in w.store.identities
    case IdentityWrite(key, read, _) => (key, read) in w.identitiesInFlight
    case _ => true
  }

  function Next(f: Folds, w: World, s: Step): World
    requires Enabled(w, s)
  {
    match s
    case Upsert(binary, crawler, release, found, at, now) =>
      w.(store := w.store.Upsert(binary, f, crawler, release, found, at, now))
    case Replace(binary, crawler, items, now) => w.(store := w.store.Replace(binary, f, crawler, items, now))
    case Delete(crawler, release) => w.(store := w.store.DeleteRelease(crawler, release))
    case Convert(crawler, ofReleases) => w.(store := w.store.DeleteKind(crawler, ofReleases))
    case SweepRead(id) => w.(inFlight := w.inFlight + {(id, w.store.rows[id])})
    case SweepWrite(id, read) => w.(store := w.store.Rekey(f, id, read), inFlight := w.inFlight - {(id, read)})
    case IdentityRead(key) =>
      w.(identitiesInFlight := w.identitiesInFlight + {(key, w.store.identities[key])})
    case IdentityWrite(key, read, wanted) =>
      w.(store := w.store.RekeyIdentity(key, read, wanted), identitiesInFlight := w.identitiesInFlight - {(key, read)})
  }

  predicate Leads(f: Folds, prior: World, s: Step, w: World) {
    Enabled(prior, s) && w == Next(f, prior, s)
  }

  ghost predicate Reachable(f: Folds, steps: seq<Step>, w: World)
    decreases |steps|
  {
    if steps == [] then w == Start
    else
      var earlier, last := steps[..|steps| - 1], steps[|steps| - 1];
      exists prior: World :: Leads(f, prior, last, w) && Reachable(f, earlier, prior)
  }

  predicate AllFresh(f: Folds, s: Store) {
    forall id :: id in s.rows ==> s.rows[id].Fresh(f)
  }

  lemma {:induction false} InsertAllKeeps(f: Folds, s: Store, binary: Binary, crawler: nat, items: seq<Found>, n: nat, now: Time)
    requires n <= |items| && s.Valid() && AllFresh(f, s)
    ensures var u := s.InsertAll(binary, f, crawler, items, n, now);
            u.Valid() && AllFresh(f, u) && s.identities.Keys <= u.identities.Keys
  {
    if n > 0 { InsertAllKeeps(f, s, binary, crawler, items, n - 1, now); }
  }

  lemma StepKeeps(f: Folds, w: World, s: Step)
    requires w.store.Valid() && AllFresh(f, w.store) && Enabled(w, s)
    ensures var u := Next(f, w, s).store;
            u.Valid() && AllFresh(f, u) && w.store.identities.Keys <= u.identities.Keys
  {
    match s
    case Upsert(binary, crawler, release, found, at, now) =>
    case Replace(binary, crawler, items, now) =>
      var kept := w.store.(rows := map id | id in w.store.rows && w.store.rows[id].crawler != crawler :: w.store.rows[id]);
      InsertAllKeeps(f, kept, binary, crawler, items, |items|, now);
    case Delete(_, _) =>
    case Convert(_, _) =>
    case SweepRead(_) =>
    case SweepWrite(_, _) =>
    case IdentityRead(_) =>
    case IdentityWrite(_, _, _) =>
  }

  /** Whatever old and new writers and sweeps do to each other, a stored key is NULL or the
      fold of what its row says now, and no identity is ever dropped. */
  lemma {:induction false} NoStaleKey(f: Folds, steps: seq<Step>, w: World)
    requires Reachable(f, steps, w)
    ensures w.store.Valid() && AllFresh(f, w.store)
    decreases |steps|
  {
    if steps != [] {
      var earlier := steps[..|steps| - 1];
      var prior: World :| Leads(f, prior, steps[|steps| - 1], w) && Reachable(f, earlier, prior);
      NoStaleKey(f, earlier, prior);
      StepKeeps(f, prior, steps[|steps| - 1]);
    }
  }

  // ----- What the writers leave -----

  lemma {:induction false} InsertAllIs(f: Folds, s: Store, binary: Binary, crawler: nat, items: seq<Found>, n: nat, now: Time)
    requires n <= |items| && s.Valid()
    ensures var u := s.InsertAll(binary, f, crawler, items, n, now);
            && u.nextId == s.nextId + n
            && (forall id :: id in u.rows <==> id in s.rows || s.nextId <= id < s.nextId + n)
            && (forall id :: id in s.rows ==> u.rows[id] == s.rows[id])
            && forall k :: 0 <= k < n ==> u.rows[s.nextId + k] == Named(binary, f, None, crawler, None, items[k], now)
  {
    if n > 0 { InsertAllIs(f, s, binary, crawler, items, n - 1, now); }
  }

  /** The row says what was found, under the name the store lists it by. */
  predicate Shows(row: StockRow, crawler: nat, found: Found) {
    && row.crawler == crawler && row.key == found.key && row.artist == found.artist
    && row.title == found.title && row.listing == found.listing
  }

  predicate ListedAt(f: Folds, s: Store, id: RowId, binary: Binary, crawler: nat, found: Found) {
    id in s.rows && Shows(s.rows[id], crawler, found) && (binary.Current? ==> s.rows[id] == s.rows[id].Refolded(f))
  }

  /** A catalog replaces its own snapshot and nobody else's: what it had is gone, what was
      found is there, a row each and in order, and every other crawler's rows are as they
      were. A writer that knows the keys leaves none of them missing. */
  lemma ReplaceIsTheSnapshot(f: Folds, s: Store, binary: Binary, crawler: nat, items: seq<Found>, now: Time)
    requires s.Valid()
    ensures var u := s.Replace(binary, f, crawler, items, now);
            && (forall id :: id in u.rows && id < s.nextId <==> id in s.rows && s.rows[id].crawler != crawler)
            && (forall id :: id in u.rows && id < s.nextId ==> u.rows[id] == s.rows[id])
            && (forall k :: 0 <= k < |items| ==> ListedAt(f, u, s.nextId + k, binary, crawler, items[k]))
            && forall id :: id in u.rows ==> id < s.nextId + |items|
  {
    hide Named, StockRow.Refolded;
    var kept := s.(rows := map id | id in s.rows && s.rows[id].crawler != crawler :: s.rows[id]);
    InsertAllIs(f, kept, binary, crawler, items, |items|, now);
    var u := s.Replace(binary, f, crawler, items, now);
    assert u == kept.InsertAll(binary, f, crawler, items, |items|, now);
    forall k | 0 <= k < |items| ensures ListedAt(f, u, s.nextId + k, binary, crawler, items[k]) {
      assert u.rows[s.nextId + k] == Named(binary, f, None, crawler, None, items[k], now);
      NamedShows(f, binary, crawler, items[k], now);
    }
  }

  lemma NamedShows(f: Folds, binary: Binary, crawler: nat, found: Found, now: Time)
    ensures var row := Named(binary, f, None, crawler, None, found, now);
            Shows(row, crawler, found) && (binary.Current? ==> row == row.Refolded(f))
  {
  }

  /** A row is keyed by its artist and the name the store lists it by, and by its own title
      only where there is none: two keyed rows that agree on these have one record key. */
  lemma TheListedNameDecides(f: Folds, steps: seq<Step>, w: World, a: RowId, b: RowId)
    requires Reachable(f, steps, w) && a in w.store.rows && b in w.store.rows
    requires var (x, y) := (w.store.rows[a], w.store.rows[b]);
             && x.recordKey.Some? && y.recordKey.Some? && x.artist == y.artist && x.listing == y.listing
             && (x.listing == None || x.listing == Some("") ==> x.title == y.title)
    ensures w.store.rows[a].recordKey == w.store.rows[b].recordKey
  {
    NoStaleKey(f, steps, w);
    assert w.store.rows[a].Fresh(f) && w.store.rows[b].Fresh(f);
  }

  /** A writer that knows the keys leaves the row it writes over keyed, unless it renames it
      to something of the very same fold: then the trigger takes the key for a stale one. */
  lemma UpsertKeysUnlessSameFold(f: Folds, s: Store, crawler: nat, release: string, found: Found, at: RowId, now: Time)
    requires at in s.rows
    ensures var (was, row) := (s.rows[at], s.Upsert(Current, f, crawler, release, found, Some(at), now).rows[at]);
            && Shows(row, crawler, found) && row.release == Some(release)
            && (row.recordKey == None <==> !row.SameSources(was) && was.recordKey == row.Refolded(f).recordKey)
            && (row.recordKey.Some? ==> row.recordKey == row.Refolded(f).recordKey)
  {
    var was, row := s.rows[at], s.Upsert(Current, f, crawler, release, found, Some(at), now).rows[at];
    var named := Named(Current, f, Some(was), crawler, Some(release), found, now);
    assert row == Triggered(was, named);
    assert named.SameSources(was) <==> row.SameSources(was);
    assert named.recordKey == Some(f.record(found.Source(), found.artist)) == row.Refolded(f).recordKey;
  }

  /** The trigger is what it rests on: without it, an older binary renaming a keyed row
      leaves the key of a name the row no longer has. */
  lemma WithoutTheTriggerAKeyGoesStale(f: Folds, was: StockRow, found: Found, now: Time)
    requires was.recordKey == was.Refolded(f).recordKey
    requires f.record(found.Source(), found.artist) != f.record(was.Source(), was.artist)
    ensures !Named(BeforeRecordKey, f, Some(was), was.crawler, was.release, found, now).Fresh(f)
    ensures Triggered(was, Named(BeforeRecordKey, f, Some(was), was.crawler, was.release, found, now)).Fresh(f)
  {
  }
}
