/**
 What the guards of the catalog walk let through, said without them: which answers make a
 complete walk, and that a store that answers as it should is always walked to the end.
 */
module CatalogGuards {
  import opened Options
  import opened CatalogWalk

  /** The answer to fetch `i` of a walk of `n` pages is what such a page has to be: itself,
      of a catalog whose pages its count fills, full unless it is the last one, and then
      holding the rest. */
  predicate Sound(r: Response, i: nat, n: nat) {
    && Echoes(r.page, i + 1) && r.limit == Number(PER_PAGE) && r.shop.Some?
    && r.count.Number? && r.pages.Number?
    && (r.pages.value - 1) * PER_PAGE < r.count.value <= r.pages.value * PER_PAGE
    && (if i + 1 < n then i + 1 < r.pages.value && |r.products| == PER_PAGE
        else r.pages.value == n && |r.products| == r.count.value - (n - 1) * PER_PAGE)
  }

  /** A row of an earlier page, or above this one on the same page, has the same id. */
  ghost predicate SeenBefore(responses: seq<Response>, i: nat, j: nat)
    requires i < |responses| && j < |responses[i].products|
  {
    exists a: nat, b: nat ::
      a < |responses| && b < |responses[a].products| && (a < i || (a == i && b < j))
      && responses[a].products[b].id == responses[i].products[j].id
  }

  /** The first `n` answers belong to one shop whose count never falls, each is what its
      page has to be, and no product is first met without a link. */
  ghost predicate Coherent(responses: seq<Response>, n: nat) {
    && 1 <= n <= |responses|
    && (forall i: nat :: i < n ==> Sound(responses[i], i, n) && responses[i].shop == responses[0].shop)
    && (forall i: nat :: 0 < i < n ==> Rises(responses, i))
    && (forall i: nat, j: nat :: i < n && j < |responses[i].products| && responses[i].products[j].parsed.NoUrl? ==>
          SeenBefore(responses, i, j))
  }

  predicate Rises(responses: seq<Response>, i: nat)
    requires 0 < i < |responses|
  {
    responses[i - 1].count.Number? && responses[i].count.Number? && responses[i - 1].count.value <= responses[i].count.value
  }

  /** Some product can be read where it is first met. */
  ghost predicate SomethingToShow(responses: seq<Response>, n: nat)
    requires n <= |responses|
  {
    exists i: nat, j: nat ::
      i < n && j < |responses[i].products| && responses[i].products[j].parsed.Readable? && !SeenBefore(responses, i, j)
  }

  lemma SeenIs(responses: seq<Response>, i: nat, j: nat)
    requires i < |responses| && j < |responses[i].products|
    ensures var id := responses[i].products[j].id;
            SeenBefore(responses, i, j) <==> id in Served(responses, i) || id in Ids(responses[i].products, j)
  {
    var id := responses[i].products[j].id;
    if id in Ids(responses[i].products, j) {
      var b :| 0 <= b < j && responses[i].products[b].id == id;
    }
    if id in Served(responses, i) {
      var a, b :| 0 <= a < i && 0 <= b < |responses[a].products| && responses[a].products[b].id == id;
    }
  }

  lemma BreaksIs(responses: seq<Response>, i: nat)
    requires i < |responses|
    ensures Breaks(responses[i].products, Served(responses, i)) <==>
            exists j: nat :: j < |responses[i].products| && responses[i].products[j].parsed.NoUrl? && !SeenBefore(responses, i, j)
  {
    var products, seen := responses[i].products, Served(responses, i);
    hide Served, SeenBefore, Ids;
    forall j: nat | j < |products|
      ensures BreaksAt(products, j, seen) <==> products[j].parsed.NoUrl? && !SeenBefore(responses, i, j)
    {
      SeenIs(responses, i, j);
    }
  }

  /** One page, under the count and the shop of the pages before it. */
  lemma PageIsSound(r: Response, i: nat, n: nat, highWater: Option<int>, shop: Option<Shop>)
    requires i < n
    requires r.pages.Number? && if i + 1 < n then i + 1 < r.pages.value else r.pages.value == n
    ensures Inspect(r, i + 1, highWater, shop) == None <==>
            Sound(r, i, n) && (highWater.Some? ==> highWater.value <= r.count.value) && (shop.Some? ==> r.shop == shop)
  {
  }

  lemma CoherentIsAccepted(responses: seq<Response>, n: nat)
    requires Coherent(responses, n)
    ensures CompletesAt(responses, n)
  {
    hide Sound, Inspect, Breaks, Served, SeenBefore, RowsOn, PagesFor;
    forall i: nat | i < n ensures AcceptedAt(responses, i) && (0 < i ==> PromisesMore(responses, i)) {
      assert Sound(responses[i], i, n) && responses[i].shop == responses[0].shop;
      SoundPages(responses[i], i, n);
      if i > 0 {
        assert Rises(responses, i) && Sound(responses[i - 1], i - 1, n);
        SoundPages(responses[i - 1], i - 1, n);
      }
      PageIsSound(responses[i], i, n, HighWater(responses, i), FirstShop(responses, i));
      BreaksIs(responses, i);
    }
    SoundPages(responses[n - 1], n - 1, n);
  }

  lemma SoundPages(r: Response, i: nat, n: nat)
    requires i < n && Sound(r, i, n)
    ensures r.pages.Number? && if i + 1 < n then i + 1 < r.pages.value else r.pages.value == n
  {
  }

  lemma AcceptedIsCoherent(responses: seq<Response>, n: nat)
    requires CompletesAt(responses, n)
    ensures Coherent(responses, n)
  {
    hide Sound, Inspect, Breaks, Served, SeenBefore, RowsOn, PagesFor;
    forall i: nat | i < n
      ensures Sound(responses[i], i, n) && responses[i].shop == responses[0].shop && (0 < i ==> Rises(responses, i))
      ensures !Breaks(responses[i].products, Served(responses, i))
    {
      assert AcceptedAt(responses, i) && AcceptedAt(responses, 0);
      if i + 1 < n { assert PromisesMore(responses, i + 1); }
      if i > 0 { assert AcceptedAt(responses, i - 1); }
      PageIsSound(responses[i], i, n, HighWater(responses, i), FirstShop(responses, i));
    }
    forall i: nat, j: nat | i < n && j < |responses[i].products| && responses[i].products[j].parsed.NoUrl?
      ensures SeenBefore(responses, i, j)
    {
      BreaksIs(responses, i);
    }
  }

  lemma {:induction false} FreshShows(responses: seq<Response>, i: nat, k: nat, shop: Shop)
    requires i < |responses| && k <= |responses[i].products|
    ensures Fresh(responses[i].products, k, Served(responses, i), shop) != [] <==>
            exists j: nat :: j < k && responses[i].products[j].parsed.Readable? && !SeenBefore(responses, i, j)
  {
    hide Served, SeenBefore, Ids;
    if k > 0 {
      FreshShows(responses, i, k - 1, shop);
      SeenIs(responses, i, k - 1);
    }
  }

  lemma {:induction false} SnapshotShows(responses: seq<Response>, n: nat, shop: Shop)
    requires n <= |responses|
    ensures Snapshot(responses, n, shop) != [] <==> SomethingToShow(responses, n)
  {
    hide Served, SeenBefore, Fresh;
    if n > 0 {
      SnapshotShows(responses, n - 1, shop);
      FreshShows(responses, n - 1, |responses[n - 1].products|, shop);
    }
  }

  /** A walk of coherent answers is never refused on the way. */
  lemma CoherentIsWalked(responses: seq<Response>, walk: Walk, n: nat)
    requires Explains(responses, walk) && Coherent(responses, n)
    ensures responses[0].shop.Some?
    ensures var items := Snapshot(responses, n, responses[0].shop.value);
            walk == if items == [] then Raised(n, NothingParsed) else Complete(items)
  {
    hide Sound, Inspect, Breaks, Served, SeenBefore, Snapshot, Coherent, Promised, TripsAt, AcceptedAt, Accepted;
    CoherentIsAccepted(responses, n);
    HasAShop(responses, n);
    match walk
    case Complete(items) =>
      var m := LastPage(responses, items);
      OneLastPage(responses, m, n);
    case Raised(page, NothingParsed) => OneLastPage(responses, page, n);
    case Raised(page, fault) => if page > n { StillPromised(responses, page - 1, n); } else { Untripped(responses, page - 1, n, fault); }
  }

  lemma LastPage(responses: seq<Response>, items: seq<Item>) returns (n: nat)
    requires Explains(responses, Complete(items))
    ensures n <= |responses| && CompletesAt(responses, n) && responses[0].shop.Some?
    ensures items != [] && items == Snapshot(responses, n, responses[0].shop.value)
  {
    hide AcceptedAt, Snapshot;
    n :| CompletesAt(responses, n) && responses[0].shop.Some? && items == Snapshot(responses, n, responses[0].shop.value);
  }

  lemma HasAShop(responses: seq<Response>, n: nat)
    requires CompletesAt(responses, n)
    ensures n <= |responses| && responses[0].shop.Some?
  {
    hide Inspect, Breaks;
    assert AcceptedAt(responses, 0);
  }

  lemma Untripped(responses: seq<Response>, i: nat, n: nat, fault: Fault)
    requires CompletesAt(responses, n) && i < n
    ensures !TripsAt(responses, i, fault)
  {
    hide Inspect, Breaks, Served;
    assert AcceptedAt(responses, i);
  }

  lemma StillPromised(responses: seq<Response>, m: nat, n: nat)
    requires Promised(responses, m) && 1 <= n <= m
    ensures n <= |responses| && responses[n - 1].pages != Number(n)
  {
    hide AcceptedAt;
    assert PromisesMore(responses, n);
  }

  /** The walk completes if and only if some first pages of what it was answered are
      coherent and have something to show. */
  lemma CompleteIff(responses: seq<Response>, walk: Walk)
    requires Explains(responses, walk)
    ensures walk.Complete? <==> exists n: nat :: Coherent(responses, n) && SomethingToShow(responses, n)
  {
    hide SomethingToShow, Snapshot, Sound, SeenBefore, Rises;
    if walk.Complete? {
      var n := LastPage(responses, walk.items);
      AcceptedIsCoherent(responses, n);
      SnapshotShows(responses, n, responses[0].shop.value);
    }
    if n: nat :| Coherent(responses, n) && SomethingToShow(responses, n) {
      CoherentIsWalked(responses, walk, n);
      SnapshotShows(responses, n, responses[0].shop.value);
    }
  }

  // ----- How much was served -----

  function RowsServed(responses: seq<Response>, n: nat): nat
    requires n <= |responses|
  {
    if n == 0 then 0 else RowsServed(responses, n - 1) + |responses[n - 1].products|
  }

  /** However the count moved, a completed walk was served exactly as many rows as the last
      page counts: under a count that did not move, the whole catalog. */
  lemma RowsAddUp(responses: seq<Response>, walk: Walk)
    requires Explains(responses, walk) && walk.Complete?
    ensures exists n: nat :: 1 <= n <= |responses| && responses[n - 1].count == Number(RowsServed(responses, n)) &&
              responses[0].shop.Some? && walk.items == Snapshot(responses, n, responses[0].shop.value)
  {
    hide Snapshot;
    var n := LastPage(responses, walk.items);
    AcceptedIsCoherent(responses, n);
    FullPages(responses, n, n - 1);
    assert Sound(responses[n - 1], n - 1, n);
  }

  lemma {:induction false} FullPages(responses: seq<Response>, n: nat, k: nat)
    requires Coherent(responses, n) && k < n
    ensures RowsServed(responses, k) == k * PER_PAGE
  {
    if k > 0 {
      FullPages(responses, n, k - 1);
      assert Sound(responses[k - 1], k - 1, n);
    }
  }

  // ----- A store that answers as it should -----

  function Least(a: nat, b: nat): nat { if a < b then a else b }

  function From(i: nat, size: nat): nat { Least(i * PER_PAGE, size) }

  /** Answer `i` is page `i + 1` of the catalog `c`, which has `n` pages. */
  predicate IsPage(r: Response, c: seq<Product>, shop: Shop, i: nat, n: nat) {
    r == Response(Number(i + 1), Number(|c|), Number(PER_PAGE), Number(n), c[From(i, |c|)..From(i + 1, |c|)], Some(shop))
  }

  /** What of the catalog can be read, in its order. */
  function ReadableItems(c: seq<Product>, shop: Shop): seq<Item> {
    if c == [] then []
    else
      var last := c[|c| - 1];
      ReadableItems(c[..|c| - 1], shop) + if last.parsed.Readable? then [Item(last.id, shop)] else []
  }

  predicate Distinct(c: seq<Product>) { forall i, j :: 0 <= i < j < |c| ==> c[i].id != c[j].id }

  lemma {:induction false} FreshIsReadable(c: seq<Product>, at: nat, products: seq<Product>, k: nat, seen: set<ProductId>, shop: Shop)
    requires Distinct(c) && at + |products| <= |c| && products == c[at..at + |products|] && k <= |products|
    requires seen == Ids(c, at)
    ensures ReadableItems(c[..at], shop) + Fresh(products, k, seen, shop) == ReadableItems(c[..at + k], shop)
  {
    if k > 0 {
      FreshIsReadable(c, at, products, k - 1, seen, shop);
      var p := products[k - 1];
      assert p == c[at + k - 1] && c[..at + k][..at + k - 1] == c[..at + k - 1];
      assert p.id !in seen;
      assert p.id !in Ids(products, k - 1);
    }
  }

  lemma {:induction false} ServedIsFront(responses: seq<Response>, c: seq<Product>, shop: Shop, n: nat, k: nat)
    requires k <= n <= |responses| && forall i: nat :: i < n ==> IsPage(responses[i], c, shop, i, n)
    ensures Served(responses, k) == Ids(c, From(k, |c|))
  {
    hide Served, Ids;
    if k == 0 {
      NothingServed(responses);
    } else {
      ServedIsFront(responses, c, shop, n, k - 1);
      ServedNext(responses, k - 1);
      var products, at := responses[k - 1].products, From(k - 1, |c|);
      assert IsPage(responses[k - 1], c, shop, k - 1, n);
      IdsOfSlice(c, at, From(k, |c|));
    }
  }

  lemma IdsOfSlice(c: seq<Product>, at: nat, to: nat)
    requires at <= to <= |c|
    ensures Ids(c, to) == Ids(c, at) + Ids(c[at..to], to - at)
  {
    var slice := c[at..to];
    forall id | id in Ids(c, to) ensures id in Ids(c, at) + Ids(slice, to - at) {
      var j :| 0 <= j < to && c[j].id == id;
      if at <= j { assert slice[j - at] == c[j]; }
    }
    forall id | id in Ids(slice, to - at) ensures id in Ids(c, to) {
      var j :| 0 <= j < to - at && slice[j].id == id;
      assert c[at + j] == slice[j];
    }
  }

  lemma NothingServed(responses: seq<Response>)
    ensures Served(responses, 0) == {}
    ensures forall c: seq<Product> :: Ids(c, 0) == {}
  {
  }

  lemma {:induction false} SnapshotIsReadable(responses: seq<Response>, c: seq<Product>, shop: Shop, n: nat, k: nat)
    requires k <= n <= |responses| && forall i: nat :: i < n ==> IsPage(responses[i], c, shop, i, n)
    requires Distinct(c)
    ensures Snapshot(responses, k, shop) == ReadableItems(c[..From(k, |c|)], shop)
  {
    hide Served, Fresh, Distinct, Ids;
    if k > 0 {
      SnapshotIsReadable(responses, c, shop, n, k - 1);
      ServedIsFront(responses, c, shop, n, k - 1);
      assert IsPage(responses[k - 1], c, shop, k - 1, n);
      var products := responses[k - 1].products;
      FreshIsReadable(c, From(k - 1, |c|), products, |products|, Served(responses, k - 1), shop);
    }
  }

  lemma PagesAreSound(responses: seq<Response>, c: seq<Product>, shop: Shop, n: nat)
    requires 1 <= n <= |responses| && (n - 1) * PER_PAGE < |c| <= n * PER_PAGE
    requires forall i: nat :: i < n ==> IsPage(responses[i], c, shop, i, n)
    requires forall p :: p in c ==> !p.parsed.NoUrl?
    ensures Coherent(responses, n)
  {
    hide SeenBefore;
    forall i: nat | i < n ensures Sound(responses[i], i, n) && responses[i].shop == Some(shop) && (0 < i ==> Rises(responses, i)) {
      assert IsPage(responses[i], c, shop, i, n);
      if i > 0 { assert IsPage(responses[i - 1], c, shop, i - 1, n); }
    }
    forall i: nat, j: nat | i < n && j < |responses[i].products| ensures !responses[i].products[j].parsed.NoUrl? {
      assert IsPage(responses[i], c, shop, i, n);
      assert responses[i].products[j] == c[From(i, |c|) + j];
    }
  }

  /** A store that answers as it should is always walked to the end: whatever the catalog,
      a last page that is not full included, the walk completes with exactly the products
      that can be read, in the catalog's order -- and raises only if there is none. */
  lemma AnHonestStoreIsWalked(responses: seq<Response>, walk: Walk, c: seq<Product>, shop: Shop, n: nat)
    requires Explains(responses, walk)
    requires 1 <= n <= |responses| && (n - 1) * PER_PAGE < |c| <= n * PER_PAGE
    requires forall i: nat :: i < n ==> IsPage(responses[i], c, shop, i, n)
    requires Distinct(c) && forall p :: p in c ==> !p.parsed.NoUrl?
    ensures var items := ReadableItems(c, shop);
            walk == if items == [] then Raised(n, NothingParsed) else Complete(items)
  {
    hide Explains, Coherent, Snapshot, Distinct, ReadableItems;
    PagesAreSound(responses, c, shop, n);
    CoherentIsWalked(responses, walk, n);
    assert IsPage(responses[0], c, shop, 0, n);
    SnapshotIsReadable(responses, c, shop, n, n);
    assert c[..From(n, |c|)] == c;
  }
}
