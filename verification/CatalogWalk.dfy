/**
 The paged walk of a store that keeps selling while it is being read:
 `crawl_catalog` of `backend/crawlers/byrdlandrecords.py`.

 Any answer a fetch can give is a `Response`; a fetch that raised is a response that
 is not there. What `_parse_product` makes of a product is a field of the product.
 */
module CatalogWalk {
  import opened Options

  type ProductId = string

  const PER_PAGE: nat := 100

  /** A JSON value where the walk looks for a number. */
  datatype Field = Missing | Number(value: int) | Flag(on: bool) | Fraction(amount: real) | Other

  /** The echoed page is compared with `==`, which `true` and `1.0` pass for page 1; where
      the walk reads a number it takes an integer only. */
  predicate Echoes(f: Field, page: nat) {
    match f
    case Number(value) => value == page
    case Flag(on) => (if on then 1 else 0) == page
    case Fraction(amount) => amount == page as real
    case _ => false
  }

  datatype Shop = Shop(id: string, currency: string)

  /** What `_parse_product` makes of a product: an item, nothing, or an error over one whose
      link is missing. */
  datatype Parsed = Readable | Skipped | NoUrl

  datatype Product = Product(id: ProductId, parsed: Parsed)

  datatype Response = Response(
    page: Field, count: Field, limit: Field, pages: Field,
    products: seq<Product>, shop: Option<Shop>)

  datatype Fault =
    | NoAnswer | WrongPage | EmptyPage | BadCount | BadLimit | BadPages
    | LimitIgnored | Inconsistent | Shrank | ShortPage | NoShop | ShopChanged | MissingUrl | NothingParsed

  datatype Item = Item(id: ProductId, shop: Shop)

  datatype Walk = Complete(items: seq<Item>) | Raised(page: nat, fault: Fault)

  /** The number of pages that hold `count` items, with a single empty page for none. */
  function PagesFor(count: nat): (n: nat)
    ensures n >= 1 && count <= n * PER_PAGE
    ensures count > 0 ==> (n - 1) * PER_PAGE < count
  {
    if count == 0 then 1 else (count + PER_PAGE - 1) / PER_PAGE
  }

  predicate AtLeast(f: Field, minimum: int) { f.Number? && f.value >= minimum }

  /** The first guard the answer to page `page` trips, given the count of the page
      before and the shop of the first one. */
  function Inspect(r: Response, page: nat, highWater: Option<int>, shop: Option<Shop>): (f: Option<Fault>)
    ensures f != Some(NothingParsed) && f != Some(MissingUrl)
    ensures f == None ==>
              && r.count.Number? && r.count.value >= 0 && r.pages == Number(PagesFor(r.count.value))
              && (highWater.Some? ==> highWater.value <= r.count.value)
              && r.shop.Some? && (shop.Some? ==> r.shop == shop)
  {
    if !Echoes(r.page, page) then Some(WrongPage)
    else if r.products == [] then Some(EmptyPage)
    else if !AtLeast(r.count, 0) then Some(BadCount)
    else if !AtLeast(r.limit, 1) then Some(BadLimit)
    else if !AtLeast(r.pages, 1) then Some(BadPages)
    else if r.limit.value != PER_PAGE then Some(LimitIgnored)
    else if r.pages.value != PagesFor(r.count.value) then Some(Inconsistent)
    else if highWater.Some? && r.count.value < highWater.value then Some(Shrank)
    else if |r.products| != RowsOn(page, r.count.value) then Some(ShortPage)
    else if r.shop.None? then Some(NoShop)
    else if shop.Some? && r.shop != shop then Some(ShopChanged)
    else None
  }

  /** How many of `count` items page `page` of them has to carry. */
  function RowsOn(page: nat, count: nat): int {
    if page < PagesFor(count) then PER_PAGE else count - (PagesFor(count) - 1) * PER_PAGE
  }

  /** The first `n` pages were all accepted, and each of them but the last promised more. */
  ghost predicate Accepted(responses: seq<Response>, n: nat) {
    && n <= |responses|
    && (forall i: nat :: i < n ==> AcceptedAt(responses, i))
    && (forall i: nat :: 0 < i < n ==> PromisesMore(responses, i))
  }

  /** The `i`th page said there were more than `i` pages. */
  predicate PromisesMore(responses: seq<Response>, i: nat)
    requires 0 < i <= |responses|
  {
    responses[i - 1].pages.Number? && i < responses[i - 1].pages.value
  }

  ghost predicate AcceptedAt(responses: seq<Response>, i: nat)
    requires i < |responses|
  {
    && Inspect(responses[i], i + 1, HighWater(responses, i), FirstShop(responses, i)) == None
    && !Breaks(responses[i].products, Served(responses, i))
  }

  /** Some product that is new to the walk has no link. */
  predicate Breaks(products: seq<Product>, seen: set<ProductId>) {
    exists k :: 0 <= k < |products| && BreaksAt(products, k, seen)
  }

  predicate BreaksAt(products: seq<Product>, k: nat, seen: set<ProductId>)
    requires k < |products|
  {
    products[k].parsed.NoUrl? && products[k].id !in seen && products[k].id !in Ids(products, k)
  }

  /** Page index `i` is where the walk raises, and why: the first guard its answer trips, or
      else a product of it. */
  ghost predicate TripsAt(responses: seq<Response>, i: nat, fault: Fault)
    requires i < |responses|
  {
    match Inspect(responses[i], i + 1, HighWater(responses, i), FirstShop(responses, i))
    case Some(tripped) => fault == tripped
    case None => fault == MissingUrl && Breaks(responses[i].products, Served(responses, i))
  }

  /** The count the page before index `i` reported. */
  function HighWater(responses: seq<Response>, i: nat): Option<int>
    requires i <= |responses|
  {
    if i == 0 || !responses[i - 1].count.Number? then None else Some(responses[i - 1].count.value)
  }

  function FirstShop(responses: seq<Response>, i: nat): Option<Shop>
    requires i <= |responses|
  {
    if i == 0 then None else responses[0].shop
  }

  /** Every id served on the first `n` pages. */
  ghost function Served(responses: seq<Response>, n: nat): set<ProductId>
    requires n <= |responses|
  {
    set i, j | 0 <= i < n && 0 <= j < |responses[i].products| :: responses[i].products[j].id
  }

  /** What is worth yielding among the first `k` products of a page, skipping ids already seen. */
  function Fresh(products: seq<Product>, k: nat, seen: set<ProductId>, shop: Shop): seq<Item>
    requires k <= |products|
  {
    if k == 0 then []
    else
      var rest, p := Fresh(products, k - 1, seen, shop), products[k - 1];
      if p.parsed.Readable? && p.id !in seen && p.id !in Ids(products, k - 1) then rest + [Item(p.id, shop)] else rest
  }

  function Ids(products: seq<Product>, k: nat): set<ProductId>
    requires k <= |products|
  {
    set j | 0 <= j < k :: products[j].id
  }

  /** The snapshot the first `n` pages make: each product where it was first served. */
  ghost function Snapshot(responses: seq<Response>, n: nat, shop: Shop): seq<Item>
    requires n <= |responses|
  {
    if n == 0 then []
    else
      Snapshot(responses, n - 1, shop) +
      Fresh(responses[n - 1].products, |responses[n - 1].products|, Served(responses, n - 1), shop)
  }

  lemma MorePages(fewer: nat, more: nat)
    requires fewer <= more
    ensures PagesFor(fewer) <= PagesFor(more)
  {
  }

  lemma ServedNext(responses: seq<Response>, n: nat)
    requires n < |responses|
    ensures Served(responses, n + 1) == Served(responses, n) + Ids(responses[n].products, |responses[n].products|)
  {
  }

  /** One page's rows: what is new on it, and the ids seen by the end of it, unless a
      product of it cannot be placed. */
  method ReadPage(products: seq<Product>, seen: set<ProductId>, shop: Shop)
    returns (broken: bool, items: seq<Item>, seenNow: set<ProductId>)
    ensures broken == Breaks(products, seen)
    ensures !broken ==> items == Fresh(products, |products|, seen, shop) && seenNow == seen + Ids(products, |products|)
  {
    items, seenNow := [], seen;
    for k := 0 to |products|
      invariant items == Fresh(products, k, seen, shop)
      invariant seenNow == seen + Ids(products, k)
      invariant forall j :: 0 <= j < k ==> !BreaksAt(products, j, seen)
    {
      var p := products[k];
      assert Ids(products, k + 1) == Ids(products, k) + {p.id};
      if p.id !in seenNow {
        seenNow := seenNow + {p.id};
        if p.parsed.NoUrl? {
          assert BreaksAt(products, k, seen);
          return true, items, seenNow;
        }
        if p.parsed.Readable? { items := items + [Item(p.id, shop)]; }
      }
    }
    broken := false;
  }

  /** What the walk has to show for answer: a complete walk accepted every page up to the
      last one promised and yields their snapshot, never an empty one; a walk that raised
      stopped at the first page that trips a guard, for the first guard it trips. */
  ghost predicate Explains(responses: seq<Response>, walk: Walk) {
    match walk
    case Complete(items) =>
      exists n: nat :: CompletesAt(responses, n) && responses[0].shop.Some? && items != [] &&
                       items == Snapshot(responses, n, responses[0].shop.value)
    case Raised(page, NothingParsed) =>
      CompletesAt(responses, page) && responses[0].shop.Some? &&
      Snapshot(responses, page, responses[0].shop.value) == []
    case Raised(page, fault) =>
      && page >= 1 && Promised(responses, page - 1)
      && (if page <= |responses|
          then TripsAt(responses, page - 1, fault)
          else fault == NoAnswer)
  }

  /** The first `n` pages were accepted and every one of them promised another. */
  ghost predicate Promised(responses: seq<Response>, n: nat) {
    Accepted(responses, n) && (n > 0 ==> PromisesMore(responses, n))
  }

  ghost predicate CompletesAt(responses: seq<Response>, n: nat) {
    n >= 1 && Accepted(responses, n) && responses[n - 1].pages == Number(n)
  }

  /** The state of the loop before it asks for `page`. */
  ghost predicate Walking(responses: seq<Response>, page: nat, totalPages: int, highWater: Option<int>,
                          shop: Option<Shop>, seen: set<ProductId>, yielded: seq<Item>)
    requires 1 <= page <= |responses| + 1
  {
    && Accepted(responses, page - 1)
    && highWater == HighWater(responses, page - 1) && shop == FirstShop(responses, page - 1)
    && seen == Served(responses, page - 1)
    && if page == 1 then totalPages == 1 && yielded == []
       else
         && shop.Some? && highWater.Some? && highWater.value >= 0
         && page - 1 <= totalPages && responses[page - 2].pages == Number(totalPages)
         && totalPages == PagesFor(highWater.value)
         && yielded == Snapshot(responses, page - 1, shop.value)
  }

  lemma Starts(responses: seq<Response>)
    ensures Walking(responses, 1, 1, None, None, {}, [])
  {
  }

  lemma AcceptedNext(responses: seq<Response>, page: nat, totalPages: int, highWater: Option<int>,
                     shop: Option<Shop>, seen: set<ProductId>, yielded: seq<Item>)
    requires 1 <= page <= |responses| && page <= totalPages
    requires Walking(responses, page, totalPages, highWater, shop, seen, yielded)
    requires AcceptedAt(responses, page - 1)
    ensures Accepted(responses, page)
  {
    hide PagesFor, Inspect, RowsOn, Fresh, Ids, Served, Snapshot;
    assert page > 1 ==> PromisesMore(responses, page - 1);
  }

  lemma PageRead(responses: seq<Response>, page: nat, totalPages: int, highWater: Option<int>,
                 shop: Option<Shop>, seen: set<ProductId>, yielded: seq<Item>)
    requires 1 <= page <= |responses| && page <= totalPages
    requires Walking(responses, page, totalPages, highWater, shop, seen, yielded)
    requires Inspect(responses[page - 1], page, highWater, shop) == None && !Breaks(responses[page - 1].products, seen)
    ensures var r := responses[page - 1];
            var first := if shop.None? then r.shop else shop;
            first.Some? && r.count.Number? && r.pages.Number? &&
            Walking(responses, page + 1, if totalPages < r.pages.value then r.pages.value else totalPages,
                    Some(r.count.value), first, seen + Ids(r.products, |r.products|),
                    yielded + Fresh(r.products, |r.products|, seen, first.value))
  {
    hide PagesFor, Inspect, RowsOn, Fresh, Ids, Served, Breaks;
    AcceptedNext(responses, page, totalPages, highWater, shop, seen, yielded);
    assert AcceptedAt(responses, page - 1);
    assert yielded == Snapshot(responses, page - 1, responses[0].shop.value);
    ServedNext(responses, page - 1);
    if page > 1 { MorePages(highWater.value, responses[page - 1].count.value); }
  }

  lemma StopsAt(responses: seq<Response>, page: nat, totalPages: int, highWater: Option<int>,
                shop: Option<Shop>, seen: set<ProductId>, yielded: seq<Item>, fault: Fault)
    requires 1 <= page <= |responses| + 1 && page <= totalPages
    requires Walking(responses, page, totalPages, highWater, shop, seen, yielded)
    requires if page > |responses| then fault == NoAnswer
             else match Inspect(responses[page - 1], page, highWater, shop)
               case Some(tripped) => fault == tripped
               case None => fault == MissingUrl && Breaks(responses[page - 1].products, seen)
    ensures Explains(responses, Raised(page, fault))
  {
    hide Served, Snapshot, Fresh, Ids, PagesFor, Inspect, RowsOn, Breaks;
  }

  lemma EndsAt(responses: seq<Response>, page: nat, totalPages: int, highWater: Option<int>,
               shop: Option<Shop>, seen: set<ProductId>, yielded: seq<Item>)
    requires 1 <= page <= |responses| + 1 && page > totalPages
    requires Walking(responses, page, totalPages, highWater, shop, seen, yielded)
    ensures page > 1
    ensures Explains(responses, if yielded == [] then Raised(page - 1, NothingParsed) else Complete(yielded))
  {
    hide Served, Snapshot, Fresh, Ids, PagesFor, Inspect, RowsOn, Breaks;
    assert CompletesAt(responses, page - 1);
  }

  method CrawlCatalog(responses: seq<Response>) returns (walk: Walk)
    ensures Explains(responses, walk)
  {
    hide Walking, Explains, Inspect, Fresh, Ids, Breaks;
    var seen: set<ProductId> := {};
    var yielded: seq<Item> := [];
    var page, totalPages := 1, 1;
    var highWater: Option<int> := None;
    var shop: Option<Shop> := None;
    Starts(responses);
    while page <= totalPages
      invariant 1 <= page <= |responses| + 1
      invariant Walking(responses, page, totalPages, highWater, shop, seen, yielded)
      decreases |responses| + 1 - page
    {
      if page > |responses| {
        StopsAt(responses, page, totalPages, highWater, shop, seen, yielded, NoAnswer);
        return Raised(page, NoAnswer);
      }
      var r := responses[page - 1];
      var fault := Inspect(r, page, highWater, shop);
      if fault.Some? {
        StopsAt(responses, page, totalPages, highWater, shop, seen, yielded, fault.value);
        return Raised(page, fault.value);
      }
      var pageShop := if shop.None? then r.shop else shop;
      var broken, items, seenNow := ReadPage(r.products, seen, pageShop.value);
      if broken {
        StopsAt(responses, page, totalPages, highWater, shop, seen, yielded, MissingUrl);
        return Raised(page, MissingUrl);
      }
      PageRead(responses, page, totalPages, highWater, shop, seen, yielded);
      highWater := Some(r.count.value);
      totalPages := if totalPages < r.pages.value then r.pages.value else totalPages;
      shop, seen := pageShop, seenNow;
      yielded := yielded + items;
      page := page + 1;
    }
    EndsAt(responses, page, totalPages, highWater, shop, seen, yielded);
    if yielded == [] { return Raised(page - 1, NothingParsed); }
    return Complete(yielded);
  }

  // ----- The snapshot lists each product once -----

  lemma {:induction false} FreshItems(products: seq<Product>, k: nat, seen: set<ProductId>, shop: Shop)
    requires k <= |products|
    ensures forall item :: item in Fresh(products, k, seen, shop) ==>
              item.shop == shop && item.id !in seen && item.id in Ids(products, k)
    ensures forall i, j :: 0 <= i < j < |Fresh(products, k, seen, shop)| ==>
              Fresh(products, k, seen, shop)[i].id != Fresh(products, k, seen, shop)[j].id
    ensures forall p :: p in products[..k] && p.id !in seen && (forall q :: q in products[..k] && q.id == p.id ==> q.parsed.Readable?) ==>
              Item(p.id, shop) in Fresh(products, k, seen, shop)
  {
    if k > 0 {
      FreshItems(products, k - 1, seen, shop);
      assert products[..k] == products[..k - 1] + [products[k - 1]];
      assert Ids(products, k) == Ids(products, k - 1) + {products[k - 1].id};
      var last := products[k - 1];
      if last.id in Ids(products, k - 1) {
        var j :| 0 <= j < k - 1 && products[j].id == last.id;
        assert products[j] in products[..k - 1];
      }
    }
  }

  /** The snapshot names no product twice and nothing that was not served. */
  lemma {:induction false} SnapshotIsServed(responses: seq<Response>, n: nat, shop: Shop)
    requires n <= |responses|
    ensures var items := Snapshot(responses, n, shop);
            && (forall item :: item in items ==> item.shop == shop && item.id in Served(responses, n))
            && (forall i, j :: 0 <= i < j < |items| ==> items[i].id != items[j].id)
  {
    hide Fresh, Ids, Served;
    if n > 0 {
      SnapshotIsServed(responses, n - 1, shop);
      ServedNext(responses, n - 1);
      var page := responses[n - 1].products;
      FreshItems(page, |page|, Served(responses, n - 1), shop);
      Appended(Snapshot(responses, n - 1, shop), Fresh(page, |page|, Served(responses, n - 1), shop), Served(responses, n - 1));
    }
  }

  lemma Appended(earlier: seq<Item>, added: seq<Item>, seen: set<ProductId>)
    requires forall i, j :: 0 <= i < j < |earlier| ==> earlier[i].id != earlier[j].id
    requires forall i, j :: 0 <= i < j < |added| ==> added[i].id != added[j].id
    requires (forall item :: item in earlier ==> item.id in seen) && forall item :: item in added ==> item.id !in seen
    ensures var all := earlier + added; forall i, j :: 0 <= i < j < |all| ==> all[i].id != all[j].id
  {
    var all := earlier + added;
    forall i, j | 0 <= i < j < |all| ensures all[i].id != all[j].id {
      if i < |earlier| { assert earlier[i] in earlier; }
      if j >= |earlier| { assert added[j - |earlier|] in added; }
    }
  }

  /** And has every product whose every served copy could be read. */
  lemma {:induction false} SnapshotHas(responses: seq<Response>, n: nat, shop: Shop, id: ProductId)
    requires n <= |responses| && id in Served(responses, n) && AlwaysParses(responses, n, id)
    ensures Item(id, shop) in Snapshot(responses, n, shop)
  {
    hide Fresh;
    if n > 0 {
      var page := responses[n - 1].products;
      var seen := Served(responses, n - 1);
      ServedNext(responses, n - 1);
      if id in seen {
        SnapshotHas(responses, n - 1, shop, id);
      } else {
        FreshItems(page, |page|, seen, shop);
        assert page[..|page|] == page;
        var j :| 0 <= j < |page| && page[j].id == id;
        assert page[j] in page;
      }
    }
  }

  ghost predicate AlwaysParses(responses: seq<Response>, n: nat, id: ProductId)
    requires n <= |responses|
  {
    forall i, p :: 0 <= i < n && p in responses[i].products && p.id == id ==> p.parsed.Readable?
  }

  // ----- A store that changes while it is walked -----

  type Catalog = seq<ProductId>

  /** The category is sorted newest first: an arrival goes in front, a sale takes out
      anything. */
  datatype Edit = Arrival(id: ProductId) | Sale(id: ProductId)

  function Without(c: Catalog, id: ProductId): Catalog {
    if c == [] then [] else (if c[0] == id then [] else [c[0]]) + Without(c[1..], id)
  }

  function Edited(c: Catalog, edits: seq<Edit>): Catalog {
    if edits == [] then c
    else
      var before := Edited(c, edits[..|edits| - 1]);
      match edits[|edits| - 1]
      case Arrival(id) => [id] + before
      case Sale(id) => Without(before, id)
  }

  /** The catalog at the fetch of index `i`: `changes[k]` is what happens after fetch `k`. */
  function CatalogAt(first: Catalog, changes: seq<seq<Edit>>, i: nat): Catalog
    requires i <= |changes|
  {
    if i == 0 then first else Edited(CatalogAt(first, changes, i - 1), changes[i - 1])
  }

  predicate Spares(edits: seq<Edit>, id: ProductId) {
    forall e :: e in edits ==> e.id != id
  }

  /** An answer that serves the requested page of the catalog as it stands. */
  ghost predicate Honest(r: Response, c: Catalog, page: nat)
    requires page >= 1
  {
    && r.count == Number(|c|)
    && forall k :: (page - 1) * PER_PAGE <= k < page * PER_PAGE && k < |c| ==>
         exists p :: p in r.products && p.id == c[k]
  }

  /** How many products come after `id`. */
  function Behind(c: Catalog, id: ProductId): (n: nat)
    requires id in c
    ensures n < |c| && c[|c| - 1 - n] == id
  {
    if c[0] == id then |c| - 1 else Behind(c[1..], id)
  }

  lemma {:induction false} SaleKeeps(c: Catalog, gone: ProductId, id: ProductId)
    requires id in c && id != gone
    ensures id in Without(c, gone) && Behind(Without(c, gone), id) <= Behind(c, id)
    ensures |Without(c, gone)| <= |c|
  {
    var rest := Without(c[1..], gone);
    ShorterWithout(c[1..], gone);
    if c[0] == gone {
      SaleKeeps(c[1..], gone, id);
      assert Without(c, gone) == rest;
    } else {
      assert Without(c, gone) == [c[0]] + rest;
      assert Without(c, gone)[1..] == rest;
      if c[0] != id { SaleKeeps(c[1..], gone, id); }
    }
  }

  lemma ShorterWithout(c: Catalog, gone: ProductId)
    ensures |Without(c, gone)| <= |c|
  {
  }

  /** No edit puts more products behind one it spares. */
  lemma {:induction false} EditsKeep(c: Catalog, edits: seq<Edit>, id: ProductId)
    requires id in c && Spares(edits, id)
    ensures id in Edited(c, edits) && Behind(Edited(c, edits), id) <= Behind(c, id)
  {
    if edits != [] {
      var earlier, last := edits[..|edits| - 1], edits[|edits| - 1];
      assert last in edits && forall e :: e in earlier ==> e in edits;
      EditsKeep(c, earlier, id);
      var before := Edited(c, earlier);
      if last.Arrival? {
        assert ([last.id] + before)[1..] == before;
      } else {
        SaleKeeps(before, last.id, id);
      }
    }
  }

  /** While the count does not fall, a spared product only ever moves towards later pages. */
  lemma {:induction false} NeverMovesBack(first: Catalog, changes: seq<seq<Edit>>, id: ProductId, i: nat)
    requires i <= |changes| && id in first
    requires forall k :: 0 <= k < i ==> Spares(changes[k], id)
    ensures id in CatalogAt(first, changes, i)
    ensures i > 0 ==>
              id in CatalogAt(first, changes, i - 1) &&
              Behind(CatalogAt(first, changes, i), id) <= Behind(CatalogAt(first, changes, i - 1), id)
  {
    if i > 0 {
      NeverMovesBack(first, changes, id, i - 1);
      EditsKeep(CatalogAt(first, changes, i - 1), changes[i - 1], id);
    }
  }

  /** After `n` accepted honest pages a spared product has been served or lies ahead. */
  lemma {:induction false} ServedOrAhead(responses: seq<Response>, n: nat, first: Catalog,
                                         changes: seq<seq<Edit>>, id: ProductId)
    requires 1 <= n <= |responses| && Accepted(responses, n) && n - 1 <= |changes| && id in first
    requires forall k :: 0 <= k < n - 1 ==> Spares(changes[k], id)
    requires forall k :: 0 <= k < n ==> Honest(responses[k], CatalogAt(first, changes, k), k + 1)
    ensures var c := CatalogAt(first, changes, n - 1);
            id in c && (id in Served(responses, n) || |c| - 1 - Behind(c, id) >= n * PER_PAGE)
  {
    hide CatalogAt, Behind, Inspect, PagesFor, RowsOn, AcceptedAt, Edited, Spares;
    var c := CatalogAt(first, changes, n - 1);
    NeverMovesBack(first, changes, id, n - 1);
    var at := |c| - 1 - Behind(c, id);
    assert Honest(responses[n - 1], c, n);
    ServedNext(responses, n - 1);
    if n > 1 {
      ServedOrAhead(responses, n - 1, first, changes, id);
      CountNeverFalls(responses, n);
      assert Honest(responses[n - 2], CatalogAt(first, changes, n - 2), n - 1);
    }
    if (n - 1) * PER_PAGE <= at < n * PER_PAGE {
      var p :| p in responses[n - 1].products && p.id == c[at];
    }
  }

  lemma CountNeverFalls(responses: seq<Response>, n: nat)
    requires 1 < n <= |responses| && Accepted(responses, n)
    requires responses[n - 2].count.Number? && responses[n - 1].count.Number?
    ensures responses[n - 2].count.value <= responses[n - 1].count.value
  {
    assert AcceptedAt(responses, n - 1);
  }

  /** Only one page can be the last of an accepted walk. */
  lemma OneLastPage(responses: seq<Response>, m: nat, n: nat)
    requires CompletesAt(responses, m) && CompletesAt(responses, n)
    ensures m == n
  {
    if m < n { StillPromising(responses, m, n); }
    if n < m { StillPromising(responses, n, m); }
  }

  lemma StillPromising(responses: seq<Response>, m: nat, n: nat)
    requires 1 <= m < n && Accepted(responses, n) && responses[m - 1].pages.Number?
    ensures responses[m - 1].pages != Number(m)
  {
    assert PromisesMore(responses, m);
  }

  /** A completed walk of an honest store has seen every product that was listed at the
      first fetch and was not sold or relisted before the last one, whatever else arrived
      or was sold between any two fetches; and lists it if it could be read. */
  lemma NoSurvivorSkipped(responses: seq<Response>, walk: Walk, n: nat, first: Catalog,
                          changes: seq<seq<Edit>>, id: ProductId)
    requires Explains(responses, walk) && walk.Complete? && CompletesAt(responses, n)
    requires n - 1 <= |changes| && id in first
    requires forall k :: 0 <= k < n - 1 ==> Spares(changes[k], id)
    requires forall k :: 0 <= k < n ==> Honest(responses[k], CatalogAt(first, changes, k), k + 1)
    ensures id in Served(responses, n)
    ensures AlwaysParses(responses, n, id) ==> exists item :: item in walk.items && item.id == id
  {
    hide CatalogAt, Behind, Snapshot, Inspect, PagesFor, RowsOn, Edited, Spares, Served, AlwaysParses;
    var m: nat :| CompletesAt(responses, m) && responses[0].shop.Some? &&
                  walk.items == Snapshot(responses, m, responses[0].shop.value);
    OneLastPage(responses, m, n);
    ServedOrAhead(responses, n, first, changes, id);
    assert AcceptedAt(responses, n - 1) && Honest(responses[n - 1], CatalogAt(first, changes, n - 1), n);
    if AlwaysParses(responses, n, id) { SnapshotHas(responses, n, responses[0].shop.value, id); }
  }
}
