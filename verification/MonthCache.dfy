/** The worksheet's cache of a month of products, filled page by page from the product service. */
module MonthCache {
  import opened Wrappers

  datatype Date = Date(year: int, month: int, day: int)

  datatype Product = Product(code: string, delivery: Option<Date>)

  predicate Calendar(d: Date) {
    1 <= d.month <= 12 && 1 <= d.day <= 31
  }

  predicate Before(a: Date, b: Date) {
    a.year < b.year || (a.year == b.year && (a.month < b.month || (a.month == b.month && a.day < b.day)))
  }

  function MonthStart(d: Date): Date {
    Date(d.year, d.month, 1)
  }

  /** The first day of the next month: December rolls over into the next year. */
  function MonthEnd(d: Date): Date {
    Date(d.year + (if d.month == 12 then 1 else 0), d.month % 12 + 1, 1)
  }

  /** A delivery date selected by a query; whether its upper bound belongs to it is left open. */
  predicate Selected(p: Product, start: Date, end: Date, inclusive: bool) {
    p.delivery.Some? && !Before(p.delivery.value, start) &&
    (Before(p.delivery.value, end) || (inclusive && p.delivery.value == end))
  }

  function Matching(store: seq<Product>, start: Date, end: Date, inclusive: bool): seq<Product> {
    if store == [] then []
    else
      var first := if Selected(store[0], start, end, inclusive) then [store[0]] else [];
      first + Matching(store[1..], start, end, inclusive)
  }

  /** The products due on a day, in the order of the list. */
  function DueOn(products: seq<Product>, d: Date): seq<Product> {
    if products == [] then []
    else
      var last := products[|products| - 1];
      DueOn(products[..|products| - 1], d) + (if last.delivery == Some(d) then [last] else [])
  }

  datatype Page = Page(items: seq<Product>, total: nat, pageSize: nat)

  function PageOf(products: seq<Product>, page: nat, size: nat): Page
    requires page >= 1 && size >= 1
  {
    var from := (page - 1) * size;
    var items := if from >= |products| then []
                 else if from + size <= |products| then products[from..from + size]
                 else products[from..];
    Page(items, |products|, size)
  }

  function Cached(m: map<Date, seq<Product>>, d: Date): seq<Product> {
    if d in m then m[d] else []
  }

  lemma PageAppends(products: seq<Product>, page: nat, size: nat)
    requires page >= 1 && size >= 1
    ensures var from, to := Clip((page - 1) * size, |products|), Clip(page * size, |products|);
            from <= to && products[..to] == products[..from] + PageOf(products, page, size).items
  {
    assert page * size == (page - 1) * size + size;
  }

  function Clip(n: int, max: nat): nat {
    if n < 0 then 0 else if n < max then n else max
  }

  lemma {:induction false} DueOnAppend(xs: seq<Product>, p: Product, d: Date)
    ensures DueOn(xs + [p], d) == DueOn(xs, d) + (if p.delivery == Some(d) then [p] else [])
  {
    assert (xs + [p])[..|xs|] == xs;
  }

  lemma {:induction false} DueOnConcat(xs: seq<Product>, ys: seq<Product>, d: Date)
    ensures DueOn(xs + ys, d) == DueOn(xs, d) + DueOn(ys, d)
    decreases |ys|
  {
    if ys == [] {
      assert xs + ys == xs;
    } else {
      var front := ys[..|ys| - 1];
      assert xs + ys == (xs + front) + [ys[|ys| - 1]];
      DueOnAppend(xs + front, ys[|ys| - 1], d);
      DueOnConcat(xs, front, d);
    }
  }

  /** Within the month, the query selects every product due that day, whichever way it treats its upper
      bound. */
  lemma {:induction false} MatchingKeepsDay(store: seq<Product>, month: Date, inclusive: bool, d: Date)
    requires Calendar(month) && Calendar(d) && d.year == month.year && d.month == month.month
    ensures DueOn(Matching(store, MonthStart(month), MonthEnd(month), inclusive), d) == DueOn(store, d)
    decreases |store|
  {
    if store != [] {
      MatchingKeepsDay(store[1..], month, inclusive, d);
      var head := if Selected(store[0], MonthStart(month), MonthEnd(month), inclusive) then [store[0]] else [];
      DueOnConcat(head, Matching(store[1..], MonthStart(month), MonthEnd(month), inclusive), d);
      assert store == [store[0]] + store[1..];
      DueOnConcat([store[0]], store[1..], d);
      DueOnAppend([], store[0], d);
      assert [] + [store[0]] == [store[0]];
    }
  }

  /** Exactly the products due that day are answered, in the order of the store. */
  lemma {:induction false} DueOnIsExact(products: seq<Product>, d: Date, i: nat)
    requires i < |products|
    ensures products[i] in DueOn(products, d) <==> products[i].delivery == Some(d)
    ensures forall p :: p in DueOn(products, d) ==> p in products && p.delivery == Some(d)
    decreases |products|
  {
    var front := products[..|products| - 1];
    if |front| > 0 { DueOnIsExact(front, d, if i < |front| then i else 0); }
  }

  predicate CodeSorted(products: seq<Product>, leq: (string, string) -> bool) {
    forall i, j :: 0 <= i < j < |products| ==> leq(products[i].code, products[j].code)
  }

  lemma {:induction false} DueOnKeepsOrder(products: seq<Product>, d: Date, leq: (string, string) -> bool)
    requires CodeSorted(products, leq)
    ensures CodeSorted(DueOn(products, d), leq)
    decreases |products|
  {
    if products != [] {
      var front := products[..|products| - 1];
      DueOnKeepsOrder(front, d, leq);
      forall p | p in DueOn(front, d) ensures leq(p.code, products[|products| - 1].code) {
        DueOnIsExact(front, d, 0);
      }
    }
  }

  function DueAlone(p: Product, d: Date): seq<Product> {
    if p.delivery == Some(d) then [p] else []
  }

  /** setdefault(...).append(...), for a product that has a delivery date. */
  function Append(m: map<Date, seq<Product>>, p: Product): (m': map<Date, seq<Product>>)
    ensures forall d :: Cached(m', d) == Cached(m, d) + DueAlone(p, d)
  {
    match p.delivery
    case None => m
    case Some(d) => m[d := Cached(m, d) + [p]]
  }

  /** The inner loop: the products of a page are appended under their delivery dates. */
  method Index(m: map<Date, seq<Product>>, items: seq<Product>) returns (indexed: map<Date, seq<Product>>)
    ensures forall d :: Cached(indexed, d) == Cached(m, d) + DueOn(items, d)
  {
    indexed := m;
    for i := 0 to |items|
      invariant forall d :: Cached(indexed, d) == Cached(m, d) + DueOn(items[..i], d)
    {
      var product := items[i];
      assert items[..i + 1] == items[..i] + [product];
      forall d ensures DueOn(items[..i + 1], d) == DueOn(items[..i], d) + DueAlone(product, d) {
        DueOnAppend(items[..i], product, d);
      }
      indexed := Append(indexed, product);
    }
    assert items[..|items|] == items;
  }

  /** The page loop: it asks for one page after another until the pages cover the total. */
  method IndexPages(result: seq<Product>, pageSize: nat) returns (indexed: map<Date, seq<Product>>)
    requires pageSize >= 1
    ensures forall d :: Cached(indexed, d) == DueOn(result, d)
  {
    indexed := map[];
    var page := 1;
    while true
      invariant page >= 1 && (page > 1 ==> (page - 1) * pageSize < |result|)
      invariant forall d :: Cached(indexed, d) == DueOn(result[..Clip((page - 1) * pageSize, |result|)], d)
      decreases |result| - (page - 1) * pageSize
    {
      var answer := PageOf(result, page, pageSize);
      PageAppends(result, page, pageSize);
      ghost var seen := result[..Clip((page - 1) * pageSize, |result|)];
      indexed := Index(indexed, answer.items);
      forall d ensures Cached(indexed, d) == DueOn(seen + answer.items, d) {
        DueOnConcat(seen, answer.items, d);
      }
      if page * answer.pageSize >= answer.total {
        assert result[..|result|] == result;
        return;
      }
      page := page + 1;
    }
  }

  /** The month queried is exactly the month of the date: it starts with its first day and ends before the first
      day of the next, December's next being January. */
  lemma MonthIsExact(month: Date, d: Date)
    requires Calendar(month) && Calendar(d)
    ensures !Before(d, MonthStart(month)) && Before(d, MonthEnd(month))
      <==> d.year == month.year && d.month == month.month
  {
  }

  /** The service's store, already in product-code order, and the size of the pages it answers in.  Other
      clients may change the store at any time; seen is the store as the cache was filled from it. */
  class EntryProducts {
    const pageSize: nat
    const inclusive: bool
    var store: seq<Product>
    var cachedMonth: Option<(int, int)>
    var byDate: map<Date, seq<Product>>
    ghost var seen: seq<Product>

    /** A cached month answers every one of its days as the store did when the month was loaded. */
    ghost predicate Valid()
      reads this
    {
      && pageSize >= 1
      && (cachedMonth.Some? ==>
            forall d :: Calendar(d) && (d.year, d.month) == cachedMonth.value ==> Cached(byDate, d) == DueOn(seen, d))
    }

    constructor (store: seq<Product>, pageSize: nat, inclusive: bool)
      requires pageSize >= 1
      ensures Valid() && this.store == store && cachedMonth == None
    {
      this.store, this.pageSize, this.inclusive := store, pageSize, inclusive;
      cachedMonth, byDate, seen := None, map[], store;
    }

    /** _products_for_entry_date: a month that is not cached is loaded from the store as it is now.  So the answer
        is right for the present store exactly when the month is loaded anew, or the day's products have not
        changed since it was loaded. */
    method ProductsForEntryDate(deliveryDate: Date) returns (products: seq<Product>)
      requires Valid() && Calendar(deliveryDate)
      modifies this`cachedMonth, this`byDate, this`seen
      ensures Valid() && cachedMonth == Some((deliveryDate.year, deliveryDate.month))
      ensures seen == if old(cachedMonth) == cachedMonth then old(seen) else store
      ensures products == DueOn(seen, deliveryDate)
      ensures products == DueOn(store, deliveryDate)
        <==> old(cachedMonth) != cachedMonth || DueOn(old(seen), deliveryDate) == DueOn(store, deliveryDate)
    {
      var month := (deliveryDate.year, deliveryDate.month);
      if cachedMonth == Some(month) {
        return Cached(byDate, deliveryDate);
      }
      byDate := IndexPages(Matching(store, MonthStart(deliveryDate), MonthEnd(deliveryDate), inclusive), pageSize);
      cachedMonth := Some(month);
      seen := store;
      forall d | Calendar(d) && (d.year, d.month) == month ensures Cached(byDate, d) == DueOn(seen, d) {
        MatchingKeepsDay(store, deliveryDate, inclusive, d);
      }
      return Cached(byDate, deliveryDate);
    }

    /** This client or another has written to the store. */
    method StoreChanges(changed: seq<Product>)
      requires Valid()
      modifies this`store
      ensures Valid() && store == changed
    {
      store := changed;
    }

    /** After rows have been imported the cache is dropped. */
    method DropCache()
      requires Valid()
      modifies this`cachedMonth, this`byDate
      ensures Valid() && cachedMonth == None
    {
      byDate := map[];
      cachedMonth := None;
    }

    /** An import of rows writes to the store, drops the cache and loads the date again. */
    method ImportRows(imported: seq<Product>, deliveryDate: Date) returns (products: seq<Product>)
      requires Valid() && Calendar(deliveryDate)
      modifies this
      ensures Valid() && store == seen == imported && products == DueOn(imported, deliveryDate)
    {
      StoreChanges(imported);
      DropCache();
      products := ProductsForEntryDate(deliveryDate);
    }
  }
}
