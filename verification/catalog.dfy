/** The catalog view rules of the storefront page: which products are listed
    for a category filter and a search keyword, in which order a product's
    sizes are shown, which size a new cart line starts on, which quantities
    the cart offers, and the by-name price lookup of the exchange wizard. */
module Listing {
  import opened Shapes
  import opened Text

  /** The filter value that lists every category ("all categories"). */
  const AllCategories := "全部分類"

  /** The category shown for a product without one ("other"). */
  const OtherCategory := "其他"

  /** The canonical size order. */
  const SizeOrder: seq<string> := ["S", "M", "L", "XL", "2XL", "3XL", "4XL", "5XL"]

  /** JavaScript truthiness of a size that may be null: null and "" are falsy. */
  predicate Truthy(s: Option<string>)
  {
    s.Some? && s.value != ""
  }

  /** `Object.keys(p.styles)`. */
  function Sizes(vs: seq<Variant>): (ks: seq<string>)
    ensures |ks| == |vs|
    ensures forall i :: 0 <= i < |vs| ==> ks[i] == vs[i].size
  {
    if vs == [] then [] else Sizes(vs[..|vs| - 1]) + [vs[|vs| - 1].size]
  }

  /** The keys of a JSON object are distinct. */
  ghost predicate WellFormedStyles(vs: seq<Variant>)
  {
    Distinct(Sizes(vs))
  }

  /** `p.styles[size].center`, or None where the lookup would be undefined. */
  function CenterOf(vs: seq<Variant>, size: string): (r: Option<int>)
    ensures r.Some? <==> size in Sizes(vs)
    ensures r.Some? ==> exists i :: 0 <= i < |vs| && vs[i].size == size && vs[i].center == r.value
  {
    if vs == [] then None
    else if vs[|vs| - 1].size == size then Some(vs[|vs| - 1].center)
    else CenterOf(vs[..|vs| - 1], size)
  }

  /** `products[key]`: the product stored under `key`. */
  function Lookup(cat: Catalog, key: string): (r: Option<Product>)
    ensures r.Some? <==> exists i :: 0 <= i < |cat| && cat[i].key == key
    ensures r.Some? ==> exists i :: 0 <= i < |cat| && cat[i].key == key && cat[i].product == r.value
  {
    if cat == [] then None
    else if cat[0].key == key then Some(cat[0].product)
    else Lookup(cat[1..], key)
  }

  // ---------------------------------------------------------------------
  // Size order (renderProducts / renderCart)
  // ---------------------------------------------------------------------

  /** The elements of `order` that occur in `keys`, in the order of `order`. */
  function KeepIn(order: seq<string>, keys: seq<string>): (r: seq<string>)
    ensures forall x :: x in r <==> x in order && x in keys
  {
    if order == [] then []
    else (if order[0] in keys then [order[0]] else []) + KeepIn(order[1..], keys)
  }

  /** Position of `x` in `order`. */
  function Rank(order: seq<string>, x: string): (k: nat)
    requires x in order
    ensures k < |order| && order[k] == x
  {
    if order[0] == x then 0 else 1 + Rank(order[1..], x)
  }

  /** The sizes as displayed: the canonical order restricted to the product's
      sizes when every size is canonical, the native order otherwise. */
  function OrderSizes(keys: seq<string>): seq<string>
  {
    if forall k :: k in keys ==> k in SizeOrder then KeepIn(SizeOrder, keys) else keys
  }

  lemma {:induction false} KeepInDistinct(order: seq<string>, keys: seq<string>)
    requires Distinct(order)
    ensures Distinct(KeepIn(order, keys))
  {
    if order != [] {
      KeepInDistinct(order[1..], keys);
    }
  }

  lemma {:induction false} KeepInSorted(order: seq<string>, keys: seq<string>)
    requires Distinct(order)
    ensures forall i, j :: 0 <= i < j < |KeepIn(order, keys)| ==>
      Rank(order, KeepIn(order, keys)[i]) < Rank(order, KeepIn(order, keys)[j])
  {
    if order != [] {
      var tail := KeepIn(order[1..], keys);
      KeepInSorted(order[1..], keys);
      forall x | x in tail
        ensures Rank(order, x) == 1 + Rank(order[1..], x)
      {
        assert x != order[0];
      }
    }
  }

  /** A sequence without repeats holds each of its elements exactly once. */
  lemma {:induction false} DistinctMultiplicity(s: seq<string>, x: string)
    requires Distinct(s)
    ensures multiset(s)[x] == if x in s then 1 else 0
  {
    if s != [] {
      assert s == [s[0]] + s[1..];
      DistinctMultiplicity(s[1..], x);
    }
  }

  lemma SizeOrderDistinct()
    ensures Distinct(SizeOrder)
  {
  }

  /** With only canonical sizes, the displayed order is a permutation of the
      product's sizes, sorted by canonical rank. */
  lemma CanonicalSizesSorted(keys: seq<string>)
    requires Distinct(keys)
    requires forall k :: k in keys ==> k in SizeOrder
    ensures multiset(OrderSizes(keys)) == multiset(keys)
    ensures forall i, j :: 0 <= i < j < |OrderSizes(keys)| ==>
      Rank(SizeOrder, OrderSizes(keys)[i]) < Rank(SizeOrder, OrderSizes(keys)[j])
  {
    var r := OrderSizes(keys);
    SizeOrderDistinct();
    KeepInDistinct(SizeOrder, keys);
    KeepInSorted(SizeOrder, keys);
    forall x
      ensures multiset(r)[x] == multiset(keys)[x]
    {
      DistinctMultiplicity(r, x);
      DistinctMultiplicity(keys, x);
    }
    assert multiset(r) == multiset(keys);
  }

  /** A size outside the canonical order keeps the native order. */
  lemma NonCanonicalSizesNative(keys: seq<string>, odd: string)
    requires odd in keys && odd !in SizeOrder
    ensures OrderSizes(keys) == keys
  {
  }

  // ---------------------------------------------------------------------
  // Listing filter (renderProducts)
  // ---------------------------------------------------------------------

  /** `p.category || "其他"`. */
  function CategoryOf(p: Product): (c: string)
    ensures c != ""
  {
    if p.category.Some? && p.category.value != "" then p.category.value else OtherCategory
  }

  /** The search keyword as compared: trimmed and lower-cased. */
  function Keyword(search: string): string
  {
    Lower(Trim(search))
  }

  /** Some size label of `vs`, lower-cased, contains `kw`. */
  predicate SomeSizeMatches(vs: seq<Variant>, kw: string)
  {
    exists i :: 0 <= i < |vs| && Includes(Lower(vs[i].size), kw)
  }

  /** Whether a product gets a card for the category filter and the search. */
  predicate Listed(p: Product, filter: string, search: string)
  {
    && p.styles.Some?
    && (filter == AllCategories || filter == CategoryOf(p))
    && (Keyword(search) == ""
        || Includes(Lower(p.name), Keyword(search))
        || SomeSizeMatches(p.styles.value, Keyword(search)))
  }

  /** The keys of the listed products, in catalog order. */
  function ListedKeys(cat: Catalog, filter: string, search: string): (r: seq<string>)
    ensures |r| <= |cat|
    ensures forall k :: k in r <==>
      exists i :: 0 <= i < |cat| && cat[i].key == k && Listed(cat[i].product, filter, search)
  {
    if cat == [] then []
    else
      var rest := ListedKeys(cat[1..], filter, search);
      var head := if Listed(cat[0].product, filter, search) then [cat[0].key] else [];
      ListedKeysCons(cat, filter, search, head, rest);
      head + rest
  }

  lemma ListedKeysCons(cat: Catalog, filter: string, search: string, head: seq<string>, rest: seq<string>)
    requires cat != []
    requires head == if Listed(cat[0].product, filter, search) then [cat[0].key] else []
    requires forall k :: k in rest <==>
      exists i :: 0 <= i < |cat[1..]| && cat[1..][i].key == k && Listed(cat[1..][i].product, filter, search)
    ensures forall k :: k in head + rest <==>
      exists i :: 0 <= i < |cat| && cat[i].key == k && Listed(cat[i].product, filter, search)
  {
    forall k | k in head + rest
      ensures exists i :: 0 <= i < |cat| && cat[i].key == k && Listed(cat[i].product, filter, search)
    {
      if k !in head {
        var i :| 0 <= i < |cat[1..]| && cat[1..][i].key == k && Listed(cat[1..][i].product, filter, search);
        assert cat[i + 1] == cat[1..][i];
      }
    }
    forall k | exists i :: 0 <= i < |cat| && cat[i].key == k && Listed(cat[i].product, filter, search)
      ensures k in head + rest
    {
      var i :| 0 <= i < |cat| && cat[i].key == k && Listed(cat[i].product, filter, search);
      if i > 0 {
        assert cat[1..][i - 1] == cat[i];
      }
    }
  }

  /** A match in a size label lists a product whose name does not match. */
  lemma SizeLabelMatchExample()
    ensures Listed(Product("Tee", 300, None, Some([Variant("XL", 2)])), AllCategories, "xl")
  {
    assert !IsJsSpace('x') && !IsJsSpace('l');
    assert TrimStart("xl") == "xl";
    assert TrimEnd("xl") == "xl";
    assert Lower("xl") == "xl" by {
      assert LowerChar('x') == 'x' && LowerChar('l') == 'l';
    }
    assert Keyword("xl") == "xl";
    assert Lower("XL") == "xl" by {
      assert LowerChar('X') == 'x' && LowerChar('L') == 'l';
    }
    assert OccursAt(Lower("XL"), "xl", 0);
    assert Includes(Lower("XL"), "xl");
    assert [Variant("XL", 2)][0].size == "XL";
    assert SomeSizeMatches([Variant("XL", 2)], "xl");
  }

  /** The category options: every category of a product that has styles,
      each once, in order of first appearance. */
  function CategoryOptions(cat: Catalog): (r: seq<string>)
    ensures Distinct(r)
    ensures forall c :: c in r <==>
      exists i :: 0 <= i < |cat| && cat[i].product.styles.Some? && CategoryOf(cat[i].product) == c
  {
    if cat == [] then []
    else
      var prev := CategoryOptions(cat[..|cat| - 1]);
      var last := cat[|cat| - 1].product;
      assert forall i :: 0 <= i < |cat| - 1 ==> cat[i] == cat[..|cat| - 1][i];
      if last.styles.Some? && CategoryOf(last) !in prev then prev + [CategoryOf(last)] else prev
  }

  // ---------------------------------------------------------------------
  // Cart line defaults (addToCart / renderCart)
  // ---------------------------------------------------------------------

  /** Index of the first variant with stock. */
  function FirstInStock(vs: seq<Variant>): (r: Option<nat>)
    ensures r.Some? ==> r.value < |vs| && vs[r.value].center > 0
    ensures r.Some? ==> forall j :: 0 <= j < r.value ==> vs[j].center <= 0
    ensures r.None? <==> forall j :: 0 <= j < |vs| ==> vs[j].center <= 0
  {
    if vs == [] then None
    else if vs[0].center > 0 then Some(0)
    else match FirstInStock(vs[1..])
      case None => None
      case Some(k) => Some(k + 1)
  }

  /** `availableSizes[0] || null`: the first size with stock, null when no
      size has stock (or when that size is the empty label, which is falsy). */
  function DefaultSize(vs: seq<Variant>): (r: Option<string>)
  {
    match FirstInStock(vs)
    case None => None
    case Some(i) => if vs[i].size == "" then None else Some(vs[i].size)
  }

  /** The new cart line starts on the first size in native order that has
      stock, and on null exactly when no size has stock. */
  lemma DefaultSizeIsFirstInStock(vs: seq<Variant>)
    ensures DefaultSize(vs).Some? ==>
      (exists i :: 0 <= i < |vs| && vs[i].size == DefaultSize(vs).value
         && vs[i].center > 0 && forall j :: 0 <= j < i ==> vs[j].center <= 0)
    ensures (forall j :: 0 <= j < |vs| ==> vs[j].center <= 0) ==> DefaultSize(vs).None?
    ensures (forall j :: 0 <= j < |vs| ==> vs[j].size != "") ==>
      (DefaultSize(vs).None? <==> forall j :: 0 <= j < |vs| ==> vs[j].center <= 0)
  {
  }

  /** `Array.from({length: n}, (_, i) => i + 1)`: 1..n, empty when n <= 0. */
  function QtyRange(n: int): (r: seq<int>)
    ensures |r| == if n > 0 then n else 0
    ensures forall q :: q in r <==> 1 <= q <= n
    ensures forall i, j :: 0 <= i < j < |r| ==> r[i] < r[j]
  {
    var len := if n > 0 then n else 0;
    var r := seq(len, i requires 0 <= i < len => i + 1);
    forall q | 1 <= q <= n
      ensures q in r
    {
      assert r[q - 1] == q;
    }
    r
  }

  /** The quantity choices of a cart line: 1 up to the stock of its size,
      the size being the line's own or else the first displayed size; 1
      alone when there is no size at all. None where the page would read
      the stock of a size the product does not have. */
  function QtyOptions(vs: seq<Variant>, size: Option<string>): (r: Option<seq<int>>)
  {
    var shown := OrderSizes(Sizes(vs));
    var selected := if Truthy(size) then size else if shown != [] then Some(shown[0]) else None;
    if !Truthy(selected) then Some(QtyRange(1))
    else match CenterOf(vs, selected.value)
      case None => None
      case Some(c) => Some(QtyRange(c))
  }

  /** A size with stock offers exactly the quantities 1..center. */
  lemma QtyOptionsForSize(vs: seq<Variant>, s: string, c: int)
    requires WellFormedStyles(vs)
    requires s != "" && Variant(s, c) in vs
    ensures QtyOptions(vs, Some(s)).Some?
    ensures forall q :: q in QtyOptions(vs, Some(s)).value <==> 1 <= q <= c
  {
    var i :| 0 <= i < |vs| && vs[i] == Variant(s, c);
    assert Sizes(vs)[i] == s;
    var j :| 0 <= j < |vs| && vs[j].size == s && vs[j].center == CenterOf(vs, s).value;
    assert Sizes(vs)[j] == s;
  }

  /** A line added while every size is out of stock offers no quantity at
      all: the first displayed size has no stock and the range is empty. */
  lemma OutOfStockLineOffersNothing(vs: seq<Variant>)
    requires vs != [] && forall j :: 0 <= j < |vs| ==> vs[j].center <= 0 && vs[j].size != ""
    ensures DefaultSize(vs).None?
    ensures QtyOptions(vs, DefaultSize(vs)) == Some([])
  {
    var shown := OrderSizes(Sizes(vs));
    assert Sizes(vs)[0] in Sizes(vs);
    if forall k :: k in Sizes(vs) ==> k in SizeOrder {
      assert Sizes(vs)[0] in shown;
    }
    assert shown != [];
    assert shown[0] in Sizes(vs);
    var i :| 0 <= i < |vs| && vs[i].size == shown[0] && vs[i].center == CenterOf(vs, shown[0]).value;
  }

  // ---------------------------------------------------------------------
  // Price by name (exchange wizard)
  // ---------------------------------------------------------------------

  /** Index of the first catalog entry whose product has this name. */
  function FirstNamed(cat: Catalog, name: string): (r: Option<nat>)
    ensures r.Some? ==> r.value < |cat| && cat[r.value].product.name == name
    ensures r.Some? ==> forall j :: 0 <= j < r.value ==> cat[j].product.name != name
    ensures r.None? <==> forall j :: 0 <= j < |cat| ==> cat[j].product.name != name
  {
    if cat == [] then None
    else if cat[0].product.name == name then Some(0)
    else match FirstNamed(cat[1..], name)
      case None => None
      case Some(k) => Some(k + 1)
  }

  /** `Object.values(products).find(p => p.name === name)?.price || 0`. */
  function PriceByName(cat: Catalog, name: string): int
  {
    match FirstNamed(cat, name)
    case None => 0
    case Some(i) => cat[i].product.price
  }
}
