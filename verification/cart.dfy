/** The storefront cart as values: its lines, the running total the page
    shows, and the `{name, size, qty}` snapshot every wizard takes of it. */
module Cart {
  import opened Shapes
  import opened Listing
  import opened Pricing

  /** One cart entry `{key, size, qty}`: `key` is the catalog key of the
      product, `size` is null when the line was added with no size in stock. */
  datatype CartLine = CartLine(key: string, size: Option<string>, qty: int)

  /** Every line refers to a product of the catalog (the page only adds
      lines for keys it has listed). */
  ghost predicate Resolves(cat: Catalog, cart: seq<CartLine>)
  {
    forall i :: 0 <= i < |cart| ==> Lookup(cat, cart[i].key).Some?
  }

  /** `products[item.key].price * item.qty`. */
  function LineTotal(cat: Catalog, line: CartLine): int
    requires Lookup(cat, line.key).Some?
  {
    Lookup(cat, line.key).value.price * line.qty
  }

  /** The amount `updateTotal` shows: the sum of the line totals, with no
      identity discount. */
  function CartTotal(cat: Catalog, cart: seq<CartLine>): int
    requires Resolves(cat, cart)
  {
    if cart == [] then 0
    else CartTotal(cat, cart[..|cart| - 1]) + LineTotal(cat, cart[|cart| - 1])
  }

  lemma {:induction false} CartTotalAppend(cat: Catalog, a: seq<CartLine>, b: seq<CartLine>)
    requires Resolves(cat, a) && Resolves(cat, b)
    ensures Resolves(cat, a + b)
    ensures CartTotal(cat, a + b) == CartTotal(cat, a) + CartTotal(cat, b)
    decreases |b|
  {
    if b == [] {
      assert a + b == a;
    } else {
      var n := |b| - 1;
      assert (a + b)[..|a + b| - 1] == a + b[..n];
      assert (a + b)[|a + b| - 1] == b[n];
      CartTotalAppend(cat, a, b[..n]);
    }
  }

  /** Adding a line raises the total by that product's price (a new line
      has quantity 1). */
  lemma TotalAfterAdd(cat: Catalog, cart: seq<CartLine>, line: CartLine)
    requires Resolves(cat, cart) && Lookup(cat, line.key).Some? && line.qty == 1
    ensures Resolves(cat, cart + [line])
    ensures CartTotal(cat, cart + [line]) == CartTotal(cat, cart) + Lookup(cat, line.key).value.price
  {
    assert (cart + [line])[..|cart|] == cart;
  }

  /** The total split around line `i`. */
  lemma TotalAround(cat: Catalog, cart: seq<CartLine>, i: nat)
    requires Resolves(cat, cart) && i < |cart|
    ensures Resolves(cat, cart[..i]) && Resolves(cat, cart[i + 1..])
    ensures CartTotal(cat, cart) == CartTotal(cat, cart[..i]) + LineTotal(cat, cart[i]) + CartTotal(cat, cart[i + 1..])
  {
    assert cart == cart[..i] + [cart[i]] + cart[i + 1..];
    assert [cart[i]][..0] == [];
    CartTotalAppend(cat, cart[..i], [cart[i]]);
    CartTotalAppend(cat, cart[..i] + [cart[i]], cart[i + 1..]);
  }

  /** Removing line `i` lowers the total by exactly that line's total. */
  lemma TotalAfterRemove(cat: Catalog, cart: seq<CartLine>, i: nat)
    requires Resolves(cat, cart) && i < |cart|
    ensures Resolves(cat, cart[..i] + cart[i + 1..])
    ensures CartTotal(cat, cart[..i] + cart[i + 1..]) == CartTotal(cat, cart) - LineTotal(cat, cart[i])
  {
    TotalAround(cat, cart, i);
    CartTotalAppend(cat, cart[..i], cart[i + 1..]);
  }

  /** Replacing line `i` changes the total by the difference of the two
      line totals (size and quantity changes). */
  lemma TotalAfterReplace(cat: Catalog, cart: seq<CartLine>, i: nat, line: CartLine)
    requires Resolves(cat, cart) && i < |cart| && Lookup(cat, line.key).Some?
    ensures Resolves(cat, cart[i := line])
    ensures CartTotal(cat, cart[i := line]) == CartTotal(cat, cart) - LineTotal(cat, cart[i]) + LineTotal(cat, line)
  {
    var c := cart[i := line];
    TotalAround(cat, cart, i);
    assert c[..i] == cart[..i] && c[i + 1..] == cart[i + 1..];
    TotalAround(cat, c, i);
  }

  /** Changing the quantity of line `i` changes the total by its price times
      the change in quantity. */
  lemma TotalAfterQty(cat: Catalog, cart: seq<CartLine>, i: nat, qty: int)
    requires Resolves(cat, cart) && i < |cart|
    ensures Resolves(cat, cart[i := cart[i].(qty := qty)])
    ensures CartTotal(cat, cart[i := cart[i].(qty := qty)]) ==
      CartTotal(cat, cart) + Lookup(cat, cart[i].key).value.price * (qty - cart[i].qty)
  {
    var line := cart[i].(qty := qty);
    TotalAfterReplace(cat, cart, i, line);
    Distribute(Lookup(cat, cart[i].key).value.price, qty, cart[i].qty);
  }

  lemma Distribute(p: int, a: int, b: int)
    ensures p * a - p * b == p * (a - b)
  {
  }

  lemma ResolvesOfPermutation(cat: Catalog, a: seq<CartLine>, b: seq<CartLine>)
    requires Resolves(cat, a) && multiset(a) == multiset(b)
    ensures Resolves(cat, b)
  {
    forall j | 0 <= j < |b|
      ensures Lookup(cat, b[j].key).Some?
    {
      assert b[j] in multiset(a);
      var i :| 0 <= i < |a| && a[i] == b[j];
    }
  }

  lemma MultisetRemove(s: seq<CartLine>, k: nat)
    requires k < |s|
    ensures multiset(s[..k] + s[k + 1..]) == multiset(s) - multiset{s[k]}
  {
    assert s == s[..k] + [s[k]] + s[k + 1..];
  }

  lemma PermutationStep(cat: Catalog, a: seq<CartLine>, b: seq<CartLine>, k: nat)
    requires Resolves(cat, a) && Resolves(cat, b)
    requires a != [] && k < |b| && b[k] == a[|a| - 1]
    requires Resolves(cat, b[..k] + b[k + 1..])
    requires CartTotal(cat, a[..|a| - 1]) == CartTotal(cat, b[..k] + b[k + 1..])
    ensures CartTotal(cat, a) == CartTotal(cat, b)
  {
    TotalAfterRemove(cat, b, k);
  }

  /** The total does not depend on the order of the lines. */
  lemma {:induction false} CartTotalPermutation(cat: Catalog, a: seq<CartLine>, b: seq<CartLine>)
    requires Resolves(cat, a) && multiset(a) == multiset(b)
    ensures Resolves(cat, b)
    ensures CartTotal(cat, a) == CartTotal(cat, b)
    decreases |a|
  {
    ResolvesOfPermutation(cat, a, b);
    if a != [] {
      var n := |a| - 1;
      assert a[n] in multiset(b);
      var k :| 0 <= k < |b| && b[k] == a[n];
      MultisetRemove(a, n);
      MultisetRemove(b, k);
      assert a[..n] + a[n + 1..] == a[..n];
      CartTotalPermutation(cat, a[..n], b[..k] + b[k + 1..]);
      PermutationStep(cat, a, b, k);
    }
  }

  /** `cart.map(item => ({name: products[item.key].name, size, qty}))`:
      line for line, the product's name with the line's own size and
      quantity. */
  function Snapshot(cat: Catalog, cart: seq<CartLine>): (items: seq<Item>)
    requires Resolves(cat, cart)
    ensures |items| == |cart|
    ensures forall j :: 0 <= j < |cart| ==>
      items[j] == Item(Lookup(cat, cart[j].key).value.name, cart[j].size, cart[j].qty)
  {
    if cart == [] then []
    else
      var line := cart[|cart| - 1];
      Snapshot(cat, cart[..|cart| - 1]) + [Item(Lookup(cat, line.key).value.name, line.size, line.qty)]
  }

  /** No two catalog entries share a product name. */
  ghost predicate UniqueNames(cat: Catalog)
  {
    forall i, j :: 0 <= i < j < |cat| ==> cat[i].product.name != cat[j].product.name
  }

  /** Looking a product up by name finds its own price when names are unique. */
  lemma PriceByNameOfEntry(cat: Catalog, key: string)
    requires UniqueNames(cat) && Lookup(cat, key).Some?
    ensures PriceByName(cat, Lookup(cat, key).value.name) == Lookup(cat, key).value.price
  {
    var p := Lookup(cat, key).value;
    var i :| 0 <= i < |cat| && cat[i].key == key && cat[i].product == p;
    var j := FirstNamed(cat, p.name).value;
    assert j == i;
  }

  /** Pricing the snapshot by name gives back the cart total, provided no
      two products share a name. */
  lemma {:induction false} SnapshotValue(cat: Catalog, cart: seq<CartLine>)
    requires Resolves(cat, cart) && UniqueNames(cat)
    ensures ItemsValue(cat, Snapshot(cat, cart)) == CartTotal(cat, cart)
    decreases |cart|
  {
    if cart != [] {
      var s := Snapshot(cat, cart);
      var n := |cart| - 1;
      assert s[..n] == Snapshot(cat, cart[..n]);
      SnapshotValue(cat, cart[..n]);
      PriceByNameOfEntry(cat, cart[n].key);
    }
  }

  /** With two products of the same name, the by-name price of the snapshot
      differs from the cart total: the second product is priced as the
      first. */
  lemma SharedNameMisprices()
    ensures var cat := [Entry("a", Product("Tee", 100, None, Some([]))),
                        Entry("b", Product("Tee", 300, None, Some([])))];
            var cart := [CartLine("b", None, 1)];
            Resolves(cat, cart)
            && CartTotal(cat, cart) == 300
            && ItemsValue(cat, Snapshot(cat, cart)) == 100
  {
    var cat := [Entry("a", Product("Tee", 100, None, Some([]))),
                Entry("b", Product("Tee", 300, None, Some([])))];
    var cart := [CartLine("b", None, 1)];
    assert Lookup(cat, "b") == Some(cat[1].product);
    assert cart[..0] == [];
    var s := Snapshot(cat, cart);
    assert s[..0] == [];
    assert FirstNamed(cat, "Tee") == Some(0);
  }
}
