/** Where the page and the server meet. The page's product list is the
    inventory object the server loaded, keyed the same way; the page sends
    each item under its product's `name`, and the server looks that name up
    as a key of the same object. */
module Agreement {
  import opened Shapes
  import opened Listing
  import opened Pricing
  import opened Cart
  import opened Server

  /** The page's catalog is the server's inventory as fetched: every key
      present, with the same price, and (as in any JSON object) no key twice. */
  ghost predicate Mirrors(cat: Catalog, inv: Inventory)
  {
    && (forall i :: 0 <= i < |cat| ==> cat[i].key in inv && inv[cat[i].key].price == cat[i].product.price)
    && (forall i, j :: 0 <= i < j < |cat| ==> cat[i].key != cat[j].key)
  }

  /** Every product is stored under its own name. */
  ghost predicate KeysAreNames(cat: Catalog)
  {
    forall i :: 0 <= i < |cat| ==> cat[i].key == cat[i].product.name
  }

  /** When every product is stored under its own name, the page's by-name
      price of every item of a cart snapshot is the server's price. */
  lemma SnapshotPricesAgree(cat: Catalog, inv: Inventory, cart: seq<CartLine>)
    requires Mirrors(cat, inv) && KeysAreNames(cat) && Resolves(cat, cart)
    ensures PricesAgree(cat, inv, Snapshot(cat, cart))
  {
    var items := Snapshot(cat, cart);
    forall k | 0 <= k < |items|
      ensures PriceByName(cat, items[k].name) == PriceOf(inv, items[k].name)
    {
      var key := cart[k].key;
      var i :| 0 <= i < |cat| && cat[i].key == key && cat[i].product == Lookup(cat, key).value;
      var j := FirstNamed(cat, items[k].name).value;
      assert cat[j].key == cat[i].key;
    }
  }

  /** A product stored under a key other than its name can be put in the
      cart, but the page sends its name, which the server does not find:
      a sale, gift, return or exchange of it is refused. */
  lemma KeyNotNameRefused(cat: Catalog, inv: Inventory, cart: seq<CartLine>, identity: string, oldItems: seq<Item>)
    requires Resolves(cat, cart) && cart != []
    requires Lookup(cat, cart[0].key).value.name !in inv
    ensures SaleOutcome(inv, identity, Snapshot(cat, cart)) == Rejected(ProductNotFound(Lookup(cat, cart[0].key).value.name))
    ensures GiftOutcome(inv, Snapshot(cat, cart)) == Rejected(ProductNotFound(Lookup(cat, cart[0].key).value.name))
    ensures ReturnOutcome(inv, identity, Snapshot(cat, cart)) == Rejected(ProductNotFound(Lookup(cat, cart[0].key).value.name))
    ensures ExchangeOutcome(inv, identity, oldItems, Snapshot(cat, cart)).Rejected?
  {
    var items := Snapshot(cat, cart);
    var name := Lookup(cat, cart[0].key).value.name;
    assert items[..1][..0] == [];
    assert FirstRejection(inv, items[..1], Plain, Out) == Some(ProductNotFound(name));
    assert FirstRejection(inv, items[..1], Plain, In) == Some(ProductNotFound(name));
    assert FirstRejection(inv, items[..1], NewSide, Out).Some?;
    RejectionPersists(inv, items, 1, Plain, Out);
    RejectionPersists(inv, items, 1, Plain, In);
    RejectionPersists(inv, items, 1, NewSide, Out);
  }

  /** The same, for one product: the catalog and the inventory the server
      serves it from, `{"T1": {name: "Tee", ...}}`. */
  lemma KeyNotNameExample()
    ensures var cat := [Entry("T1", Product("Tee", 100, None, Some([Variant("M", 5)])))];
            var inv := map["T1" := Stock(100, map["M" := 5])];
            Mirrors(cat, inv)
            && SaleOutcome(inv, "其他", Snapshot(cat, [CartLine("T1", Some("M"), 1)])) == Rejected(ProductNotFound("Tee"))
  {
    var cat := [Entry("T1", Product("Tee", 100, None, Some([Variant("M", 5)])))];
    var inv := map["T1" := Stock(100, map["M" := 5])];
    var cart := [CartLine("T1", Some("M"), 1)];
    assert Lookup(cat, "T1") == Some(cat[0].product);
    assert Resolves(cat, cart);
    assert "Tee" !in inv by {
      assert inv.Keys == {"T1"};
      assert "Tee"[1] != "T1"[1];
    }
    KeyNotNameRefused(cat, inv, cart, "其他", []);
  }

  /** The page and the server agree on the price of every listed item. */
  ghost predicate PricesAgree(cat: Catalog, inv: Inventory, items: seq<Item>)
  {
    forall k :: 0 <= k < |items| ==> PriceByName(cat, items[k].name) == PriceOf(inv, items[k].name)
  }

  /** With the same prices, the page's total of the items is the server's
      subtotal. */
  lemma {:induction false} ValuesAgree(cat: Catalog, inv: Inventory, items: seq<Item>)
    requires PricesAgree(cat, inv, items)
    ensures ItemsValue(cat, items) == Subtotal(inv, items)
    decreases |items|
  {
    if items != [] {
      var m := |items| - 1;
      assert PricesAgree(cat, inv, items[..m]) by {
        assert forall k :: 0 <= k < m ==> items[..m][k] == items[k];
      }
      ValuesAgree(cat, inv, items[..m]);
      assert PriceByName(cat, items[m].name) == PriceOf(inv, items[m].name);
    }
  }

  /** When the prices agree and neither side's total is negative, the
      difference the exchange wizard previews is the one the server
      answers for an accepted exchange. */
  lemma PreviewMatchesServer(cat: Catalog, inv: Inventory, identity: string, oldItems: seq<Item>, newItems: seq<Item>)
    requires PricesAgree(cat, inv, oldItems) && PricesAgree(cat, inv, newItems)
    requires Subtotal(inv, oldItems) >= 0 && Subtotal(inv, newItems) >= 0
    requires ExchangeOutcome(inv, identity, oldItems, newItems).Accepted?
    ensures ExchangeOutcome(inv, identity, oldItems, newItems).total == ExchangeDifference(cat, identity, oldItems, newItems)
  {
    ValuesAgree(cat, inv, oldItems);
    ValuesAgree(cat, inv, newItems);
    ChargesAgree(identity, Subtotal(inv, oldItems));
    ChargesAgree(identity, Subtotal(inv, newItems));
  }

  /** For a cart snapshot taken from the inventory as fetched, with every
      product stored under its own name and the returned items priced alike,
      the preview is the server's answer. */
  lemma CartPreviewMatchesServer(cat: Catalog, inv: Inventory, identity: string, oldItems: seq<Item>, cart: seq<CartLine>)
    requires Mirrors(cat, inv) && KeysAreNames(cat) && Resolves(cat, cart)
    requires PricesAgree(cat, inv, oldItems)
    requires Subtotal(inv, oldItems) >= 0 && Subtotal(inv, Snapshot(cat, cart)) >= 0
    requires ExchangeOutcome(inv, identity, oldItems, Snapshot(cat, cart)).Accepted?
    ensures ExchangeOutcome(inv, identity, oldItems, Snapshot(cat, cart)).total
         == ExchangeDifference(cat, identity, oldItems, Snapshot(cat, cart))
  {
    SnapshotPricesAgree(cat, inv, cart);
    PreviewMatchesServer(cat, inv, identity, oldItems, Snapshot(cat, cart));
  }
}
