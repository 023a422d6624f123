/** The storefront page's state and the handlers that change it: the cart
    buttons and selects, the search box and category filter, and the four
    transaction wizards, each of which fills its draft step by step before
    it is posted. */
module Client {
  import opened Shapes
  import opened Listing
  import opened Pricing
  import opened Cart

  /** `saleData`: identity, channel, order number and the item snapshot. */
  datatype SaleDraft = SaleDraft(identity: string, channel: string, orderId: string, items: seq<Item>)

  /** `giftData`: the giver's name and the item snapshot. */
  datatype GiftDraft = GiftDraft(giver: string, items: seq<Item>)

  /** `returnData`: identity, channel and the item snapshot. */
  datatype ReturnDraft = ReturnDraft(identity: string, channel: string, items: seq<Item>)

  /** `exchangeData`: identity, channel, order number, the items of the
      chosen return record and the snapshot of the new items. */
  datatype ExchangeDraft = ExchangeDraft(identity: string, channel: string, orderId: string,
                                         oldItems: seq<Item>, newItems: seq<Item>)

  class PosSession {
    var products: Catalog
    var cart: seq<CartLine>
    var category: string
    var search: string
    var sale: SaleDraft
    var gift: GiftDraft
    var returnDraft: ReturnDraft
    var exchange: ExchangeDraft

    /** Every cart line names a product of the catalog on show. */
    ghost predicate Valid()
      reads this
    {
      Resolves(products, cart)
    }

    /** The page after `loadProducts`: empty cart, every category, no
        search, empty drafts. */
    constructor (catalog: Catalog)
      ensures Valid()
      ensures products == catalog && cart == []
      ensures category == AllCategories && search == ""
      ensures sale == SaleDraft("", "", "", []) && gift == GiftDraft("", [])
      ensures returnDraft == ReturnDraft("", "", [])
      ensures exchange == ExchangeDraft("", "", "", [], [])
    {
      products := catalog;
      cart := [];
      category := AllCategories;
      search := "";
      sale := SaleDraft("", "", "", []);
      gift := GiftDraft("", []);
      returnDraft := ReturnDraft("", "", []);
      exchange := ExchangeDraft("", "", "", [], []);
    }

    /** The keys of the product cards on show. */
    function ShownKeys(): (r: seq<string>)
      reads this
      ensures forall k :: k in r <==>
        exists i :: 0 <= i < |products| && products[i].key == k && Listed(products[i].product, category, search)
    {
      ListedKeys(products, category, search)
    }

    /** Typing in the search box. */
    method SetSearch(text: string)
      modifies this`search
      ensures search == text
    {
      search := text;
    }

    /** Choosing in the category filter. */
    method SetCategory(choice: string)
      modifies this`category
      ensures category == choice
    {
      category := choice;
    }

    /** `addToCart(key)`: a new line for the product on its first size in
        stock (null when none has stock) with quantity 1. */
    method AddToCart(key: string)
      requires Valid()
      requires Lookup(products, key).Some? && Lookup(products, key).value.styles.Some?
      modifies this`cart
      ensures Valid()
      ensures cart == old(cart) + [CartLine(key, DefaultSize(Lookup(products, key).value.styles.value), 1)]
      ensures CartTotal(products, cart) == old(CartTotal(products, cart)) + Lookup(products, key).value.price
    {
      var line := CartLine(key, DefaultSize(Lookup(products, key).value.styles.value), 1);
      TotalAfterAdd(products, cart, line);
      cart := cart + [line];
    }

    /** `updateSize(index, size)`: the line takes the chosen size and its
        quantity goes back to 1. */
    method UpdateSize(index: nat, size: string)
      requires Valid() && index < |cart|
      modifies this`cart
      ensures Valid()
      ensures cart == old(cart)[index := CartLine(old(cart)[index].key, Some(size), 1)]
      ensures CartTotal(products, cart) ==
        old(CartTotal(products, cart)) - old(LineTotal(products, cart[index]))
        + Lookup(products, cart[index].key).value.price
    {
      var line := CartLine(cart[index].key, Some(size), 1);
      TotalAfterReplace(products, cart, index, line);
      cart := cart[index := line];
    }

    /** `updateQty(index, qty)`: the line takes the chosen quantity; the
        size is kept. */
    method UpdateQty(index: nat, qty: int)
      requires Valid() && index < |cart|
      modifies this`cart
      ensures Valid()
      ensures cart == old(cart)[index := old(cart)[index].(qty := qty)]
      ensures CartTotal(products, cart) ==
        old(CartTotal(products, cart)) + Lookup(products, cart[index].key).value.price * (qty - old(cart)[index].qty)
    {
      TotalAfterQty(products, cart, index, qty);
      cart := cart[index := cart[index].(qty := qty)];
    }

    /** `removeFromCart(index)`: `cart.splice(index, 1)`, which removes
        nothing when the index is past the end. */
    method RemoveFromCart(index: nat)
      requires Valid()
      modifies this`cart
      ensures Valid()
      ensures index < |old(cart)| ==> cart == old(cart)[..index] + old(cart)[index + 1..]
      ensures index < |old(cart)| ==>
        CartTotal(products, cart) == old(CartTotal(products, cart)) - old(LineTotal(products, cart[index]))
      ensures index >= |old(cart)| ==> cart == old(cart)
    {
      if index < |cart| {
        TotalAfterRemove(products, cart, index);
        cart := cart[..index] + cart[index + 1..];
      }
    }

    /** `updateTotal()`: the sum of price times quantity over the lines. */
    method UpdateTotal() returns (total: int)
      requires Valid()
      ensures total == CartTotal(products, cart)
    {
      total := 0;
      var i := 0;
      while i < |cart|
        invariant 0 <= i <= |cart|
        invariant Resolves(products, cart[..i])
        invariant total == CartTotal(products, cart[..i])
      {
        assert cart[..i + 1][..i] == cart[..i];
        total := total + Lookup(products, cart[i].key).value.price * cart[i].qty;
        i := i + 1;
      }
      assert cart[..|cart|] == cart;
    }

    // -----------------------------------------------------------------
    // Sale wizard
    // -----------------------------------------------------------------

    /** Step 1: an identity must be chosen (the empty value means none). */
    method SaleStep1(identity: string, channel: string) returns (advanced: bool)
      modifies this`sale
      ensures advanced <==> identity != ""
      ensures advanced ==> sale == old(sale).(identity := identity, channel := channel)
      ensures !advanced ==> sale == old(sale)
    {
      advanced := identity != "";
      if advanced {
        sale := sale.(identity := identity, channel := channel);
      }
    }

    /** Step 2: refused on an empty cart, else the cart is snapshotted. */
    method SaleStep2() returns (advanced: bool)
      requires Valid()
      modifies this`sale
      ensures advanced <==> cart != []
      ensures advanced ==> sale == old(sale).(items := Snapshot(products, cart))
      ensures !advanced ==> sale == old(sale)
    {
      advanced := cart != [];
      if advanced {
        sale := sale.(items := Snapshot(products, cart));
      }
    }

    /** Step 3: the order number must not be empty. */
    method SaleStep3(orderId: string) returns (advanced: bool)
      modifies this`sale
      ensures advanced <==> orderId != ""
      ensures advanced ==> sale == old(sale).(orderId := orderId)
      ensures !advanced ==> sale == old(sale)
    {
      advanced := orderId != "";
      if advanced {
        sale := sale.(orderId := orderId);
      }
    }

    // -----------------------------------------------------------------
    // Gift wizard
    // -----------------------------------------------------------------

    /** Step 1: refused on an empty cart, else the cart is snapshotted. */
    method GiftStep1() returns (advanced: bool)
      requires Valid()
      modifies this`gift
      ensures advanced <==> cart != []
      ensures advanced ==> gift == old(gift).(items := Snapshot(products, cart))
      ensures !advanced ==> gift == old(gift)
    {
      advanced := cart != [];
      if advanced {
        gift := gift.(items := Snapshot(products, cart));
      }
    }

    /** Step 2: the giver's name must not be empty. */
    method GiftStep2(giver: string) returns (advanced: bool)
      modifies this`gift
      ensures advanced <==> giver != ""
      ensures advanced ==> gift == old(gift).(giver := giver)
      ensures !advanced ==> gift == old(gift)
    {
      advanced := giver != "";
      if advanced {
        gift := gift.(giver := giver);
      }
    }

    // -----------------------------------------------------------------
    // Return wizard
    // -----------------------------------------------------------------

    /** Step 1: refused on an empty cart (before the dialog opens) and
        when no identity is chosen. */
    method ReturnStep1(identity: string, channel: string) returns (advanced: bool)
      modifies this`returnDraft
      ensures advanced <==> cart != [] && identity != ""
      ensures advanced ==> returnDraft == old(returnDraft).(identity := identity, channel := channel)
      ensures !advanced ==> returnDraft == old(returnDraft)
    {
      advanced := cart != [] && identity != "";
      if advanced {
        returnDraft := returnDraft.(identity := identity, channel := channel);
      }
    }

    /** Step 2: the cart is snapshotted with no emptiness check of its own. */
    method ReturnStep2()
      requires Valid()
      modifies this`returnDraft
      ensures returnDraft == old(returnDraft).(items := Snapshot(products, cart))
    {
      returnDraft := returnDraft.(items := Snapshot(products, cart));
    }

    // -----------------------------------------------------------------
    // Exchange wizard
    // -----------------------------------------------------------------

    /** Step 1: an identity must be chosen. */
    method ExchangeStep1(identity: string, channel: string) returns (advanced: bool)
      modifies this`exchange
      ensures advanced <==> identity != ""
      ensures advanced ==> exchange == old(exchange).(identity := identity, channel := channel)
      ensures !advanced ==> exchange == old(exchange)
    {
      advanced := identity != "";
      if advanced {
        exchange := exchange.(identity := identity, channel := channel);
      }
    }

    /** Step 2: one of the latest return records must be chosen; its items
        become the old items. */
    method ExchangeStep2(logs: seq<ReturnRecord>, selected: Option<nat>) returns (advanced: bool)
      requires selected.Some? ==> selected.value < |logs|
      modifies this`exchange
      ensures advanced <==> selected.Some?
      ensures advanced ==> exchange == old(exchange).(oldItems := logs[selected.value].items)
      ensures !advanced ==> exchange == old(exchange)
    {
      advanced := selected.Some?;
      if advanced {
        exchange := exchange.(oldItems := logs[selected.value].items);
      }
    }

    /** Step 3: the cart is snapshotted as the new items (before the
        emptiness check); refused when that snapshot is empty, else the
        displayed difference is the discounted new total minus the
        discounted old total. */
    method ExchangeStep3() returns (advanced: bool, diff: int)
      requires Valid()
      modifies this`exchange
      ensures exchange == old(exchange).(newItems := Snapshot(products, cart))
      ensures advanced <==> cart != []
      ensures advanced ==> diff == ExchangeDifference(products, exchange.identity, exchange.oldItems, exchange.newItems)
    {
      exchange := exchange.(newItems := Snapshot(products, cart));
      advanced := exchange.newItems != [];
      diff := 0;
      if advanced {
        diff := PreviewDifference(products, exchange.identity, exchange.oldItems, exchange.newItems);
      }
    }

    /** Step 4: the cart is snapshotted again, then the order number must
        not be empty. */
    method ExchangeStep4(orderId: string) returns (advanced: bool)
      requires Valid()
      modifies this`exchange
      ensures advanced <==> orderId != ""
      ensures advanced ==> exchange == old(exchange).(newItems := Snapshot(products, cart), orderId := orderId)
      ensures !advanced ==> exchange == old(exchange).(newItems := Snapshot(products, cart))
    {
      exchange := exchange.(newItems := Snapshot(products, cart));
      advanced := orderId != "";
      if advanced {
        exchange := exchange.(orderId := orderId);
      }
    }

    /** After a successful submission of any wizard: the cart is emptied
        and the catalog is replaced by the one fetched again. The drafts
        are left as they are. */
    method SubmissionSucceeded(refreshed: Catalog)
      modifies this`cart, this`products
      ensures Valid()
      ensures cart == [] && products == refreshed
    {
      cart := [];
      products := refreshed;
    }
  }

  /** The exchange difference shown for a snapshot of the cart equals the
      discounted difference of the cart total and the old items' value,
      when product names are unique. */
  lemma ExchangePreviewOfCart(cat: Catalog, cart: seq<CartLine>, identity: string, oldItems: seq<Item>)
    requires Resolves(cat, cart) && UniqueNames(cat)
    ensures ExchangeDifference(cat, identity, oldItems, Snapshot(cat, cart))
         == ClientCharge(identity, CartTotal(cat, cart)) - ClientCharge(identity, ItemsValue(cat, oldItems))
  {
    SnapshotValue(cat, cart);
  }
}
