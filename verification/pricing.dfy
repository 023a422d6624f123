/** Identity discounts and the exchange wizard's price preview. The client
    floors 90% of a total (`Math.floor(t * 0.9)`); the server truncates it
    toward zero (`int(t * 0.9)`). */
module Pricing {
  import opened Shapes
  import opened Listing

  /** `Math.floor(t * 0.9)`, computed exactly. */
  function FloorNinety(t: int): (r: int)
    ensures 10 * r <= 9 * t < 10 * r + 10
  {
    (9 * t) / 10
  }

  /** `int(t * 0.9)` in Python, computed exactly: the integer part, rounded
      toward zero. */
  function TruncNinety(t: int): (r: int)
    ensures t >= 0 ==> 10 * r <= 9 * t < 10 * r + 10
    ensures t < 0 ==> 10 * r - 10 < 9 * t <= 10 * r
  {
    if t >= 0 then (9 * t) / 10 else -((-9 * t) / 10)
  }

  /** The amount the client shows for a raw total. */
  function ClientCharge(identity: string, total: int): (r: int)
    ensures !IsDiscounted(identity) ==> r == total
    ensures IsDiscounted(identity) && total >= 0 ==> 0 <= r <= total
  {
    if IsDiscounted(identity) then FloorNinety(total) else total
  }

  /** The amount the server records for a raw total. */
  function ServerCharge(identity: string, total: int): (r: int)
    ensures !IsDiscounted(identity) ==> r == total
    ensures IsDiscounted(identity) && total >= 0 ==> 0 <= r <= total
  {
    if IsDiscounted(identity) then TruncNinety(total) else total
  }

  /** Client and server agree on every non-negative total. */
  lemma ChargesAgree(identity: string, total: int)
    requires total >= 0
    ensures ClientCharge(identity, total) == ServerCharge(identity, total)
  {
  }

  /** On a negative total (a negative price or quantity) they differ. */
  lemma ChargesDifferBelowZero()
    ensures ClientCharge("在校生", -1) == -1
    ensures ServerCharge("在校生", -1) == 0
  {
    assert IsDiscounted("在校生") by {
      assert DiscountedIdentities[1] == "在校生";
    }
  }

  /** Sum of `price * qty` over the items, each price looked up by name
      in the catalog (0 for an unknown name). */
  function ItemsValue(cat: Catalog, items: seq<Item>): int
  {
    if items == [] then 0
    else
      var last := items[|items| - 1];
      ItemsValue(cat, items[..|items| - 1]) + PriceByName(cat, last.name) * last.qty
  }

  lemma {:induction false} ItemsValueAppend(cat: Catalog, a: seq<Item>, b: seq<Item>)
    ensures ItemsValue(cat, a + b) == ItemsValue(cat, a) + ItemsValue(cat, b)
    decreases |b|
  {
    if b == [] {
      assert a + b == a;
    } else {
      var n := |b| - 1;
      assert (a + b)[..|a + b| - 1] == a + b[..n];
      assert (a + b)[|a + b| - 1] == b[n];
      ItemsValueAppend(cat, a, b[..n]);
    }
  }

  /** The `forEach` that accumulates one side of the exchange. */
  method ItemsTotal(cat: Catalog, items: seq<Item>) returns (total: int)
    ensures total == ItemsValue(cat, items)
  {
    total := 0;
    var i := 0;
    while i < |items|
      invariant 0 <= i <= |items|
      invariant total == ItemsValue(cat, items[..i])
    {
      assert items[..i + 1][..i] == items[..i];
      total := total + PriceByName(cat, items[i].name) * items[i].qty;
      i := i + 1;
    }
    assert items[..|items|] == items;
  }

  /** The price difference the exchange wizard displays: each side's total
      is discounted and floored on its own, then the old is subtracted from
      the new. */
  function ExchangeDifference(cat: Catalog, identity: string, oldItems: seq<Item>, newItems: seq<Item>): int
  {
    ClientCharge(identity, ItemsValue(cat, newItems)) - ClientCharge(identity, ItemsValue(cat, oldItems))
  }

  method PreviewDifference(cat: Catalog, identity: string, oldItems: seq<Item>, newItems: seq<Item>)
    returns (diff: int)
    ensures diff == ExchangeDifference(cat, identity, oldItems, newItems)
  {
    var oldTotal := ItemsTotal(cat, oldItems);
    var newTotal := ItemsTotal(cat, newItems);
    if IsDiscounted(identity) {
      oldTotal := FloorNinety(oldTotal);
      newTotal := FloorNinety(newTotal);
    }
    diff := newTotal - oldTotal;
  }

  /** Flooring each side before subtracting: old 1000, new 1500 gives 450
      for a student and 500 for an identity without discount. */
  lemma DifferenceExample()
    ensures ClientCharge("在校生", 1500) - ClientCharge("在校生", 1000) == 450
    ensures ClientCharge("其他", 1500) - ClientCharge("其他", 1000) == 500
  {
    assert IsDiscounted("在校生") by {
      assert DiscountedIdentities[1] == "在校生";
    }
    assert !IsDiscounted("其他");
  }

  /** Flooring each side is not flooring the difference: old 1 and new 10
      show 9 - 0 = 9, where 90% of the difference 9 floors to 8. */
  lemma SideBySideFlooring()
    ensures FloorNinety(10) - FloorNinety(1) == 9
    ensures FloorNinety(10 - 1) == 8
  {
  }
}
