/** The inventory handlers of the server: sale, gift, return and exchange.
    Each loads the inventory, walks the posted items updating the `center`
    count of each `(name, size)` cell in place while it accumulates a
    total, and either answers 400 at the first bad item (before anything
    is saved) or saves the updated inventory and answers with the total. */
module Server {
  import opened Shapes
  import opened Pricing

  /** Why a request is answered with 400, one case per error message. */
  datatype Rejection =
    | ProductNotFound(name: string)
    | SizeNotFound(name: string, size: Option<string>)
    | OutOfStock(name: string, stockedSize: string)
    | ReturnedItemMissing(name: string, size: Option<string>)
    | NewItemMissing(name: string, size: Option<string>)

  /** The answer to a request: the inventory to save and the amount in the
      response (the charge, the refund, or the exchange difference; 0 for
      a gift, whose response carries none), or the 400 rejection, in which
      case nothing is saved. */
  datatype Outcome = Accepted(inventory: Inventory, total: int) | Rejected(reason: Rejection)

  /** Which messages a missing product or size produces: those of sale,
      gift and return, or the exchange's for its returned and its new
      items. */
  datatype Side = Plain | ReturnedSide | NewSide

  /** Whether stock moves out of (sale, gift, new items of an exchange) or
      into (return) the inventory. */
  datatype Direction = Out | In

  predicate HasCell(inv: Inventory, it: Item)
  {
    it.name in inv && it.size.Some? && it.size.value in inv[it.name].styles
  }

  /** The existence checks: an unknown product, then an unknown size (a null
      size is never a key), each with the side's message. */
  function MissingCell(inv: Inventory, it: Item, side: Side): (r: Option<Rejection>)
    ensures r.None? <==> HasCell(inv, it)
  {
    if HasCell(inv, it) then None
    else match side
      case Plain =>
        if it.name !in inv then Some(ProductNotFound(it.name)) else Some(SizeNotFound(it.name, it.size))
      case ReturnedSide => Some(ReturnedItemMissing(it.name, it.size))
      case NewSide => Some(NewItemMissing(it.name, it.size))
  }

  /** Total quantity of `items` naming the cell `(name, size)`. */
  function Moved(items: seq<Item>, name: string, size: string): int
  {
    if items == [] then 0
    else
      var last := items[|items| - 1];
      Moved(items[..|items| - 1], name, size) + (if last.name == name && last.size == Some(size) then last.qty else 0)
  }

  /** The rejection of item `it` when the items `done` before it have
      already been applied: a missing cell, or, when stock moves out, a
      `center` that after the earlier items is below `qty`. */
  function ItemRejection(inv: Inventory, done: seq<Item>, it: Item, side: Side, dir: Direction): Option<Rejection>
  {
    match MissingCell(inv, it, side)
    case Some(r) => Some(r)
    case None =>
      if dir == Out && inv[it.name].styles[it.size.value] - Moved(done, it.name, it.size.value) < it.qty
      then Some(OutOfStock(it.name, it.size.value))
      else None
  }

  /** The rejection of the first item that is rejected, None when all pass. */
  function FirstRejection(inv: Inventory, items: seq<Item>, side: Side, dir: Direction): Option<Rejection>
  {
    if items == [] then None
    else
      var m := |items| - 1;
      var r := FirstRejection(inv, items[..m], side, dir);
      if r.Some? then r else ItemRejection(inv, items[..m], items[m], side, dir)
  }

  /** A request is accepted exactly when every item passes its checks
      against the counts the earlier items left. */
  lemma {:induction false} AcceptedIffAllPass(inv: Inventory, items: seq<Item>, side: Side, dir: Direction)
    ensures FirstRejection(inv, items, side, dir).None? <==>
      forall k :: 0 <= k < |items| ==> ItemRejection(inv, items[..k], items[k], side, dir).None?
    decreases |items|
  {
    if items != [] {
      AcceptedIffAllPass(inv, items[..|items| - 1], side, dir);
      AllPassSnoc(inv, items, side, dir);
    }
  }

  lemma AllPassSnoc(inv: Inventory, items: seq<Item>, side: Side, dir: Direction)
    requires items != []
    ensures var m := |items| - 1;
      (forall k :: 0 <= k < |items| ==> ItemRejection(inv, items[..k], items[k], side, dir).None?)
      <==> (forall k :: 0 <= k < m ==> ItemRejection(inv, items[..m][..k], items[..m][k], side, dir).None?)
           && ItemRejection(inv, items[..m], items[m], side, dir).None?
  {
    var m := |items| - 1;
    forall k | 0 <= k < m
      ensures items[..m][..k] == items[..k] && items[..m][k] == items[k]
    {
    }
  }

  /** A rejected request is answered with the rejection of the first item
      that fails, every earlier item having passed. */
  lemma {:induction false} RejectionIsFirst(inv: Inventory, items: seq<Item>, side: Side, dir: Direction)
    requires FirstRejection(inv, items, side, dir).Some?
    ensures exists k :: (0 <= k < |items| && ItemRejection(inv, items[..k], items[k], side, dir) == FirstRejection(inv, items, side, dir)
                         && forall j :: 0 <= j < k ==> ItemRejection(inv, items[..j], items[j], side, dir).None?)
    decreases |items|
  {
    var m := |items| - 1;
    var r := FirstRejection(inv, items[..m], side, dir);
    assert forall k :: 0 <= k < m ==> items[..m][..k] == items[..k] && items[..m][k] == items[k];
    if r.Some? {
      RejectionIsFirst(inv, items[..m], side, dir);
      var k :| 0 <= k < m && ItemRejection(inv, items[..m][..k], items[..m][k], side, dir) == r
               && forall j :: 0 <= j < k ==> ItemRejection(inv, items[..m][..j], items[..m][j], side, dir).None?;
      assert ItemRejection(inv, items[..k], items[k], side, dir) == r;
    } else {
      AcceptedIffAllPass(inv, items[..m], side, dir);
    }
  }

  /** The inventory after every item's quantity has moved: each cell's
      `center` goes down (Out) or up (In) by the quantity of the items
      naming it; prices, other cells and other products stay as they are. */
  function Shift(inv: Inventory, items: seq<Item>, dir: Direction): (r: Inventory)
    ensures r.Keys == inv.Keys
    ensures forall n :: n in inv ==> r[n].price == inv[n].price && r[n].styles.Keys == inv[n].styles.Keys
    ensures forall n, s :: n in inv && s in inv[n].styles ==>
      r[n].styles[s] == Move(dir, inv[n].styles[s], Moved(items, n, s))
  {
    map n | n in inv ::
      Stock(inv[n].price, map s | s in inv[n].styles ::
        if dir == Out then inv[n].styles[s] - Moved(items, n, s) else inv[n].styles[s] + Moved(items, n, s))
  }

  /** `inventory[name]['price']`, or 0 for an unknown product. */
  function PriceOf(inv: Inventory, name: string): int
  {
    if name in inv then inv[name].price else 0
  }

  /** The undiscounted sum of `price * qty`. */
  function Subtotal(inv: Inventory, items: seq<Item>): int
  {
    if items == [] then 0
    else
      var last := items[|items| - 1];
      Subtotal(inv, items[..|items| - 1]) + PriceOf(inv, last.name) * last.qty
  }

  // ---------------------------------------------------------------------
  // The handlers, as specifications
  // ---------------------------------------------------------------------

  /** Stock moving out for `items`: rejected at the first bad item, else
      every cell reduced by the quantity taken from it, with the subtotal. */
  function DebitOutcome(inv: Inventory, items: seq<Item>, side: Side): Outcome
  {
    match FirstRejection(inv, items, side, Out)
    case Some(r) => Rejected(r)
    case None => Accepted(Shift(inv, items, Out), Subtotal(inv, items))
  }

  function SaleOutcome(inv: Inventory, identity: string, items: seq<Item>): Outcome
  {
    match DebitOutcome(inv, items, Plain)
    case Rejected(r) => Rejected(r)
    case Accepted(after, t) => Accepted(after, ServerCharge(identity, t))
  }

  function GiftOutcome(inv: Inventory, items: seq<Item>): Outcome
  {
    match DebitOutcome(inv, items, Plain)
    case Rejected(r) => Rejected(r)
    case Accepted(after, _) => Accepted(after, 0)
  }

  /** Stock coming back for `items`: rejected at the first unknown cell,
      else every cell raised by the quantity returned to it, with the
      subtotal. */
  function CreditOutcome(inv: Inventory, items: seq<Item>): Outcome
  {
    match FirstRejection(inv, items, Plain, In)
    case Some(r) => Rejected(r)
    case None => Accepted(Shift(inv, items, In), Subtotal(inv, items))
  }

  function ReturnOutcome(inv: Inventory, identity: string, items: seq<Item>): Outcome
  {
    match CreditOutcome(inv, items)
    case Rejected(r) => Rejected(r)
    case Accepted(after, t) => Accepted(after, ServerCharge(identity, t))
  }

  function ExchangeOutcome(inv: Inventory, identity: string, oldItems: seq<Item>, newItems: seq<Item>): Outcome
  {
    match FirstRejection(inv, oldItems, ReturnedSide, In)
    case Some(r) => Rejected(r)
    case None =>
      match DebitOutcome(inv, newItems, NewSide)
      case Rejected(r) => Rejected(r)
      case Accepted(after, t) =>
        Accepted(after, ServerCharge(identity, t) - ServerCharge(identity, Subtotal(inv, oldItems)))
  }

  // ---------------------------------------------------------------------
  // The handlers' loops
  // ---------------------------------------------------------------------

  lemma {:induction false} RejectionPersists(inv: Inventory, items: seq<Item>, j: nat, side: Side, dir: Direction)
    requires j <= |items|
    requires FirstRejection(inv, items[..j], side, dir).Some?
    ensures FirstRejection(inv, items, side, dir) == FirstRejection(inv, items[..j], side, dir)
    decreases |items|
  {
    if j == |items| {
      assert items[..j] == items;
    } else {
      var m := |items| - 1;
      assert items[..m][..j] == items[..j];
      RejectionPersists(inv, items[..m], j, side, dir);
    }
  }

  /** `center` after `q` more units moved. */
  function Move(dir: Direction, center: int, q: int): int
  {
    if dir == Out then center - q else center + q
  }

  /** The in-place update of one item's cell:
      `inventory[name]['styles'][size]['center'] -= qty` (or `+=`). */
  function Bump(inv: Inventory, it: Item, dir: Direction): Inventory
    requires HasCell(inv, it)
  {
    var stock := inv[it.name];
    inv[it.name := stock.(styles := stock.styles[it.size.value := Move(dir, stock.styles[it.size.value], it.qty)])]
  }

  lemma MovedStep(items: seq<Item>, i: nat, n: string, s: string)
    requires i < |items|
    ensures Moved(items[..i + 1], n, s) ==
      Moved(items[..i], n, s) + if items[i].name == n && items[i].size == Some(s) then items[i].qty else 0
  {
    assert items[..i + 1][..i] == items[..i];
  }

  /** Bumping an item's cell leaves the keys, the prices and every other
      cell as they were. */
  lemma BumpCell(inv: Inventory, it: Item, dir: Direction, n: string, s: string)
    requires HasCell(inv, it)
    ensures Bump(inv, it, dir).Keys == inv.Keys
    ensures n in inv ==> Bump(inv, it, dir)[n].price == inv[n].price
    ensures n in inv ==> Bump(inv, it, dir)[n].styles.Keys == inv[n].styles.Keys
    ensures n in inv && s in inv[n].styles ==>
      Bump(inv, it, dir)[n].styles[s] ==
        if it.name == n && it.size == Some(s) then Move(dir, inv[n].styles[s], it.qty) else inv[n].styles[s]
  {
  }

  /** Moving one more item changes exactly its own cell. */
  lemma ShiftStep(inv: Inventory, items: seq<Item>, i: nat, dir: Direction)
    requires i < |items| && HasCell(inv, items[i])
    ensures Shift(inv, items[..i + 1], dir) == Bump(Shift(inv, items[..i], dir), items[i], dir)
  {
    var after := Shift(inv, items[..i + 1], dir);
    var expected := Bump(Shift(inv, items[..i], dir), items[i], dir);
    BumpCell(Shift(inv, items[..i], dir), items[i], dir, "", "");
    forall n | n in after
      ensures after[n] == expected[n]
    {
      ShiftStepAt(inv, items, i, dir, n);
    }
    assert after == expected;
  }

  /** The same, for the stock of one product. */
  lemma ShiftStepAt(inv: Inventory, items: seq<Item>, i: nat, dir: Direction, n: string)
    requires i < |items| && HasCell(inv, items[i]) && n in inv
    ensures Shift(inv, items[..i + 1], dir)[n] == Bump(Shift(inv, items[..i], dir), items[i], dir)[n]
  {
    var before := Shift(inv, items[..i], dir);
    var after := Shift(inv, items[..i + 1], dir);
    var expected := Bump(before, items[i], dir);
    BumpCell(before, items[i], dir, n, "");
    forall s | s in after[n].styles
      ensures after[n].styles[s] == expected[n].styles[s]
    {
      MovedStep(items, i, n, s);
      BumpCell(before, items[i], dir, n, s);
    }
    assert after[n].styles == expected[n].styles;
  }

  /** What one turn of a handler's loop decides, from the counts the
      earlier items left: the first rejection of the whole list, or the
      counts and subtotal after this item. */
  lemma Turn(inv0: Inventory, items: seq<Item>, i: nat, side: Side, dir: Direction)
    requires i < |items| && FirstRejection(inv0, items[..i], side, dir).None?
    ensures var inv := Shift(inv0, items[..i], dir);
            var verdict := Verdict(inv, items[i], side, dir);
            (verdict.Some? ==> FirstRejection(inv0, items, side, dir) == verdict)
            && (verdict.None? ==>
                  FirstRejection(inv0, items[..i + 1], side, dir).None?
                  && Shift(inv0, items[..i + 1], dir) == Bump(inv, items[i], dir)
                  && Subtotal(inv0, items[..i + 1]) == Subtotal(inv0, items[..i]) + inv[items[i].name].price * items[i].qty)
  {
    CheckStep(inv0, items, i, side, dir);
    if FirstRejection(inv0, items[..i + 1], side, dir).Some? {
      RejectionPersists(inv0, items, i + 1, side, dir);
    } else {
      AdvanceStep(inv0, items, i, dir);
    }
  }

  /** The checks of one loop turn against the current counts: the cell
      must exist and, when stock goes out, hold at least `qty`. */
  function Verdict(inv: Inventory, it: Item, side: Side, dir: Direction): (r: Option<Rejection>)
    ensures r.None? ==> HasCell(inv, it)
  {
    if !HasCell(inv, it) then MissingCell(inv, it, side)
    else if dir == Out && inv[it.name].styles[it.size.value] < it.qty then Some(OutOfStock(it.name, it.size.value))
    else None
  }

  /** One more turn of a handler's loop that passed its checks: the new
      counts are the old ones with this item's cell bumped, and the
      subtotal grows by the item's price times its quantity. */
  lemma AdvanceStep(inv0: Inventory, items: seq<Item>, i: nat, dir: Direction)
    requires i < |items| && HasCell(Shift(inv0, items[..i], dir), items[i])
    ensures Shift(inv0, items[..i + 1], dir) == Bump(Shift(inv0, items[..i], dir), items[i], dir)
    ensures Subtotal(inv0, items[..i + 1]) ==
      Subtotal(inv0, items[..i]) + Shift(inv0, items[..i], dir)[items[i].name].price * items[i].qty
  {
    ShiftStep(inv0, items, i, dir);
    assert items[..i + 1][..i] == items[..i];
  }

  /** One more turn of a handler's loop, checked against the counts as the
      earlier items left them, decides the first rejection so far. */
  lemma CheckStep(inv0: Inventory, items: seq<Item>, i: nat, side: Side, dir: Direction)
    requires i < |items|
    requires FirstRejection(inv0, items[..i], side, dir).None?
    ensures FirstRejection(inv0, items[..i + 1], side, dir) == Verdict(Shift(inv0, items[..i], dir), items[i], side, dir)
  {
    assert items[..i + 1][..i] == items[..i];
  }

  /** Moving nothing changes nothing. */
  lemma ShiftNothing(inv: Inventory, dir: Direction)
    ensures Shift(inv, [], dir) == inv
  {
    var r := Shift(inv, [], dir);
    forall n | n in inv
      ensures r[n] == inv[n]
    {
      assert r[n].styles == inv[n].styles;
    }
    assert r == inv;
  }

  /** The loop shared by `sale`, `gift` and the new items of `exchange`:
      check the cell, check `center < qty` against the already-reduced
      count, reduce it and add `price * qty`. */
  method Debit(inv0: Inventory, items: seq<Item>, side: Side) returns (result: Outcome)
    ensures result == DebitOutcome(inv0, items, side)
  {
    var inv := inv0;
    var total := 0;
    var i := 0;
    ShiftNothing(inv0, Out);
    while i < |items|
      invariant 0 <= i <= |items|
      invariant FirstRejection(inv0, items[..i], side, Out).None?
      invariant inv == Shift(inv0, items[..i], Out)
      invariant total == Subtotal(inv0, items[..i])
    {
      var it := items[i];
      Turn(inv0, items, i, side, Out);
      var missing := MissingCell(inv, it, side);
      if missing.Some? {
        return Rejected(missing.value);
      }
      var size := it.size.value;
      var stock := inv[it.name];
      if stock.styles[size] < it.qty {
        return Rejected(OutOfStock(it.name, size));
      }
      inv := Bump(inv, it, Out);
      total := total + stock.price * it.qty;
      i := i + 1;
    }
    assert items[..|items|] == items;
    result := Accepted(inv, total);
  }

  /** `sale`: the debit loop, then the identity discount on the total. */
  method Sale(inv: Inventory, identity: string, items: seq<Item>) returns (result: Outcome)
    ensures result == SaleOutcome(inv, identity, items)
  {
    result := Debit(inv, items, Plain);
    if result.Accepted? {
      var total := result.total;
      if IsDiscounted(identity) {
        total := TruncNinety(total);
      }
      result := result.(total := total);
    }
  }

  /** `gift`: the debit loop; the response carries no amount. */
  method Gift(inv: Inventory, items: seq<Item>) returns (result: Outcome)
    ensures result == GiftOutcome(inv, items)
  {
    result := Debit(inv, items, Plain);
    if result.Accepted? {
      result := result.(total := 0);
    }
  }

  /** `return_goods`: check each cell, raise its count by `qty` with no
      upper bound, add `price * qty`, then discount the total. */
  method ReturnGoods(inv: Inventory, identity: string, items: seq<Item>) returns (result: Outcome)
    ensures result == ReturnOutcome(inv, identity, items)
  {
    result := Credit(inv, items);
    if result.Accepted? {
      var total := result.total;
      if IsDiscounted(identity) {
        total := TruncNinety(total);
      }
      result := result.(total := total);
    }
  }

  /** The loop of `return_goods`: each cell must exist; its count is raised
      and `price * qty` is added to the total. */
  method Credit(inv0: Inventory, items: seq<Item>) returns (result: Outcome)
    ensures result == CreditOutcome(inv0, items)
  {
    var inv := inv0;
    var total := 0;
    var i := 0;
    ShiftNothing(inv0, In);
    while i < |items|
      invariant 0 <= i <= |items|
      invariant FirstRejection(inv0, items[..i], Plain, In).None?
      invariant inv == Shift(inv0, items[..i], In)
      invariant total == Subtotal(inv0, items[..i])
    {
      var it := items[i];
      Turn(inv0, items, i, Plain, In);
      var missing := MissingCell(inv, it, Plain);
      if missing.Some? {
        return Rejected(missing.value);
      }
      var stock := inv[it.name];
      inv := Bump(inv, it, In);
      total := total + stock.price * it.qty;
      i := i + 1;
    }
    assert items[..|items|] == items;
    result := Accepted(inv, total);
  }

  /** The first loop of `exchange`: each returned item's cell must exist;
      its `price * qty` is added to the old total. */
  method PriceReturned(inv: Inventory, oldItems: seq<Item>) returns (missing: Option<Rejection>, oldTotal: int)
    ensures missing == FirstRejection(inv, oldItems, ReturnedSide, In)
    ensures missing.None? ==> oldTotal == Subtotal(inv, oldItems)
  {
    oldTotal := 0;
    var i := 0;
    while i < |oldItems|
      invariant 0 <= i <= |oldItems|
      invariant FirstRejection(inv, oldItems[..i], ReturnedSide, In).None?
      invariant oldTotal == Subtotal(inv, oldItems[..i])
    {
      var it := oldItems[i];
      assert oldItems[..i + 1][..i] == oldItems[..i];
      missing := MissingCell(inv, it, ReturnedSide);
      if missing.Some? {
        RejectionPersists(inv, oldItems, i + 1, ReturnedSide, In);
        return;
      }
      oldTotal := oldTotal + inv[it.name].price * it.qty;
      i := i + 1;
    }
    assert oldItems[..|oldItems|] == oldItems;
    missing := None;
  }

  /** `exchange`: the returned items are only checked and priced, never
      put back; the new items go through the debit loop; each side's total
      is discounted on its own before subtracting. */
  method Exchange(inv: Inventory, identity: string, oldItems: seq<Item>, newItems: seq<Item>)
    returns (result: Outcome)
    ensures result == ExchangeOutcome(inv, identity, oldItems, newItems)
  {
    var missing, oldTotal := PriceReturned(inv, oldItems);
    if missing.Some? {
      return Rejected(missing.value);
    }
    result := Debit(inv, newItems, NewSide);
    if result.Accepted? {
      var newTotal := result.total;
      if IsDiscounted(identity) {
        oldTotal := TruncNinety(oldTotal);
        newTotal := TruncNinety(newTotal);
      }
      result := result.(total := newTotal - oldTotal);
    }
  }

  // ---------------------------------------------------------------------
  // Properties
  // ---------------------------------------------------------------------

  /** Every `center` count is at least zero. */
  ghost predicate NonNegative(inv: Inventory)
  {
    forall n, s :: n in inv && s in inv[n].styles ==> inv[n].styles[s] >= 0
  }

  /** When every item passes the stock check, no cell gives out more than
      it held. */
  lemma {:induction false} DebitWithinStock(inv: Inventory, items: seq<Item>, side: Side, n: string, s: string)
    requires n in inv && s in inv[n].styles && inv[n].styles[s] >= 0
    requires FirstRejection(inv, items, side, Out).None?
    ensures inv[n].styles[s] - Moved(items, n, s) >= 0
    decreases |items|
  {
    if items != [] {
      var m := |items| - 1;
      assert ItemRejection(inv, items[..m], items[m], side, Out).None?;
      assert forall k :: 0 <= k < m ==> items[..m][..k] == items[..k] && items[..m][k] == items[k];
      DebitWithinStock(inv, items[..m], side, n, s);
    }
  }

  /** A sale that is accepted never leaves a `center` negative, even with
      several lines for the same size. */
  lemma SaleKeepsStockNonNegative(inv: Inventory, identity: string, items: seq<Item>)
    requires NonNegative(inv) && SaleOutcome(inv, identity, items).Accepted?
    ensures NonNegative(SaleOutcome(inv, identity, items).inventory)
  {
    forall n, s | n in inv && s in inv[n].styles
      ensures inv[n].styles[s] - Moved(items, n, s) >= 0
    {
      DebitWithinStock(inv, items, Plain, n, s);
    }
  }

  /** The same holds for the new items of an exchange. */
  lemma ExchangeKeepsStockNonNegative(inv: Inventory, identity: string, oldItems: seq<Item>, newItems: seq<Item>)
    requires NonNegative(inv) && ExchangeOutcome(inv, identity, oldItems, newItems).Accepted?
    ensures NonNegative(ExchangeOutcome(inv, identity, oldItems, newItems).inventory)
  {
    forall n, s | n in inv && s in inv[n].styles
      ensures inv[n].styles[s] - Moved(newItems, n, s) >= 0
    {
      DebitWithinStock(inv, newItems, NewSide, n, s);
    }
  }

  /** The first item of a sale asking for more than its cell holds is
      rejected as out of stock, and nothing is saved. */
  lemma OverdrawnSaleRejected(inv: Inventory, identity: string, name: string, size: string, qty: int)
    requires name in inv && size in inv[name].styles && inv[name].styles[size] < qty
    ensures SaleOutcome(inv, identity, [Item(name, Some(size), qty)]) == Rejected(OutOfStock(name, size))
  {
    var items := [Item(name, Some(size), qty)];
    assert items[..0] == [];
    assert Moved([], name, size) == 0;
    assert FirstRejection(inv, items, Plain, Out) == ItemRejection(inv, [], items[0], Plain, Out);
  }

  lemma {:induction false} MovedPrefix(items: seq<Item>, k: nat, n: string, s: string)
    requires k < |items|
    requires forall j :: 0 <= j < |items| ==> items[j].qty >= 0
    ensures Moved(items[..k], n, s) + (if items[k].name == n && items[k].size == Some(s) then items[k].qty else 0)
         <= Moved(items, n, s)
    decreases |items|
  {
    var m := |items| - 1;
    assert items[..m + 1][..m] == items[..m];
    if k < m {
      assert items[..m][..k] == items[..k];
      MovedPrefix(items[..m], k, n, s);
    }
  }

  /** After a return of `items`, a sale of the same items passes every
      check, provided quantities and counts are not negative. */
  lemma {:induction false} RestockedCovers(inv: Inventory, items: seq<Item>, j: nat)
    requires j <= |items|
    requires NonNegative(inv)
    requires forall k :: 0 <= k < |items| ==> items[k].qty >= 0
    requires FirstRejection(inv, items, Plain, In).None?
    ensures FirstRejection(Shift(inv, items, In), items[..j], Plain, Out).None?
  {
    if j > 0 {
      var m := j - 1;
      RestockedCovers(inv, items, m);
      assert items[..j][..m] == items[..m];
      var it := items[m];
      AcceptedIffAllPass(inv, items, Plain, In);
      assert ItemRejection(inv, items[..m], it, Plain, In).None?;
      MovedPrefix(items, m, it.name, it.size.value);
    }
  }

  lemma {:induction false} SubtotalSamePrices(a: Inventory, b: Inventory, items: seq<Item>)
    requires a.Keys == b.Keys && forall n :: n in a ==> a[n].price == b[n].price
    ensures Subtotal(a, items) == Subtotal(b, items)
  {
    if items != [] {
      SubtotalSamePrices(a, b, items[..|items| - 1]);
    }
  }

  /** Selling back exactly what was returned is accepted, restores the
      inventory to what it was before the return, and charges what the
      return refunded. */
  lemma ReturnThenSaleRestores(inv: Inventory, identity: string, items: seq<Item>)
    requires NonNegative(inv)
    requires forall k :: 0 <= k < |items| ==> items[k].qty >= 0
    requires ReturnOutcome(inv, identity, items).Accepted?
    ensures var back := ReturnOutcome(inv, identity, items);
            SaleOutcome(back.inventory, identity, items) == Accepted(inv, back.total)
  {
    var after := Shift(inv, items, In);
    RestockedCovers(inv, items, |items|);
    assert items[..|items|] == items;
    SubtotalSamePrices(inv, after, items);
    ShiftRoundTrip(inv, items);
  }

  /** Moving the same items in and then out gives back the inventory. */
  lemma ShiftRoundTrip(inv: Inventory, items: seq<Item>)
    ensures Shift(Shift(inv, items, In), items, Out) == inv
  {
    var restored := Shift(Shift(inv, items, In), items, Out);
    forall n | n in inv
      ensures restored[n] == inv[n]
    {
      forall s | s in inv[n].styles
        ensures restored[n].styles[s] == inv[n].styles[s]
      {
      }
      assert restored[n].styles == inv[n].styles;
    }
    assert restored == inv;
  }

  /** Existence and stock checks do not depend on which messages they use. */
  lemma {:induction false} SideIrrelevant(inv: Inventory, items: seq<Item>, a: Side, b: Side, dir: Direction)
    ensures FirstRejection(inv, items, a, dir).None? == FirstRejection(inv, items, b, dir).None?
    decreases |items|
  {
    if items != [] {
      SideIrrelevant(inv, items[..|items| - 1], a, b, dir);
    }
  }

  /** An accepted exchange leaves the inventory exactly as a gift of the
      new items would: the returned items are never put back. */
  lemma ExchangeNeverRestocks(inv: Inventory, identity: string, oldItems: seq<Item>, newItems: seq<Item>)
    requires ExchangeOutcome(inv, identity, oldItems, newItems).Accepted?
    ensures GiftOutcome(inv, newItems).Accepted?
    ensures ExchangeOutcome(inv, identity, oldItems, newItems).inventory == GiftOutcome(inv, newItems).inventory
  {
    SideIrrelevant(inv, newItems, NewSide, Plain, Out);
  }
}
