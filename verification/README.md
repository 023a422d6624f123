# Campus shop point of sale — a Dafny model

This project models the two halves of a small point-of-sale web application
used at a campus souvenir shop.

- **The storefront page** (`static/main.js`) lists the products and keeps a cart.
  - The listing has a category filter, a keyword search and the canonical
    size order `S … 5XL`.
  - Each cart line is a product key with a size and a quantity.
  - Four wizards post a snapshot of the cart to the server: sale, gift,
    return and exchange. The exchange wizard first previews the price
    difference.
- **The inventory server** (`app.py`) handles those four transactions
  against an inventory, a JSON object that stores each product under a key
  with its name, its price and, per size, a counter stock count (`center`).
  The page's product list is that same object, fetched from the server.
  - Each handler checks every item in turn.
  - If any item fails, the handler answers with an error and saves nothing.
  - Otherwise it moves the stock and answers with the total. Alumni
    members, students and faculty get 10% off.
  - Every return appends lines to a return log. `relog_latest` reads that
    log back so the exchange wizard can offer the two latest returns.

## Modules

| file | module | contents |
|---|---|---|
| `shapes.dfy` | `Shapes` | the shared data: products and their sizes, catalog entries, transaction items, return records, the server's stock records, the discounted identities |
| `text.dfy` | `Text` | the string primitives the code relies on: Python `split()`, `int()` and `str()`, JavaScript `trim()`, `toLowerCase()` and `includes()` |
| `catalog.dfy` | `Listing` | the view rules: listing filter, size order, category options, default size of a new line, quantity choices, price by name |
| `pricing.dfy` | `Pricing` | the client's and the server's 90% rounding, and the exchange preview loop |
| `cart.dfy` | `Cart` | the cart as a value: line totals, how each cart operation changes the total, the wizard snapshot |
| `client.dfy` | `Client` | class `PosSession`: the page's cart, filters and wizard drafts, with one method per handler and wizard step |
| `server.dfy` | `Server` | the handlers: the specification of each (`SaleOutcome`, …), the loops as methods proved against them, and the stock properties |
| `returnlog.dfy` | `ReturnLog` | the lines `log_return` writes, the `relog_latest` parser as written, and a corrected parser |
| `agreement.dfy` | `Agreement` | the exchange preview against the server's exchange answer |

### How the model represents the system

- **The page's catalog** is a sequence of `key: product` entries in key
  order. The page's global state is a class whose methods reassign the
  cart and the draft fields.
- **The server's inventory** is a `map` from key to
  `Stock(price, styles)`; the handlers look each item's name up as a key.
  `Agreement.Mirrors` relates it to the page's catalog: the same keys and
  prices. Each handler is:
  - a specification function (`SaleOutcome`, `ReturnOutcome`,
    `ExchangeOutcome`, …) that gives the rejection of the first failing
    item, or the new inventory and the total;
  - a method with the handler's own loop, proved equal to that function.

  A rejected request returns no inventory: nothing is saved.
- **The return log** is a sequence of lines, one string per line, each
  ending in its newline.

## Model

| member | source | states |
|---|---|---|
| `Text.WordsAreWords` | app.py:237 | every word `split()` yields is non-empty and contains no whitespace |
| `Text.WordsOfWord` | app.py:237 | a whitespace-free word followed by whitespace or the end splits off as exactly that word |
| `Text.WordsOfSpace` | app.py:237 | leading whitespace yields no word |
| `Text.TrimStart` | static/main.js:113 | the result is a suffix; everything dropped is whitespace, and the result does not start with whitespace |
| `Text.TrimEnd` | static/main.js:113 | the result is a prefix; everything dropped is whitespace, and the result does not end with whitespace |
| `Text.Before` | app.py:234 | `split(']')[0]` is the longest prefix without `]`, and is followed by `]` when it is not the whole line |
| `Text.BeforeFirst` | app.py:234 | for `a + "]" + b` with no `]` in `a`, `split(']')[0]` is `a` |
| `Text.DropPrefix` | app.py:240 | `s[k:]` is the suffix of `s` that the first `k` characters complete to `s`; its length is `len(s) - k`, and 0 when `s` is shorter |
| `Text.IntToString` | app.py:212 | `str(n)` is non-empty and has no whitespace |
| `Text.ParseIntRoundTrip` | app.py:240 | `int(str(n)) == n` for every integer, negative included |
| `Listing.Sizes` | static/main.js:120 | `Object.keys(p.styles)` lists the sizes in the product's own order |
| `Listing.CenterOf` | static/main.js:199 | the stock of a size is defined exactly for the product's sizes, and is that size's `center` |
| `Listing.Lookup` | static/main.js:168 | `products[key]` is found exactly when some entry has that key, and is that entry's product |
| `Listing.KeepIn` | static/main.js:123 | `sizeOrder.filter(k => keys.includes(k))` holds exactly the canonical sizes the product has |
| `Listing.KeepInSorted` | static/main.js:123 | that filter lists the sizes in strictly increasing canonical rank |
| `Listing.CanonicalSizesSorted` | static/main.js:120-124 | when every size is canonical, the shown order is a permutation of the product's sizes in canonical order |
| `Listing.NonCanonicalSizesNative` | static/main.js:120-124 | one non-canonical size keeps the native key order |
| `Listing.CategoryOf` | static/main.js:108 | defined as `p.category \|\| "其他"`; the category shown is never empty |
| `Listing.ListedKeys` | static/main.js:104-118 | a key gets a card iff its product has styles, passes the category filter (`全部分類` or its own category) and matches the trimmed, lower-cased keyword in its name or in some size |
| `Listing.SizeLabelMatchExample` | static/main.js:113-117 | a keyword that matches only a size label still lists the product |
| `Listing.CategoryOptions` | static/main.js:148-162 | the category options are the categories of the products with styles, each once |
| `Listing.FirstInStock` | static/main.js:169 | the index of the first size in native order with `center > 0`; none exactly when no size has stock |
| `Listing.DefaultSizeIsFirstInStock` | static/main.js:169-170 | a new line starts on the first size in stock; it starts on null when nothing is in stock, and with non-empty size labels only then |
| `Listing.QtyRange` | static/main.js:201 | `n` values (none for `n <= 0`), exactly the integers `1..n`, in strictly increasing order |
| `Listing.QtyOptionsForSize` | static/main.js:198-201 | a line on a size offers exactly the quantities `1..center` of that size |
| `Listing.OutOfStockLineOffersNothing` | static/main.js:198-201 | a line added with nothing in stock has a null size and offers no quantity at all |
| `Listing.FirstNamed` | static/main.js:653 | `find(p => p.name === name)` is the first entry with that name, none when no entry has it |
| `Pricing.FloorNinety` | static/main.js:665 | `Math.floor(t * 0.9)` is the largest integer at most `9t/10` |
| `Pricing.TruncNinety` | app.py:132 | `int(t * 0.9)` is `9t/10` rounded toward zero, for both signs |
| `Pricing.ClientCharge` | static/main.js:663-667 | identities without a discount pay the total; discounted identities pay between 0 and the total on a non-negative total |
| `Pricing.ServerCharge` | app.py:131-132 | the same bounds for the server's charge |
| `Pricing.ChargesAgree` | app.py:285-287 | on every non-negative total the client's and the server's charge agree |
| `Pricing.ChargesDifferBelowZero` | app.py:286 | on a negative total they differ: −1 becomes −1 on the page and 0 on the server |
| `Pricing.ItemsValueAppend` | static/main.js:652-660 | the by-name value of two item lists is the sum of their values |
| `Pricing.ItemsTotal` | static/main.js:652-655 | the `forEach` loop computes the by-name value of the items (0 for an unknown name) |
| `Pricing.PreviewDifference` | static/main.js:649-669 | the displayed difference is the new side's charge minus the old side's charge, each discounted and floored separately |
| `Pricing.DifferenceExample` | static/main.js:663-669 | old 1000, new 1500 shows 450 for a student and 500 for an identity without a discount |
| `Pricing.SideBySideFlooring` | static/main.js:664-669 | flooring each side is not flooring the difference (9 against 8) |
| `Cart.CartTotalAppend` | static/main.js:244-249 | the total of two carts joined is the sum of their totals |
| `Cart.TotalAfterAdd` | static/main.js:172 | appending a line of quantity 1 raises the total by that product's price |
| `Cart.TotalAround` | static/main.js:244-249 | the total is the lines before `i`, plus line `i`, plus the lines after |
| `Cart.TotalAfterRemove` | static/main.js:239 | removing line `i` lowers the total by exactly that line's total |
| `Cart.TotalAfterReplace` | static/main.js:227-228 | replacing line `i` changes the total by the new line total minus the old one |
| `Cart.TotalAfterQty` | static/main.js:234 | changing a quantity changes the total by price times the change |
| `Cart.CartTotalPermutation` | static/main.js:246-249 | the total does not depend on the order of the lines |
| `Cart.Snapshot` | static/main.js:307-311 | the snapshot has one item per line: item `j` is the name of line `j`'s product with that line's size and quantity |
| `Cart.PriceByNameOfEntry` | static/main.js:653 | when names are unique, looking up a product's price by its name gives that product's price |
| `Cart.SnapshotValue` | static/main.js:652-660 | when names are unique, pricing the snapshot by name gives back the cart total |
| `Cart.SharedNameMisprices` | static/main.js:653 | two products named alike: the second one's line is priced as the first (300 in the cart, 100 in the preview) |
| `Client.PosSession.constructor` | static/main.js:4-8 | the page starts with an empty cart, every category, no search and empty drafts |
| `Client.PosSession.ShownKeys` | static/main.js:104-118 | the cards on show are exactly the products listed under the current filter and search |
| `Client.PosSession.SetSearch` | static/main.js:75-77 | typing sets the search text |
| `Client.PosSession.SetCategory` | static/main.js:83-85 | choosing sets the category filter |
| `Client.PosSession.AddToCart` | static/main.js:167-175 | appends exactly one line `{key, first size in stock or null, 1}` and keeps the earlier lines; the total rises by the price |
| `Client.PosSession.UpdateSize` | static/main.js:226-231 | line `i` takes the size and quantity 1, whatever its quantity was; other lines unchanged; the total changes by the line difference |
| `Client.PosSession.UpdateQty` | static/main.js:233-236 | line `i` takes the quantity, unchecked against stock; size and other lines unchanged; the total changes by price times the change |
| `Client.PosSession.RemoveFromCart` | static/main.js:238-242 | removes exactly line `i`, and lowers the total by its line total; an index past the end removes nothing |
| `Client.PosSession.UpdateTotal` | static/main.js:244-251 | the loop computes the sum of `price * qty` over the lines |
| `Client.PosSession.SaleStep1` | static/main.js:286-296 | advances iff an identity is chosen, and only then records identity and channel |
| `Client.PosSession.SaleStep2` | static/main.js:302-311 | refuses on an empty cart, else snapshots the cart into the sale draft |
| `Client.PosSession.SaleStep3` | static/main.js:337-343 | advances iff the order number is non-empty, and only then records it |
| `Client.PosSession.GiftStep1` | static/main.js:381-390 | refuses on an empty cart, else snapshots the cart into the gift draft |
| `Client.PosSession.GiftStep2` | static/main.js:416-422 | advances iff the giver's name is non-empty, and only then records it |
| `Client.PosSession.ReturnStep1` | static/main.js:462-500 | advances iff the cart is non-empty and an identity is chosen |
| `Client.PosSession.ReturnStep2` | static/main.js:506-511 | snapshots the cart into the return draft, with no emptiness check of its own |
| `Client.PosSession.ExchangeStep1` | static/main.js:587-597 | advances iff an identity is chosen |
| `Client.PosSession.ExchangeStep2` | static/main.js:620-628 | advances iff a record is chosen; that record's items become the old items |
| `Client.PosSession.ExchangeStep3` | static/main.js:634-669 | always stores the snapshot as new items; advances iff the cart is non-empty, and then shows the exchange difference |
| `Client.PosSession.ExchangeStep4` | static/main.js:685-704 | snapshots the cart again, then advances iff the order number is non-empty |
| `Client.PosSession.SubmissionSucceeded` | static/main.js:357-366 | after a successful submission the cart is empty and the catalog is the refreshed one |
| `Client.ExchangePreviewOfCart` | static/main.js:635-669 | when names are unique, the preview for the cart is its discounted cart total minus the old items' discounted value |
| `Server.MissingCell` | app.py:121-124 | an item is refused for a missing product or size exactly when its cell does not exist |
| `Server.Verdict` | app.py:121-126 | one turn's checks pass only on an existing cell |
| `Server.AcceptedIffAllPass` | app.py:116-128 | a request is accepted iff every item passes its checks against the counts the earlier items left |
| `Server.RejectionIsFirst` | app.py:116-126 | a rejection is the rejection of some item, all items before it having passed |
| `Server.RejectionPersists` | app.py:116-126 | once a prefix of the items is rejected, the whole request is rejected the same way |
| `Server.Shift` | app.py:128 | the inventory after the moves: each cell changes by the total quantity naming it; prices, keys and untouched cells stay |
| `Server.BumpCell` | app.py:128 | one item's update changes only its own cell, by its quantity |
| `Server.ShiftStep` | app.py:128 | one more item in the loop is one more in-place update of its cell |
| `Server.Turn` | app.py:116-129 | one turn of a handler's loop either rejects the whole request, or updates one cell and adds `price * qty` |
| `Server.Debit` | app.py:116-129 | the stock-out loop answers exactly `DebitOutcome`: the first rejection, else every cell reduced and the subtotal |
| `Server.Sale` | app.py:113-136 | `sale` answers exactly `SaleOutcome`: the debit, then the server's discount on the total |
| `Server.Gift` | app.py:148-174 | `gift` answers exactly `GiftOutcome`: the same checks and decrements, and no amount |
| `Server.Credit` | app.py:190-201 | the stock-in loop answers exactly `CreditOutcome`: the first missing cell, else every cell raised, with no upper bound |
| `Server.ReturnGoods` | app.py:187-204 | `return_goods` answers exactly `ReturnOutcome`: the credit, then the discount |
| `Server.PriceReturned` | app.py:264-270 | the first loop of `exchange` finds the first missing returned cell, else prices the old items |
| `Server.Exchange` | app.py:259-289 | `exchange` answers exactly `ExchangeOutcome`: old items checked and priced only, new items debited, `disc(new) - disc(old)` |
| `Server.DebitWithinStock` | app.py:125-128 | when every check passes, no cell gives out more than it held, duplicate lines included |
| `Server.SaleKeepsStockNonNegative` | app.py:125-128 | an accepted sale never leaves a `center` negative |
| `Server.ExchangeKeepsStockNonNegative` | app.py:279-281 | an accepted exchange never leaves a `center` negative |
| `Server.OverdrawnSaleRejected` | app.py:125-126 | a sale asking for more than the cell holds is rejected as out of stock |
| `Server.MovedPrefix` | app.py:128 | with non-negative quantities, the units moved through item `k` never exceed those moved in total |
| `Server.RestockedCovers` | app.py:200 | after a return, selling the same items passes every check |
| `Server.SubtotalSamePrices` | app.py:129 | the subtotal depends only on the prices |
| `Server.ReturnThenSaleRestores` | app.py:190-204 | selling back what was returned is accepted, restores the inventory and charges the refunded amount |
| `Server.ShiftRoundTrip` | app.py:200 | moving the same items in and then out gives back the inventory |
| `Server.SideIrrelevant` | app.py:268-278 | whether a request is accepted does not depend on which error messages the checks use |
| `Server.ExchangeNeverRestocks` | app.py:264-282 | an accepted exchange leaves the inventory exactly as a gift of the new items would: nothing returned is put back |
| `ReturnLog.SizeText` | app.py:212 | a size is written as itself, and the written text is a single word whenever the size is one (a null size included) |
| `ReturnLog.TakeTwo` | app.py:245 | `logs[:2]` is the first `min(2, len)` records |
| `ReturnLog.ReplayAppend` | app.py:230 | walking `a + b` from the end walks `b`, then `a` |
| `ReturnLog.RelogLatest` | app.py:220-245 | the parsing loop computes `Latest`, and never answers more than two records |
| `ReturnLog.ItemLineRoundTrip` | app.py:236-241 | an item line with single-word name and size parses back to that name, the written size and the quantity |
| `ReturnLog.ItemLineWords` | app.py:237 | `split()` of an item line gives `-`, name, size and `x-qty` |
| `ReturnLog.HeaderRoundTrip` | app.py:231-234 | a header line is recognised as one and gives back its timestamp |
| `ReturnLog.OtherLinesAreNotHeaders` | app.py:231-236 | the `退回：` line is neither a header nor an item line; an item line is an item line and not a header |
| `ReturnLog.ItemLinesReadBack` | app.py:211-212 | the item lines of a return all read back as its items |
| `ReturnLog.SkipLines` | app.py:236 | item lines seen before any header are dropped |
| `ReturnLog.AddLines` | app.py:236-241 | item lines are appended to the open record, the last line first |
| `ReturnLog.HeaderBlock` | app.py:231-235 | a header closes the open record and opens one with its time and no items |
| `ReturnLog.ReplayLog` | app.py:228-243 | the whole log, as written, gives each record the items of the next older return, reversed |
| `ReturnLog.LatestOfLog` | app.py:220-245 | `relog_latest` on a readable log answers the two newest returns as written (see Findings) |
| `ReturnLog.Intended` | app.py:206-212 | the intended records: the returns newest first, each with its own items in the order they were written |
| `ReturnLog.ReplayFixedAppend` | app.py:230 | the corrected walk over `a + b` walks `b`, then `a` |
| `ReturnLog.CollectLines` | app.py:236-241 | the corrected parser collects item lines ahead of the pending items |
| `ReturnLog.ReplayFixedLog` | app.py:228-243 | the corrected parser reads the whole log back as the intended records |
| `ReturnLog.FixedLatestOfLog` | app.py:220-245 | the corrected parser answers the two newest returns, each with its own items |
| `ReturnLog.AsWrittenMisattributes` | app.py:230-243 | two returns (A, then B): as written, the newest shows A and the older shows nothing |
| `ReturnLog.FixedAttributesOwnItems` | app.py:230-243 | the same log, corrected: the newest shows B and the older shows A |
| `Agreement.ValuesAgree` | static/main.js:652-660 | when the page and the server agree on prices, the page's by-name value is the server's subtotal |
| `Agreement.PreviewMatchesServer` | app.py:264-289 | with agreeing prices and non-negative totals, the page previews exactly the difference an accepted exchange answers |
| `Agreement.SnapshotPricesAgree` | static/main.js:653 | when the page's list is the server's inventory and every product is stored under its own name, every item of a cart snapshot has the same price on both sides |
| `Agreement.CartPreviewMatchesServer` | static/main.js:634-669 | under those conditions the exchange wizard's preview for the cart is the difference the server answers |
| `Agreement.KeyNotNameRefused` | app.py:121-122 | a cart whose first product's name is not a key of the inventory (the product being stored under another key) is refused by sale, gift and return as an unknown product of that name, and by exchange |
| `Agreement.KeyNotNameExample` | app.py:121-122 | with the page's list mirroring the inventory `{"T1": {name: "Tee", ...}}`, a sale of a cart line for `T1` is refused as the unknown product `Tee` |

## Left out

- Rendering (`innerHTML`, the dialog library's presentation, colours, the markup of the category options) is not modelled. A wizard step's dialog is its inputs and its `advanced` result.
- `fetch` calls, login, logout, page routes and the server's session check (the 403 answer) are not modelled. A handler starts from the inventory it loaded, and the refreshed catalog is a parameter.
- Loading and saving the inventory, writing the logs, and timestamps are not modelled. Saving is the `Accepted` inventory; a timestamp is an input string. The sale, gift and exchange logs are not modelled; the return log is modelled as its list of lines.
- A name, size, staff name or timestamp holding a line break, or `\r` under universal newlines, would split a log line. The model treats each written line as one line.
- Floating point `* 0.9` is computed exactly as `9t/10`, floored on the page and rounded toward zero on the server. Float rounding artefacts are not modelled.
- JavaScript numbers are doubles: the page's cart total (`updateTotal`) and the exchange sums are exact only up to 2^53, while the model's integers are unbounded.
- `parseInt` in `updateQty` and in the exchange record choice is not modelled; the quantity and the index are integers.
- Python's `int()` is modelled for an optional sign and ASCII digits only. Underscores, non-ASCII digits and surrounding whitespace inside a token are not accepted.
- `toLowerCase` maps only `A`–`Z`; other Unicode case mappings are not modelled. The whitespace of Python's `split()` and of JavaScript's `trim()` is modelled by each one's own character set.
- JSON fields other than price and `center` are not modelled: categories and names on the server side, and other stock counters.
- A request item missing its `name`, `size` or `qty` key (a `KeyError`, answered with 500) is not modelled. Items always carry the three fields; a null size is modelled.
- The gift response carries no amount; `GiftOutcome` records 0.
- Races between concurrent requests are not modelled; each handler runs alone.
- Transfer, restock, usage and escheat are not modelled; no code for them is part of this model.
- `ReturnLog.ItemLineRoundTrip`: holds only for names and sizes that `split()` gives back as one word. A name with a space shifts the fields, and the line is then read wrongly or raises.
- `ReturnLog.LatestOfLog`: stated only for logs whose every return has such items and a timestamp without `]`.
- `Agreement.PreviewMatchesServer`: stated only for non-negative totals, since below zero floor and truncation differ (`Pricing.ChargesDifferBelowZero`).
- `Client.PosSession.ExchangeStep2`: the chosen index is assumed to be one of the records shown. The page only offers those.

### Where the code and its description differ (the model follows the code)

- A new cart line starts on null when no size has stock, not on the first size.
- `updateQty` accepts any quantity, including one above the stock.
- The quantity choices run up to the stock (`center`) of the selected size.
- The drafts are not cleared after a successful submission; only the cart is.
- The exchange wizard snapshots the cart again in step 4.
- The return wizard's second step has no emptiness check of its own; the first step has one.
- The exchange wizard's step 3 stores the new items before it checks that there are any.
- `exchange` never puts the returned items back into stock.
- The page's product list and the server's inventory are the same object with the same keys. The page sends each item under its product's `name`, and every handler looks that name up as a key. A product stored under a key other than its name is listed and can be put in the cart, but every sale, gift, return and exchange of it is refused, unless some other product is stored under that name (`Agreement.KeyNotNameRefused`). When every key is its product's name, the page's prices agree with the server's (`Agreement.SnapshotPricesAgree`).
- The page's by-name price lookup finds the first product with the name.

## Findings

| source | as written | input that shows it | evidently intended | confidence | as-written member | corrected member |
|---|---|---|---|---|---|---|
| app.py:230-243 | `relog_latest` walks the log from the last line up. It attaches each item line to the header it has most recently seen, which is the next newer return. The newest return's own items are dropped, and the oldest record ends with no items. | Two returns, the first of `Tee M x1` (t1), then one of `Cap L x2` (t2). Answer: `[t2: Tee M 1, t1: nothing]`. | `[t2: Cap L 2, t1: Tee M 1]`: each record with the items written under its own header. The exchange wizard takes a record's items as the returned items. | not executed | `ReturnLog.AsWrittenMisattributes` | `ReturnLog.FixedAttributesOwnItems` |

- **Parser model.** `ReturnLog.LatestOfLog` states the as-written behaviour for any readable log. `ReturnLog.FixedLatestOfLog` proves that the corrected parser, `ReturnLog.FixedLatest`, answers the two newest returns with their own items.
- **Corrected parser.** It collects item lines until their header arrives. It is modelled beside the original; the page still receives whatever records it is given.
