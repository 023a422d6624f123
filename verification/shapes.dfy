/** The data shapes shared by the storefront client and the inventory server.
    The catalog a client receives and the inventory file the server keeps are
    the same JSON object: product name -> {name, price, category, styles},
    where styles maps a size label to {center: stock count}. */
module Shapes {

  datatype Option<+T> = None | Some(value: T)

  /** One size of a product with its front-counter stock count (`center`). */
  datatype Variant = Variant(size: string, center: int)

  /** A product as the client sees it. `category` is None when the field is
      absent; `styles` is None when the field is absent or not an object.
      The variants are kept in the order `Object.keys` yields them. */
  datatype Product = Product(name: string, price: int, category: Option<string>, styles: Option<seq<Variant>>)

  /** One `key: product` pair of the catalog object, in key order. */
  datatype Entry = Entry(key: string, product: Product)

  type Catalog = seq<Entry>

  /** A transaction line `{name, size, qty}` as the wizards send it and the
      server reads it. The size is null for a cart line added while no size
      had stock. */
  datatype Item = Item(name: string, size: Option<string>, qty: int)

  /** A return-log record `{time, items}` as the exchange wizard receives it. */
  datatype ReturnRecord = ReturnRecord(time: string, items: seq<Item>)

  /** The server's view of one product record: its price and, per size,
      the `center` stock count. */
  datatype Stock = Stock(price: int, styles: map<string, int>)

  type Inventory = map<string, Stock>

  /** The identities that get 10% off: alumni member, current student, faculty. */
  const DiscountedIdentities: seq<string> := ["校友會員", "在校生", "師長"]

  predicate IsDiscounted(identity: string)
  {
    identity in DiscountedIdentities
  }

  /** A sequence without repeated elements. */
  ghost predicate Distinct<T>(s: seq<T>)
  {
    forall i, j :: 0 <= i < j < |s| ==> s[i] != s[j]
  }
}
