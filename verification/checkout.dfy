/**
 The checkout page: the order document built from the cart when the form is
 submitted, the form's required fields, and what happens to the cart
 afterwards.
 */
module Checkout {
  import Seqs
  import opened Catalog
  import opened Cart
  import opened Pricing

  /**
   One order line: the product's id, name and price as they were when the
   order was placed, and the quantity bought.
   */
  datatype LineItem = LineItem(id: string, name: string, quantity: int, price: int)

  /**
   An order document. `createdAt` is the submission time, a reading of the
   clock supplied by the caller.
   */
  datatype Order = Order(
    customerName: string,
    customerEmail: string,
    items: seq<LineItem>,
    total: int,
    status: string,
    createdAt: int)

  const StatusNew: string := "new"
  const StatusShipped: string := "shipped"

  /** The order line for a resolved cart item: its id, name, quantity and price. */
  function Snapshot(item: CartItem): LineItem {
    LineItem(item.product.id, item.product.name, item.quantity, item.product.price)
  }

  /** The resolved cart items mapped to order lines, in order. */
  function Snapshots(items: seq<CartItem>): seq<LineItem>
    decreases |items|
  {
    if |items| == 0 then [] else [Snapshot(items[0])] + Snapshots(items[1..])
  }

  lemma {:induction false} SnapshotsAt(items: seq<CartItem>)
    ensures |Snapshots(items)| == |items|
    ensures forall k :: 0 <= k < |items| ==> Snapshots(items)[k] == Snapshot(items[k])
    decreases |items|
  {
    if |items| != 0 {
      SnapshotsAt(items[1..]);
    }
  }

  function LineTotal(line: LineItem): int {
    line.price * line.quantity
  }

  /** Snapshotting keeps every line's price times quantity. */
  lemma {:induction false} SnapshotsKeepTotal(items: seq<CartItem>)
    ensures Seqs.Sum(Snapshots(items), LineTotal) == Seqs.Sum(items, LineValue)
    decreases |items|
  {
    if |items| != 0 {
      SnapshotsKeepTotal(items[1..]);
      assert Snapshots(items)[1..] == Snapshots(items[1..]);
    }
  }

  function LineIds(lines: seq<LineItem>): seq<string> {
    seq(|lines|, k requires 0 <= k < |lines| => lines[k].id)
  }

  /**
   The order `handleSubmit` writes: status "new", one line per cart entry
   whose product resolves (with that product's name and current price and
   the entry's quantity), and a total equal both to the cart subtotal and to
   the sum over its own lines.
   */
  function BuildOrder(name: string, email: string, c: Cart, products: seq<Product>, now: int): (o: Order)
    ensures o.customerName == name && o.customerEmail == email && o.createdAt == now
    ensures o.status == StatusNew
    ensures o.total == Subtotal(c, products)
    ensures o.total == Seqs.Sum(o.items, LineTotal)
    ensures forall k :: 0 <= k < |o.items| ==>
      && Entry(o.items[k].id, o.items[k].quantity) in c
      && Resolves(products, o.items[k].id)
      && o.items[k].name == Find(products, o.items[k].id).value.name
      && o.items[k].price == Find(products, o.items[k].id).value.price
    ensures forall id :: id in LineIds(o.items) <==> id in Keys(c) && Resolves(products, id)
  {
    var items := Resolve(c, products);
    ResolveContents(c, products);
    SnapshotsAt(items);
    SnapshotsKeepTotal(items);
    assert LineIds(Snapshots(items)) == ItemIds(items);
    Order(name, email, Snapshots(items), Total(items), StatusNew, now)
  }

  /**
   The order's lines follow the cart's order and, since a cart holds each
   product once, name each product at most once.
   */
  lemma OrderLinesFollowCart(name: string, email: string, c: Cart, products: seq<Product>, now: int)
    ensures Seqs.IsSubsequence(LineIds(BuildOrder(name, email, c, products, now).items), Ids(c))
    ensures DistinctIds(c) ==> Seqs.Distinct(LineIds(BuildOrder(name, email, c, products, now).items))
  {
    var items := Resolve(c, products);
    SnapshotsAt(items);
    assert LineIds(Snapshots(items)) == ItemIds(items);
    ResolveKeepsOrder(c, products);
    if DistinctIds(c) {
      Seqs.SubsequenceDistinct(ItemIds(items), Ids(c));
    }
  }

  /** With non-negative prices an order's total is never negative. */
  lemma OrderTotalNonNegative(name: string, email: string, c: Cart, products: seq<Product>, now: int)
    requires Valid(c) && PricesNonNegative(products)
    ensures BuildOrder(name, email, c, products, now).total >= 0
  {
    SubtotalNonNegative(c, products);
  }

  /**
   The storefront resolves the cart against its catalog of in-stock
   products, so every line of an order it places names a fetched product that
   had stock, at that product's price.
   */
  lemma OrderLinesInStock(name: string, email: string, c: Cart, fetched: seq<Product>, now: int)
    ensures var o := BuildOrder(name, email, c, InStock(fetched), now);
      forall k :: 0 <= k < |o.items| ==> FetchedInStock(fetched, o.items[k])
  {
    var o := BuildOrder(name, email, c, InStock(fetched), now);
    forall k | 0 <= k < |o.items| ensures FetchedInStock(fetched, o.items[k]) {
      var line := o.items[k];
      FindInStock(fetched, line.id);
      assert Find(InStock(fetched), line.id).value in fetched;
    }
  }

  /** Some fetched product with stock has this line's id and price. */
  ghost predicate FetchedInStock(fetched: seq<Product>, line: LineItem) {
    exists p :: p in fetched && p.id == line.id && p.stock > 0 && p.price == line.price
  }

  /** The browser's `required` check on the checkout form, first field first. */
  datatype FormError = NameRequired | EmailRequired

  /** What submitting the checkout form leads to. */
  datatype Submission = Blocked(error: FormError) | WriteFailed | Placed(order: Order)

  /**
   Submitting the checkout form: an empty required field blocks the submit;
   otherwise exactly one order document is written, and `writeSucceeds` is
   the outcome of that write.
   */
  function Submit(name: string, email: string, c: Cart, products: seq<Product>, now: int,
                  writeSucceeds: bool): (r: Submission)
    ensures r.Blocked? <==> name == "" || email == ""
    ensures r == Blocked(NameRequired) <==> name == ""
    ensures r.Placed? <==> name != "" && email != "" && writeSucceeds
    ensures r.Placed? ==> r.order == BuildOrder(name, email, c, products, now)
    ensures r.Placed? ==> r.order.status == StatusNew && r.order.total == Subtotal(c, products)
  {
    if name == "" then Blocked(NameRequired)
    else if email == "" then Blocked(EmailRequired)
    else if !writeSucceeds then WriteFailed
    else Placed(BuildOrder(name, email, c, products, now))
  }

  /**
   Nothing stops a submit whose cart no longer resolves against the catalog
   (the catalog can change while the checkout page is open): the order is
   placed with no lines and a total of 0.
   */
  lemma NothingResolvesEmptyOrder(name: string, email: string, c: Cart, products: seq<Product>, now: int)
    requires name != "" && email != ""
    requires forall i :: 0 <= i < |c| ==> !Resolves(products, c[i].id)
    ensures Submit(name, email, c, products, now, true).Placed?
    ensures Submit(name, email, c, products, now, true).order.items == []
    ensures Submit(name, email, c, products, now, true).order.total == 0
  {
    var items := Resolve(c, products);
    ResolveContents(c, products);
  }

  /**
   The cart after a submission: `handleCheckoutSuccess` empties it when the
   order was placed; a blocked or failed submission leaves it as it was.
   Either way the cart invariant is kept.
   */
  function CartAfter(c: Cart, r: Submission): (c': Cart)
    ensures r.Placed? ==> Keys(c') == {} && Count(c') == 0
    ensures !r.Placed? ==> c' == c
    ensures Valid(c) ==> Valid(c')
  {
    if r.Placed? then Empty() else c
  }
}
