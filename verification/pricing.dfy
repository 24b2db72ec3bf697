/**
 The cart as the sidebar and the checkout page show it: each cart entry is
 joined with its product (found by id), entries without a product are
 dropped, and the subtotal is the sum of price times quantity.
 */
module Pricing {
  import opened Wrappers
  import Seqs
  import opened Catalog
  import opened Cart

  /** A cart entry joined with its product: the product's fields plus the quantity. */
  datatype CartItem = CartItem(product: Product, quantity: int)

  /**
   Whether a cart key survives the filter on a truthy item id: `find` returned
   a product, and that product's id (equal to the key) is not the empty string.
   */
  predicate Resolves(products: seq<Product>, id: string) {
    Find(products, id).Some? && id != ""
  }

  function ItemIds(items: seq<CartItem>): seq<string> {
    seq(|items|, k requires 0 <= k < |items| => items[k].product.id)
  }

  /**
   `cartItems`: the cart's entries in order, each joined with the first
   product of that id, keeping only the entries whose id resolves.
   */
  function Resolve(c: Cart, products: seq<Product>): seq<CartItem>
    decreases |c|
  {
    if |c| == 0 then []
    else
      var rest := Resolve(c[1..], products);
      if Resolves(products, c[0].id) then [CartItem(Find(products, c[0].id).value, c[0].qty)] + rest
      else rest
  }

  /**
   The resolved items are exactly the cart entries whose id resolves, each
   paired with the first product of that id and the entry's own quantity.
   */
  lemma {:induction false} ResolveContents(c: Cart, products: seq<Product>)
    ensures var r := Resolve(c, products);
      && |r| <= |c|
      && (forall k :: 0 <= k < |r| ==>
            && Resolves(products, r[k].product.id)
            && Find(products, r[k].product.id) == Some(r[k].product)
            && Entry(r[k].product.id, r[k].quantity) in c)
      && (forall id :: id in ItemIds(r) <==> id in Keys(c) && Resolves(products, id))
    decreases |c|
  {
    if |c| != 0 {
      KeysCons(c);
      var rest := Resolve(c[1..], products);
      ResolveContents(c[1..], products);
      if Resolves(products, c[0].id) {
        var item := CartItem(Find(products, c[0].id).value, c[0].qty);
        assert ItemIds([item] + rest) == [c[0].id] + ItemIds(rest);
      }
    }
  }

  /** The resolved items keep the cart's order. */
  lemma {:induction false} ResolveKeepsOrder(c: Cart, products: seq<Product>)
    ensures Seqs.IsSubsequence(ItemIds(Resolve(c, products)), Ids(c))
    decreases |c|
  {
    if |c| == 0 {
      Seqs.SubsequenceEmpty(Ids(c));
    } else {
      var rest := ItemIds(Resolve(c[1..], products));
      ResolveKeepsOrder(c[1..], products);
      assert Ids(c) == [c[0].id] + Ids(c[1..]);
      if Resolves(products, c[0].id) {
        assert ItemIds(Resolve(c, products)) == [c[0].id] + rest;
        Seqs.SubsequenceTake(rest, Ids(c[1..]), c[0].id);
      } else {
        assert ItemIds(Resolve(c, products)) == rest;
        Seqs.SubsequenceSkip(rest, Ids(c[1..]), c[0].id);
      }
    }
  }

  function LineValue(item: CartItem): int {
    item.product.price * item.quantity
  }

  /** The subtotal fold: price times quantity added up from 0, left to right. */
  function Total(items: seq<CartItem>): (t: int)
    ensures t == Seqs.Sum(items, LineValue)
  {
    Seqs.ReduceIsSum(items, LineValue, 0);
    Seqs.Reduce(items, LineValue, 0)
  }

  /** The subtotal shown in the sidebar and on the checkout page. */
  function Subtotal(c: Cart, products: seq<Product>): int {
    Total(Resolve(c, products))
  }

  /** The price of the product a key resolves to, zero when it does not resolve. */
  function UnitPrice(products: seq<Product>, id: string): int {
    if Resolves(products, id) then Find(products, id).value.price else 0
  }

  /** With non-negative prices, a valid cart never has a negative subtotal. */
  lemma SubtotalNonNegative(c: Cart, products: seq<Product>)
    requires Valid(c) && PricesNonNegative(products)
    ensures Subtotal(c, products) >= 0
  {
    var items := Resolve(c, products);
    ResolveContents(c, products);
    forall k | 0 <= k < |items| ensures LineValue(items[k]) >= 0 {
      var i :| 0 <= i < |products| && products[i] == items[k].product;
      assert items[k].quantity >= 1 by {
        var e := Entry(items[k].product.id, items[k].quantity);
        var j :| 0 <= j < |c| && c[j] == e;
      }
    }
    Seqs.SumNonNegative(items, LineValue);
  }

  /** The empty cart has subtotal 0. */
  lemma SubtotalEmpty(products: seq<Product>)
    ensures Subtotal(Empty(), products) == 0
  {
  }

  /** The sum of line values of the items resolved from a cart. */
  function ResolvedSum(c: Cart, products: seq<Product>): int {
    Seqs.Sum(Resolve(c, products), LineValue)
  }

  /** Peeling the first cart entry off the resolved sum. */
  lemma ResolvedSumCons(c: Cart, products: seq<Product>)
    requires |c| > 0
    ensures ResolvedSum(c, products)
      == UnitPrice(products, c[0].id) * c[0].qty + ResolvedSum(c[1..], products)
  {
    var rest := Resolve(c[1..], products);
    if Resolves(products, c[0].id) {
      var item := CartItem(Find(products, c[0].id).value, c[0].qty);
      assert Resolve(c, products) == [item] + rest;
      assert ([item] + rest)[1..] == rest;
    } else {
      assert Resolve(c, products) == rest;
    }
  }

  lemma {:induction false} ResolvedSumPut(c: Cart, products: seq<Product>, id: string, q: int)
    ensures ResolvedSum(Put(c, id, q), products)
      == ResolvedSum(c, products) + UnitPrice(products, id) * (q - QuantityOf(c, id))
    decreases |c|
  {
    if |c| == 0 {
      var r := Put(c, id, q);
      ResolvedSumCons(r, products);
      assert r[1..] == [];
    } else if c[0].id == id {
      ResolvedSumPutHere(c, products, id, q);
    } else {
      ResolvedSumPut(c[1..], products, id, q);
      ResolvedSumPutLater(c, products, id, q);
    }
  }

  /** `Put` on the key of the first entry replaces just that entry. */
  lemma ResolvedSumPutHere(c: Cart, products: seq<Product>, id: string, q: int)
    requires |c| > 0 && c[0].id == id
    ensures ResolvedSum(Put(c, id, q), products)
      == ResolvedSum(c, products) + UnitPrice(products, id) * (q - QuantityOf(c, id))
  {
    var r := Put(c, id, q);
    var u, old_q := UnitPrice(products, id), c[0].qty;
    ResolvedSumCons(c, products);
    ResolvedSumCons(r, products);
    assert r[0] == Entry(id, q) && r[1..] == c[1..];
    assert QuantityOf(c, id) == old_q;
    MulSub(u, q, old_q);
  }

  /** `Put` on a later key keeps the first entry and recurses on the rest. */
  lemma ResolvedSumPutLater(c: Cart, products: seq<Product>, id: string, q: int)
    requires |c| > 0 && c[0].id != id
    requires ResolvedSum(Put(c[1..], id, q), products)
      == ResolvedSum(c[1..], products) + UnitPrice(products, id) * (q - QuantityOf(c[1..], id))
    ensures ResolvedSum(Put(c, id, q), products)
      == ResolvedSum(c, products) + UnitPrice(products, id) * (q - QuantityOf(c, id))
  {
    var r := Put(c, id, q);
    ResolvedSumCons(c, products);
    ResolvedSumCons(r, products);
    assert r[0] == c[0] && r[1..] == Put(c[1..], id, q);
    QuantityOfCons(c, id);
  }

  lemma MulSub(u: int, a: int, b: int)
    ensures u * a - u * b == u * (a - b)
  {
  }

  lemma SubtotalPut(c: Cart, products: seq<Product>, id: string, q: int)
    requires DistinctIds(c)
    ensures Subtotal(Put(c, id, q), products)
      == Subtotal(c, products) + UnitPrice(products, id) * (q - QuantityOf(c, id))
  {
    ResolvedSumPut(c, products, id, q);
  }

  lemma {:induction false} SubtotalRemove(c: Cart, products: seq<Product>, id: string)
    requires DistinctIds(c)
    ensures Subtotal(Remove(c, id), products)
      == Subtotal(c, products) - UnitPrice(products, id) * QuantityOf(c, id)
    decreases |c|
  {
    if |c| != 0 {
      DistinctIdsCons(c);
      SubtotalRemove(c[1..], products, id);
      ResolvedSumCons(c, products);
      if c[0].id != id {
        ResolvedSumCons(Remove(c, id), products);
      }
    }
  }

  /**
   "Add to Cart" raises the subtotal by the product's price when the product
   is in the list the cart resolves against, and leaves it alone otherwise.
   */
  lemma AddToCartSubtotal(c: Cart, products: seq<Product>, id: string)
    requires DistinctIds(c)
    ensures Subtotal(AddToCart(c, id), products) == Subtotal(c, products) + UnitPrice(products, id)
  {
    SubtotalPut(c, products, id, QuantityOf(c, id) + 1);
  }

  /**
   `updateQuantity` changes the subtotal by the product's price times the
   change in its quantity; an entry that does not resolve never counts.
   */
  lemma UpdateQuantitySubtotal(c: Cart, products: seq<Product>, id: string, q: int)
    requires DistinctIds(c)
    ensures q > 0 ==>
      Subtotal(UpdateQuantity(c, id, q), products)
        == Subtotal(c, products) + UnitPrice(products, id) * (q - QuantityOf(c, id))
    ensures q <= 0 ==>
      Subtotal(UpdateQuantity(c, id, q), products)
        == Subtotal(c, products) - UnitPrice(products, id) * QuantityOf(c, id)
  {
    if q > 0 {
      assert UpdateQuantity(c, id, q) == Put(c, id, q);
      SubtotalPut(c, products, id, q);
    } else {
      assert UpdateQuantity(c, id, q) == Remove(c, id);
      SubtotalRemove(c, products, id);
    }
  }

}
