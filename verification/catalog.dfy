/**
 The product catalog as the storefront sees it: product records, the
 lookup by id (JavaScript's `find`) used to resolve the cart, and the
 stock filter that decides which products customers are shown.
 */
module Catalog {
  import opened Wrappers
  import Seqs

  /**
   A product document. `price` is in integer cents (the admin form only
   accepts prices >= 0); `stock` is a whole number of units.
   */
  datatype Product = Product(
    id: string,
    name: string,
    description: string,
    price: int,
    stock: int,
    imageUrl: string)

  /** Position of the first product whose id is `id`, if there is one. */
  function FirstIndex(products: seq<Product>, id: string): (r: Option<nat>)
    ensures r.None? <==> forall i :: 0 <= i < |products| ==> products[i].id != id
    ensures r.Some? ==> r.value < |products| && products[r.value].id == id
    ensures r.Some? ==> forall j :: 0 <= j < r.value ==> products[j].id != id
    decreases |products|
  {
    if |products| == 0 then None
    else if products[0].id == id then Some(0)
    else
      match FirstIndex(products[1..], id)
      case None => None
      case Some(k) => Some(k + 1)
  }

  /** `find` by id: the first product with that id, `None` where JavaScript gives `undefined`. */
  function Find(products: seq<Product>, id: string): (r: Option<Product>)
    ensures r.None? <==> forall i :: 0 <= i < |products| ==> products[i].id != id
    ensures r.Some? ==> r.value.id == id
    ensures r.Some? ==>
      exists i :: 0 <= i < |products| && products[i] == r.value &&
        forall j :: 0 <= j < i ==> products[j].id != id
  {
    match FirstIndex(products, id)
    case None => None
    case Some(i) => Some(products[i])
  }

  /** Every product price is at least zero, as the admin form enforces. */
  predicate PricesNonNegative(products: seq<Product>) {
    forall i :: 0 <= i < |products| ==> products[i].price >= 0
  }

  /**
   The customer catalog: the fetched products filtered on stock > 0. It holds
   every in-stock product as often as the fetched list does, and nothing else.
   */
  function InStock(products: seq<Product>): (r: seq<Product>)
    ensures forall p :: multiset(r)[p] == if p.stock > 0 then multiset(products)[p] else 0
    ensures forall i :: 0 <= i < |r| ==> r[i].stock > 0
    decreases |products|
  {
    if |products| == 0 then []
    else
      assert products == [products[0]] + products[1..];
      (if products[0].stock > 0 then [products[0]] else []) + InStock(products[1..])
  }

  /** The catalog keeps the fetched order. */
  lemma {:induction false} InStockKeepsOrder(products: seq<Product>)
    ensures Seqs.IsSubsequence(InStock(products), products)
    decreases |products|
  {
    if |products| == 0 {
      Seqs.SubsequenceEmpty(products);
    } else {
      var head, tail := products[0], products[1..];
      var rest := InStock(tail);
      InStockKeepsOrder(tail);
      if head.stock > 0 {
        assert InStock(products) == [head] + rest;
        Seqs.SubsequenceTake(rest, tail, head);
      } else {
        assert InStock(products) == rest;
        Seqs.SubsequenceSkip(rest, tail, head);
      }
      assert [head] + tail == products;
    }
  }

  /** Looking a product up in the catalog finds it only if it is in stock. */
  lemma FindInStock(products: seq<Product>, id: string)
    ensures Find(InStock(products), id).Some? ==>
      var p := Find(InStock(products), id).value;
      p.id == id && p.stock > 0 && p in products
  {
    var r := InStock(products);
    if Find(r, id).Some? {
      var p := Find(r, id).value;
      assert p in r;
      assert multiset(r)[p] > 0;
    }
  }
}
