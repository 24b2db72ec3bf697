/**
 The shopping cart held by the storefront: an object from product id to
 quantity. JavaScript keeps an object's properties in insertion order, and
 the cart sidebar, the checkout summary and the order's line items all list
 the cart in that order, so the cart is modelled as a sequence of entries
 with distinct ids. `Quantities` is its plain map view.
 */
module Cart {
  import opened Wrappers
  import Seqs

  /** One property of the cart object: product `id` with quantity `qty`. */
  datatype Entry = Entry(id: string, qty: int)

  /** The cart object, its properties in insertion order. */
  type Cart = seq<Entry>

  /** The cart's keys in insertion order. */
  function Ids(c: Cart): seq<string> {
    seq(|c|, i requires 0 <= i < |c| => c[i].id)
  }

  function Keys(c: Cart): set<string> {
    set i | 0 <= i < |c| :: c[i].id
  }

  /** An object holds each key at most once. */
  predicate DistinctIds(c: Cart) {
    Seqs.Distinct(Ids(c))
  }

  /** The cart invariant: one entry per product, and every stored quantity is at least 1. */
  predicate Valid(c: Cart) {
    && DistinctIds(c)
    && forall i :: 0 <= i < |c| ==> c[i].qty >= 1
  }

  /** A cart has distinct keys exactly when its tail does and its head key is not among them. */
  lemma DistinctIdsCons(c: Cart)
    requires |c| > 0
    ensures DistinctIds(c) <==> DistinctIds(c[1..]) && c[0].id !in Keys(c[1..])
  {
    var ids, tail := Ids(c), c[1..];
    assert Ids(tail) == ids[1..];
    if DistinctIds(c) {
      forall i | 0 <= i < |tail| ensures tail[i].id != c[0].id {
        assert ids[0] != ids[i + 1];
      }
    }
    if DistinctIds(tail) && c[0].id !in Keys(tail) {
      forall i, j | 0 <= i < j < |ids| ensures ids[i] != ids[j] {
        if i == 0 {
          assert ids[j] == tail[j - 1].id;
        } else {
          assert Ids(tail)[i - 1] != Ids(tail)[j - 1];
        }
      }
    }
  }

  lemma KeysCons(c: Cart)
    requires |c| > 0
    ensures Keys(c) == {c[0].id} + Keys(c[1..])
  {
    forall k | k in Keys(c) ensures k in {c[0].id} + Keys(c[1..]) {
      var i :| 0 <= i < |c| && c[i].id == k;
      if i > 0 {
        assert c[1..][i - 1].id == k;
      }
    }
    forall k | k in Keys(c[1..]) ensures k in Keys(c) {
      var i :| 0 <= i < |c[1..]| && c[1..][i].id == k;
      assert c[i + 1].id == k;
    }
  }

  /** Reading the cart at key `id`: the stored quantity, `None` when the key is absent. */
  function Lookup(c: Cart, id: string): (r: Option<int>)
    ensures r.None? <==> id !in Keys(c)
    ensures r.Some? ==> Entry(id, r.value) in c
    decreases |c|
  {
    if |c| == 0 then None
    else
      KeysCons(c);
      if c[0].id == id then Some(c[0].qty) else Lookup(c[1..], id)
  }

  /** The quantity of `id`, falling back to zero when the key is absent. */
  function QuantityOf(c: Cart, id: string): int {
    Lookup(c, id).GetOr(0)
  }

  /** `QuantityOf` peels off the first entry. */
  lemma QuantityOfCons(c: Cart, id: string)
    requires |c| > 0
    ensures QuantityOf(c, id) == if c[0].id == id then c[0].qty else QuantityOf(c[1..], id)
  {
  }

  /** A valid cart never reports a negative quantity. */
  lemma QuantityOfValid(c: Cart, id: string)
    ensures Valid(c) ==> QuantityOf(c, id) >= 0
  {
    if Valid(c) && id in Keys(c) {
      assert Entry(id, Lookup(c, id).value) in c;
    }
  }

  /** The cart as a finite map from product id to quantity. */
  function Quantities(c: Cart): (m: map<string, int>)
    ensures m.Keys == Keys(c)
    ensures forall k :: k in m ==> Lookup(c, k) == Some(m[k])
  {
    map k | k in Keys(c) :: QuantityOf(c, k)
  }

  /**
   Two carts whose lookups agree on every key have the same map view; this is
   how the "nothing else changes" contracts below are stated on maps.
   */
  lemma QuantitiesFromLookup(a: Cart, m: map<string, int>)
    requires forall k :: Lookup(a, k) == if k in m then Some(m[k]) else None
    ensures Quantities(a) == m
  {
    var qa := Quantities(a);
    assert qa.Keys == m.Keys by {
      forall k ensures k in qa.Keys <==> k in m.Keys {
        assert Lookup(a, k) == if k in m then Some(m[k]) else None;
      }
    }
    forall k | k in m ensures qa[k] == m[k] {
      assert Lookup(a, k) == Some(m[k]);
    }
  }

  /**
   Assigning quantity `q` to key `id` on a copy of the cart: an existing
   property keeps its place, a new one is appended at the end.
   */
  function Put(c: Cart, id: string, q: int): Cart
    decreases |c|
  {
    if |c| == 0 then [Entry(id, q)]
    else if c[0].id == id then [Entry(id, q)] + c[1..]
    else [c[0]] + Put(c[1..], id, q)
  }

  /** After `Put`, `id` maps to `q` and every other key keeps its quantity. */
  lemma {:induction false} PutLookup(c: Cart, id: string, q: int, k: string)
    ensures Lookup(Put(c, id, q), k) == if k == id then Some(q) else Lookup(c, k)
    decreases |c|
  {
    if |c| != 0 && c[0].id != id {
      PutLookup(c[1..], id, q, k);
      assert Put(c, id, q)[1..] == Put(c[1..], id, q);
    }
  }

  /** `Put` keeps the key order, appending a key it did not have. */
  lemma {:induction false} PutIds(c: Cart, id: string, q: int)
    ensures id in Keys(c) ==> Ids(Put(c, id, q)) == Ids(c)
    ensures id !in Keys(c) ==> Ids(Put(c, id, q)) == Ids(c) + [id]
    decreases |c|
  {
    if |c| != 0 {
      KeysCons(c);
      var r := Put(c, id, q);
      assert Ids(c) == [c[0].id] + Ids(c[1..]);
      if c[0].id != id {
        PutIds(c[1..], id, q);
        assert Ids(r) == [c[0].id] + Ids(Put(c[1..], id, q));
      } else {
        assert Ids(r) == [id] + Ids(c[1..]);
      }
    }
  }

  /** Every entry after `Put` is the new one or was already there. */
  lemma {:induction false} PutEntries(c: Cart, id: string, q: int)
    ensures forall e :: e in Put(c, id, q) ==> e == Entry(id, q) || e in c
    decreases |c|
  {
    if |c| != 0 && c[0].id != id {
      PutEntries(c[1..], id, q);
    }
  }

  lemma PutFacts(c: Cart, id: string, q: int)
    ensures var r := Put(c, id, q);
      && (forall k :: Lookup(r, k) == if k == id then Some(q) else Lookup(c, k))
      && (id in Keys(c) ==> Ids(r) == Ids(c))
      && (id !in Keys(c) ==> Ids(r) == Ids(c) + [id])
      && (forall e :: e in r ==> e == Entry(id, q) || e in c)
  {
    forall k ensures Lookup(Put(c, id, q), k) == if k == id then Some(q) else Lookup(c, k) {
      PutLookup(c, id, q, k);
    }
    PutIds(c, id, q);
    PutEntries(c, id, q);
  }

  lemma PutValid(c: Cart, id: string, q: int)
    ensures DistinctIds(c) ==> DistinctIds(Put(c, id, q))
    ensures Valid(c) && q >= 1 ==> Valid(Put(c, id, q))
  {
    var r := Put(c, id, q);
    PutIds(c, id, q);
    PutEntries(c, id, q);
    if DistinctIds(c) {
      if id in Keys(c) {
        assert forall i :: 0 <= i < |r| ==> r[i].id == Ids(c)[i];
      } else {
        assert forall i :: 0 <= i < |r| ==> r[i].id == (Ids(c) + [id])[i];
        forall i | 0 <= i < |c| ensures c[i].id != id {
          assert c[i].id in Keys(c);
        }
      }
    }
    if Valid(c) && q >= 1 {
      forall i | 0 <= i < |r| ensures r[i].qty >= 1 {
        assert r[i] in r;
      }
    }
  }

  lemma QuantitiesPut(c: Cart, id: string, q: int)
    ensures Quantities(Put(c, id, q)) == Quantities(c)[id := q]
  {
    var r, m := Put(c, id, q), Quantities(c)[id := q];
    PutFacts(c, id, q);
    forall k ensures Lookup(r, k) == if k in m then Some(m[k]) else None {
      if k != id && k !in Keys(c) {
        assert Lookup(c, k) == None;
      }
    }
    QuantitiesFromLookup(r, m);
  }

  /** Deleting key `id` from a copy of the cart: the property goes, the rest keep their order. */
  function Remove(c: Cart, id: string): Cart
    decreases |c|
  {
    if |c| == 0 then []
    else if c[0].id == id then Remove(c[1..], id)
    else [c[0]] + Remove(c[1..], id)
  }

  /** After `Remove`, `id` is gone and every other entry is still there. */
  lemma {:induction false} RemoveFacts(c: Cart, id: string)
    ensures var r := Remove(c, id);
      && (forall k :: Lookup(r, k) == if k == id then None else Lookup(c, k))
      && (forall e :: e in r <==> e in c && e.id != id)
    decreases |c|
  {
    if |c| != 0 {
      KeysCons(c);
      RemoveFacts(c[1..], id);
      assert c == [c[0]] + c[1..];
    }
  }

  lemma {:induction false} RemoveKeepsOrder(c: Cart, id: string)
    ensures Seqs.IsSubsequence(Remove(c, id), c)
    decreases |c|
  {
    if |c| == 0 {
      Seqs.SubsequenceEmpty(c);
    } else {
      var head, tail := c[0], c[1..];
      var rest := Remove(tail, id);
      RemoveKeepsOrder(tail, id);
      if head.id == id {
        assert Remove(c, id) == rest;
        Seqs.SubsequenceSkip(rest, tail, head);
      } else {
        assert Remove(c, id) == [head] + rest;
        Seqs.SubsequenceTake(rest, tail, head);
      }
      assert [head] + tail == c;
    }
  }

  lemma {:induction false} RemoveValid(c: Cart, id: string)
    ensures DistinctIds(c) ==> DistinctIds(Remove(c, id))
    ensures Valid(c) ==> Valid(Remove(c, id))
    decreases |c|
  {
    if |c| != 0 {
      var head, tail := c[0], c[1..];
      var rest := Remove(tail, id);
      DistinctIdsCons(c);
      RemoveValid(tail, id);
      RemoveFacts(tail, id);
      if head.id != id && DistinctIds(c) {
        var r := Remove(c, id);
        assert r == [head] + rest;
        assert r[1..] == rest;
        assert head.id !in Keys(rest) by {
          forall j | 0 <= j < |rest| ensures rest[j].id != head.id {
            assert rest[j] in tail;
          }
        }
        DistinctIdsCons(r);
      }
    }
  }

  lemma QuantitiesRemove(c: Cart, id: string)
    ensures Quantities(Remove(c, id)) == Quantities(c) - {id}
  {
    var r, m := Remove(c, id), Quantities(c) - {id};
    RemoveFacts(c, id);
    forall k ensures Lookup(r, k) == if k in m then Some(m[k]) else None {
      if k != id && k !in Keys(c) {
        assert Lookup(c, k) == None;
      }
    }
    QuantitiesFromLookup(r, m);
  }

  /** The cart a new storefront session starts with: the empty object. */
  function Empty(): (c: Cart)
    ensures Valid(c)
    ensures Keys(c) == {}
  {
    []
  }

  /**
   The "Add to Cart" button, `addToCart`: the stored quantity (zero when
   absent) plus one is written back. The product's quantity goes up by one
   (from nothing to 1 when absent), no other product's quantity changes, a
   new product goes last, and the invariant is kept.
   */
  function AddToCart(c: Cart, id: string): (r: Cart)
    ensures Quantities(r) == Quantities(c)[id := QuantityOf(c, id) + 1]
    ensures id in Keys(c) ==> Ids(r) == Ids(c)
    ensures id !in Keys(c) ==> Ids(r) == Ids(c) + [id]
    ensures Valid(c) ==> Valid(r)
  {
    QuantitiesPut(c, id, QuantityOf(c, id) + 1);
    PutIds(c, id, QuantityOf(c, id) + 1);
    AddToCartValid(c, id);
    Put(c, id, QuantityOf(c, id) + 1)
  }

  lemma AddToCartValid(c: Cart, id: string)
    ensures Valid(c) ==> Valid(Put(c, id, QuantityOf(c, id) + 1))
  {
    QuantityOfValid(c, id);
    PutValid(c, id, QuantityOf(c, id) + 1);
  }

  /**
   The sidebar's `updateQuantity`: a positive `q` is stored, anything
   else deletes the product from the cart. No other product changes and the
   invariant is kept.
   */
  function UpdateQuantity(c: Cart, id: string, q: int): (r: Cart)
    ensures q > 0 ==> Quantities(r) == Quantities(c)[id := q]
    ensures q <= 0 ==> Quantities(r) == Quantities(c) - {id}
    ensures q > 0 ==> Lookup(r, id) == Some(q)
    ensures q <= 0 ==> id !in Keys(r)
    ensures q > 0 && id in Keys(c) ==> Ids(r) == Ids(c)
    ensures q <= 0 ==> Seqs.IsSubsequence(r, c)
    ensures Valid(c) ==> Valid(r)
  {
    if q > 0 then
      var r := Put(c, id, q);
      PutFacts(c, id, q);
      QuantitiesPut(c, id, q);
      PutValid(c, id, q);
      r
    else
      var r := Remove(c, id);
      RemoveFacts(c, id);
      QuantitiesRemove(c, id);
      RemoveKeepsOrder(c, id);
      RemoveValid(c, id);
      r
  }

  /** The minus button: `updateQuantity` with one less than the current quantity; at 1 it removes the product. */
  function Decrement(c: Cart, id: string): (r: Cart)
    requires id in Keys(c)
    ensures Lookup(c, id).value > 1 ==> Lookup(r, id) == Some(Lookup(c, id).value - 1)
    ensures Lookup(c, id).value <= 1 ==> id !in Keys(r)
    ensures forall k :: k != id ==> Lookup(r, k) == Lookup(c, k)
  {
    UpdateQuantity(c, id, QuantityOf(c, id) - 1)
  }

  /** The plus button: `updateQuantity` with one more than the current quantity. */
  function Increment(c: Cart, id: string): (r: Cart)
    requires id in Keys(c)
  {
    UpdateQuantity(c, id, QuantityOf(c, id) + 1)
  }

  /** On a valid cart the plus button does exactly what "Add to Cart" does. */
  lemma IncrementIsAddToCart(c: Cart, id: string)
    requires Valid(c) && id in Keys(c)
    ensures Increment(c, id) == AddToCart(c, id)
  {
    assert Entry(id, Lookup(c, id).value) in c;
  }

  /** The trash button: `updateQuantity` with zero, which always removes the product. */
  function Trash(c: Cart, id: string): (r: Cart)
    ensures Quantities(r) == Quantities(c) - {id}
    ensures id !in Keys(r)
  {
    UpdateQuantity(c, id, 0)
  }

  function Qty(e: Entry): int {
    e.qty
  }

  /**
   The badge count, `cartCount`: the cart's quantities folded with `+` from
   0, left to right, which is the sum of all stored quantities.
   */
  function Count(c: Cart): (n: int)
    ensures n == Seqs.Sum(c, Qty)
  {
    Seqs.ReduceIsSum(c, Qty, 0);
    Seqs.Reduce(c, Qty, 0)
  }

  /** A valid cart counts at least one unit per product, so the badge shows iff the cart has entries. */
  lemma {:induction false} CountAtLeastEntries(c: Cart)
    requires Valid(c)
    ensures Count(c) >= |c|
    ensures Count(c) > 0 <==> |c| > 0
    decreases |c|
  {
    if |c| != 0 {
      DistinctIdsCons(c);
      CountAtLeastEntries(c[1..]);
    }
  }

  lemma {:induction false} SumPut(c: Cart, id: string, q: int)
    requires DistinctIds(c)
    ensures Seqs.Sum(Put(c, id, q), Qty) == Seqs.Sum(c, Qty) - QuantityOf(c, id) + q
    decreases |c|
  {
    if |c| != 0 && c[0].id != id {
      DistinctIdsCons(c);
      SumPut(c[1..], id, q);
    }
  }

  lemma {:induction false} SumRemove(c: Cart, id: string)
    requires DistinctIds(c)
    ensures Seqs.Sum(Remove(c, id), Qty) == Seqs.Sum(c, Qty) - QuantityOf(c, id)
    decreases |c|
  {
    if |c| != 0 {
      DistinctIdsCons(c);
      SumRemove(c[1..], id);
    }
  }

  /** "Add to Cart" raises the badge count by exactly one. */
  lemma AddToCartCount(c: Cart, id: string)
    requires DistinctIds(c)
    ensures Count(AddToCart(c, id)) == Count(c) + 1
  {
    SumPut(c, id, QuantityOf(c, id) + 1);
  }

  /** `updateQuantity` moves the badge count by the change in this product's quantity. */
  lemma UpdateQuantityCount(c: Cart, id: string, q: int)
    requires DistinctIds(c)
    ensures Count(UpdateQuantity(c, id, q)) == Count(c) - QuantityOf(c, id) + (if q > 0 then q else 0)
  {
    if q > 0 {
      SumPut(c, id, q);
    } else {
      SumRemove(c, id);
    }
  }
}
