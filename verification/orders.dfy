/**
 The admin panel's order list: the count of new orders in its heading, the
 "Mark as Shipped" action, and the order documents checkout adds.
 */
module Orders {
  import opened Wrappers
  import opened Checkout
  import Cart
  import Catalog
  import Seqs

  /** An order as the admin panel lists it: the document id with the document's fields. */
  datatype OrderDoc = OrderDoc(id: string, data: Order)

  predicate IsNew(d: OrderDoc) {
    d.data.status == StatusNew
  }

  /** Document ids are unique within a collection. */
  predicate DistinctOrderIds(docs: seq<OrderDoc>) {
    Seqs.Distinct(OrderIds(docs))
  }

  function OrderIds(docs: seq<OrderDoc>): seq<string> {
    seq(|docs|, k requires 0 <= k < |docs| => docs[k].id)
  }

  /** The orders whose status is "new", in list order. */
  function NewOrders(docs: seq<OrderDoc>): seq<OrderDoc>
    decreases |docs|
  {
    if |docs| == 0 then []
    else (if IsNew(docs[0]) then [docs[0]] else []) + NewOrders(docs[1..])
  }

  /** The heading's "(n new)". */
  function NewCount(docs: seq<OrderDoc>): nat {
    |NewOrders(docs)|
  }

  /** The rows whose status is "new". */
  function NewRows(docs: seq<OrderDoc>): set<int> {
    set k | 0 <= k < |docs| && IsNew(docs[k])
  }

  lemma {:induction false} NewOrdersAppend(docs: seq<OrderDoc>, d: OrderDoc)
    ensures NewOrders(docs + [d]) == NewOrders(docs) + (if IsNew(d) then [d] else [])
    decreases |docs|
  {
    if |docs| == 0 {
      assert docs + [d] == [d];
    } else {
      assert (docs + [d])[1..] == docs[1..] + [d];
      NewOrdersAppend(docs[1..], d);
    }
  }

  /** The new-order count is the number of rows whose status is "new". */
  lemma {:induction false} NewCountIsNewRows(docs: seq<OrderDoc>)
    ensures NewCount(docs) == |NewRows(docs)|
    decreases |docs|
  {
    if |docs| != 0 {
      var n := |docs| - 1;
      var init, last := docs[..n], docs[n];
      assert docs == init + [last];
      NewOrdersAppend(init, last);
      NewCountIsNewRows(init);
      if IsNew(last) {
        assert NewRows(docs) == NewRows(init) + {n};
      } else {
        assert NewRows(docs) == NewRows(init);
      }
    }
  }

  /** A row shows the "Mark as Shipped" button exactly when its order is new. */
  predicate ShipOffered(d: OrderDoc) {
    d.data.status == StatusNew
  }

  /**
   `handleUpdateOrderStatus`: the database update sets the status of
   the document with that id and touches nothing else.
   */
  function SetStatus(docs: seq<OrderDoc>, orderId: string, status: string): seq<OrderDoc> {
    seq(|docs|, k requires 0 <= k < |docs| =>
      if docs[k].id == orderId then OrderDoc(docs[k].id, docs[k].data.(status := status)) else docs[k])
  }

  /** With unique document ids, no other row shares row `row`'s id. */
  lemma OtherIdsDiffer(docs: seq<OrderDoc>, row: int)
    requires 0 <= row < |docs|
    ensures DistinctOrderIds(docs) ==> forall k :: 0 <= k < |docs| && k != row ==> docs[k].id != docs[row].id
  {
    if DistinctOrderIds(docs) {
      var ids := OrderIds(docs);
      forall k | 0 <= k < |docs| && k != row ensures docs[k].id != docs[row].id {
        if k < row {
          assert ids[k] != ids[row];
        } else {
          assert ids[row] != ids[k];
        }
      }
    }
  }

  /**
   Clicking "Mark as Shipped" on row `row`. The button exists only for a new
   order (`None` otherwise). When the database write succeeds, the order's
   status becomes "shipped"; when it fails, the admin sees an alert and the
   list stays as it was. Nothing but a status changes, and only to "shipped".
   */
  function MarkShipped(docs: seq<OrderDoc>, row: int, writeSucceeds: bool): (r: Option<seq<OrderDoc>>)
    ensures r.Some? <==> 0 <= row < |docs| && ShipOffered(docs[row])
    ensures r.Some? && !writeSucceeds ==> r.value == docs
    ensures r.Some? ==> |r.value| == |docs|
    ensures r.Some? && writeSucceeds ==> r.value[row] == OrderDoc(docs[row].id, docs[row].data.(status := StatusShipped))
    ensures r.Some? ==> forall k :: 0 <= k < |docs| ==>
      && r.value[k].id == docs[k].id
      && r.value[k].data.(status := docs[k].data.status) == docs[k].data
      && (r.value[k].data.status == docs[k].data.status || r.value[k].data.status == StatusShipped)
    ensures r.Some? && DistinctOrderIds(docs) ==> forall k :: 0 <= k < |docs| && k != row ==> r.value[k] == docs[k]
  {
    if 0 <= row < |docs| && ShipOffered(docs[row]) then
      OtherIdsDiffer(docs, row);
      if writeSucceeds then Some(SetStatus(docs, docs[row].id, StatusShipped)) else Some(docs)
    else
      None
  }

  /** Shipping a new order lowers the new-order count by exactly one; a failed write leaves it. */
  lemma MarkShippedNewCount(docs: seq<OrderDoc>, row: int, writeSucceeds: bool)
    requires DistinctOrderIds(docs)
    requires MarkShipped(docs, row, writeSucceeds).Some?
    ensures NewCount(MarkShipped(docs, row, writeSucceeds).value)
      == if writeSucceeds then NewCount(docs) - 1 else NewCount(docs)
  {
    var r := MarkShipped(docs, row, writeSucceeds).value;
    if writeSucceeds {
      NewCountIsNewRows(docs);
      NewCountIsNewRows(r);
      assert NewRows(r) == NewRows(docs) - {row};
    }
  }

  /** One click on "Mark as Shipped": the row clicked and whether the database write succeeds. */
  datatype Click = Click(row: int, writeSucceeds: bool)

  /** A sequence of clicks on "Mark as Shipped"; a click on a row without the button does nothing. */
  function Run(docs: seq<OrderDoc>, clicks: seq<Click>): seq<OrderDoc>
    decreases |clicks|
  {
    if |clicks| == 0 then docs
    else Run(MarkShipped(docs, clicks[0].row, clicks[0].writeSucceeds).GetOr(docs), clicks[1..])
  }

  /**
   Whatever the admin clicks, no order goes back to "new": a status either
   stays what it was or becomes "shipped", and the rows and ids stay put.
   */
  lemma {:induction false} RunNeverReopens(docs: seq<OrderDoc>, clicks: seq<Click>)
    ensures |Run(docs, clicks)| == |docs|
    ensures forall k :: 0 <= k < |docs| ==>
      && Run(docs, clicks)[k].id == docs[k].id
      && (Run(docs, clicks)[k].data.status == docs[k].data.status
          || Run(docs, clicks)[k].data.status == StatusShipped)
    ensures forall k :: 0 <= k < |docs| && !IsNew(docs[k]) ==> !IsNew(Run(docs, clicks)[k])
    decreases |clicks|
  {
    if |clicks| != 0 {
      var next := MarkShipped(docs, clicks[0].row, clicks[0].writeSucceeds).GetOr(docs);
      RunNeverReopens(next, clicks[1..]);
    }
  }

  /** Clicking never raises the new-order count. */
  lemma RunNewCountNonIncreasing(docs: seq<OrderDoc>, clicks: seq<Click>)
    ensures NewCount(Run(docs, clicks)) <= NewCount(docs)
  {
    var r := Run(docs, clicks);
    RunNeverReopens(docs, clicks);
    NewCountIsNewRows(docs);
    NewCountIsNewRows(r);
    assert NewRows(r) <= NewRows(docs);
    SubsetCard(NewRows(r), NewRows(docs));
  }

  lemma SubsetCard(a: set<int>, b: set<int>)
    requires a <= b
    ensures |a| <= |b|
  {
    assert b == a + (b - a);
    assert a * (b - a) == {};
  }

  /**
   The list after a checkout submission: a placed order arrives as one new
   document (its id assigned by the database); anything else adds nothing.
   */
  function Record(docs: seq<OrderDoc>, newId: string, s: Submission): seq<OrderDoc> {
    if s.Placed? then docs + [OrderDoc(newId, s.order)] else docs
  }

  /**
   A placed order arrives as one new document after the existing ones and
   raises the new-order count by one; a blocked or failed submission changes
   nothing.
   */
  lemma RecordNewCount(docs: seq<OrderDoc>, newId: string, name: string, email: string,
                       c: Cart.Cart, products: seq<Catalog.Product>, now: int, writeSucceeds: bool)
    ensures var s := Submit(name, email, c, products, now, writeSucceeds);
      && (s.Placed? ==> |Record(docs, newId, s)| == |docs| + 1)
      && (s.Placed? ==> Record(docs, newId, s)[..|docs|] == docs)
      && (s.Placed? ==> Record(docs, newId, s)[|docs|] == OrderDoc(newId, s.order))
      && (s.Placed? ==> IsNew(Record(docs, newId, s)[|docs|]))
      && (s.Placed? ==> NewCount(Record(docs, newId, s)) == NewCount(docs) + 1)
      && (!s.Placed? ==> Record(docs, newId, s) == docs)
  {
    var s := Submit(name, email, c, products, now, writeSucceeds);
    if s.Placed? {
      NewOrdersAppend(docs, OrderDoc(newId, s.order));
    }
  }
}
