/** The active-order listing (`ListOrderUseCase.listOrders`): a missing store
    answer is a not-found error; otherwise finished orders are dropped, the
    items re-projected and each total recomputed from the item snapshots. */
module ListOrderUseCase {
  import opened Common

  /** The terminal status; orders in it are not active. */
  const Finalized := "FINALIZADO"

  const NoOrdersFound: Failure := NotFound("Nenhum pedido encontrado!", 404)

  /** An order as the listing shows it: the stored fields, the items and the total. */
  datatype OrderView = OrderView(id: int, orderDate: int, status: string, code: string, paymentStatus: string,
                                 items: seq<Item>, totalPrice: real)

  /** The view of one order: every stored field carried over, a missing
      item list shown as empty, the total priced from the snapshots. */
  function Project(o: Order): OrderView {
    var items := o.items.GetOr([]);
    OrderView(o.id, o.orderDate, o.status, o.code, o.paymentStatus, items, SnapshotTotal(items))
  }

  /** How many of `orders` are finished. */
  function FinalizedCount(orders: seq<Order>): (n: nat)
    ensures n <= |orders|
  {
    if orders == [] then 0
    else FinalizedCount(orders[..|orders| - 1]) + (if orders[|orders| - 1].status == Finalized then 1 else 0)
  }

  /** The filter-then-map over the store's orders. */
  function Active(orders: seq<Order>): (r: seq<OrderView>)
    ensures |r| == |orders| - FinalizedCount(orders)
    ensures forall j :: 0 <= j < |r| ==> r[j].status != Finalized
  {
    if orders == [] then []
    else
      var o := orders[|orders| - 1];
      Active(orders[..|orders| - 1]) + (if o.status == Finalized then [] else [Project(o)])
  }

  /** `listOrders` over the store's answer: a failure passes through, no
      answer at all is the 404 error, a list becomes its active views. */
  function ListOrders(answer: Result<Option<seq<Order>>>): (r: Result<seq<OrderView>>)
    ensures answer.Err? ==> r == Err(answer.failure)
    ensures answer == Ok(None) ==> r == Err(NoOrdersFound)
    ensures answer.Ok? && answer.value.Some? ==>
              && r == Ok(Active(answer.value.value))
              && |r.value| == |answer.value.value| - FinalizedCount(answer.value.value)
              && forall j :: 0 <= j < |r.value| ==> r.value[j].status != Finalized
  {
    match answer
    case Err(f) => Err(f)
    case Ok(None) => Err(NoOrdersFound)
    case Ok(Some(orders)) => Ok(Active(orders))
  }

  /** Where every order ends up: an order that is not finished is shown at
      position i - f, f counting the finished orders before it, as its
      projection; so active orders keep their relative order and nothing
      else is shown. */
  predicate ShownAt(r: seq<OrderView>, orders: seq<Order>, i: int)
    requires 0 <= i < |orders|
  {
    orders[i].status != Finalized ==>
      var j := i - FinalizedCount(orders[..i]);
      0 <= j < |r| && r[j] == Project(orders[i])
  }

  lemma {:induction false} ActivePositions(orders: seq<Order>)
    ensures forall i :: 0 <= i < |orders| ==> ShownAt(Active(orders), orders, i)
  {
    if orders != [] {
      var n := |orders| - 1;
      var prefix := orders[..n];
      ActivePositions(prefix);
      var r := Active(orders);
      var p := Active(prefix);
      assert r[..|p|] == p;
      forall i | 0 <= i < |orders|
        ensures ShownAt(r, orders, i)
      {
        if i < n {
          assert orders[..i] == prefix[..i];
          assert ShownAt(p, prefix, i);
        } else {
          assert orders[..i] == prefix;
        }
      }
    }
  }

  /** Every shown order is the projection of some active stored order, and
      its items are that order's items, field for field and in order, and
      its total their snapshot price. */
  lemma {:induction false} ActiveShowsOnlyStored(orders: seq<Order>)
    ensures forall j :: 0 <= j < |Active(orders)| ==>
              exists i :: 0 <= i < |orders| && orders[i].status != Finalized && Active(orders)[j] == Project(orders[i])
  {
    if orders != [] {
      var n := |orders| - 1;
      var prefix := orders[..n];
      ActiveShowsOnlyStored(prefix);
      var r := Active(orders);
      var p := Active(prefix);
      forall j | 0 <= j < |r|
        ensures exists i :: 0 <= i < |orders| && orders[i].status != Finalized && r[j] == Project(orders[i])
      {
        assert r[..|p|] == p;
        if j < |p| {
          var i :| 0 <= i < |prefix| && prefix[i].status != Finalized && p[j] == Project(prefix[i]);
          assert orders[i] == prefix[i] && r[j] == p[j];
          assert 0 <= i < |orders| && orders[i].status != Finalized && r[j] == Project(orders[i]);
        } else {
          assert 0 <= n < |orders| && orders[n].status != Finalized && r[j] == Project(orders[n]);
        }
      }
    } else {
      assert Active(orders) == [];
    }
  }

  /** Counting finished orders splits over a concatenation. */
  lemma {:induction false} FinalizedCountAppend(u: seq<Order>, v: seq<Order>)
    ensures FinalizedCount(u + v) == FinalizedCount(u) + FinalizedCount(v)
    decreases |v|
  {
    if v == [] {
      assert u + v == u;
    } else {
      var m := |v| - 1;
      assert (u + v)[..|u + v| - 1] == u + v[..m];
      FinalizedCountAppend(u, v[..m]);
    }
  }

  /** The number of finished orders does not depend on their order: two
      lists holding the same orders have as many finished ones. */
  lemma {:induction false} FinalizedCountPermutation(a: seq<Order>, b: seq<Order>)
    requires multiset(a) == multiset(b)
    ensures FinalizedCount(a) == FinalizedCount(b)
    decreases |a|
  {
    if a == [] {
      assert |b| == |multiset(b)| == 0;
    } else {
      var n := |a| - 1;
      var x := a[n];
      assert a == a[..n] + [x];
      assert x in multiset(b);
      var k :| 0 <= k < |b| && b[k] == x;
      var rest := b[..k] + b[k + 1..];
      assert b == b[..k] + [x] + b[k + 1..];
      assert multiset(b) == multiset(b[..k]) + multiset{x} + multiset(b[k + 1..]);
      assert multiset(rest) == multiset(b[..k]) + multiset(b[k + 1..]);
      assert multiset(a) == multiset(a[..n]) + multiset{x};
      assert multiset(a[..n]) == multiset(a) - multiset{x};
      assert multiset(rest) == multiset(b) - multiset{x};
      FinalizedCountPermutation(a[..n], rest);
      FinalizedCountAppend(a[..n], [x]);
      FinalizedCountAppend(b[..k] + [x], b[k + 1..]);
      FinalizedCountAppend(b[..k], [x]);
      FinalizedCountAppend(b[..k], b[k + 1..]);
      assert [x][..0] == [];
    }
  }

  /** `vs` shows exactly the unfinished orders of `stored`: every such
      order is shown as its projection, every view is the projection of one
      of them, and there are as many views as such orders. */
  predicate ShowsExactly(vs: seq<OrderView>, stored: seq<Order>) {
    && |vs| == |stored| - FinalizedCount(stored)
    && (forall i :: 0 <= i < |stored| && stored[i].status != Finalized ==> Project(stored[i]) in vs)
    && (forall j :: 0 <= j < |vs| ==>
          exists i :: 0 <= i < |stored| && stored[i].status != Finalized && vs[j] == Project(stored[i]))
  }

  /** The active views of `orders` show exactly the unfinished orders of
      any list holding the same orders, whatever their order. */
  lemma ActiveShowsExactly(orders: seq<Order>, stored: seq<Order>)
    requires multiset(orders) == multiset(stored)
    ensures ShowsExactly(Active(orders), stored)
  {
    assert |orders| == |multiset(orders)| == |multiset(stored)| == |stored|;
    FinalizedCountPermutation(orders, stored);
    ActiveShowsEveryUnfinished(orders, stored);
    ActiveShowsOnlyStored(orders);
    var r := Active(orders);
    forall j | 0 <= j < |r|
      ensures exists i :: 0 <= i < |stored| && stored[i].status != Finalized && r[j] == Project(stored[i])
    {
      var k :| 0 <= k < |orders| && orders[k].status != Finalized && r[j] == Project(orders[k]);
      assert orders[k] in multiset(stored);
      var i :| 0 <= i < |stored| && stored[i] == orders[k];
    }
  }

  lemma ActiveShowsEveryUnfinished(orders: seq<Order>, stored: seq<Order>)
    requires multiset(orders) == multiset(stored)
    ensures forall i :: 0 <= i < |stored| && stored[i].status != Finalized ==> Project(stored[i]) in Active(orders)
  {
    var r := Active(orders);
    ActivePositions(orders);
    forall i | 0 <= i < |stored| && stored[i].status != Finalized
      ensures Project(stored[i]) in r
    {
      assert stored[i] in multiset(orders);
      var k :| 0 <= k < |orders| && orders[k] == stored[i];
      assert ShownAt(r, orders, k);
    }
  }

  /** The projection's meaning: the view keeps every stored field, shows
      the stored items unchanged (none as empty) and prices them from their
      snapshots, adding one line's price per item. */
  lemma ProjectKeepsOrder(o: Order)
    ensures var v := Project(o);
            && v.id == o.id && v.orderDate == o.orderDate && v.status == o.status
            && v.code == o.code && v.paymentStatus == o.paymentStatus
            && (o.items.None? ==> v.items == [] && v.totalPrice == 0.0)
            && (o.items.Some? ==> v.items == o.items.value && v.totalPrice == SnapshotTotal(o.items.value))
  {
  }

  /** The listing example of the unit tests: of three orders the finished
      one is dropped, and the others are priced 46 (10.50 x 2 + 25.00 x 1)
      and 60 (20.00 x 3); an all-finished list gives no views. */
  lemma ListOrdersExample()
    ensures var i1 := Item(1, 2, 10.5, 1, Some("Product 1"));
            var i2 := Item(2, 1, 25.0, 2, Some("Product 2"));
            var i3 := Item(3, 1, 15.0, 3, Some("Product 3"));
            var i4 := Item(4, 3, 20.0, 4, Some("Product 4"));
            var o1 := Order(1, 20240101, "PENDING", "ORDER-001", "PENDING", Some([i1, i2]));
            var o2 := Order(2, 20240102, Finalized, "ORDER-002", "PAID", Some([i3]));
            var o3 := Order(3, 20240103, "PROCESSING", "ORDER-003", "PENDING", Some([i4]));
            && ListOrders(Ok(Some([o1, o2, o3])))
               == Ok([OrderView(1, 20240101, "PENDING", "ORDER-001", "PENDING", [i1, i2], 46.0),
                      OrderView(3, 20240103, "PROCESSING", "ORDER-003", "PENDING", [i4], 60.0)])
            && ListOrders(Ok(Some([o2]))) == Ok([])
  {
    var i1 := Item(1, 2, 10.5, 1, Some("Product 1"));
    var i2 := Item(2, 1, 25.0, 2, Some("Product 2"));
    var i3 := Item(3, 1, 15.0, 3, Some("Product 3"));
    var i4 := Item(4, 3, 20.0, 4, Some("Product 4"));
    var o1 := Order(1, 20240101, "PENDING", "ORDER-001", "PENDING", Some([i1, i2]));
    var o2 := Order(2, 20240102, Finalized, "ORDER-002", "PAID", Some([i3]));
    var o3 := Order(3, 20240103, "PROCESSING", "ORDER-003", "PENDING", Some([i4]));
    assert [o1, o2, o3][..2] == [o1, o2];
    assert [o1, o2][..1] == [o1];
    assert [o1][..0] == [];
    assert [o2][..0] == [];
    assert [i1, i2][..1] == [i1];
    assert [i1][..0] == [];
    assert [i4][..0] == [];
    assert SnapshotTotal([i1]) == 21.0;
    assert SnapshotTotal([i1, i2]) == 46.0;
    assert SnapshotTotal([i4]) == 60.0;
    assert Active([o1]) == [Project(o1)];
    assert Active([o1, o2]) == [Project(o1)];
    assert Active([o1, o2, o3]) == [Project(o1), Project(o3)];
    assert Active([o2]) == [];
  }
}
