/** The use cases run against the order repository: the repository's
    operations as the use cases' collaborator ports, the store writes a run
    performs, and what the composed service promises end to end. */
module OrderService {
  import opened Common
  import Repository
  import CreateOrderUseCase
  import ListOrderUseCase
  import GetPaymentStatusUseCase
  import UpdateStatusUseCase

  /** The store's `create` as a port; `keepNames` picks the variant: false
      is `create` as written, true the corrected one that keeps the names. */
  function CreatePort(s: Repository.Store, keepNames: bool): NewOrder -> Result<Option<Order>> {
    n => Ok(Some(Repository.Save(s, n, keepNames).1))
  }

  function FindOrderPort(s: Repository.Store): int -> Result<Option<Order>> {
    id => Ok(Repository.FindOrder(s, id))
  }

  function FindByCodePort(s: Repository.Store): string -> Result<Option<Order>> {
    code => Ok(match Repository.FindByCode(s, code) case Some(f) => Some(f.order) case None => None)
  }

  function UpdatePort(s: Repository.Store): (int, string) -> Result<()> {
    (id, status) => Ok(())
  }

  /** The store after the writes among `calls`, in order, with the `create`
      variant `keepNames` picks; lookups change nothing. */
  function Apply(s: Repository.Store, calls: seq<Call>, keepNames: bool): Repository.Store
    decreases |calls|
  {
    if calls == [] then s
    else Apply(Step(s, calls[0], keepNames), calls[1..], keepNames)
  }

  /** The store after one call. */
  function Step(s: Repository.Store, c: Call, keepNames: bool): Repository.Store {
    match c
    case StoreCreate(n) => Repository.Save(s, n, keepNames).0
    case StoreUpdateStatus(id, status) => Repository.UpdateOrderStatus(s, id, status)
    case _ => s
  }

  /** Calls that only read leave the store as it was. */
  lemma {:induction false} ReadsChangeNothing(s: Repository.Store, calls: seq<Call>, keepNames: bool)
    requires forall k :: 0 <= k < |calls| ==> !calls[k].StoreCreate? && !calls[k].StoreUpdateStatus?
    ensures Apply(s, calls, keepNames) == s
    decreases |calls|
  {
    if calls != [] {
      ReadsChangeNothing(s, calls[1..], keepNames);
    }
  }

  /** Creating an order against the store, with either variant of `create`:
      when every lookup answers, the order is created even if some items
      failed. The stored row is the request's date, status and code with the
      loop's resolved lines, saved as `Saved` says (names kept only by the
      corrected variant); the answer carries the loop's item errors; the new
      store is valid and finds the row under its id; and the total
      recomputed from the row's snapshots is the total computed at
      creation. When a lookup throws, nothing is written. */
  lemma CreateAgainstStore(req: CreateRequest, catalog: int -> Result<Lookup>, s: Repository.Store, keepNames: bool)
    requires Repository.Valid(s)
    ensures var run := CreateOrderUseCase.CreateOrder(req, catalog, CreatePort(s, keepNames));
            var s' := Apply(s, run.calls, keepNames);
            var a := CreateOrderUseCase.Assemble(req.items, catalog);
            && ((forall i :: 0 <= i < |req.items| ==> catalog(req.items[i].productId).Ok?) ==>
                  && run.result.Ok? && run.result.value.order.Some?
                  && run.result.value.errors == a.errors
                  && var row := run.result.value.order.value;
                     && Repository.Saved(s, NewOrder(req.orderDate, req.status, req.code, a.items, Total(a.items)), keepNames, s', row)
                     && Repository.Valid(s')
                     && Repository.FindOrder(s', row.id) == Some(row)
                     && ListOrderUseCase.Project(row).totalPrice == Total(a.items))
            && (!(forall i :: 0 <= i < |req.items| ==> catalog(req.items[i].productId).Ok?) ==>
                  run.result.Err? && s' == s)
  {
    var run := CreateOrderUseCase.CreateOrder(req, catalog, CreatePort(s, keepNames));
    if forall i :: 0 <= i < |req.items| ==> catalog(req.items[i].productId).Ok? {
      var n := run.calls[|req.items|].order;
      var lookups := run.calls[..|req.items|];
      assert run.calls == lookups + [StoreCreate(n)];
      ReadsChangeNothing(s, lookups, keepNames);
      ApplyAppend(s, lookups, StoreCreate(n), keepNames);
      assert [StoreCreate(n)][1..] == [];
      assert Apply(s, run.calls, keepNames) == Repository.Save(s, n, keepNames).0;
      Repository.CreateThenFind(s, n, keepNames);
      Repository.CreatedTotalIsSnapshotTotal(s, n, keepNames);
    } else {
      ReadsChangeNothing(s, run.calls, keepNames);
    }
  }

  lemma {:induction false} ApplyAppend(s: Repository.Store, calls: seq<Call>, c: Call, keepNames: bool)
    ensures Apply(s, calls + [c], keepNames) == Apply(Apply(s, calls, keepNames), [c], keepNames)
    decreases |calls|
  {
    if calls != [] {
      assert (calls + [c])[1..] == calls[1..] + [c];
      ApplyAppend(Step(s, calls[0], keepNames), calls[1..], c, keepNames);
    }
  }

  /** Reading the payment status against the store: it succeeds exactly when
      some order has the code, with that order's payment status; otherwise it
      is the 404 error. The store is left as it was. */
  lemma PaymentStatusAgainstStore(s: Repository.Store, code: string, keepNames: bool)
    ensures var run := GetPaymentStatusUseCase.GetPaymentStatus(code, FindByCodePort(s));
            && Apply(s, run.calls, keepNames) == s
            && (run.result.Ok? <==> exists i :: 0 <= i < |s.rows| && s.rows[i].code == code)
            && (run.result.Ok? ==> exists i :: 0 <= i < |s.rows| && s.rows[i].code == code && s.rows[i].paymentStatus == run.result.value)
            && (run.result.Err? ==> run.result == Err(OrderNotFound))
  {
    var run := GetPaymentStatusUseCase.GetPaymentStatus(code, FindByCodePort(s));
    ReadsChangeNothing(s, run.calls, keepNames);
    var found := Repository.FindByCode(s, code);
    if found.Some? {
      var i :| 0 <= i < |s.rows| && s.rows[i] == found.value.order;
      assert s.rows[i].code == code && s.rows[i].paymentStatus == run.result.value;
    }
  }

  /** Updating a status against the store: for an existing order the call
      succeeds, that order reads back with the new status and every other
      order reads back unchanged; for a missing order it is the 404 error
      and the store is left as it was. */
  lemma UpdateAgainstStore(s: Repository.Store, id: int, status: string, other: int, keepNames: bool)
    requires Repository.Valid(s)
    ensures var run := UpdateStatusUseCase.UpdateOrderStatus(id, status, FindOrderPort(s), UpdatePort(s));
            var s' := Apply(s, run.calls, keepNames);
            && Repository.Valid(s')
            && ((exists i :: 0 <= i < |s.rows| && s.rows[i].id == id) ==>
                  && run.result == Ok(())
                  && Repository.FindOrder(s', id) == Some(Repository.FindOrder(s, id).value.(status := status))
                  && (other != id ==> Repository.FindOrder(s', other) == Repository.FindOrder(s, other)))
            && (!(exists i :: 0 <= i < |s.rows| && s.rows[i].id == id) ==>
                  run.result == Err(OrderNotFound) && s' == s)
  {
    var run := UpdateStatusUseCase.UpdateOrderStatus(id, status, FindOrderPort(s), UpdatePort(s));
    if exists i :: 0 <= i < |s.rows| && s.rows[i].id == id {
      assert Repository.FindOrder(s, id).Some?;
      assert run.calls == [StoreFindOrder(id)] + [StoreUpdateStatus(id, status)];
      ApplyAppend(s, [StoreFindOrder(id)], StoreUpdateStatus(id, status), keepNames);
      ReadsChangeNothing(s, [StoreFindOrder(id)], keepNames);
      assert [StoreUpdateStatus(id, status)][1..] == [];
      assert Apply(s, run.calls, keepNames) == Repository.UpdateOrderStatus(s, id, status);
      Repository.UpdateThenFind(s, id, status, other);
    } else {
      assert Repository.FindOrder(s, id).None?;
      ReadsChangeNothing(s, run.calls, keepNames);
    }
  }

  /** The active listing over the store: the views are exactly the
      projections of the stored orders that are not finished — each such
      order is shown, each view is one of them, and there are as many views
      as such orders — in the listing's order: status rank ascending, then
      date ascending. */
  lemma ActiveListingAgainstStore(s: Repository.Store)
    ensures var r := ListOrderUseCase.ListOrders(Ok(Some(Repository.ListOrders(s))));
            && r.Ok?
            && ListOrderUseCase.ShowsExactly(r.value, s.rows)
            && InListingOrder(r.value)
  {
    var rows := Repository.ListOrders(s);
    assert ListOrderUseCase.ListOrders(Ok(Some(rows))) == Ok(ListOrderUseCase.Active(rows));
    ListOrderUseCase.ActiveShowsExactly(rows, s.rows);
    ActiveKeepsListingOrder(rows);
  }

  /** Views in listing order, every earlier one before every later one. */
  predicate InListingOrder(vs: seq<ListOrderUseCase.OrderView>) {
    forall i, j :: 0 <= i < j < |vs| ==> Repository.ListedBefore(vs[i].status, vs[i].orderDate, vs[j].status, vs[j].orderDate)
  }

  lemma {:induction false} ActiveKeepsListingOrder(rows: seq<Order>)
    requires forall i, j :: 0 <= i < j < |rows| ==>
               Repository.ListedBefore(rows[i].status, rows[i].orderDate, rows[j].status, rows[j].orderDate)
    ensures InListingOrder(ListOrderUseCase.Active(rows))
  {
    if rows != [] {
      var n := |rows| - 1;
      var prefix := rows[..n];
      ActiveKeepsListingOrder(prefix);
      ListOrderUseCase.ActiveShowsOnlyStored(prefix);
      var p := ListOrderUseCase.Active(prefix);
      assert InListingOrder(p);
      var r := ListOrderUseCase.Active(rows);
      assert r[..|p|] == p;
      forall i, j | 0 <= i < j < |r|
        ensures Repository.ListedBefore(r[i].status, r[i].orderDate, r[j].status, r[j].orderDate)
      {
        if j >= |p| {
          assert r[j] == ListOrderUseCase.Project(rows[n]);
          var k :| 0 <= k < |prefix| && prefix[k].status != ListOrderUseCase.Finalized && p[i] == ListOrderUseCase.Project(prefix[k]);
          assert prefix[k] == rows[k];
          assert Repository.ListedBefore(rows[k].status, rows[k].orderDate, rows[n].status, rows[n].orderDate);
          assert r[i] == p[i];
          assert r[i].status == rows[k].status && r[i].orderDate == rows[k].orderDate;
          assert r[j].status == rows[n].status && r[j].orderDate == rows[n].orderDate;
        } else {
          assert r[i] == p[i] && r[j] == p[j];
        }
      }
      assert InListingOrder(r);
    }
  }
}
