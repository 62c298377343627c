/** The order repository (`OrderRepositoryImpl`) over an in-memory orders
    table: rows in primary-key order, with the auto-increment counters of
    the orders and order-items tables. */
module Repository {
  import opened Common
  import opened QueryBuilder

  datatype Store = Store(rows: seq<Order>, nextOrderId: int, nextItemId: int)

  /** Auto-increment keys: ids rise in table order and stay below the next
      id; every row is read together with its items. */
  predicate Valid(s: Store) {
    && (forall i, j :: 0 <= i < j < |s.rows| ==> s.rows[i].id < s.rows[j].id)
    && (forall i :: 0 <= i < |s.rows| ==> s.rows[i].id < s.nextOrderId && s.rows[i].items.Some?)
  }

  /** The payment status every new order starts with. */
  const InitialPaymentStatus := "PENDING"

  /** The order row `create` saves, with item rows numbered from `firstItemId`;
      `keepNames` says whether the item names reach the rows. */
  function NewRow(n: NewOrder, id: int, firstItemId: int, keepNames: bool): Order {
    var items := seq(|n.items|, i requires 0 <= i < |n.items| =>
      Item(firstItemId + i, n.items[i].quantity, n.items[i].price, n.items[i].productId,
           if keepNames then Some(n.items[i].snapshotName) else None));
    Order(id, n.orderDate, n.status, n.code, InitialPaymentStatus, Some(items))
  }

  /** What saving `n` into `s` leaves behind: `row` takes the next order
      id, the request's date, status and code, starts unpaid, and holds one
      item row per line, in order, with the line's quantity, its price as
      snapshot price, its product id as item id and, when `keepNames`, its
      product name; the total is not stored. The table `t` gains exactly
      `row`, at the end, and the next order id moves past it. */
  predicate Saved(s: Store, n: NewOrder, keepNames: bool, t: Store, row: Order) {
    && row.id == s.nextOrderId
    && row.orderDate == n.orderDate && row.status == n.status && row.code == n.code
    && row.paymentStatus == "PENDING"
    && row.items.Some? && |row.items.value| == |n.items|
    && (forall i :: 0 <= i < |n.items| ==>
          var it := row.items.value[i];
          && it.quantity == n.items[i].quantity
          && it.snapshotPrice == n.items[i].price
          && it.itemId == n.items[i].productId
          && it.snapshotName == (if keepNames then Some(n.items[i].snapshotName) else None))
    && t.rows == s.rows + [row]
    && t.nextOrderId == s.nextOrderId + 1
  }

  /** Save a row: it gets the next order id and the next item ids. */
  function Save(s: Store, n: NewOrder, keepNames: bool): (out: (Store, Order))
    ensures Saved(s, n, keepNames, out.0, out.1)
  {
    var row := NewRow(n, s.nextOrderId, s.nextItemId, keepNames);
    (Store(s.rows + [row], s.nextOrderId + 1, s.nextItemId + |n.items|), row)
  }

  /** `create` as written: the row is saved as `Saved` says, and each item
      row gets quantity, snapshot_price and item_id but not the product
      name it was handed. */
  function CreateAsWritten(s: Store, n: NewOrder): (out: (Store, Order))
    ensures Saved(s, n, false, out.0, out.1)
  {
    Save(s, n, false)
  }

  /** The name is lost as written: an order with one line for "Product 1"
      is saved with an item row that has no name, where the corrected
      `create` keeps it; the listing then shows the item without its name. */
  lemma CreateAsWrittenDropsName(s: Store)
    ensures var n := NewOrder(20240101, "PENDING", "ORDER-001", [NewItem(1, 2, 10.5, "Product 1")], 21.0);
            && CreateAsWritten(s, n).1.items.value[0].snapshotName == None
            && Create(s, n).1.items.value[0].snapshotName == Some("Product 1")
            && CreateAsWritten(s, n).1 != Create(s, n).1
  {
  }

  /** `create`: the row is saved as `Saved` says, each item row with its
      product name. */
  function Create(s: Store, n: NewOrder): (out: (Store, Order))
    ensures Saved(s, n, true, out.0, out.1)
  {
    Save(s, n, true)
  }

  /** Index of the first row whose column `c` holds `v`, or |rows| when there is none. */
  function FirstMatch(rows: seq<Order>, c: Column, v: Value): (k: nat)
    ensures k <= |rows|
    ensures forall j :: 0 <= j < k ==> FieldOf(rows[j], c) != v
    ensures k < |rows| ==> FieldOf(rows[k], c) == v
  {
    if rows == [] then 0
    else if FieldOf(rows[0], c) == v then 0
    else 1 + FirstMatch(rows[1..], c, v)
  }

  /** `findOrder`: the row with that id, or none when no row has it. */
  function FindOrder(s: Store, id: int): (r: Option<Order>)
    ensures r.None? <==> forall i :: 0 <= i < |s.rows| ==> s.rows[i].id != id
    ensures r.Some? ==> r.value in s.rows && r.value.id == id
  {
    var k := FirstMatch(s.rows, Id, Num(id));
    if k < |s.rows| then Some(s.rows[k]) else None
  }

  /** A row found by code, with the total priced from its item snapshots. */
  datatype Found = Found(order: Order, totalPrice: real)

  /** `findByCode`: the first row with that code and its snapshot total, or
      none when no row has the code. */
  function FindByCode(s: Store, code: string): (r: Option<Found>)
    ensures r.None? <==> forall i :: 0 <= i < |s.rows| ==> s.rows[i].code != code
    ensures r.Some? ==>
              && r.value.order in s.rows
              && r.value.order.code == code
              && r.value.totalPrice == SnapshotTotal(r.value.order.items.GetOr([]))
  {
    var k := FirstMatch(s.rows, Code, Text(code));
    if k < |s.rows| then
      var row := s.rows[k];
      Some(Found(row, SnapshotTotal(row.items.GetOr([]))))
    else None
  }

  /** `updateOrderStatus`: UPDATE ... SET status WHERE id; no row matching is no change. */
  function UpdateOrderStatus(s: Store, id: int, status: string): (r: Store)
    ensures |r.rows| == |s.rows| && r.nextOrderId == s.nextOrderId && r.nextItemId == s.nextItemId
    ensures forall i :: 0 <= i < |s.rows| ==>
              && r.rows[i].id == s.rows[i].id
              && r.rows[i].status == (if s.rows[i].id == id then status else s.rows[i].status)
              && r.rows[i] == s.rows[i].(status := r.rows[i].status)
  {
    var rows := seq(|s.rows|, i requires 0 <= i < |s.rows| =>
      if s.rows[i].id == id then s.rows[i].(status := status) else s.rows[i]);
    Store(rows, s.nextOrderId, s.nextItemId)
  }

  /** The status ranks of the listing: ready first, then in preparation,
      then received, then any other status. */
  const ListingPriority: map<string, int> := map["PRONTO" := 1, "PREPARACAO" := 2, "RECEBIDO" := 3]

  /** The listing's ORDER BY: status rank ascending, then order date ascending. */
  const ListingOrder: seq<OrderBy> := [OrderBy(Status, Asc, Some(ListingPriority)), OrderBy(OrderDate, Asc, None)]

  const ListingOptions: FindOptions := FindOptions(None, ListingOrder, None)

  function StatusPriority(status: string): int {
    Rank(Text(status), ListingPriority)
  }

  /** The rank table: PRONTO 1, PREPARACAO 2, RECEBIDO 3, every other
      status 999999, after all three. */
  lemma StatusPriorities(status: string)
    ensures StatusPriority("PRONTO") == 1 && StatusPriority("PREPARACAO") == 2 && StatusPriority("RECEBIDO") == 3
    ensures status != "PRONTO" && status != "PREPARACAO" && status != "RECEBIDO" ==> StatusPriority(status) == 999999
  {
  }

  /** Row `a` may precede row `b` in the listing exactly when its status
      ranks lower, or ranks the same and its date is no later. */
  lemma ListingOrderMeaning(a: Order, b: Order)
    ensures CompareRows(a, b, ListingOrder) <= 0 <==>
              || StatusPriority(a.status) < StatusPriority(b.status)
              || (StatusPriority(a.status) == StatusPriority(b.status) && a.orderDate <= b.orderDate)
  {
    var byDate := [OrderBy(OrderDate, Asc, None)];
    assert ListingOrder[1..] == byDate;
    assert byDate[1..] == [];
    assert SortKey(a, ListingOrder[0]) == Num(StatusPriority(a.status));
    assert SortKey(b, ListingOrder[0]) == Num(StatusPriority(b.status));
    assert CompareRows(a, b, byDate) == CmpInt(a.orderDate, b.orderDate);
    assert CompareRows(a, b, ListingOrder)
        == if StatusPriority(a.status) != StatusPriority(b.status)
           then CmpInt(StatusPriority(a.status), StatusPriority(b.status))
           else CompareRows(a, b, byDate);
  }

  /** Listing precedence of an order with `status` and `date` over one with
      `status'` and `date'`: the status rank, then the date. */
  predicate ListedBefore(status: string, date: int, status': string, date': int) {
    || StatusPriority(status) < StatusPriority(status')
    || (StatusPriority(status) == StatusPriority(status') && date <= date')
  }

  /** `listOrders` (the query part): every row, by status rank then date. */
  function ListOrders(s: Store): (r: seq<Order>)
    ensures multiset(r) == multiset(s.rows)
    ensures forall i, j :: 0 <= i < j < |r| ==> ListedBefore(r[i].status, r[i].orderDate, r[j].status, r[j].orderDate)
  {
    var r := FindWithOrder(s.rows, ListingOptions);
    forall i, j | 0 <= i < j < |r|
      ensures ListedBefore(r[i].status, r[i].orderDate, r[j].status, r[j].orderDate)
    {
      ListingOrderMeaning(r[i], r[j]);
    }
    r
  }

  /** Either variant of `create` keeps the table valid and the new row can
      be found by its id: the round trip of create and findOrder. */
  lemma CreateThenFind(s: Store, n: NewOrder, keepNames: bool)
    requires Valid(s)
    ensures Valid(Save(s, n, keepNames).0)
    ensures FindOrder(Save(s, n, keepNames).0, Save(s, n, keepNames).1.id) == Some(Save(s, n, keepNames).1)
    ensures forall id :: id != Save(s, n, keepNames).1.id ==> FindOrder(Save(s, n, keepNames).0, id) == FindOrder(s, id)
  {
    var (s', row) := Save(s, n, keepNames);
    var k := FirstMatch(s'.rows, Id, Num(row.id));
    assert s'.rows[|s.rows|] == row;
    assert k == |s.rows|;
    forall id | id != row.id
      ensures FindOrder(s', id) == FindOrder(s, id)
    {
      FirstMatchAppend(s.rows, row, Id, Num(id));
    }
  }

  lemma {:induction false} FirstMatchAppend(rows: seq<Order>, row: Order, c: Column, v: Value)
    requires FieldOf(row, c) != v
    ensures FirstMatch(rows + [row], c, v) == FirstMatch(rows, c, v) || (FirstMatch(rows, c, v) == |rows| && FirstMatch(rows + [row], c, v) == |rows| + 1)
    ensures FirstMatch(rows + [row], c, v) < |rows| + 1 <==> FirstMatch(rows, c, v) < |rows|
  {
    if rows != [] {
      assert (rows + [row])[1..] == rows[1..] + [row];
      FirstMatchAppend(rows[1..], row, c, v);
    }
  }

  /** The stored items price to the total the order was created with, for
      either variant of `create`: the snapshot total recomputed on every
      read is the creation total. */
  lemma {:induction false} CreatedTotalIsSnapshotTotal(s: Store, n: NewOrder, keepNames: bool)
    ensures SnapshotTotal(Save(s, n, keepNames).1.items.value) == Total(n.items)
    decreases |n.items|
  {
    if n.items != [] {
      var m := |n.items| - 1;
      var shorter := n.(items := n.items[..m]);
      CreatedTotalIsSnapshotTotal(s, shorter, keepNames);
      var items := Save(s, n, keepNames).1.items.value;
      assert items[..m] == Save(s, shorter, keepNames).1.items.value;
    }
  }

  /** With unique ids, updating one order's status changes that order's
      status and nothing else: every other order, and every other field,
      reads back as before, and the table stays valid. */
  lemma UpdateThenFind(s: Store, id: int, status: string, other: int)
    requires Valid(s)
    ensures Valid(UpdateOrderStatus(s, id, status))
    ensures FindOrder(UpdateOrderStatus(s, id, status), id)
            == (match FindOrder(s, id) case Some(o) => Some(o.(status := status)) case None => None)
    ensures other != id ==> FindOrder(UpdateOrderStatus(s, id, status), other) == FindOrder(s, other)
  {
    var r := UpdateOrderStatus(s, id, status);
    FirstMatchSameField(s.rows, r.rows, Id, Num(id));
    FirstMatchSameField(s.rows, r.rows, Id, Num(other));
  }

  lemma {:induction false} FirstMatchSameField(a: seq<Order>, b: seq<Order>, c: Column, v: Value)
    requires |a| == |b| && forall i :: 0 <= i < |a| ==> FieldOf(a[i], c) == FieldOf(b[i], c)
    ensures FirstMatch(a, c, v) == FirstMatch(b, c, v)
  {
    if a != [] {
      FirstMatchSameField(a[1..], b[1..], c, v);
    }
  }
}
