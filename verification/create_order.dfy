/** Order creation (`CreateOrderUseCase.createOrder`): look up every
    requested item in input order, split the items into resolved lines and
    item errors, price the resolved lines and hand the record to the store. */
module CreateOrderUseCase {
  import opened Common

  /** The state of the per-item loop: the calls made so far, the resolved
      lines, the item errors and, once a lookup has thrown, its failure. */
  datatype Assembly = Assembly(calls: seq<Call>, items: seq<NewItem>, errors: seq<ItemError>, fault: Option<Failure>)

  /** The value the use case returns: the stored order (or none) and the item errors. */
  datatype Created = Created(order: Option<Order>, errors: seq<ItemError>)

  /** One product lookup per item, in the items' order. */
  function LookupCalls(inputs: seq<ItemInput>): (r: seq<Call>)
    ensures |r| == |inputs|
    ensures forall i :: 0 <= i < |inputs| ==> r[i] == ProductLookup(inputs[i].productId)
  {
    seq(|inputs|, i requires 0 <= i < |inputs| => ProductLookup(inputs[i].productId))
  }

  lemma LookupCallsStep(inputs: seq<ItemInput>)
    requires inputs != []
    ensures LookupCalls(inputs) == LookupCalls(inputs[..|inputs| - 1]) + [ProductLookup(inputs[|inputs| - 1].productId)]
  {
  }

  /** The catalog answers the lookup of `item` without throwing and resolves it. */
  predicate Resolves(catalog: int -> Result<Lookup>, item: ItemInput) {
    catalog(item.productId).Ok? && Accepted(catalog(item.productId).value)
  }

  /** How many of `inputs` resolve. */
  function ResolvedCount(inputs: seq<ItemInput>, catalog: int -> Result<Lookup>): (n: nat)
    ensures n <= |inputs|
  {
    if inputs == [] then 0
    else ResolvedCount(inputs[..|inputs| - 1], catalog) + (if Resolves(catalog, inputs[|inputs| - 1]) then 1 else 0)
  }

  /** The resolved line for `item`: the quantity from the request, the id,
      price and name from the product found. */
  function Snapshot(item: ItemInput, p: Product): NewItem {
    NewItem(p.id, item.quantity, p.price, p.name)
  }

  /** The per-item loop over `inputs`, one item after the other. A lookup
      that throws ends the loop: no later item is looked up. */
  function Assemble(inputs: seq<ItemInput>, catalog: int -> Result<Lookup>): (a: Assembly)
    ensures a.fault.None? <==> forall i :: 0 <= i < |inputs| ==> catalog(inputs[i].productId).Ok?
    ensures a.fault.None? ==> a.calls == LookupCalls(inputs) && |a.items| + |a.errors| == |inputs|
    ensures a.fault.Some? ==>
              && 0 < |a.calls| <= |inputs|
              && a.calls == LookupCalls(inputs[..|a.calls|])
              && (forall i :: 0 <= i < |a.calls| - 1 ==> catalog(inputs[i].productId).Ok?)
              && catalog(inputs[|a.calls| - 1].productId) == Err(a.fault.value)
  {
    if inputs == [] then Assembly([], [], [], None)
    else
      var prefix := inputs[..|inputs| - 1];
      var item := inputs[|inputs| - 1];
      var a := Assemble(prefix, catalog);
      assert forall i :: 0 <= i < |prefix| ==> prefix[i] == inputs[i];
      if a.fault.Some? then
        assert prefix[..|a.calls|] == inputs[..|a.calls|];
        a
      else
        LookupCallsStep(inputs);
        assert inputs[..|inputs|] == inputs;
        var called := a.(calls := a.calls + [ProductLookup(item.productId)]);
        match catalog(item.productId)
        case Err(f) => called.(fault := Some(f))
        case Ok(l) =>
          if Accepted(l) then called.(items := a.items + [Snapshot(item, l.product.value)])
          else called.(errors := a.errors + [ItemError(item.productId)])
  }

  /** `createOrder`: assemble the lines, then store the order with the
      request's date, status and code, the resolved lines and their total.
      A lookup or store failure ends the call with that failure. */
  function CreateOrder(req: CreateRequest, catalog: int -> Result<Lookup>, save: NewOrder -> Result<Option<Order>>): (run: Run<Created>)
    // When every lookup answers: one lookup per item in order, then exactly one store call.
    ensures (forall i :: 0 <= i < |req.items| ==> catalog(req.items[i].productId).Ok?) ==>
              && |run.calls| == |req.items| + 1
              && run.calls[..|req.items|] == LookupCalls(req.items)
              && run.calls[|req.items|].StoreCreate?
              && var n := run.calls[|req.items|].order;
                 && n.orderDate == req.orderDate && n.status == req.status && n.code == req.code
                 && n.totalPrice == Total(n.items)
                 // the stored lines are the loop's resolved lines, each item placed as `PlacedAt` says
                 && n.items == Assemble(req.items, catalog).items
                 && |n.items| == ResolvedCount(req.items, catalog)
                 && AllPlaced(Assemble(req.items, catalog), req.items, catalog)
                 && match save(n)
                    case Err(f) => run.result == Err(f)
                    case Ok(o) =>
                      && run.result.Ok?
                      && run.result.value.order == o
                      && run.result.value.errors == Assemble(req.items, catalog).errors
                      && |n.items| + |run.result.value.errors| == |req.items|
    // When some lookup throws: the store is never called and that failure is the result.
    ensures !(forall i :: 0 <= i < |req.items| ==> catalog(req.items[i].productId).Ok?) ==>
              && 0 < |run.calls| <= |req.items|
              && run.calls == LookupCalls(req.items[..|run.calls|])
              && (forall i :: 0 <= i < |run.calls| - 1 ==> catalog(req.items[i].productId).Ok?)
              && run.result.Err?
              && catalog(req.items[|run.calls| - 1].productId) == Err(run.result.failure)
  {
    var a := Assemble(req.items, catalog);
    if a.fault.Some? then
      Run(a.calls, Err(a.fault.value))
    else
      AssemblePositions(req.items, catalog);
      var n := NewOrder(req.orderDate, req.status, req.code, a.items, Total(a.items));
      var calls := a.calls + [StoreCreate(n)];
      assert calls[..|req.items|] == a.calls;
      match save(n)
      case Err(f) => Run(calls, Err(f))
      case Ok(o) => Run(calls, Ok(Created(o, a.errors)))
  }

  /** When every lookup answers, the resolved lines are as many as the items that resolve. */
  lemma {:induction false} AssembleCountsResolved(inputs: seq<ItemInput>, catalog: int -> Result<Lookup>)
    requires forall i :: 0 <= i < |inputs| ==> catalog(inputs[i].productId).Ok?
    ensures |Assemble(inputs, catalog).items| == ResolvedCount(inputs, catalog)
  {
    if inputs != [] {
      var prefix := inputs[..|inputs| - 1];
      assert forall i :: 0 <= i < |prefix| ==> prefix[i] == inputs[i];
      AssembleCountsResolved(prefix, catalog);
    }
  }

  /** Item `i` sits where the loop puts it: when it resolves, it is resolved
      line number k, where k counts the resolving items before it, carrying
      the request's quantity with the product's id, price and name; when it
      does not, it is item error number i - k, holding the requested id. */
  predicate PlacedAt(a: Assembly, inputs: seq<ItemInput>, catalog: int -> Result<Lookup>, i: int)
    requires 0 <= i < |inputs| && catalog(inputs[i].productId).Ok?
  {
    var k := ResolvedCount(inputs[..i], catalog);
    var l := catalog(inputs[i].productId).value;
    if Accepted(l) then
      k < |a.items| &&
      a.items[k] == NewItem(l.product.value.id, inputs[i].quantity, l.product.value.price, l.product.value.name)
    else
      0 <= i - k < |a.errors| && a.errors[i - k] == ItemError(inputs[i].productId)
  }

  /** Where every item ends up. When every lookup answers, each item is
      placed as `PlacedAt` says; with the two lengths this fixes both lists,
      so resolved lines and item errors each keep the input order. */
  lemma {:induction false} AssemblePositions(inputs: seq<ItemInput>, catalog: int -> Result<Lookup>)
    requires forall i :: 0 <= i < |inputs| ==> catalog(inputs[i].productId).Ok?
    ensures |Assemble(inputs, catalog).items| == ResolvedCount(inputs, catalog)
    ensures |Assemble(inputs, catalog).errors| == |inputs| - ResolvedCount(inputs, catalog)
    ensures AllPlaced(Assemble(inputs, catalog), inputs, catalog)
  {
    AssembleCountsResolved(inputs, catalog);
    if inputs != [] {
      var n := |inputs| - 1;
      var prefix := inputs[..n];
      assert forall i :: 0 <= i < |prefix| ==> prefix[i] == inputs[i];
      AssemblePositions(prefix, catalog);
      AssembleExtends(inputs, catalog);
      PlacedLast(inputs, catalog);
      CombinePlacements(Assemble(prefix, catalog), Assemble(inputs, catalog), prefix, inputs, catalog);
    }
  }

  /** The placements of a prefix and of the last item give all placements. */
  lemma CombinePlacements(p: Assembly, a: Assembly, prefix: seq<ItemInput>, inputs: seq<ItemInput>,
                          catalog: int -> Result<Lookup>)
    requires inputs != [] && prefix == inputs[..|inputs| - 1]
    requires forall i :: 0 <= i < |inputs| ==> catalog(inputs[i].productId).Ok?
    requires AllPlaced(p, prefix, catalog) && Extends(p, a)
    requires PlacedAt(a, inputs, catalog, |inputs| - 1)
    ensures AllPlaced(a, inputs, catalog)
  {
    forall i | 0 <= i < |inputs| - 1
      ensures PlacedAt(a, inputs, catalog, i)
    {
      PlacedAtExtends(p, a, prefix, inputs, catalog, i);
    }
  }

  /** Every item is placed as `PlacedAt` says. */
  predicate AllPlaced(a: Assembly, inputs: seq<ItemInput>, catalog: int -> Result<Lookup>)
    requires forall i :: 0 <= i < |inputs| ==> catalog(inputs[i].productId).Ok?
  {
    forall i :: 0 <= i < |inputs| ==> PlacedAt(a, inputs, catalog, i)
  }

  /** Assembly `a` continues assembly `p`: both lists start with `p`'s. */
  predicate Extends(p: Assembly, a: Assembly) {
    && |p.items| <= |a.items| && a.items[..|p.items|] == p.items
    && |p.errors| <= |a.errors| && a.errors[..|p.errors|] == p.errors
  }

  /** One more answered lookup only adds at the end. */
  lemma AssembleExtends(inputs: seq<ItemInput>, catalog: int -> Result<Lookup>)
    requires inputs != [] && forall i :: 0 <= i < |inputs| ==> catalog(inputs[i].productId).Ok?
    ensures Extends(Assemble(inputs[..|inputs| - 1], catalog), Assemble(inputs, catalog))
  {
    var prefix := inputs[..|inputs| - 1];
    var item := inputs[|inputs| - 1];
    assert forall i :: 0 <= i < |prefix| ==> prefix[i] == inputs[i];
    var p := Assemble(prefix, catalog);
    var l := catalog(item.productId).value;
    if Accepted(l) {
      assert Assemble(inputs, catalog).items == p.items + [Snapshot(item, l.product.value)];
      assert Assemble(inputs, catalog).errors == p.errors;
    } else {
      assert Assemble(inputs, catalog).items == p.items;
      assert Assemble(inputs, catalog).errors == p.errors + [ItemError(item.productId)];
    }
  }

  /** The last item is placed after everything placed before it. */
  lemma PlacedLast(inputs: seq<ItemInput>, catalog: int -> Result<Lookup>)
    requires inputs != [] && forall i :: 0 <= i < |inputs| ==> catalog(inputs[i].productId).Ok?
    ensures PlacedAt(Assemble(inputs, catalog), inputs, catalog, |inputs| - 1)
  {
    var n := |inputs| - 1;
    var prefix := inputs[..n];
    assert forall i :: 0 <= i < |prefix| ==> prefix[i] == inputs[i];
    AssembleCountsResolved(prefix, catalog);
    var p := Assemble(prefix, catalog);
    assert p.fault.None?;
    assert inputs[..n] == prefix;
  }

  /** Placements in a prefix's assembly hold in any assembly extending it. */
  lemma PlacedAtExtends(p: Assembly, a: Assembly, prefix: seq<ItemInput>, inputs: seq<ItemInput>,
                        catalog: int -> Result<Lookup>, i: int)
    requires |prefix| <= |inputs| && prefix == inputs[..|prefix|] && 0 <= i < |prefix|
    requires catalog(prefix[i].productId).Ok? && PlacedAt(p, prefix, catalog, i)
    requires Extends(p, a)
    ensures PlacedAt(a, inputs, catalog, i)
  {
    assert inputs[..i] == prefix[..i] && inputs[i] == prefix[i];
  }

  /** The request of the unit tests: product 1 twice, product 2 once. */
  const ExampleRequest := CreateRequest(20240101, "PENDING", "ORDER-001", [ItemInput(1, 2), ItemInput(2, 1)])

  /** The product service of the unit tests with both products found:
      product 1 at 10.50, product 2 at 25.00. */
  function BothFound(id: int): Result<Lookup> {
    if id == 1 then Ok(Lookup(false, Some(Product(1, "Product 1", 10.5))))
    else Ok(Lookup(false, Some(Product(2, "Product 2", 25.0))))
  }

  /** The same service, answering "not found" for product 2. */
  function SecondMissing(id: int): Result<Lookup> {
    if id == 1 then Ok(Lookup(false, Some(Product(1, "Product 1", 10.5))))
    else Ok(Lookup(true, None))
  }

  /** The first creation example of the unit tests: both products are
      looked up in order, the order is stored with both lines and total
      46 (10.50 x 2 + 25.00 x 1), and the answer is the stored order with no
      item errors. */
  lemma CreateBothFoundExample(save: NewOrder -> Result<Option<Order>>)
    ensures var stored := NewOrder(20240101, "PENDING", "ORDER-001",
                                   [NewItem(1, 2, 10.5, "Product 1"), NewItem(2, 1, 25.0, "Product 2")], 46.0);
            && CreateOrder(ExampleRequest, BothFound, save).calls
               == [ProductLookup(1), ProductLookup(2), StoreCreate(stored)]
            && (save(stored).Ok? ==>
                  CreateOrder(ExampleRequest, BothFound, save).result == Ok(Created(save(stored).value, [])))
  {
    var items := ExampleRequest.items;
    var l1, l2 := NewItem(1, 2, 10.5, "Product 1"), NewItem(2, 1, 25.0, "Product 2");
    assert items[..1] == [ItemInput(1, 2)] && items[..1][..0] == [];
    assert Assemble(items[..1], BothFound) == Assembly([ProductLookup(1)], [l1], [], None);
    assert Assemble(items, BothFound) == Assembly([ProductLookup(1), ProductLookup(2)], [l1, l2], [], None);
    assert [l1, l2][..1] == [l1] && [l1][..0] == [];
    assert Total([l1]) == 21.0;
    assert Total([l1, l2]) == 46.0;
  }

  /** The second creation example: product 2 is not found, so the order is
      stored with product 1 alone at total 21, and the answer carries the
      item error for product 2. */
  lemma CreateSecondMissingExample(save: NewOrder -> Result<Option<Order>>)
    ensures var stored := NewOrder(20240101, "PENDING", "ORDER-001", [NewItem(1, 2, 10.5, "Product 1")], 21.0);
            && CreateOrder(ExampleRequest, SecondMissing, save).calls
               == [ProductLookup(1), ProductLookup(2), StoreCreate(stored)]
            && (save(stored).Ok? ==>
                  CreateOrder(ExampleRequest, SecondMissing, save).result == Ok(Created(save(stored).value, [ItemError(2)])))
  {
    var items := ExampleRequest.items;
    var l1 := NewItem(1, 2, 10.5, "Product 1");
    assert items[..1] == [ItemInput(1, 2)] && items[..1][..0] == [];
    assert Assemble(items[..1], SecondMissing) == Assembly([ProductLookup(1)], [l1], [], None);
    assert Assemble(items, SecondMissing) == Assembly([ProductLookup(1), ProductLookup(2)], [l1], [ItemError(2)], None);
    assert [l1][..0] == [];
    assert Total([l1]) == 21.0;
  }
}
