/** The payment-status lookup (`GetPaymentStatusOrderUseCase`) over the
    repository's `findByCode`. */
module GetPaymentStatusUseCase {
  import opened Common

  /** `getPaymentStatus`: one lookup by code; no order is the 404 error, an
      order gives its payment status as stored; a failing lookup passes on. */
  function GetPaymentStatus(code: string, findByCode: string -> Result<Option<Order>>): (run: Run<string>)
    ensures run.calls == [StoreFindByCode(code)]
    ensures findByCode(code).Err? ==> run.result == Err(findByCode(code).failure)
    ensures findByCode(code) == Ok(None) ==> run.result == Err(OrderNotFound)
    ensures findByCode(code).Ok? && findByCode(code).value.Some? ==>
              run.result == Ok(findByCode(code).value.value.paymentStatus)
  {
    var calls := [StoreFindByCode(code)];
    match findByCode(code)
    case Err(f) => Run(calls, Err(f))
    case Ok(None) => Run(calls, Err(OrderNotFound))
    case Ok(Some(order)) => Run(calls, Ok(order.paymentStatus))
  }
}

/** The status update (`UpdateStatusOrderUseCase`) over the repository's
    `findOrder` and `updateOrderStatus`. */
module UpdateStatusUseCase {
  import opened Common

  /** `updateOrderStatus`: one existence check by id, then, only for an
      existing order, one status write with the id and status given; the
      status is not checked against any list of known statuses. */
  function UpdateOrderStatus(id: int, status: string,
                             findOrder: int -> Result<Option<Order>>,
                             update: (int, string) -> Result<()>): (run: Run<()>)
    ensures 1 <= |run.calls| <= 2 && run.calls[0] == StoreFindOrder(id)
    ensures findOrder(id).Err? ==> run == Run([StoreFindOrder(id)], Err(findOrder(id).failure))
    ensures findOrder(id) == Ok(None) ==> run == Run([StoreFindOrder(id)], Err(OrderNotFound))
    ensures findOrder(id).Ok? && findOrder(id).value.Some? ==>
              run == Run([StoreFindOrder(id), StoreUpdateStatus(id, status)], update(id, status))
  {
    var check := [StoreFindOrder(id)];
    match findOrder(id)
    case Err(f) => Run(check, Err(f))
    case Ok(None) => Run(check, Err(OrderNotFound))
    case Ok(Some(_)) => Run(check + [StoreUpdateStatus(id, status)], update(id, status))
  }

  /** The update examples of the unit tests: with order 1 present, three
      updates in a row each check once and write once, with the status
      given; with no order, nothing is written and the 404 comes back. */
  lemma UpdateExamples(order: Order, update: (int, string) -> Result<()>)
    ensures var present := (id: int) => Ok(Some(order));
            var absent := (id: int) => Ok(None);
            && UpdateOrderStatus(1, "PROCESSING", present, update).calls == [StoreFindOrder(1), StoreUpdateStatus(1, "PROCESSING")]
            && UpdateOrderStatus(1, "COMPLETED", present, update).calls == [StoreFindOrder(1), StoreUpdateStatus(1, "COMPLETED")]
            && UpdateOrderStatus(1, "CANCELLED", present, update).calls == [StoreFindOrder(1), StoreUpdateStatus(1, "CANCELLED")]
            && UpdateOrderStatus(9999, "X", absent, update) == Run([StoreFindOrder(9999)], Err(OrderNotFound))
  {
  }
}
