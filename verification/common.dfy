/** Shared vocabulary of the order service: outcomes of calls, the order
    aggregate and its items, the creation request, the catalog's answer and
    the trace of collaborator calls a use case makes. */
module Common {

  /** Present or absent value; stands for `T | null` and for optional fields. */
  datatype Option<+T> = None | Some(value: T) {
    function GetOr(default: T): T {
      match this
      case Some(v) => v
      case None => default
    }
  }

  /** How a call can end without a value. `NotFound` is the structured
      not-found error the use cases raise (a message and the status 404);
      `Fault` is any other thrown error, which every layer passes on unchanged. */
  datatype Failure = NotFound(message: string, status: int) | Fault(cause: string)

  datatype Result<+T> = Ok(value: T) | Err(failure: Failure)

  /** The not-found error of the payment-status and status-update use cases. */
  const OrderNotFound: Failure := NotFound("Pedido não encontrado!", 404)

  /** A catalog product, as the product service reports it. */
  datatype Product = Product(id: int, name: string, price: real)

  /** The product service's answer: an error flag and maybe a product. */
  datatype Lookup = Lookup(error: bool, product: Option<Product>)

  /** A lookup resolves an item when it reports no error and carries a product. */
  predicate Accepted(l: Lookup) {
    !l.error && l.product.Some?
  }

  /** One requested line of a creation request. */
  datatype ItemInput = ItemInput(productId: int, quantity: int)

  /** A creation request; `orderDate` is an abstract timestamp. */
  datatype CreateRequest = CreateRequest(orderDate: int, status: string, code: string, items: seq<ItemInput>)

  /** A resolved line handed to the store: price and name come from the catalog. */
  datatype NewItem = NewItem(productId: int, quantity: int, price: real, snapshotName: string)

  /** The record the creation use case hands to the store. */
  datatype NewOrder = NewOrder(orderDate: int, status: string, code: string, items: seq<NewItem>, totalPrice: real)

  /** An item whose product could not be resolved. */
  datatype ItemError = ItemError(productId: int)

  /** A persisted order line. `itemId` is the originating product id; the
      name is optional because a row may have been written without it. */
  datatype Item = Item(id: int, quantity: int, snapshotPrice: real, itemId: int, snapshotName: Option<string>)

  /** A persisted order. `items` is optional, as in the order model, where
      the relation may be missing; rows read with their items always carry it. */
  datatype Order = Order(id: int, orderDate: int, status: string, code: string, paymentStatus: string, items: Option<seq<Item>>)

  /** One call a use case makes on a collaborator, in the order it makes them. */
  datatype Call =
    | ProductLookup(productId: int)
    | StoreCreate(order: NewOrder)
    | StoreFindOrder(id: int)
    | StoreFindByCode(code: string)
    | StoreUpdateStatus(id: int, status: string)

  /** What a use case did: the calls it made and how it ended. */
  datatype Run<+T> = Run(calls: seq<Call>, result: Result<T>)

  function LineTotal(price: real, quantity: int): real {
    price * quantity as real
  }

  /** Price of resolved lines: the left fold `acc + price * quantity` from 0. */
  function Total(items: seq<NewItem>): real {
    if items == [] then 0.0
    else Total(items[..|items| - 1]) + LineTotal(items[|items| - 1].price, items[|items| - 1].quantity)
  }

  /** Price of persisted lines, from their frozen snapshot prices. */
  function SnapshotTotal(items: seq<Item>): real {
    if items == [] then 0.0
    else SnapshotTotal(items[..|items| - 1]) + LineTotal(items[|items| - 1].snapshotPrice, items[|items| - 1].quantity)
  }
}
