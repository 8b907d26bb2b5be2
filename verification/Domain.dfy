/** Values shared by every part of the exchange: fixed-width integers, orders and trades. */
module Domain {
  const TWO32: int := 0x1_0000_0000
  const TWO64: int := 0x1_0000_0000_0000_0000

  type Byte = x: int | 0 <= x < 256
  type OrderId = x: int | 0 <= x < TWO64
  type Price = x: int | 0 <= x < TWO64
  type Quantity = x: int | 0 <= x < TWO32
  type Timestamp = x: int | 0 <= x < TWO64

  datatype Option<+T> = None | Some(value: T)

  /** The source's exceptions, carrying what() as text. */
  datatype Result<+T> = Success(value: T) | Failure(error: string)

  datatype Side = Bid | Ask
  {
    function Opposite(): Side {
      if Bid? then Ask else Bid
    }
  }

  datatype OrderType = Limit | Market

  /** An order. Its construction timestamp takes part in no decision and is not modelled. */
  datatype Order = Order(id: OrderId, price: Price, quantity: Quantity, side: Side, orderType: OrderType)
  {
    predicate Valid() {
      && (orderType.Limit? ==> 0 < price)
      && (orderType.Market? ==> price == 0)
      && 0 < quantity
    }

    /** Order::reduce_quantity: throws rather than wrapping below zero. */
    function ReduceQuantity(amount: Quantity): Result<Order> {
      if amount > quantity then
        Failure("cannot reduce by more than current quantity")
      else
        Success(this.(quantity := quantity - amount))
    }
  }

  /** The Order constructor: three checks in source order, each with its own message. */
  function MakeOrder(id: OrderId, price: Price, quantity: Quantity, side: Side, orderType: OrderType)
    : (r: Result<Order>)
    ensures r.Success? <==> Order(id, price, quantity, side, orderType).Valid()
    ensures r.Success? ==> r.value == Order(id, price, quantity, side, orderType)
    ensures r.Failure? ==>
      r.error == (if orderType.Limit? && price == 0 then "limit orders cant have non-positive price"
                  else if orderType.Market? && price > 0 then "market orders cant have positive price"
                  else "quantity must be greater than 0")
  {
    if orderType.Limit? && price <= 0 then
      Failure("limit orders cant have non-positive price")
    else if orderType.Market? && price > 0 then
      Failure("market orders cant have positive price")
    else if quantity == 0 then
      Failure("quantity must be greater than 0")
    else
      Success(Order(id, price, quantity, side, orderType))
  }

  datatype Trade = Trade(price: Price, buyer: OrderId, seller: OrderId, quantity: Quantity, timestamp: Timestamp)

  function Min(a: int, b: int): int {
    if a <= b then a else b
  }
}
