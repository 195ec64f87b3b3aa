/** Orders and the fixed-width types they are made of (include/core/types.hpp, include/core/order.hpp). */
module Core {

  /** int64_t; the largest value marks "no price". */
  type Price = p: int | -0x8000_0000_0000_0000 <= p <= 0x7FFF_FFFF_FFFF_FFFF
  /** uint32_t */
  type Quantity = q: int | 0 <= q < 0x1_0000_0000
  /** uint64_t */
  type OrderId = i: int | 0 <= i < 0x1_0000_0000_0000_0000
  type Byte = b: int | 0 <= b < 256
  /** char[8], compared bytewise */
  type Symbol = s: seq<Byte> | |s| == 8 witness [0, 0, 0, 0, 0, 0, 0, 0]

  const INVALID_PRICE: Price := 0x7FFF_FFFF_FFFF_FFFF
  const INVALID_ORDER_ID: OrderId := 0

  datatype Option<+T> = None | Some(value: T)

  datatype Side = Buy | Sell {
    function Opposite(): Side {
      if this == Buy then Sell else Buy
    }
  }

  datatype OrderType = Limit | Market | ImmediateOrCancel | FillOrKill | PostOnly
  datatype TimeInForce = Day | GoodTillCancel | IocTif | FokTif
  datatype OrderStatus = New | PartiallyFilled | Filled | Cancelled | Rejected

  function Min(a: int, b: int): int {
    if a < b then a else b
  }

  function Pow2(k: nat): (p: nat)
    ensures p >= 1
  {
    if k == 0 then 1 else 2 * Pow2(k - 1)
  }

  lemma DivModUnique(x: nat, n: nat, q: nat, r: nat)
    requires r < n && x == q * n + r
    ensures x % n == r && x / n == q
  {
    var d := x / n - q;
    assert d * n == r - x % n;
    MulGrows(d, n);
  }

  lemma MulGrows(d: int, n: nat)
    ensures d >= 1 ==> d * n >= n
    ensures d <= -1 ==> d * n <= 0 - n
  {
  }

  /** The result of uint32_t arithmetic. */
  function Wrap32(n: int): Quantity {
    n % 0x1_0000_0000
  }

  /** Wrapping early or late gives the same result. */
  lemma WrapAdd(n: int, d: int)
    ensures Wrap32(Wrap32(n) + d) == Wrap32(n + d)
  {
  }

  /** A struct passed and stored by value: `fill` yields the updated copy. */
  datatype Order = Order(
    id: OrderId, price: Price, quantity: Quantity, filledQty: Quantity,
    side: Side, kind: OrderType, tif: TimeInForce, status: OrderStatus,
    symbol: Symbol, timestamp: nat)
  {
    /** Unsigned 32-bit subtraction. */
    function Remaining(): Quantity {
      Wrap32(quantity - filledQty)
    }

    predicate IsFilled() {
      filledQty >= quantity
    }

    predicate WouldCross(other: Price) {
      if side == Buy then price >= other else price <= other
    }

    function Fill(fillQty: Quantity): Order {
      var filled := Wrap32(filledQty + Min(fillQty, Remaining()));
      this.(filledQty := filled,
      status := if filled >= quantity then Filled
                else if filled > 0 then PartiallyFilled
                else status)
    }

    predicate IsIoc() {
      tif == IocTif || kind == ImmediateOrCancel
    }

    predicate IsFok() {
      tif == FokTif || kind == FillOrKill
    }
  }

  /** What the constructor builds: nothing filled yet. */
  function NewOrder(id: OrderId, symbol: Symbol, side: Side, price: Price, quantity: Quantity,
                    kind: OrderType, tif: TimeInForce): Order {
    Order(id, price, quantity, 0, side, kind, tif, New, symbol, 0)
  }

  /** A fill never overshoots: what is taken leaves `Remaining` and enters `filledQty`, with no wrap,
      and the order is filled exactly when nothing remains. */
  lemma FillAccounts(o: Order, q: Quantity)
    requires o.filledQty <= o.quantity
    ensures var after, taken := o.Fill(q), Min(q, o.Remaining());
      && after.filledQty == o.filledQty + taken <= after.quantity == o.quantity
      && after.Remaining() == o.Remaining() - taken
      && (after.IsFilled() <==> taken == o.Remaining())
      && (after.IsFilled() <==> after.Remaining() == 0)
      && after == o.(filledQty := after.filledQty, status := after.status)
  {
  }

  datatype RejectReason =
    | NoReason | UnknownSymbol | InvalidPrice | InvalidQuantity | OrderNotFound | WouldCrossBook | DuplicateOrderId

  datatype OrderResult = OrderResult(success: bool, reason: RejectReason, orderId: OrderId, filledQty: Quantity)

  datatype Trade = Trade(
    seqNum: nat, symbol: Symbol, price: Price, quantity: Quantity,
    buyOrderId: OrderId, sellOrderId: OrderId, aggressor: Side)

  datatype Report = Report(
    execId: nat, orderId: OrderId, symbol: Symbol, side: Side, status: OrderStatus, price: Price,
    orderQty: Quantity, filledQty: Quantity, leavesQty: Quantity)
}
