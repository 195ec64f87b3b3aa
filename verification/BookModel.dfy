/** The order book as values: each side is one flat sequence, best price first and, within a price, in order
    of arrival. What each operation of src/engine/order_book.cpp does to it. */
module BookModel {
  import opened Core

  /** A resting order with the time it joined the book (a ghost of the model: the code keeps only positions). */
  datatype Rest = Rest(order: Order, stamp: nat)

  datatype Fill = Fill(makerId: OrderId, price: Price, qty: Quantity)

  /** An execution report before it gets its number. */
  datatype Notice = Notice(order: Order, filled: Quantity)

  datatype Settings = Settings(selfTradePrevention: bool, postOnlyRejection: bool)

  datatype Book = Book(bids: seq<Rest>, asks: seq<Rest>, clock: nat) {
    function On(side: Side): seq<Rest> {
      if side == Buy then bids else asks
    }

    function With(side: Side, flat: seq<Rest>): Book {
      if side == Buy then this.(bids := flat) else this.(asks := flat)
    }
  }

  const EMPTY_BOOK := Book([], [], 0)

  // ----- Priority -----

  /** Among resting orders of `side`, price `p` trades before price `q`. */
  predicate Better(side: Side, p: Price, q: Price) {
    if side == Buy then p > q else p < q
  }

  predicate Ahead(side: Side, a: Rest, b: Rest) {
    || Better(side, a.order.price, b.order.price)
    || (a.order.price == b.order.price && a.stamp < b.stamp)
  }

  ghost predicate Sorted(side: Side, flat: seq<Rest>) {
    forall i, j :: 0 <= i < j < |flat| ==> Ahead(side, flat[i], flat[j])
  }

  // ----- Looking up and editing one side -----

  /** The place of `id`, or the length. */
  function Position(flat: seq<Rest>, id: OrderId): (k: nat)
    ensures k <= |flat|
    ensures k < |flat| ==> flat[k].order.id == id
  {
    if flat == [] || flat[0].order.id == id then 0 else 1 + Position(flat[1..], id)
  }

  predicate Has(flat: seq<Rest>, id: OrderId) {
    Position(flat, id) < |flat|
  }

  function Lookup(flat: seq<Rest>, id: OrderId): Option<Rest> {
    if Has(flat, id) then Some(flat[Position(flat, id)]) else None
  }

  function Removed(flat: seq<Rest>, id: OrderId): seq<Rest> {
    var k := Position(flat, id);
    if k < |flat| then flat[..k] + flat[k + 1..] else flat
  }

  function Requantified(flat: seq<Rest>, id: OrderId, qty: Quantity): seq<Rest> {
    var k := Position(flat, id);
    if k < |flat| then flat[k := flat[k].(order := flat[k].order.(quantity := qty))] else flat
  }

  /** How many orders keep priority over a newcomer at `price`: those at a better price or the same one. */
  function Slot(side: Side, flat: seq<Rest>, price: Price): (k: nat)
    ensures k <= |flat|
  {
    if flat == [] || Better(side, price, flat[0].order.price) then 0 else 1 + Slot(side, flat[1..], price)
  }

  function Inserted(side: Side, flat: seq<Rest>, r: Rest): seq<Rest> {
    var k := Slot(side, flat, r.order.price);
    flat[..k] + [r] + flat[k..]
  }

  // ----- Matching -----

  /** |int64(a - b)| < 100 after unsigned subtraction. */
  predicate NearIds(a: OrderId, b: OrderId) {
    var d := (a - b) % 0x1_0000_0000_0000_0000;
    d < 100 || d > 0x1_0000_0000_0000_0000 - 100
  }

  predicate Crosses(taker: Order, price: Price) {
    taker.kind == Market || taker.WouldCross(price)
  }

  /** The best resting order ends the matching: it sits at the price the code takes for "no price", it does
      not cross, or self-trade prevention objects. */
  predicate Stops(stp: bool, taker: Order, maker: Order) {
    maker.price == 0 || !Crosses(taker, maker.price) || (stp && NearIds(taker.id, maker.id))
  }

  datatype Matched = Matched(taker: Order, opp: seq<Rest>, fills: seq<Fill>)

  function Match(stp: bool, taker: Order, opp: seq<Rest>): Matched
    decreases |opp|
  {
    if taker.IsFilled() || opp == [] || Stops(stp, taker, opp[0].order) then
      Matched(taker, opp, [])
    else
      var maker := opp[0].order;
      var q := Min(taker.Remaining(), maker.Remaining());
      var fill := Fill(maker.id, maker.price, q);
      if maker.Fill(q).IsFilled() then
        var rest := Match(stp, taker.Fill(q), opp[1..]);
        Matched(rest.taker, rest.opp, [fill] + rest.fills)
      else
        Matched(taker.Fill(q), opp[0 := opp[0].(order := maker.Fill(q))], [fill])
  }

  // ----- Fill-or-kill -----

  /** Resting quantity that crosses, over the prices up to `bound` in numeric order. */
  function CrossingUpTo(taker: Order, opp: seq<Rest>, bound: Price): nat {
    if opp == [] then 0
    else
      var o := opp[0].order;
      (if o.price <= bound && Crosses(taker, o.price) then o.Remaining() else 0) + CrossingUpTo(taker, opp[1..], bound)
  }

  /** The pre-check walks the levels in numeric order with a 32-bit sum and stops once it is large enough. */
  ghost predicate FokAccepts(taker: Order, opp: seq<Rest>) {
    exists i :: 0 <= i < |opp| && Wrap32(CrossingUpTo(taker, opp, opp[i].order.price)) >= taker.quantity
  }

  // ----- The three operations -----

  datatype Added = Added(book: Book, result: OrderResult, taker: Order, fills: seq<Fill>, notices: seq<Notice>)

  function Priced(order: Order): Order {
    if order.kind != Market then order
    else order.(price := if order.side == Buy then INVALID_PRICE else 0)
  }

  function BestPrice(flat: seq<Rest>): Price {
    if flat == [] then INVALID_PRICE else flat[0].order.price
  }

  /** The post-only test, on the cached best price of the other side. */
  predicate HitsBest(order: Order, best: Price) {
    best != INVALID_PRICE && order.WouldCross(best)
  }

  ghost function Verdict(s: Settings, book: Book, order: Order): RejectReason {
    var opp := book.On(order.side.Opposite());
    if order.quantity == 0 then InvalidQuantity
    else if order.kind == Limit && order.price <= 0 then InvalidPrice
    else if Has(book.bids, order.id) || Has(book.asks, order.id) then DuplicateOrderId
    else if order.kind == PostOnly && s.postOnlyRejection && HitsBest(order, BestPrice(opp)) then WouldCrossBook
    else if order.IsFok() && !FokAccepts(order, opp) then InvalidQuantity
    else NoReason
  }

  /** An unfilled remainder joins the book. */
  predicate Rests(taker: Order) {
    !taker.IsFilled() && !taker.IsIoc() && !taker.IsFok() && (taker.kind == Limit || taker.kind == PostOnly)
  }

  function AfterMatch(book: Book, m: Matched): Book {
    var swept := book.With(m.taker.side.Opposite(), m.opp);
    if Rests(m.taker) then
      swept.With(m.taker.side, Inserted(m.taker.side, swept.On(m.taker.side), Rest(m.taker, book.clock)))
           .(clock := book.clock + 1)
    else swept
  }

  function Notices(taker: Order): seq<Notice> {
    (if taker.IsIoc() && !taker.IsFilled() then [Notice(taker, taker.filledQty)] else [])
    + (if taker.filledQty > 0 then [Notice(taker, taker.filledQty)] else [])
  }

  /** A fill-or-kill that did not fill after all: reported as a failure, its trades stand. */
  predicate FokMissed(taker: Order) {
    !taker.IsFilled() && !taker.IsIoc() && taker.IsFok()
  }

  ghost function Add(s: Settings, book: Book, order: Order): Added {
    var taker := Priced(order);
    var verdict := Verdict(s, book, taker);
    if verdict != NoReason then
      Added(book, OrderResult(false, verdict, order.id, 0), taker, [],
            if verdict == WouldCrossBook then [Notice(taker, 0)] else [])
    else
      var m := Match(s.selfTradePrevention, taker, book.On(taker.side.Opposite()));
      if FokMissed(m.taker) then
        Added(AfterMatch(book, m), OrderResult(false, InvalidQuantity, order.id, 0), m.taker, m.fills, [])
      else
        Added(AfterMatch(book, m), OrderResult(true, NoReason, order.id, m.taker.filledQty), m.taker, m.fills,
              Notices(m.taker))
  }

  function Find(book: Book, id: OrderId): Option<Rest> {
    if Has(book.bids, id) then Lookup(book.bids, id) else Lookup(book.asks, id)
  }

  function Cancel(book: Book, id: OrderId): Book {
    match Find(book, id)
    case None => book
    case Some(r) => book.With(r.order.side, Removed(book.On(r.order.side), id))
  }

  /** At the same price the quantity is overwritten in place; otherwise cancel and add anew. */
  ghost function Replace(s: Settings, book: Book, id: OrderId, newPrice: Price, newQty: Quantity): Added {
    match Find(book, id)
    case None => Unchanged(book, id)
    case Some(r) =>
      var o := r.order;
      if o.price == newPrice then
        Unchanged(book.With(o.side, Requantified(book.On(o.side), id, newQty)), id)
          .(result := OrderResult(true, NoReason, id, 0))
      else
        Add(s, Cancel(book, id), Renewed(o, newPrice, newQty))
  }

  function Renewed(o: Order, newPrice: Price, newQty: Quantity): Order {
    NewOrder(o.id, o.symbol, o.side, newPrice, newQty, o.kind, o.tif)
  }

  function Unchanged(book: Book, id: OrderId): Added {
    Added(book, OrderResult(false, OrderNotFound, id, 0),
          NewOrder(id, [0, 0, 0, 0, 0, 0, 0, 0], Buy, 0, 0, Limit, Day), [], [])
  }
}
