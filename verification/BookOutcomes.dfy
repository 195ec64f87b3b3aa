/** What a caller sees of each operation, said in prices, quantities and ids alone: at what prices an order trades, what
    rests afterwards, which orders are refused, and what happens to everybody else (src/engine/order_book.cpp). */
module BookOutcomes {
  import opened Core
  import opened BookModel
  import opened BookLaws
  import opened BookSafety
  import opened BookGuarantees

  // ----- Prices -----

  /** Every trade of a limited order is at its limit or better for it. */
  lemma {:induction false} SweepWithinLimit(stp: bool, taker: Order, opp: seq<Rest>)
    requires taker.kind != Market
    ensures forall k :: 0 <= k < |Match(stp, taker, opp).fills| ==>
      var price := Match(stp, taker, opp).fills[k].price;
      && (taker.side == Buy ==> price <= taker.price)
      && (taker.side == Sell ==> price >= taker.price)
    decreases |opp|
  {
    hide NearIds, Order.Remaining;
    if !(taker.IsFilled() || opp == [] || Stops(stp, taker, opp[0].order)) {
      SweepWithinLimit(stp, taker.Fill(Min(taker.Remaining(), opp[0].order.Remaining())), opp[1..]);
    }
  }

  /** Ids that self-trade prevention keeps apart, as 64-bit integers: less than 100 away, going round. */
  predicate Protected(a: OrderId, b: OrderId) {
    -100 < a - b < 100 || a - b > 0x1_0000_0000_0000_0000 - 100 || b - a > 0x1_0000_0000_0000_0000 - 100
  }

  lemma NearIsProtected(a: OrderId, b: OrderId)
    ensures NearIds(a, b) <==> Protected(a, b)
  {
    var d := a - b;
    if d < 0 {
      SmallRemainder(d + 0x1_0000_0000_0000_0000, d);
    } else {
      SmallRemainder(d, d);
    }
  }

  lemma SmallRemainder(r: nat, d: int)
    requires r < 0x1_0000_0000_0000_0000 && (r == d || r == d + 0x1_0000_0000_0000_0000)
    ensures d % 0x1_0000_0000_0000_0000 == r
  {
  }

  /** What self-trade prevention is for: nobody trades with an order it protects. */
  lemma NoSelfTrade(taker: Order, opp: seq<Rest>, k: nat)
    requires taker.filledQty <= taker.quantity && Fillable(opp)
    requires k < |Match(true, taker, opp).fills|
    ensures !Protected(taker.id, Match(true, taker, opp).fills[k].makerId)
  {
    hide Match, NearIds, Protected, Order.Remaining;
    SweepInOrder(true, taker, opp);
    FillsWithinReach(true, taker, opp);
    assert Hits(Match(true, taker, opp).fills[k], opp[k]);
    NearIsProtected(taker.id, opp[k].order.id);
  }

  /** Conversely an order that could take more leaves at the front only somebody beyond its limit, at price 0, or
      protected by self-trade prevention; and a market order has no limit. */
  lemma {:induction false} SweepTakesAll(stp: bool, taker: Order, opp: seq<Rest>)
    requires taker.filledQty <= taker.quantity && Fillable(opp)
    ensures var m := Match(stp, taker, opp);
      !m.taker.IsFilled() && m.opp != [] ==>
        var front := m.opp[0].order;
        || front.price == 0
        || (stp && Protected(taker.id, front.id))
        || (taker.kind != Market && if taker.side == Buy then front.price > taker.price else front.price < taker.price)
    decreases |opp|
  {
    hide NearIds, Order.Remaining, Order.Fill, Protected;
    if !(taker.IsFilled() || opp == [] || Stops(stp, taker, opp[0].order)) {
      var maker := opp[0].order;
      var q := Min(taker.Remaining(), maker.Remaining());
      StartAccounts(taker);
      StartAccounts(maker);
      FillAccounts(taker, q);
      FillAccounts(maker, q);
      assert forall i :: 0 <= i < |opp[1..]| ==> opp[1..][i] == opp[i + 1];
      if maker.Fill(q).IsFilled() {
        SweepTakesAll(stp, taker.Fill(q), opp[1..]);
      }
    } else if opp != [] {
      NearIsProtected(taker.id, opp[0].order.id);
    }
  }

  /** Price 0 stands for "no price": nobody resting there is ever traded with. */
  lemma {:induction false} NothingAtZero(stp: bool, taker: Order, opp: seq<Rest>)
    ensures forall k :: 0 <= k < |Match(stp, taker, opp).fills| ==> Match(stp, taker, opp).fills[k].price != 0
    decreases |opp|
  {
    hide Order.Fill, Order.IsFilled, Order.Remaining, Crosses, NearIds;
    if opp != [] {
      NothingAtZero(stp, taker.Fill(Min(taker.Remaining(), opp[0].order.Remaining())), opp[1..]);
    }
  }

  /** The same for a whole add: it never trades through its limit, and what it could still have taken is not there. */
  lemma AddTradesAtItsPrices(s: Settings, book: Book, order: Order)
    requires WellFormed(book) && Incoming(order)
    ensures var a := Add(s, book, order);
      var left := a.book.On(order.side.Opposite());
      && (order.kind != Market ==> forall k :: 0 <= k < |a.fills| ==>
            && (order.side == Buy ==> a.fills[k].price <= order.price)
            && (order.side == Sell ==> a.fills[k].price >= order.price))
      && (a.result.success && Traded(a.fills) < order.quantity && left != [] ==>
            var front := left[0].order;
            || front.price == 0
            || (s.selfTradePrevention && Protected(order.id, front.id))
            || (order.kind != Market
                && if order.side == Buy then front.price > order.price else front.price < order.price))
  {
    hide Match, Inserted, Verdict, Add, Protected, GoodSide, Fillable;
    var taker, opp := Priced(order), book.On(order.side.Opposite());
    AddBothSides(s, book, order);
    GoodIsFillable(order.side.Opposite(), opp, book.clock);
    SweepConserves(s.selfTradePrevention, taker, opp);
    SweepTakesAll(s.selfTradePrevention, taker, opp);
    if order.kind != Market {
      SweepWithinLimit(s.selfTradePrevention, taker, opp);
    }
  }

  /** Best price first and, within a price, in order of arrival. */
  lemma SidesAreInOrder(book: Book, i: nat, j: nat)
    requires WellFormed(book)
    ensures i < j < |book.bids| ==>
      || book.bids[i].order.price > book.bids[j].order.price
      || (book.bids[i].order.price == book.bids[j].order.price && book.bids[i].stamp < book.bids[j].stamp)
    ensures i < j < |book.asks| ==>
      || book.asks[i].order.price < book.asks[j].order.price
      || (book.asks[i].order.price == book.asks[j].order.price && book.asks[i].stamp < book.asks[j].stamp)
  {
    assert i < j < |book.bids| ==> Ahead(Buy, book.bids[i], book.bids[j]);
    assert i < j < |book.asks| ==> Ahead(Sell, book.asks[i], book.asks[j]);
  }

  /** The status of an order follows its fill. */
  lemma FillTellsStatus(o: Order, qty: Quantity)
    requires o.filledQty <= o.quantity && 0 < qty <= o.quantity - o.filledQty
    ensures o.Fill(qty).filledQty == o.filledQty + qty
    ensures o.Fill(qty).status == if o.filledQty + qty == o.quantity then Filled else PartiallyFilled
  {
  }

  // ----- What rests -----

  /** Between the two sides `r` has come in, and everybody else is as before. */
  predicate JoinedAt(before: seq<Rest>, after: seq<Rest>, i: nat, r: Rest) {
    i <= |before| && after == before[..i] + [r] + before[i..]
  }

  /** A day or good-till-cancel order of kind limit or post-only that succeeds rests what it has not traded, under its
      id and at its price; any other order, and any order that fails or is used up, leaves its own side alone. */
  lemma RemainderRests(s: Settings, book: Book, order: Order) returns (i: nat, r: Rest)
    requires WellFormed(book) && Incoming(order)
    ensures var a := Add(s, book, order);
      var before, after := book.On(order.side), a.book.On(order.side);
      if a.result.success && Traded(a.fills) < order.quantity
         && order.kind in {Limit, PostOnly} && order.tif in {Day, GoodTillCancel}
      then
        && JoinedAt(before, after, i, r)
        && r.order.id == order.id && r.order.price == order.price && r.order.side == order.side
        && r.order.symbol == order.symbol && r.order.kind == order.kind && r.order.tif == order.tif
        && r.order.Remaining() == order.quantity - Traded(a.fills)
      else after == before
  {
    hide Match, Verdict, GoodSide, Fillable, Slot, Order.Remaining;
    var taker, opp := Priced(order), book.On(order.side.Opposite());
    AddBothSides(s, book, order);
    GoodIsFillable(order.side.Opposite(), opp, book.clock);
    SweepConserves(s.selfTradePrevention, taker, opp);
    var a := Add(s, book, order);
    StartAccounts(a.taker);
    i, r := Slot(order.side, book.On(order.side), order.price), Rest(a.taker, book.clock);
  }

  // ----- Who is refused -----

  /** Somebody rests under this id. */
  predicate IdRests(book: Book, id: OrderId) {
    || (exists i :: 0 <= i < |book.bids| && book.bids[i].order.id == id)
    || (exists i :: 0 <= i < |book.asks| && book.asks[i].order.id == id)
  }

  /** The limit reaches the best opposite price. */
  predicate Reaches(order: Order, opp: seq<Rest>) {
    opp != [] && if order.side == Buy then order.price >= opp[0].order.price else order.price <= opp[0].order.price
  }

  /** Which orders are refused, and why, in this order of reasons. A fill-or-kill may fail for one more reason. */
  lemma AddSucceedsUnless(s: Settings, book: Book, order: Order)
    requires WellFormed(book) && Incoming(order)
    ensures var result := Add(s, book, order).result;
      var opp := book.On(order.side.Opposite());
      && result.orderId == order.id
      && if order.quantity == 0 then !result.success && result.reason == InvalidQuantity
         else if order.kind == Limit && order.price <= 0 then !result.success && result.reason == InvalidPrice
         else if IdRests(book, order.id) then !result.success && result.reason == DuplicateOrderId
         else if order.kind == PostOnly && s.postOnlyRejection && Reaches(order, opp) then
           !result.success && result.reason == WouldCrossBook
         else if order.kind == FillOrKill || order.tif == FokTif then
           result.success || result.reason == InvalidQuantity
         else result.success && result.filledQty == Traded(Add(s, book, order).fills)
  {
    hide Match, AfterMatch, Notices, FokAccepts, Sorted, UniqueIds, Has, Order.Remaining, Order.Fill;
    var opp := book.On(order.side.Opposite());
    HasIff(book.bids, order.id);
    HasIff(book.asks, order.id);
    assert opp != [] ==> GoodRest(order.side.Opposite(), opp[0], book.clock);
    GoodIsFillable(order.side.Opposite(), opp, book.clock);
    hide GoodSide, Fillable;
    SweepConserves(s.selfTradePrevention, Priced(order), opp);
  }

  /** A refused order changes nothing, unless it is a fill-or-kill; only a refused post-only order is reported, once and
      as it came, with nothing filled. */
  lemma RefusalTouchesNothing(s: Settings, book: Book, order: Order)
    requires WellFormed(book) && Incoming(order) && !Add(s, book, order).result.success
    ensures var a := Add(s, book, order);
      && (order.kind != FillOrKill && order.tif != FokTif ==> a.book == book && a.fills == [])
      && (a.result.reason == WouldCrossBook ==> a.book == book && a.fills == [] && a.notices == [Notice(order, 0)])
      && (a.result.reason != WouldCrossBook ==> a.notices == [])
      && a.result.filledQty == 0
  {
    hide Match, AfterMatch, Notices, FokAccepts, GoodSide, Has, Order.Remaining, Order.Fill, Order.IsFilled, Fillable;
    var opp := book.On(order.side.Opposite());
    GoodIsFillable(order.side.Opposite(), opp, book.clock);
    SweepConserves(s.selfTradePrevention, Priced(order), opp);
  }

  /** What is on offer for an order: what remains of everybody within its limit. */
  function OnOffer(order: Order, opp: seq<Rest>): nat {
    if opp == [] then 0
    else
      var o := opp[0].order;
      (if order.kind == Market || (if order.side == Buy then o.price <= order.price else o.price >= order.price)
       then o.Remaining() else 0) + OnOffer(order, opp[1..])
  }

  lemma {:induction false} OfferCrosses(order: Order, opp: seq<Rest>)
    ensures OnOffer(order, opp) == CrossingTotal(Priced(order), opp)
  {
    hide Order.Remaining;
    if opp != [] {
      OfferCrosses(order, opp[1..]);
    }
  }

  /** Fill-or-kill in terms of the offer: with self-trade prevention off, nobody at price 0 and an offer that fits in
      32 bits, an order free of the other reasons succeeds exactly when the offer covers it, and then it is filled. */
  lemma FokSucceedsIff(s: Settings, book: Book, order: Order)
    requires WellFormed(book) && Incoming(order) && order.IsFok() && !s.selfTradePrevention
    requires NoZeroPrice(book.On(order.side.Opposite()))
    requires OnOffer(order, book.On(order.side.Opposite())) < 0x1_0000_0000
    ensures var a, opp := Add(s, book, order), book.On(order.side.Opposite());
      && (a.result.success <==>
            && order.quantity > 0 && (order.kind == Limit ==> order.price > 0) && !IdRests(book, order.id)
            && !(order.kind == PostOnly && s.postOnlyRejection && Reaches(order, opp))
            && OnOffer(order, opp) >= order.quantity)
      && (if a.result.success then Traded(a.fills) == order.quantity == a.result.filledQty
          else a.book == book && a.fills == [])
  {
    hide Match, AfterMatch, Notices, FokAccepts, Sorted, UniqueIds, Has, There, OnOffer, CrossingTotal, Add;
    var taker, opp := Priced(order), book.On(order.side.Opposite());
    HasIff(book.bids, order.id);
    HasIff(book.asks, order.id);
    assert opp != [] ==> GoodRest(order.side.Opposite(), opp[0], book.clock);
    hide GoodSide;
    FokAllOrNothing(s, book, order);
    OfferCrosses(order, opp);
    if order.quantity > 0 {
      FokExactWhenItFits(taker, opp);
    }
  }

  // ----- Everybody else -----

  /** A cancel takes out exactly the order of that id; everybody else keeps their place. */
  lemma CancelKeepsPlaces(book: Book, id: OrderId) returns (k: nat)
    requires WellFormed(book)
    ensures var after := Cancel(book, id);
      match Find(book, id)
      case None => !IdRests(book, id) && after == book
      case Some(r) =>
        var side := r.order.side;
        && r.order.id == id && k < |book.On(side)| && book.On(side)[k] == r
        && after.On(side) == book.On(side)[..k] + book.On(side)[k + 1..]
        && after.On(side.Opposite()) == book.On(side.Opposite())
  {
    hide Sorted, UniqueIds, Has, Position, GoodRest;
    FindIsOnItsSide(book, id);
    HasIff(book.bids, id);
    HasIff(book.asks, id);
    k := 0;
    if Find(book, id).Some? {
      k := Position(book.On(Find(book, id).value.order.side), id);
      HasMeans(book.On(Find(book, id).value.order.side), id);
    }
  }

  lemma HasMeans(flat: seq<Rest>, id: OrderId)
    ensures Has(flat, id) <==> Position(flat, id) < |flat|
  {
  }

  /** A replace at the same price changes the quantity of that order and nothing else, places included. */
  lemma AmendKeepsPlaces(s: Settings, book: Book, id: OrderId, newQty: Quantity) returns (k: nat)
    requires WellFormed(book) && Find(book, id).Some?
    ensures var o := Find(book, id).value.order;
      var a := Replace(s, book, id, o.price, newQty);
      && a.result.success && a.fills == [] && a.notices == []
      && k < |book.On(o.side)| && book.On(o.side)[k].order == o && o.id == id
      && a.book.On(o.side) == book.On(o.side)[k := book.On(o.side)[k].(order := o.(quantity := newQty))]
      && a.book.On(o.side.Opposite()) == book.On(o.side.Opposite())
  {
    hide Sorted, UniqueIds, Has, Position, GoodRest, Add;
    FindIsOnItsSide(book, id);
    var flat := book.On(Find(book, id).value.order.side);
    k := Position(flat, id);
    HasMeans(flat, id);
  }

  // ----- Reprices -----

  /** A reprice that succeeds trades within the new price, and what it has not traded of the new quantity rests at the
      new price. */
  lemma RepriceTakesNewTerms(s: Settings, book: Book, id: OrderId, newPrice: Price, newQty: Quantity)
    returns (i: nat, r: Rest)
    requires WellFormed(book) && Replaceable(book, id, newPrice, newQty) && Find(book, id).Some?
    requires var o := Find(book, id).value.order; MayRest(o) && o.price != newPrice
    ensures var o := Find(book, id).value.order;
      var a, gone := Replace(s, book, id, newPrice, newQty), Cancel(book, id).On(o.side);
      && (forall k :: 0 <= k < |a.fills| ==>
            if o.side == Buy then a.fills[k].price <= newPrice else a.fills[k].price >= newPrice)
      && Traded(a.fills) <= newQty
      && (if a.result.success && Traded(a.fills) < newQty then
            && JoinedAt(gone, a.book.On(o.side), i, r)
            && r.order.id == id && r.order.price == newPrice && r.order.side == o.side
            && r.order.symbol == o.symbol && r.order.kind == o.kind && r.order.tif == o.tif
            && r.order.Remaining() == newQty - Traded(a.fills)
          else a.book.On(o.side) == gone)
  {
    hide Add, Cancel, Find, WellFormed, Incoming, JoinedAt, Order.Remaining, Protected, Verdict;
    RepriceIsCancelThenAdd(s, book, id, newPrice, newQty);
    CancelKeepsBook(book, id);
    FoundId(book, id);
    var o := Find(book, id).value.order;
    var renewed := Renewed(o, newPrice, newQty);
    AddTradesAtItsPrices(s, Cancel(book, id), renewed);
    AddTradesNoMore(s, Cancel(book, id), renewed);
    MayRestMeans(o);
    i, r := RemainderRests(s, Cancel(book, id), renewed);
  }

  lemma FoundId(book: Book, id: OrderId)
    requires WellFormed(book) && Find(book, id).Some?
    ensures Find(book, id).value.order.id == id
  {
    hide Find, WellFormed;
    FindIsOnItsSide(book, id);
  }

  lemma MayRestMeans(o: Order)
    requires MayRest(o)
    ensures o.kind in {Limit, PostOnly} && o.tif in {Day, GoodTillCancel}
  {
  }

  lemma AddTradesNoMore(s: Settings, book: Book, order: Order)
    requires WellFormed(book) && Incoming(order)
    ensures Traded(Add(s, book, order).fills) <= order.quantity
  {
    hide Match, Inserted, Verdict, Add, GoodSide, Fillable;
    AddBothSides(s, book, order);
    GoodIsFillable(order.side.Opposite(), book.On(order.side.Opposite()), book.clock);
    SweepConserves(s.selfTradePrevention, Priced(order), book.On(order.side.Opposite()));
  }
}
