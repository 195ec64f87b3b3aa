/** The guarantees of the order book: never crossed, all or nothing, priority, conservation, undo. */
module BookGuarantees {
  import opened Core
  import opened BookModel
  import opened BookLaws
  import opened BookSafety

  // ----- The book is not crossed -----

  ghost predicate Uncrossed(book: Book) {
    book.bids == [] || book.asks == [] || book.bids[0].order.price < book.asks[0].order.price
  }

  ghost predicate NoZeroPrice(flat: seq<Rest>) {
    forall i :: 0 <= i < |flat| ==> flat[i].order.price != 0
  }

  /** The sweep ended at an order the taker does cross: one at price 0, or one that self-trade prevention
      protects. */
  ghost predicate StoppedShort(stp: bool, m: Matched) {
    && m.opp != [] && Crosses(m.taker, m.opp[0].order.price)
    && (m.opp[0].order.price == 0 || (stp && NearIds(m.taker.id, m.opp[0].order.id)))
  }

  /** The same in terms of the sweep's result. */
  lemma StoppedShortCrosses(s: Settings, book: Book, order: Order)
    requires WellFormed(book) && Uncrossed(book) && Incoming(order)
    requires Verdict(s, book, Priced(order)) == NoReason
    ensures var m := Match(s.selfTradePrevention, Priced(order), book.On(order.side.Opposite()));
      Uncrossed(Add(s, book, order).book) <==> !(Rests(m.taker) && StoppedShort(s.selfTradePrevention, m))
  {
    hide Add, Match, Sorted, UniqueIds, Inserted, Verdict;
    var side, stp := order.side.Opposite(), s.selfTradePrevention;
    var opp := book.On(side);
    AddBothSides(s, book, order);
    GoodIsFillable(side, opp, book.clock);
    SweepKeepsSide(stp, Priced(order), opp, side, book.clock);
    SweepEnds(stp, Priced(order), opp);
    InsertedFront(order.side, book.On(order.side), Rest(Add(s, book, order).taker, book.clock));
  }

  /** The order may rest, wants more than is within its reach, and crosses the one who ends that reach: somebody at
      price 0, or protected by self-trade prevention. All of it can be read off the book before the call. */
  predicate WillStopShort(stp: bool, order: Order, opp: seq<Rest>) {
    var n := Reach(stp, order, opp);
    Rests(order) && Depth(opp[..n]) < order.quantity && n < |opp| && Crosses(order, opp[n].order.price)
  }

  /** An accepted order leaves the book uncrossed exactly when it will not be stopped short. */
  lemma AddLeavesUncrossed(s: Settings, book: Book, order: Order)
    requires WellFormed(book) && Uncrossed(book) && Incoming(order)
    requires Verdict(s, book, Priced(order)) == NoReason
    ensures Uncrossed(Add(s, book, order).book)
      <==> !WillStopShort(s.selfTradePrevention, order, book.On(order.side.Opposite()))
  {
    hide Add, Match, Verdict, Uncrossed, Sorted, UniqueIds, WillStopShort, StoppedShort;
    var opp := book.On(order.side.Opposite());
    StoppedShortCrosses(s, book, order);
    GoodIsFillable(order.side.Opposite(), opp, book.clock);
    hide GoodSide, Fillable;
    StopsShortIff(s.selfTradePrevention, order, opp);
  }

  lemma StopsShortIff(stp: bool, order: Order, opp: seq<Rest>)
    requires Incoming(order) && Fillable(opp)
    ensures var m := Match(stp, Priced(order), opp);
      Rests(m.taker) && StoppedShort(stp, m) <==> WillStopShort(stp, order, opp)
  {
    hide Match, Depth, Reach, Fillable;
    SweepConserves(stp, Priced(order), opp);
    if Rests(order) {
      SweepTotal(stp, order, opp);
      UnfilledLeaves(stp, order, opp);
    }
  }

  /** With self-trade prevention off and no order at price 0, no order ever crosses the book. */
  lemma AddNeverCrosses(s: Settings, book: Book, order: Order)
    requires WellFormed(book) && Uncrossed(book) && NoZeroPrice(book.bids) && NoZeroPrice(book.asks)
    requires Incoming(order) && (Rests(order) ==> order.price != 0) && !s.selfTradePrevention
    ensures var after := Add(s, book, order).book;
      Uncrossed(after) && NoZeroPrice(after.bids) && NoZeroPrice(after.asks)
  {
    hide Sorted, UniqueIds, Inserted, Match, FokAccepts;
    var taker, side := Priced(order), order.side.Opposite();
    var opp := book.On(side);
    if Verdict(s, book, taker) == NoReason {
      StoppedShortCrosses(s, book, order);
      GoodIsFillable(side, opp, book.clock);
      SweepConserves(false, taker, opp);
      SweepKeepsSide(false, taker, opp, side, book.clock);
      var m := Match(false, taker, opp);
      NoBetterNoZero(side, m.opp, opp);
      if Rests(m.taker) {
        InsertedNoZero(order.side, book.On(order.side), Rest(m.taker, book.clock));
      }
    }
  }

  lemma NoBetterNoZero(side: Side, left: seq<Rest>, opp: seq<Rest>)
    requires NoBetter(side, left, opp) && NoZeroPrice(opp)
    ensures NoZeroPrice(left)
  {
    forall i | 0 <= i < |left| ensures left[i].order.price != 0 {
      var j :| 0 <= j < |opp| && SamePlace(left[i], opp[j]);
    }
  }

  lemma InsertedNoZero(side: Side, flat: seq<Rest>, r: Rest)
    requires NoZeroPrice(flat) && r.order.price != 0
    ensures NoZeroPrice(Inserted(side, flat, r))
  {
  }

  lemma RemovedNoZero(flat: seq<Rest>, id: OrderId)
    requires NoZeroPrice(flat)
    ensures NoZeroPrice(Removed(flat, id))
  {
  }

  lemma CancelNeverCrosses(book: Book, id: OrderId)
    requires WellFormed(book) && Uncrossed(book) && NoZeroPrice(book.bids) && NoZeroPrice(book.asks)
    ensures var after := Cancel(book, id);
      Uncrossed(after) && NoZeroPrice(after.bids) && NoZeroPrice(after.asks)
  {
    RemovedNoZero(book.bids, id);
    RemovedNoZero(book.asks, id);
    RemovedFront(Buy, book.bids, id);
    RemovedFront(Sell, book.asks, id);
  }

  lemma RemovedFront(side: Side, flat: seq<Rest>, id: OrderId)
    requires Sorted(side, flat)
    ensures var cut := Removed(flat, id);
      cut != [] ==> flat != [] && !Better(side, cut[0].order.price, flat[0].order.price)
  {
    if |flat| > 1 {
      assert Ahead(side, flat[0], flat[1]);
    }
  }

  lemma ReplaceNeverCrosses(s: Settings, book: Book, id: OrderId, newPrice: Price, newQty: Quantity)
    requires WellFormed(book) && Uncrossed(book) && NoZeroPrice(book.bids) && NoZeroPrice(book.asks)
    requires Replaceable(book, id, newPrice, newQty) && newPrice != 0 && !s.selfTradePrevention
    ensures var after := Replace(s, book, id, newPrice, newQty).book;
      Uncrossed(after) && NoZeroPrice(after.bids) && NoZeroPrice(after.asks)
  {
    FindIsOnItsSide(book, id);
    hide Sorted, UniqueIds, Add;
    var found := Find(book, id);
    if found.Some? && found.value.order.price != newPrice {
      CancelKeepsBook(book, id);
      CancelNeverCrosses(book, id);
      AddNeverCrosses(s, Cancel(book, id), Renewed(found.value.order, newPrice, newQty));
    }
  }

  /** Post-only orders are not checked for a positive price, and price 0 reads as "no price": a post-only
      sell at 0 rests, and the next buy rests on top of it. */
  lemma ZeroPriceCrosses(s: Settings, symbol: Symbol)
    requires !s.selfTradePrevention
    ensures var sell := NewOrder(1, symbol, Sell, 0, 10, PostOnly, Day);
      var buy := NewOrder(2, symbol, Buy, 5, 10, Limit, Day);
      var one := Add(s, EMPTY_BOOK, sell);
      var two := Add(s, one.book, buy);
      && Incoming(sell) && Incoming(buy) && one.result.success && two.result.success
      && Uncrossed(one.book) && !Uncrossed(two.book) && two.fills == []
  {
    hide FokAccepts, Notices, Sorted;
    var sell := NewOrder(1, symbol, Sell, 0, 10, PostOnly, Day);
    var buy := NewOrder(2, symbol, Buy, 5, 10, Limit, Day);
    RestsUntraded(s, EMPTY_BOOK, sell);
    var one := Book([], [Rest(sell, 0)], 1);
    assert Inserted(Sell, [], Rest(sell, 0)) == [Rest(sell, 0)];
    HasIff(one.asks, 2);
    RestsUntraded(s, one, buy);
    assert Inserted(Buy, [], Rest(buy, 1)) == [Rest(buy, 1)];
  }

  /** An accepted order that meets nothing it may trade with rests whole. */
  lemma RestsUntraded(s: Settings, book: Book, order: Order)
    requires order.filledQty == 0 && order.kind in {Limit, PostOnly} && order.tif in {Day, GoodTillCancel}
    requires Verdict(s, book, order) == NoReason
    requires var opp := book.On(order.side.Opposite());
      opp == [] || Stops(s.selfTradePrevention, order, opp[0].order)
    ensures var a := Add(s, book, order);
      && a.result.success && a.fills == []
      && a.book == book.With(order.side, Inserted(order.side, book.On(order.side), Rest(order, book.clock)))
                       .(clock := book.clock + 1)
  {
    assert order.quantity > 0;
    hide Inserted, Verdict, Stops;
  }

  // ----- Fill-or-kill -----

  function CrossingTotal(taker: Order, opp: seq<Rest>): nat {
    if opp == [] then 0
    else (if Crosses(taker, opp[0].order.price) then opp[0].order.Remaining() else 0) + CrossingTotal(taker, opp[1..])
  }

  lemma {:induction false} UpToBounded(taker: Order, opp: seq<Rest>, bound: Price)
    ensures CrossingUpTo(taker, opp, bound) <= CrossingTotal(taker, opp)
    ensures (forall i :: 0 <= i < |opp| ==> opp[i].order.price <= bound) ==>
      CrossingUpTo(taker, opp, bound) == CrossingTotal(taker, opp)
  {
    if opp != [] {
      UpToBounded(taker, opp[1..], bound);
    }
  }

  /** On a sorted side the crossing orders are the ones within reach. */
  lemma {:induction false} CrossingIsReach(taker: Order, opp: seq<Rest>, side: Side, clock: nat)
    requires GoodSide(side, opp, clock) && side == taker.side.Opposite() && NoZeroPrice(opp)
    ensures CrossingTotal(taker, opp) == Depth(opp[..Reach(false, taker, opp)])
  {
    if opp == [] {
    } else if Stops(false, taker, opp[0].order) {
      forall i | 0 <= i < |opp| ensures !Crosses(taker, opp[i].order.price) {
        assert i > 0 ==> Ahead(side, opp[0], opp[i]);
      }
      NoneCross(taker, opp);
    } else {
      SuffixGood(side, opp, 1, clock);
      var n := Reach(false, taker, opp);
      assert opp[..n][1..] == opp[1..][..n - 1];
      CrossingIsReach(taker, opp[1..], side, clock);
    }
  }

  lemma {:induction false} NoneCross(taker: Order, opp: seq<Rest>)
    requires forall i :: 0 <= i < |opp| ==> !Crosses(taker, opp[i].order.price)
    ensures CrossingTotal(taker, opp) == 0
  {
    if opp != [] {
      NoneCross(taker, opp[1..]);
    }
  }

  /** Wrapped 32-bit sums can only under-report: what the pre-check accepts is really there. */
  lemma FokAcceptsSoundly(taker: Order, opp: seq<Rest>)
    requires FokAccepts(taker, opp)
    ensures CrossingTotal(taker, opp) >= taker.quantity
  {
    var i :| 0 <= i < |opp| && Wrap32(CrossingUpTo(taker, opp, opp[i].order.price)) >= taker.quantity;
    UpToBounded(taker, opp, opp[i].order.price);
  }

  /** What is there for an order before the call: the quantity within its reach. */
  function There(s: Settings, book: Book, order: Order): nat {
    var opp := book.On(order.side.Opposite());
    Depth(opp[..Reach(s.selfTradePrevention, Priced(order), opp)])
  }

  /** A fill-or-kill that, should it pass the checks, finds too little within its reach. */
  predicate WillMiss(s: Settings, book: Book, order: Order) {
    order.IsFok() && !order.IsIoc() && There(s, book, order) < order.quantity
  }

  /** What becomes of an order that passes the checks, under any settings: it is filled exactly when enough is within
      its reach, else it takes all of that, and the call fails exactly for a fill-or-kill that is not filled. */
  lemma CheckedOutcome(s: Settings, book: Book, order: Order)
    requires WellFormed(book) && Incoming(order) && Verdict(s, book, Priced(order)) == NoReason
    ensures var a := Add(s, book, order);
      && (a.taker.IsFilled() <==> There(s, book, order) >= order.quantity)
      && (!a.taker.IsFilled() ==>
            Traded(a.fills) == There(s, book, order)
            && |a.fills| == Reach(s.selfTradePrevention, Priced(order), book.On(order.side.Opposite())))
      && (a.result.success <==> !WillMiss(s, book, order))
  {
    hide Match, AfterMatch, Notices, Sorted, UniqueIds, FokAccepts, Reach, Depth, Verdict, Order.IsFilled;
    var opp := book.On(order.side.Opposite());
    GoodIsFillable(order.side.Opposite(), opp, book.clock);
    hide GoodSide, Fillable;
    SweepOutcome(s.selfTradePrevention, Priced(order), opp);
  }

  lemma SweepOutcome(stp: bool, taker: Order, opp: seq<Rest>)
    requires taker.filledQty == 0 && Fillable(opp)
    ensures var m, n := Match(stp, taker, opp), Reach(stp, taker, opp);
      && m.taker == taker.(filledQty := m.taker.filledQty, status := m.taker.status)
      && (m.taker.IsFilled() <==> Depth(opp[..n]) >= taker.quantity)
      && (!m.taker.IsFilled() ==> Traded(m.fills) == Depth(opp[..n]) && |m.fills| == n)
  {
    hide Match, Reach, Depth, Fillable;
    SweepTotal(stp, taker, opp);
    SweepConserves(stp, taker, opp);
    UnfilledLeaves(stp, taker, opp);
  }

  /** What the pre-check accepts is within reach, unless self-trade prevention or a price 0 cuts the reach short. */
  lemma AcceptedIsThere(s: Settings, book: Book, order: Order)
    requires WellFormed(book) && Incoming(order) && order.IsFok() && Verdict(s, book, Priced(order)) == NoReason
    requires !s.selfTradePrevention && NoZeroPrice(book.On(order.side.Opposite()))
    ensures There(s, book, order) >= order.quantity
  {
    hide Reach, Depth, Sorted, UniqueIds, FokAccepts, CrossingTotal;
    var taker, side := Priced(order), order.side.Opposite();
    FokAcceptsSoundly(taker, book.On(side));
    CrossingIsReach(taker, book.On(side), side, book.clock);
  }

  /** Fill-or-kill, for every book and all settings. Refused by the checks, it leaves the book as it was. Past them it
      fills completely exactly when enough is within its reach; else it takes what is there and the call fails (unless
      the order is also immediate-or-cancel). With self-trade prevention off and nobody at price 0 there is always
      enough: all or nothing. */
  lemma FokAllOrNothing(s: Settings, book: Book, order: Order)
    requires WellFormed(book) && Incoming(order) && order.IsFok()
    ensures var a, verdict := Add(s, book, order), Verdict(s, book, Priced(order));
      var enough := There(s, book, order) >= order.quantity;
      && (verdict != NoReason ==> !a.result.success && a.book == book && a.fills == [])
      && (verdict == NoReason && enough ==>
            a.result.success && a.taker.IsFilled() && Traded(a.fills) == order.quantity == a.result.filledQty)
      && (verdict == NoReason && !enough ==>
            !a.taker.IsFilled() && Traded(a.fills) == There(s, book, order) && (a.result.success <==> order.IsIoc()))
      && (verdict == NoReason && !s.selfTradePrevention && NoZeroPrice(book.On(order.side.Opposite())) ==> enough)
  {
    hide WellFormed, Incoming, Verdict, There, Match, AfterMatch, Notices, NoZeroPrice;
    var verdict := Verdict(s, book, Priced(order));
    if verdict == NoReason {
      CheckedOutcome(s, book, order);
      FilledTrades(s, book, order);
      if !s.selfTradePrevention && NoZeroPrice(book.On(order.side.Opposite())) {
        AcceptedIsThere(s, book, order);
      }
    }
  }

  lemma FilledTrades(s: Settings, book: Book, order: Order)
    requires WellFormed(book) && Incoming(order) && Verdict(s, book, Priced(order)) == NoReason
    ensures var a := Add(s, book, order);
      a.taker.IsFilled() ==>
        Traded(a.fills) == order.quantity && (a.result.success ==> a.result.filledQty == order.quantity)
  {
    hide Match, AfterMatch, Notices, GoodSide, Verdict, FokAccepts;
    GoodIsFillable(order.side.Opposite(), book.On(order.side.Opposite()), book.clock);
    SweepConserves(s.selfTradePrevention, Priced(order), book.On(order.side.Opposite()));
  }

  /** An add succeeds exactly when it passes the checks and is not a fill-or-kill that will miss; without self-trade
      prevention and prices 0 none will. */
  lemma CheckedOrdersSucceed(s: Settings, book: Book, order: Order)
    requires WellFormed(book) && Incoming(order)
    ensures var verdict := Verdict(s, book, Priced(order));
      && (Add(s, book, order).result.success <==> verdict == NoReason && !WillMiss(s, book, order))
      && (verdict == NoReason && !s.selfTradePrevention && NoZeroPrice(book.On(order.side.Opposite())) ==>
            !WillMiss(s, book, order))
  {
    hide WellFormed, Incoming, Verdict, There, Match, AfterMatch, NoZeroPrice;
    if Verdict(s, book, Priced(order)) == NoReason {
      CheckedOutcome(s, book, order);
      if order.IsFok() && !s.selfTradePrevention && NoZeroPrice(book.On(order.side.Opposite())) {
        AcceptedIsThere(s, book, order);
      }
    }
  }

  /** A fill-or-kill buy of 10, with 5 on offer at 10 and 5 more at 11 that self-trade prevention protects: it passes the
      pre-check, trades 5, and is reported as failed with nothing filled. The trade stands. */
  lemma FokCutShort(symbol: Symbol)
    ensures var s := Settings(true, true);
      var near := NewOrder(1000, symbol, Sell, 11, 5, Limit, Day);
      var far := NewOrder(500, symbol, Sell, 10, 5, Limit, Day);
      var buy := NewOrder(1001, symbol, Buy, 20, 10, FillOrKill, Day);
      var book := Book([], [Rest(far, 0), Rest(near, 1)], 2);
      var a := Add(s, book, buy);
      && WellFormed(book) && Incoming(buy) && Verdict(s, book, buy) == NoReason
      && a.fills == [Fill(500, 10, 5)] && a.result == OrderResult(false, InvalidQuantity, 1001, 0)
      && a.book.asks == [Rest(near, 1)]
  {
    var s := Settings(true, true);
    var near := NewOrder(1000, symbol, Sell, 11, 5, Limit, Day);
    var far := NewOrder(500, symbol, Sell, 10, 5, Limit, Day);
    var buy := NewOrder(1001, symbol, Buy, 20, 10, FillOrKill, Day);
    var asks := [Rest(far, 0), Rest(near, 1)];
    var book := Book([], asks, 2);
    TwoAsksAreGood(far, near);
    TwoAsksOffer(buy, far, near);
    HasIff(asks, 1001);
    hide FokAccepts, GoodSide;
    assert asks[1..] == [Rest(near, 1)];
    assert Match(true, buy.Fill(5), [Rest(near, 1)]) == Matched(buy.Fill(5), [Rest(near, 1)], []);
    assert Match(true, buy, asks) == Matched(buy.Fill(5), [Rest(near, 1)], [Fill(500, 10, 5)]);
  }

  lemma TwoAsksAreGood(a: Order, b: Order)
    requires a.side == b.side == Sell && a.filledQty < a.quantity && b.filledQty < b.quantity
    requires a.price < b.price < INVALID_PRICE && a.id != b.id
    ensures GoodSide(Sell, [Rest(a, 0), Rest(b, 1)], 2)
  {
  }

  lemma TwoAsksOffer(buy: Order, a: Order, b: Order)
    requires buy.side == Buy && buy.price >= b.price > a.price
    requires buy.quantity <= a.Remaining() + b.Remaining() < 0x1_0000_0000
    ensures FokAccepts(buy, [Rest(a, 0), Rest(b, 1)])
  {
    hide Order.Remaining;
    var opp := [Rest(a, 0), Rest(b, 1)];
    assert opp[1..] == [Rest(b, 1)] && opp[1..][1..] == [];
    assert CrossingUpTo(buy, [Rest(b, 1)], b.price) == b.Remaining();
    assert CrossingUpTo(buy, opp, opp[1].order.price) == a.Remaining() + b.Remaining();
  }

  /** Likewise an offer at price 0, which the pre-check counts and the match takes for none: the order passes the checks
      and fails, this time without a trade. */
  lemma FokMissesAtZero(s: Settings, symbol: Symbol)
    ensures var sell := NewOrder(1, symbol, Sell, 0, 10, PostOnly, Day);
      var buy := NewOrder(200, symbol, Buy, 5, 10, FillOrKill, Day);
      var one := Add(s, EMPTY_BOOK, sell);
      var two := Add(s, one.book, buy);
      && Incoming(sell) && Incoming(buy) && one.result.success && Verdict(s, one.book, buy) == NoReason
      && two.fills == [] && two.result == OrderResult(false, InvalidQuantity, 200, 0) && two.book == one.book
  {
    hide Notices, FokAccepts;
    var sell := NewOrder(1, symbol, Sell, 0, 10, PostOnly, Day);
    var buy := NewOrder(200, symbol, Buy, 5, 10, FillOrKill, Day);
    RestsUntraded(s, EMPTY_BOOK, sell);
    assert Inserted(Sell, [], Rest(sell, 0)) == [Rest(sell, 0)];
    var one := Book([], [Rest(sell, 0)], 1);
    HasIff(one.asks, 200);
    OneAskOffers(buy, sell);
    assert Match(s.selfTradePrevention, buy, one.asks) == Matched(buy, one.asks, []);
  }

  lemma OneAskOffers(buy: Order, a: Order)
    requires buy.side == Buy && buy.price >= a.price && buy.quantity <= a.Remaining()
    ensures FokAccepts(buy, [Rest(a, 0)])
  {
    hide Order.Remaining;
    var opp := [Rest(a, 0)];
    assert opp[1..] == [];
    assert CrossingUpTo(buy, opp, opp[0].order.price) == a.Remaining();
  }

  lemma OnlyFoksMiss(s: Settings, book: Book, order: Order)
    requires !order.IsFok() && order.filledQty == 0 && WellFormed(book)
    ensures Add(s, book, order).result.success <==> Verdict(s, book, Priced(order)) == NoReason
  {
    hide Match, Sorted, UniqueIds, Inserted, FokAccepts, Verdict;
    var taker, side := Priced(order), order.side.Opposite();
    GoodIsFillable(side, book.On(side), book.clock);
    SweepConserves(s.selfTradePrevention, taker, book.On(side));
  }

  /** What the pre-check has summed up when it has passed the level of `opp[i]`. */
  function SumUpTo(taker: Order, opp: seq<Rest>, i: nat): Quantity
    requires i < |opp|
  {
    Wrap32(CrossingUpTo(taker, opp, opp[i].order.price))
  }

  /** The pre-check agrees with the crossing quantity for every order size if and only if that quantity fits in
      32 bits, or some level brings the sum to 2^32 - 1 modulo 2^32. */
  lemma FokExactIff(taker: Order, opp: seq<Rest>)
    ensures (forall q: Quantity :: q > 0 ==>
        (FokAccepts(taker.(quantity := q), opp) <==> CrossingTotal(taker, opp) >= q))
      <==> (CrossingTotal(taker, opp) < 0x1_0000_0000
            || exists i :: 0 <= i < |opp| && SumUpTo(taker, opp, i) == 0xFFFF_FFFF)
  {
    var total, top: Quantity := CrossingTotal(taker, opp), 0xFFFF_FFFF;
    if total < 0x1_0000_0000 {
      forall q: Quantity | q > 0 ensures FokAccepts(taker.(quantity := q), opp) <==> total >= q {
        SizeFree(taker, opp, q);
        FokExactWhenItFits(taker.(quantity := q), opp);
      }
    } else if i :| 0 <= i < |opp| && SumUpTo(taker, opp, i) == top {
      forall q: Quantity | q > 0 ensures FokAccepts(taker.(quantity := q), opp) {
        SizeFreeUpTo(taker, opp, q, opp[i].order.price);
      }
    } else {
      TopSizeAccepted(taker, opp);
    }
  }

  lemma TopSizeAccepted(taker: Order, opp: seq<Rest>)
    ensures FokAccepts(taker.(quantity := 0xFFFF_FFFF), opp) ==>
      exists i :: 0 <= i < |opp| && SumUpTo(taker, opp, i) == 0xFFFF_FFFF
  {
    var most := taker.(quantity := 0xFFFF_FFFF);
    if i :| 0 <= i < |opp| && Wrap32(CrossingUpTo(most, opp, opp[i].order.price)) >= most.quantity {
      SizeFreeUpTo(taker, opp, 0xFFFF_FFFF, opp[i].order.price);
      assert SumUpTo(taker, opp, i) == 0xFFFF_FFFF;
    }
  }

  /** For one order: it is refused although enough is on offer exactly when every level leaves the wrapped sum short,
      and then the crossing quantity does not fit in 32 bits. */
  lemma FokWronglyRefusedIff(taker: Order, opp: seq<Rest>)
    requires taker.quantity > 0
    ensures (FokAccepts(taker, opp) <==> CrossingTotal(taker, opp) >= taker.quantity)
      <==> !(CrossingTotal(taker, opp) >= taker.quantity
             && forall i :: 0 <= i < |opp| ==> SumUpTo(taker, opp, i) < taker.quantity)
    ensures !FokAccepts(taker, opp) && CrossingTotal(taker, opp) >= taker.quantity
      ==> CrossingTotal(taker, opp) >= 0x1_0000_0000
  {
    hide CrossingTotal, CrossingUpTo;
    if FokAccepts(taker, opp) {
      FokAcceptsSoundly(taker, opp);
      var i :| 0 <= i < |opp| && Wrap32(CrossingUpTo(taker, opp, opp[i].order.price)) >= taker.quantity;
      assert SumUpTo(taker, opp, i) >= taker.quantity;
    }
    if CrossingTotal(taker, opp) < 0x1_0000_0000 {
      FokExactWhenItFits(taker, opp);
    }
  }

  lemma {:induction false} SizeFree(taker: Order, opp: seq<Rest>, q: Quantity)
    ensures CrossingTotal(taker.(quantity := q), opp) == CrossingTotal(taker, opp)
  {
    if opp != [] {
      SizeFree(taker, opp[1..], q);
    }
  }

  lemma {:induction false} SizeFreeUpTo(taker: Order, opp: seq<Rest>, q: Quantity, bound: Price)
    ensures CrossingUpTo(taker.(quantity := q), opp, bound) == CrossingUpTo(taker, opp, bound)
  {
    if opp != [] {
      SizeFreeUpTo(taker, opp[1..], q, bound);
    }
  }

  lemma FokExactWhenItFits(taker: Order, opp: seq<Rest>)
    requires 0 < taker.quantity && CrossingTotal(taker, opp) < 0x1_0000_0000
    ensures FokAccepts(taker, opp) <==> CrossingTotal(taker, opp) >= taker.quantity
  {
    if FokAccepts(taker, opp) {
      FokAcceptsSoundly(taker, opp);
    }
    if opp != [] {
      var i := HighestPrice(opp);
      UpToBounded(taker, opp, opp[i].order.price);
    }
  }

  lemma {:induction false} HighestPrice(opp: seq<Rest>) returns (i: nat)
    requires opp != []
    ensures i < |opp| && forall j :: 0 <= j < |opp| ==> opp[j].order.price <= opp[i].order.price
  {
    i := 0;
    if |opp| > 1 {
      var k := HighestPrice(opp[1..]);
      assert forall j :: 0 < j < |opp| ==> opp[j] == opp[1..][j - 1];
      if opp[k + 1].order.price > opp[0].order.price {
        i := k + 1;
      }
    }
  }

  /** Two asks of 2^31 at different prices: the sum wraps to 0 and a fill-or-kill buy of 2^31 + 1 is refused
      although twice 2^31 is on offer. */
  lemma FokRefusedByWrap(symbol: Symbol)
    ensures var a := NewOrder(1, symbol, Sell, 10, 0x8000_0000, Limit, Day);
      var b := NewOrder(2, symbol, Sell, 20, 0x8000_0000, Limit, Day);
      var taker := NewOrder(3, symbol, Buy, 20, 0x8000_0001, FillOrKill, Day);
      var opp := [Rest(a, 0), Rest(b, 1)];
      !FokAccepts(taker, opp) && CrossingTotal(taker, opp) >= taker.quantity
  {
    var a := NewOrder(1, symbol, Sell, 10, 0x8000_0000, Limit, Day);
    var b := NewOrder(2, symbol, Sell, 20, 0x8000_0000, Limit, Day);
    var taker := NewOrder(3, symbol, Buy, 20, 0x8000_0001, FillOrKill, Day);
    var opp := [Rest(a, 0), Rest(b, 1)];
    assert opp[1..] == [Rest(b, 1)] && opp[1..][1..] == [];
    assert CrossingUpTo(taker, opp, 10) == 0x8000_0000 + CrossingUpTo(taker, [Rest(b, 1)], 10);
    assert CrossingUpTo(taker, opp, 20) == 0x8000_0000 + CrossingUpTo(taker, [Rest(b, 1)], 20);
  }

  // ----- Self-trade prevention -----

  /** With self-trade prevention on, the remainder of a stopped order rests although it crosses. */
  lemma SelfTradeStopCrosses(symbol: Symbol)
    ensures var s := Settings(true, true);
      var sell := NewOrder(1000, symbol, Sell, 10, 5, Limit, Day);
      var buy := NewOrder(1001, symbol, Buy, 20, 5, Limit, Day);
      var book := Book([], [Rest(sell, 0)], 1);
      && WellFormed(book) && Uncrossed(book) && NoZeroPrice(book.asks)
      && Add(s, book, buy).result.success && !Uncrossed(Add(s, book, buy).book)
  {
    hide FokAccepts, Notices;
    var s := Settings(true, true);
    var sell := NewOrder(1000, symbol, Sell, 10, 5, Limit, Day);
    var buy := NewOrder(1001, symbol, Buy, 20, 5, Limit, Day);
    var book := Book([], [Rest(sell, 0)], 1);
    assert GoodRest(Sell, book.asks[0], 1);
    HasIff(book.asks, 1001);
    RestsUntraded(s, book, buy);
    assert Inserted(Buy, [], Rest(buy, 1)) == [Rest(buy, 1)];
  }

  // ----- Priority -----

  /** When a resting order trades, nobody left on its side has a better price, or the same price and an
      earlier arrival: the `k`-th trade hits the `k`-th order of the queue. */
  lemma TradesHonourPriority(s: Settings, book: Book, order: Order, k: nat, j: nat)
    requires WellFormed(book) && Incoming(order)
    requires k < |Add(s, book, order).fills| && k < j < |book.On(order.side.Opposite())|
    ensures var opp := book.On(order.side.Opposite());
      var fills := Add(s, book, order).fills;
      && Hits(fills[k], opp[k]) && Ahead(order.side.Opposite(), opp[k], opp[j])
      && (j < |fills| ==> HitsInFull(fills[k], opp[k]))
  {
    hide Match, Verdict, Inserted;
    var opp := book.On(order.side.Opposite());
    GoodIsFillable(order.side.Opposite(), opp, book.clock);
    SweepInOrder(s.selfTradePrevention, Priced(order), opp);
    assert Ahead(order.side.Opposite(), opp[k], opp[j]);
  }

  /** An order that rests queues behind everyone already at its price, with the latest arrival. */
  lemma NewcomerQueuesLast(s: Settings, book: Book, order: Order, j: nat)
    requires WellFormed(book) && Incoming(order)
    requires !Has(book.On(order.side), order.id)
    requires var after := Add(s, book, order).book.On(order.side);
      Has(after, order.id) && j < |after| && after[j].order.price == order.price && after[j].order.id != order.id
    ensures var after := Add(s, book, order).book.On(order.side);
      var p := Position(after, order.id);
      j < p < |after| && after[p].stamp == book.clock
  {
    hide Add, Has, Inserted, Position, Slot, Verdict;
    AddBothSides(s, book, order);
    NewcomerLast(order.side, book.On(order.side), Rest(Add(s, book, order).taker, book.clock), book.clock, j);
  }

  /** Repricing costs the order its place: it queues again behind everyone at the new price. */
  lemma RepriceLosesPriority(s: Settings, book: Book, id: OrderId, newPrice: Price, newQty: Quantity, j: nat)
    requires WellFormed(book) && Replaceable(book, id, newPrice, newQty)
    requires Find(book, id).Some? && Find(book, id).value.order.price != newPrice
    requires var after := Replace(s, book, id, newPrice, newQty).book.On(Find(book, id).value.order.side);
      Has(after, id) && j < |after| && after[j].order.price == newPrice && after[j].order.id != id
    ensures var after := Replace(s, book, id, newPrice, newQty).book.On(Find(book, id).value.order.side);
      var p := Position(after, id);
      j < p < |after| && after[p].stamp == book.clock
  {
    hide Add, Replace, Cancel, Find, GoodSide, Has, Position;
    RepriceIsCancelThenAdd(s, book, id, newPrice, newQty);
    FindIsOnItsSide(book, id);
    CancelKeepsBook(book, id);
    NewcomerQueuesLast(s, Cancel(book, id), Renewed(Find(book, id).value.order, newPrice, newQty), j);
  }

  lemma RepriceIsCancelThenAdd(s: Settings, book: Book, id: OrderId, newPrice: Price, newQty: Quantity)
    requires Find(book, id).Some? && Find(book, id).value.order.price != newPrice
    ensures Replace(s, book, id, newPrice, newQty)
         == Add(s, Cancel(book, id), Renewed(Find(book, id).value.order, newPrice, newQty))
    ensures Cancel(book, id).clock == book.clock
  {
    hide Add, Find, Removed;
  }

  /** What every resting order is; see `RunKeepsKinds`. */
  predicate MayRest(o: Order) {
    !o.IsIoc() && !o.IsFok() && (o.kind == Limit || o.kind == PostOnly)
  }

  /** Also of one symbol, where that is asked for. */
  ghost predicate AllMayRest(flat: seq<Rest>, symbol: Option<Symbol>) {
    forall i :: 0 <= i < |flat| ==> MayRest(flat[i].order) && IsOf(flat[i].order, symbol)
  }

  predicate IsOf(o: Order, symbol: Option<Symbol>) {
    symbol == None || symbol == Some(o.symbol)
  }

  ghost predicate BookMayRest(book: Book, symbol: Option<Symbol>) {
    AllMayRest(book.bids, symbol) && AllMayRest(book.asks, symbol)
  }

  /** A reprice succeeds exactly under this condition, and otherwise it loses the order: the cancel is not undone. */
  lemma RepriceSucceedsIff(s: Settings, book: Book, id: OrderId, newPrice: Price, newQty: Quantity)
    requires WellFormed(book) && Find(book, id).Some?
    requires var o := Find(book, id).value.order; o.price != newPrice && MayRest(o)
    ensures var o := Find(book, id).value.order;
      var a := Replace(s, book, id, newPrice, newQty);
      var hits := HitsBest(o.(price := newPrice), BestPrice(book.On(o.side.Opposite())));
      && (a.result.success <==>
            newQty > 0 && (o.kind == Limit ==> newPrice > 0) && !(o.kind == PostOnly && s.postOnlyRejection && hits))
      && (!a.result.success ==> a.fills == [] && a.book == Cancel(book, id) && Find(a.book, id) == None)
  {
    hide Add, Replace, Find, Verdict, WellFormed, Has;
    RepriceIsCancelThenAdd(s, book, id, newPrice, newQty);
    CancelKeepsBook(book, id);
    GoneAfterCancel(book, id);
    var renewed := Renewed(Find(book, id).value.order, newPrice, newQty);
    OnlyFoksMiss(s, Cancel(book, id), renewed);
    RenewedVerdict(s, Cancel(book, id), renewed);
    RefusedUnchanged(s, Cancel(book, id), renewed);
  }

  lemma GoneAfterCancel(book: Book, id: OrderId)
    requires WellFormed(book) && Find(book, id).Some?
    ensures var after, side := Cancel(book, id), Find(book, id).value.order.side;
      && !Has(after.bids, id) && !Has(after.asks, id) && Find(after, id) == None
      && after.On(side.Opposite()) == book.On(side.Opposite())
    ensures Find(book, id).value.order.id == id
  {
    hide Position, Removed;
    FindIsOnItsSide(book, id);
    RemovedHas(book.On(Find(book, id).value.order.side), id, id);
  }

  lemma RenewedVerdict(s: Settings, book: Book, o: Order)
    requires MayRest(o) && !Has(book.bids, o.id) && !Has(book.asks, o.id)
    ensures Verdict(s, book, Priced(o)) == NoReason <==>
      && o.quantity > 0 && (o.kind == Limit ==> o.price > 0)
      && !(o.kind == PostOnly && s.postOnlyRejection && HitsBest(o, BestPrice(book.On(o.side.Opposite()))))
  {
    hide FokAccepts, Has;
  }

  lemma RefusedUnchanged(s: Settings, book: Book, order: Order)
    ensures Verdict(s, book, Priced(order)) != NoReason ==>
      Add(s, book, order).book == book && Add(s, book, order).fills == []
  {
    hide Verdict, Match;
  }

  /** A resting limit order is repriced with quantity 0: the call fails and the book, which held it, is empty. */
  lemma RefusedRepriceLosesOrder(s: Settings, symbol: Symbol)
    ensures var buy := NewOrder(1, symbol, Buy, 10, 5, Limit, Day);
      var one := Add(s, EMPTY_BOOK, buy);
      var two := Replace(s, one.book, 1, 20, 0);
      && Incoming(buy) && one.result.success && one.book.bids == [Rest(buy, 0)]
      && !two.result.success && two.book.bids == [] && two.book.asks == []
  {
    hide FokAccepts, Notices, Match;
    var buy := NewOrder(1, symbol, Buy, 10, 5, Limit, Day);
    RestsUntraded(s, EMPTY_BOOK, buy);
    assert Inserted(Buy, [], Rest(buy, 0)) == [Rest(buy, 0)];
    assert Removed([Rest(buy, 0)], 1) == [];
  }

  // ----- What rests -----

  lemma {:induction false} SweepKeepsKinds(stp: bool, taker: Order, opp: seq<Rest>, symbol: Option<Symbol>)
    requires AllMayRest(opp, symbol)
    ensures AllMayRest(Match(stp, taker, opp).opp, symbol)
    decreases |opp|
  {
    hide Stops, Order.Remaining;
    if opp != [] {
      SweepKeepsKinds(stp, taker.Fill(Min(taker.Remaining(), opp[0].order.Remaining())), opp[1..], symbol);
    }
  }

  lemma {:induction false} SweepKeepsSymbol(stp: bool, taker: Order, opp: seq<Rest>)
    ensures Match(stp, taker, opp).taker.symbol == taker.symbol
    decreases |opp|
  {
    hide Stops, Order.Remaining;
    if opp != [] {
      SweepKeepsSymbol(stp, taker.Fill(Min(taker.Remaining(), opp[0].order.Remaining())), opp[1..]);
    }
  }

  lemma AddKeepsKinds(s: Settings, book: Book, order: Order, symbol: Option<Symbol>)
    requires BookMayRest(book, symbol) && IsOf(order, symbol)
    ensures BookMayRest(Add(s, book, order).book, symbol)
    ensures forall i :: 0 <= i < |Add(s, book, order).notices| ==> IsOf(Add(s, book, order).notices[i].order, symbol)
  {
    hide Match, Verdict, MayRest, AllMayRest, Inserted;
    var stp, taker, opp := s.selfTradePrevention, Priced(order), book.On(order.side.Opposite());
    SweepKeepsKinds(stp, taker, opp, symbol);
    SweepKeepsSymbol(stp, taker, opp);
    var m := Match(stp, taker, opp);
    if Rests(m.taker) {
      RestsMayRest(m.taker);
      var swept := book.With(m.taker.side.Opposite(), m.opp);
      InsertedKinds(m.taker.side, swept.On(m.taker.side), Rest(m.taker, book.clock), symbol);
    }
  }

  lemma InsertedKinds(side: Side, flat: seq<Rest>, r: Rest, symbol: Option<Symbol>)
    requires AllMayRest(flat, symbol) && MayRest(r.order) && IsOf(r.order, symbol)
    ensures AllMayRest(Inserted(side, flat, r), symbol)
  {
    hide MayRest, IsOf;
  }

  lemma RestsMayRest(o: Order)
    requires Rests(o)
    ensures MayRest(o)
  {
  }

  lemma RemovedKinds(flat: seq<Rest>, id: OrderId, symbol: Option<Symbol>)
    requires AllMayRest(flat, symbol)
    ensures AllMayRest(Removed(flat, id), symbol)
  {
    hide MayRest, IsOf, Position;
  }

  lemma RequantifiedKinds(flat: seq<Rest>, id: OrderId, qty: Quantity, symbol: Option<Symbol>)
    requires AllMayRest(flat, symbol)
    ensures AllMayRest(Requantified(flat, id, qty), symbol)
  {
    hide Position;
    var k := Position(flat, id);
    assert k < |flat| ==> MayRest(flat[k].order) && IsOf(flat[k].order, symbol);
    hide MayRest, IsOf;
  }

  lemma LookupIsOf(flat: seq<Rest>, id: OrderId, symbol: Option<Symbol>)
    requires AllMayRest(flat, symbol)
    ensures Lookup(flat, id).Some? ==> IsOf(Lookup(flat, id).value.order, symbol)
  {
    hide MayRest, IsOf, Position;
  }

  lemma CancelKeepsKinds(book: Book, id: OrderId, symbol: Option<Symbol>)
    requires BookMayRest(book, symbol)
    ensures BookMayRest(Cancel(book, id), symbol)
  {
    hide AllMayRest, Removed, Find;
    RemovedKinds(book.bids, id, symbol);
    RemovedKinds(book.asks, id, symbol);
  }

  lemma FoundIsOf(book: Book, id: OrderId, symbol: Option<Symbol>)
    requires BookMayRest(book, symbol)
    ensures Find(book, id).Some? ==> IsOf(Find(book, id).value.order, symbol)
  {
    hide AllMayRest, Lookup, Has, IsOf;
    LookupIsOf(book.bids, id, symbol);
    LookupIsOf(book.asks, id, symbol);
  }

  lemma ReplaceKeepsKinds(s: Settings, book: Book, id: OrderId, newPrice: Price, newQty: Quantity,
                          symbol: Option<Symbol>)
    requires BookMayRest(book, symbol)
    ensures var a := Replace(s, book, id, newPrice, newQty);
      && BookMayRest(a.book, symbol)
      && forall i :: 0 <= i < |a.notices| ==> IsOf(a.notices[i].order, symbol)
  {
    hide Add, Cancel, Find, AllMayRest, Requantified;
    FoundIsOf(book, id, symbol);
    var found := Find(book, id);
    if found.Some? {
      if found.value.order.price == newPrice {
        RequantifiedKinds(book.bids, id, newQty, symbol);
        RequantifiedKinds(book.asks, id, newQty, symbol);
      } else {
        CancelKeepsKinds(book, id, symbol);
        AddKeepsKinds(s, Cancel(book, id), Renewed(found.value.order, newPrice, newQty), symbol);
      }
    }
  }

  lemma NewcomerLast(side: Side, flat: seq<Rest>, r: Rest, clock: nat, j: nat)
    requires GoodSide(side, flat, clock) && r.stamp == clock && !Has(flat, r.order.id)
    requires var up := Inserted(side, flat, r);
      j < |up| && up[j].order.price == r.order.price && up[j].order.id != r.order.id
    ensures var up := Inserted(side, flat, r);
      j < Position(up, r.order.id) < |up| && up[Position(up, r.order.id)] == r
  {
    var k, up := Slot(side, flat, r.order.price), Inserted(side, flat, r);
    SlotSplits(side, flat, r.order.price);
    HasIff(flat, r.order.id);
    PositionFirst(up, r.order.id);
    var p := Position(up, r.order.id);
    assert up[k] == r;
    assert forall i :: 0 <= i < |flat| ==> flat[i] == up[if i < k then i else i + 1];
    assert p == k;
  }

  // ----- Orders that never rest, orders that never take -----

  /** Market, immediate-or-cancel and fill-or-kill orders leave nothing behind on their own side. */
  lemma OnlyLimitsRest(s: Settings, book: Book, order: Order)
    requires WellFormed(book) && Incoming(order)
    ensures var after := Add(s, book, order).book;
      after.On(order.side) != book.On(order.side) ==>
        Rests(order) && after.clock == book.clock + 1
  {
    hide Add;
    AddBothSides(s, book, order);
  }

  /** A post-only order never takes liquidity when rejection is enabled. */
  lemma PostOnlyNeverTakes(s: Settings, book: Book, order: Order)
    requires WellFormed(book) && Incoming(order) && order.kind == PostOnly && s.postOnlyRejection
    ensures var a := Add(s, book, order);
      && a.fills == []
      && (a.result.success || a.book == book)
  {
    hide Inserted, Has, FokAccepts, Sorted, UniqueIds, DisjointIds, Order.Fill, Order.Remaining, Notices, NearIds;
    var opp := book.On(order.side.Opposite());
    assert opp != [] ==> GoodRest(order.side.Opposite(), opp[0], book.clock);
  }

  // ----- Reports -----

  /** Every report of an accepted order carries the quantity its trades sum to. There is one when anything traded, and
      one more when an immediate-or-cancel order was cut short, so a partial fill of such an order is told twice. */
  lemma ReportsTellTheFill(s: Settings, book: Book, order: Order)
    requires WellFormed(book) && Incoming(order) && Add(s, book, order).result.success
    ensures var a := Add(s, book, order);
      var traded := Traded(a.fills);
      && (forall i :: 0 <= i < |a.notices| ==>
            a.notices[i].filled == traded && a.notices[i].order.id == order.id
            && (traded > 0 ==> (a.notices[i].order.status == Filled <==> traded == order.quantity)))
      && |a.notices| == (if traded > 0 then 1 else 0) + (if order.IsIoc() && traded < order.quantity then 1 else 0)
  {
    hide Match, Verdict, Notices, AfterMatch, GoodSide, Fillable, Order.Fill, Order.Remaining;
    var stp, taker, opp := s.selfTradePrevention, Priced(order), book.On(order.side.Opposite());
    GoodIsFillable(order.side.Opposite(), opp, book.clock);
    SweepConserves(stp, taker, opp);
    SweepTellsStatus(stp, taker, opp);
    NoticesTell(Match(stp, taker, opp).taker);
  }

  lemma NoticesTell(taker: Order)
    ensures forall i :: 0 <= i < |Notices(taker)| ==> Notices(taker)[i] == Notice(taker, taker.filledQty)
    ensures |Notices(taker)|
         == (if taker.filledQty > 0 then 1 else 0) + (if taker.IsIoc() && !taker.IsFilled() then 1 else 0)
  {
  }

  lemma {:induction false} SweepTellsStatus(stp: bool, taker: Order, opp: seq<Rest>)
    requires taker.filledQty <= taker.quantity && Fillable(opp)
    ensures var m := Match(stp, taker, opp);
      if m.fills == [] then m.taker == taker
      else
        && m.taker.status == (if m.taker.IsFilled() then Filled else PartiallyFilled)
        && m.taker.filledQty > taker.filledQty
    decreases |opp|
  {
    hide Stops;
    if !(taker.IsFilled() || opp == [] || Stops(stp, taker, opp[0].order)) {
      var maker := opp[0].order;
      var q := Min(taker.Remaining(), maker.Remaining());
      FillAccounts(taker, q);
      FillAccounts(maker, q);
      if maker.Fill(q).IsFilled() {
        SweepTellsStatus(stp, taker.Fill(q), opp[1..]);
      }
    }
  }

  // ----- Add then cancel -----

  /** Cancelling an order that rested without trading undoes the add: both queues are exactly as before. */
  lemma CancelUndoesAdd(s: Settings, book: Book, order: Order)
    requires WellFormed(book) && Incoming(order)
    requires var a := Add(s, book, order); a.result.success && a.fills == [] && Rests(a.taker)
    ensures Cancel(Add(s, book, order).book, order.id) == book.(clock := book.clock + 1)
  {
    hide FokAccepts, UniqueIds, Sorted, Inserted, Removed, Has, Order.Remaining;
    var opp := book.On(order.side.Opposite());
    GoodIsFillable(order.side.Opposite(), opp, book.clock);
    SweepInOrder(s.selfTradePrevention, order, opp);
    SweepConserves(s.selfTradePrevention, order, opp);
    LeftoverShort(opp, []);
    var a := Add(s, book, order);
    hide Match, Stops, GoodSide, Fillable, Leftover;
    assert a.taker.side == order.side && a.taker.id == order.id;
    UndoInsert(order.side, book.On(order.side), Rest(a.taker, book.clock));
    AddKeepsBook(s, book, order);
    FindIsOnItsSide(a.book, order.id);
  }

  lemma UndoInsert(side: Side, flat: seq<Rest>, r: Rest)
    requires !Has(flat, r.order.id)
    ensures Removed(Inserted(side, flat, r), r.order.id) == flat
    ensures Has(Inserted(side, flat, r), r.order.id)
  {
    hide Slot, Removed, Has;
    var k := Slot(side, flat, r.order.price);
    assert flat == flat[..k] + flat[k..];
    HasIff(flat, r.order.id);
    UndoJoin(flat[..k], r, flat[k..]);
  }

  lemma UndoJoin(a: seq<Rest>, r: Rest, b: seq<Rest>)
    requires forall i :: 0 <= i < |a| ==> a[i].order.id != r.order.id
    ensures Removed(a + [r] + b, r.order.id) == a + b && Has(a + [r] + b, r.order.id)
  {
    hide Position, Has;
    var up := a + [r] + b;
    assert up[|a|] == r;
    HasIff(up, r.order.id);
    PositionFirst(up, r.order.id);
    assert up[..|a|] == a && up[|a| + 1..] == b;
    assert Position(up, r.order.id) == |a|;
  }
}
