/** The order book in the heap (include/engine/order_book.hpp, src/engine/order_book.cpp): an id map, two maps of
    levels and the cached best prices, all changed in place and all kept equal to one flat model book. */
module OrderBooks {
  import opened Core
  import opened PriceLevels
  import opened BookModel
  import opened BookLaws
  import opened BookSafety
  import opened BookQueues
  import opened BookEvents
  import opened LevelMaps

  lemma NextRemainder(n: nat, m: nat)
    requires m >= 1
    ensures (n + 1) % m == if n % m + 1 >= m then 0 else n % m + 1
  {
    var q, r := n / m, n % m;
    if r + 1 >= m {
      DivModUnique(n + 1, m, q + 1, 0);
    } else {
      DivModUnique(n + 1, m, q, r + 1);
    }
  }

  /** What the source's `OrderBookConfig` and callback setters fix. */
  datatype Config = Config(
    settings: Settings, batchCallbacks: bool, tradeBatchSize: nat, hearsTrades: bool, hearsReports: bool)
  {
    predicate Batches() {
      batchCallbacks && hearsTrades
    }

    /** How many trades wait for a flush after n more, when len were waiting: a full batch is sent. */
    function Backlog(len: nat, n: nat): nat
      decreases n
    {
      if !Batches() || n == 0 then len
      else Backlog(if len + 1 >= tradeBatchSize then 0 else len + 1, n - 1)
    }

    /** The same after an add: none after a success, else what the batches left. */
    function Waiting(len: nat, a: Added): nat {
      if a.result.success then 0 else Backlog(len, |a.fills|)
    }

    lemma {:induction false} BacklogAdds(len: nat, m: nat, n: nat)
      ensures Backlog(len, m + n) == Backlog(Backlog(len, m), n)
      decreases m
    {
      if Batches() && m > 0 {
        BacklogAdds(if len + 1 >= tradeBatchSize then 0 else len + 1, m - 1, n);
      }
    }

    lemma BacklogNone(len: nat)
      ensures Backlog(len, 0) == len
    {
    }

    lemma BacklogIdle(len: nat, n: nat)
      requires !Batches()
      ensures Backlog(len, n) == len
    {
    }

    /** A full batch leaves at once, so what waits is the remainder; size 0 behaves as size 1. */
    lemma {:induction false} BacklogIsRemainder(n: nat)
      requires Batches()
      ensures Backlog(0, n) == n % BatchSize()
    {
      if n > 0 {
        BacklogAdds(0, n - 1, 1);
        BacklogIsRemainder(n - 1);
        NextRemainder(n - 1, BatchSize());
        assert Backlog(0, n) == Backlog((n - 1) % BatchSize(), 1);
      }
    }

    function BatchSize(): (size: nat)
      ensures size >= 1
    {
      if tradeBatchSize == 0 then 1 else tradeBatchSize
    }

    lemma {:induction false} BacklogBound(len: nat, n: nat)
      ensures Backlog(len, n) <= len + n
      decreases n
    {
      if Batches() && n > 0 {
        BacklogBound(if len + 1 >= tradeBatchSize then 0 else len + 1, n - 1);
      }
    }
  }

  datatype Voice = Voice(emitted: seq<Trade>, next: nat, waiting: nat)

  class OrderBook {
    const symbol: Symbol
    const config: Config

    var orders: map<OrderId, Order>
    var bidLevels: Levels
    var askLevels: Levels
    var bestBid: Price
    var bestAsk: Price
    var nextSeqNum: nat
    var pendingTrades: seq<Trade>

    ghost var delivered: seq<Trade>  // what the trade callback was called with
    ghost var reports: seq<Report>   // what the execution callback was called with
    ghost var book: Book             // the value this object represents
    ghost var bidRepr: set<object>   // the memory of each side
    ghost var askRepr: set<object>
    ghost var Repr: set<object>

    function LevelsOn(side: Side): Levels
      reads this`bidLevels, this`askLevels
    {
      if side == Buy then bidLevels else askLevels
    }

    function BestOn(side: Side): Price
      reads this`bestBid, this`bestAsk
    {
      if side == Buy then bestBid else bestAsk
    }

    ghost function ReprOn(side: Side): set<object>
      reads this`bidRepr, this`askRepr
    {
      if side == Buy then bidRepr else askRepr
    }

    /** The two sides and the book object itself share no memory. */
    ghost predicate Disjoint()
      reads this`bidRepr, this`askRepr, this`Repr
    {
      bidRepr !! askRepr && this !in bidRepr && this !in askRepr && Repr == {this} + bidRepr + askRepr
    }

    /** The cached best is the price of the front order, or the sentinel. While the front level is being
        consumed (`loose`) the cache keeps its price, and nothing better rests. */
    ghost predicate BestOk(side: Side, loose: bool)
      reads this`bestBid, this`bestAsk, this`book, this`bidLevels, this`askLevels
    {
      var best, flat := BestOn(side), book.On(side);
      if loose then best in LevelsOn(side) && (flat != [] ==> !Better(side, flat[0].order.price, best))
      else best == BestPrice(flat)
    }

    function HoleOn(side: Side, loose: Option<Side>): set<Price>
      reads this`bestBid, this`bestAsk
    {
      if loose == Some(side) then {BestOn(side)} else {}
    }

    ghost predicate Held(side: Side, hole: set<Price>)
      reads this`bidLevels, this`askLevels, this`bidRepr, this`askRepr, this`book, ReprOn(side)
    {
      SideRep(LevelsOn(side), book.On(side), hole, ReprOn(side))
    }

    /** Everything but the message fields. */
    ghost predicate Intact(loose: Option<Side>)
      reads this`orders, this`bidLevels, this`askLevels, this`bestBid, this`bestAsk, this`book
      reads this`Repr, this`bidRepr, this`askRepr, bidRepr, askRepr
      ensures Intact(loose) ==> Disjoint()
    {
      && Disjoint()
      && WellFormed(book)
      && OrdersMatch(orders, book)
      && Held(Buy, HoleOn(Buy, loose)) && Held(Sell, HoleOn(Sell, loose))
      && BestOk(Buy, loose == Some(Buy)) && BestOk(Sell, loose == Some(Sell))
    }

    ghost predicate Consistent(loose: Option<Side>)
      reads this, Repr
      ensures Consistent(loose) ==> Disjoint() && (config.Batches() || pendingTrades == [])
    {
      && Disjoint() && Intact(loose)
      && (config.Batches() || pendingTrades == [])
    }

    ghost predicate Valid()
      reads this, Repr
      ensures Valid() ==> Disjoint()
    {
      Consistent(None)
    }

    /** Trades sent so far and trades waiting to be sent, in order. */
    ghost function Emitted(): seq<Trade>
      reads this`delivered, this`pendingTrades
    {
      delivered + pendingTrades
    }

    constructor (symbol: Symbol, config: Config)
      ensures Valid() && fresh(Repr) && book == EMPTY_BOOK && nextSeqNum == 1
      ensures this.symbol == symbol && this.config == config
      ensures delivered == [] && pendingTrades == [] && reports == []
    {
      this.symbol, this.config := symbol, config;
      orders, bidLevels, askLevels := map[], map[], map[];
      bestBid, bestAsk := INVALID_PRICE, INVALID_PRICE;
      nextSeqNum, pendingTrades := 1, [];
      delivered, reports, book := [], [], EMPTY_BOOK;
      bidRepr, askRepr, Repr := {}, {}, {this};
    }

    // ----- Callbacks -----

    method FlushTrades(ghost loose: Option<Side>)
      requires Consistent(loose)
      modifies this`pendingTrades, this`delivered
      ensures Consistent(loose) && Emitted() == old(Emitted())
      ensures pendingTrades == if config.hearsTrades then [] else old(pendingTrades)
    {
      hide Intact;
      if pendingTrades == [] || !config.hearsTrades {
        return;
      }
      delivered := delivered + pendingTrades;
      pendingTrades := [];
    }

    method EmitTrade(buyId: OrderId, sellId: OrderId, price: Price, qty: Quantity, aggressor: Side,
                     ghost loose: Option<Side>)
      requires Consistent(loose)
      modifies this`pendingTrades, this`delivered, this`nextSeqNum
      ensures Consistent(loose)
      ensures nextSeqNum == old(nextSeqNum) + if config.hearsTrades then 1 else 0
      ensures Emitted() == old(Emitted())
        + if config.hearsTrades then [Trade(old(nextSeqNum), symbol, price, qty, buyId, sellId, aggressor)] else []
      ensures |pendingTrades| == config.Backlog(old(|pendingTrades|), 1)
    {
      hide Intact;
      if !config.hearsTrades {
        return;
      }
      var trade := Trade(nextSeqNum, symbol, price, qty, buyId, sellId, aggressor);
      nextSeqNum := nextSeqNum + 1;
      if config.batchCallbacks {
        pendingTrades := pendingTrades + [trade];
        if |pendingTrades| >= config.tradeBatchSize {
          FlushTrades(loose);
        }
      } else {
        delivered := delivered + [trade];
      }
    }

    /** The reports that `ns` become, when anyone listens. */
    ghost function Noted(ns: seq<Notice>, first: nat): seq<Report> {
      if config.hearsReports then ReportsOf(ns, first) else []
    }

    ghost function CountNotices(ns: seq<Notice>): nat {
      if config.hearsReports then |ns| else 0
    }

    lemma NotedConcat(a: seq<Notice>, b: seq<Notice>, first: nat)
      ensures Noted(a + b, first) == Noted(a, first) + Noted(b, first + CountNotices(a))
      ensures CountNotices(a + b) == CountNotices(a) + CountNotices(b)
      ensures Noted([], first) == [] && Noted([], first + CountNotices(a)) == [] && CountNotices([]) == 0
    {
    }

    method EmitReport(order: Order, filled: Quantity)
      requires Valid()
      modifies this`reports, this`nextSeqNum
      ensures Valid()
      ensures nextSeqNum == old(nextSeqNum) + CountNotices([Notice(order, filled)])
      ensures reports == old(reports) + Noted([Notice(order, filled)], old(nextSeqNum))
    {
      hide Intact;
      if !config.hearsReports {
        return;
      }
      reports := reports + [ReportOf(Notice(order, filled), nextSeqNum)];
      nextSeqNum := nextSeqNum + 1;
    }

    // ----- Cached best prices -----

    /** `update_best_bid` and `update_best_ask`. */
    method UpdateBest(side: Side)
      requires Held(side, {}) && Sorted(side, book.On(side))
      modifies this`bestBid, this`bestAsk
      ensures BestOn(side) == BestPrice(book.On(side))
      ensures BestOn(side.Opposite()) == old(BestOn(side.Opposite()))
    {
      var best := BestKey(LevelsOn(side), side, book.On(side), ReprOn(side));
      if side == Buy {
        bestBid := best;
      } else {
        bestAsk := best;
      }
    }

    // ----- Matching -----

    /** The trades that `fills` of `taker` become, when anyone listens. */
    ghost function Sent(side: Side, taker: OrderId, fills: seq<Fill>, first: nat): seq<Trade> {
      if config.hearsTrades then TradesOf(symbol, side, taker, fills, first) else []
    }

    ghost function Count(fills: seq<Fill>): nat {
      if config.hearsTrades then |fills| else 0
    }

    lemma SentConcat(side: Side, taker: OrderId, a: seq<Fill>, b: seq<Fill>, first: nat)
      ensures Sent(side, taker, a + b, first) == Sent(side, taker, a, first) + Sent(side, taker, b, first + Count(a))
      ensures Count(a + b) == Count(a) + Count(b)
    {
      hide TradesOf;
      TradesOfConcat(symbol, side, taker, a, b, first);
    }

    lemma SentNone(side: Side, taker: OrderId, first: nat)
      ensures Sent(side, taker, [], first) == [] && Count([]) == 0
    {
    }

    /** What has been said so far: trades emitted, the next number, and how many trades wait for a flush. */
    ghost function Said(): Voice
      reads this`delivered, this`pendingTrades, this`nextSeqNum
    {
      Voice(Emitted(), nextSeqNum, |pendingTrades|)
    }

    /** Between `before` and `after` exactly the trades of `fills` were emitted. */
    ghost predicate Spoke(before: Voice, side: Side, taker: OrderId, fills: seq<Fill>, after: Voice) {
      && after.emitted == before.emitted + Sent(side, taker, fills, before.next)
      && after.next == before.next + Count(fills)
      && after.waiting == config.Backlog(before.waiting, |fills|)
    }

    lemma SilentStart(v: Voice, side: Side, taker: OrderId)
      ensures Spoke(v, side, taker, [], v)
    {
      hide Sent, Count, Config.Backlog;
      SentNone(side, taker, v.next);
      config.BacklogNone(v.waiting);
    }

    lemma SpokeOn(v0: Voice, v1: Voice, v2: Voice, side: Side, taker: OrderId, a: seq<Fill>, b: seq<Fill>)
      requires Spoke(v0, side, taker, a, v1) && Spoke(v1, side, taker, b, v2)
      ensures Spoke(v0, side, taker, a + b, v2)
    {
      hide Sent, Count, Config.Backlog;
      SentConcat(side, taker, a, b, v0.next);
      config.BacklogAdds(v0.waiting, |a|, |b|);
    }

    /** While the front level is being consumed it may be empty, and the cached best may lag. */
    lemma Loosen(side: Side)
      requires Valid() && BestOn(side) in LevelsOn(side) && book.On(side) != []
      ensures Consistent(Some(side)) && Queue(book.On(side), BestOn(side)) != []
    {
      hide SideRep, Queue, Prices, WellFormed, OrdersMatch;
      HoleAllowed(LevelsOn(side), book.On(side), ReprOn(side), BestOn(side));
    }

    /** Not empty after all. */
    lemma Tighten(side: Side)
      requires Consistent(Some(side)) && book.On(side) != [] && book.On(side)[0].order.price == BestOn(side)
      ensures Valid()
    {
      hide SideRep, Queue, Prices, WellFormed, OrdersMatch;
      QueueEmpty(book.On(side), BestOn(side));
      HoleAllowed(LevelsOn(side), book.On(side), ReprOn(side), BestOn(side));
    }

    /** `level.empty()` and `level.front_order_id()` on the best level. */
    method PeekFront(side: Side) returns (empty: bool, id: OrderId)
      requires Consistent(Some(side))
      ensures empty ==> Queue(book.On(side), BestOn(side)) == []
      ensures !empty ==> book.On(side) != [] && book.On(side)[0].order.id == id
                         && book.On(side)[0].order.price == BestOn(side)
    {
      ghost var flat, best := book.On(side), BestOn(side);
      LevelInside(LevelsOn(side), flat, {best}, ReprOn(side), best);
      var level := LevelsOn(side)[BestOn(side)];
      empty, id := level.orderCount == 0, INVALID_ORDER_ID;
      if !empty {
        id := level.FrontOrderId();
        FrontOfBest(side, flat, best);
      }
    }

    method SetLevels(side: Side, levels: Levels)
      modifies this`bidLevels, this`askLevels
      ensures LevelsOn(side) == levels && LevelsOn(side.Opposite()) == old(LevelsOn(side.Opposite()))
    {
      if side == Buy {
        bidLevels := levels;
      } else {
        askLevels := levels;
      }
    }

    lemma BothSides(side: Side)
      requires Disjoint() && WellFormed(book) && OrdersMatch(orders, book)
      requires Held(side, {}) && Held(side.Opposite(), {}) && BestOk(side, false) && BestOk(side.Opposite(), false)
      requires config.Batches() || pendingTrades == []
      ensures Valid()
    {
      hide Held, BestOk, OrdersMatch, WellFormed;
    }

    /** The best level is used up: erase it and look up the next best price. */
    method DropBest(side: Side)
      requires Consistent(Some(side)) && Queue(book.On(side), BestOn(side)) == []
      modifies this`bidLevels, this`askLevels, this`bestBid, this`bestAsk
      ensures Valid()
    {
      hide SideRep, OrdersMatch, Queue, WellFormed, Sorted, BestPrice;
      SidesAreSorted(book);
      var levels := EraseAt(LevelsOn(side), book.On(side), BestOn(side), ReprOn(side));
      SetLevels(side, levels);
      UpdateBest(side);
      assert Held(side, {}) && Held(side.Opposite(), {});
      BothSides(side);
    }

    /** The inner loop and the clean-up after it: trade with the best level until it is empty, the order is
        filled, or self-trade prevention steps in. */
    method SweepLevel(order0: Order) returns (order: Order, stopped: bool, ghost fills: seq<Fill>)
      requires Valid() && order0.filledQty < order0.quantity
      requires var side := order0.side.Opposite();
        BestOn(side) in LevelsOn(side) && book.On(side) != [] && BestOn(side) != 0 && Crosses(order0, BestOn(side))
      modifies Repr
      ensures Valid() && fresh(Repr - old(Repr))
      ensures var side, stp := order0.side.Opposite(), config.settings.selfTradePrevention;
        && book == old(book).With(side, book.On(side))
        && OnCourse(stp, order0, old(book).On(side), fills, order, book.On(side))
        && (stopped ==> book.On(side) != [] && Stops(stp, order, book.On(side)[0].order))
      ensures order == order0.(filledQty := order.filledQty, status := order.status) && order.filledQty <= order.quantity
      ensures fills != [] ==> order.Remaining() < order0.Remaining()
      ensures fills == [] ==> stopped && order == order0
      ensures Spoke(old(Said()), order0.side, order0.id, fills, Said()) && reports == old(reports)
    {
      hide Consistent, Order.Fill, Order.Remaining, FrontHit, Queue, OnCourse, Spoke, Said, Crosses;
      var side := order0.side.Opposite();
      ghost var stp := config.settings.selfTradePrevention;
      Loosen(side);
      order, stopped, fills := order0, false, [];
      OnCourseStart(stp, order0, book.On(side));
      SilentStart(Said(), order0.side, order0.id);
      var empty, restingId := PeekFront(side);
      while !order.IsFilled() && !empty && !stopped
        invariant Consistent(Some(side)) && fresh(Repr - old(Repr))
        invariant BestOn(side) == old(BestOn(side))
        invariant empty ==> Queue(book.On(side), BestOn(side)) == []
        invariant !empty ==> book.On(side) != [] && book.On(side)[0].order.id == restingId
                             && book.On(side)[0].order.price == BestOn(side)
        invariant book == old(book).With(side, book.On(side))
        invariant OnCourse(stp, order0, old(book).On(side), fills, order, book.On(side))
        invariant stopped ==> !empty && Stops(stp, order, book.On(side)[0].order)
        invariant order == order0.(filledQty := order.filledQty, status := order.status)
        invariant order.filledQty <= order.quantity
        invariant if fills == [] then order == order0 && !empty else order.Remaining() < order0.Remaining()
        invariant Spoke(old(Said()), order0.side, order0.id, fills, Said()) && reports == old(reports)
        decreases order.Remaining(), !stopped
      {
        if config.settings.selfTradePrevention && NearIds(order.id, restingId) {
          stopped := true;
        } else {
          ghost var fill;
          FrontLive(side);
          SamePricesCross(order0, order, BestOn(side));
          OnCourseStep(stp, order0, old(book).On(side), fills, order, book.On(side));
          ghost var said := Said();
          order, fill := TradeWithFront(order, restingId);
          SpokeOn(old(Said()), said, Said(), order0.side, order0.id, fills, [fill]);
          fills := fills + [fill];
          empty, restingId := PeekFront(side);
        }
      }
      if empty {
        DropBest(side);
      } else {
        Tighten(side);
      }
    }

    lemma SamePricesCross(before: Order, after: Order, price: Price)
      requires after == before.(filledQty := after.filledQty, status := after.status)
      ensures Crosses(after, price) <==> Crosses(before, price)
    {
    }

    /** `match_order`: sweep level after level while the best price of the other side crosses. */
    method MatchOrder(taker: Order) returns (order: Order, ghost fills: seq<Fill>)
      requires Valid() && taker.filledQty <= taker.quantity
      modifies Repr
      ensures Valid() && fresh(Repr - old(Repr))
      ensures var side := taker.side.Opposite();
        && Matched(order, book.On(side), fills)
           == Match(config.settings.selfTradePrevention, taker, old(book).On(side))
        && book == old(book).With(side, book.On(side))
      ensures Spoke(old(Said()), taker.side, taker.id, fills, Said()) && reports == old(reports)
    {
      hide Consistent, Order.Fill, Order.Remaining, Queue, OnCourse, Spoke, Said;
      var side := taker.side.Opposite();
      ghost var stp := config.settings.selfTradePrevention;
      order, fills := taker, [];
      OnCourseStart(stp, taker, book.On(side));
      SilentStart(Said(), taker.side, taker.id);
      var stopped := false;
      while !order.IsFilled() && !stopped
        invariant Valid() && fresh(Repr - old(Repr))
        invariant book == old(book).With(side, book.On(side))
        invariant OnCourse(stp, taker, old(book).On(side), fills, order, book.On(side))
        invariant stopped ==> book.On(side) != [] && Stops(stp, order, book.On(side)[0].order)
        invariant order == taker.(filledQty := order.filledQty, status := order.status)
        invariant order.filledQty <= order.quantity
        invariant Spoke(old(Said()), taker.side, taker.id, fills, Said()) && reports == old(reports)
        decreases order.Remaining(), !stopped
      {
        BestFacts(side);
        var best := BestOn(side);
        if best == INVALID_PRICE || best == 0 {
          break;
        }
        if order.kind != Market && !order.WouldCross(best) {
          break;
        }
        if best !in LevelsOn(side) {
          // No operation leaves the cache pointing at a missing level, so the retry of the source never happens.
          assert false;
        }
        ghost var more;
        ghost var order1, flat1, said := order, book.On(side), Said();
        order, stopped, more := SweepLevel(order);
        OnCourseTrans(stp, taker, old(book).On(side), fills, order1, flat1, more, order, book.On(side));
        SpokeOn(old(Said()), said, Said(), taker.side, taker.id, fills, more);
        fills := fills + more;
      }
      OnCourseEnds(stp, taker, old(book).On(side), fills, order, book.On(side));
    }

    /** The cached best against the front of the side. */
    lemma BestFacts(side: Side)
      requires Valid()
      ensures BestOn(side) == BestPrice(book.On(side))
      ensures BestOn(side) == INVALID_PRICE <==> book.On(side) == []
      ensures book.On(side) != [] ==> BestOn(side) in LevelsOn(side) && BestOn(side) == book.On(side)[0].order.price
    {
      var flat := book.On(side);
      if flat != [] {
        assert GoodRest(side, flat[0], book.clock);
        assert flat[0].order.price in Prices(flat);
        hide Prices, Queue, OrdersMatch;
      }
    }

    /** One round of the inner loop: both orders and the front node are filled, the trade goes out, and the
        resting order leaves the id map once filled. */
    method TradeWithFront(order: Order, restingId: OrderId) returns (order': Order, ghost fill: Fill)
      requires Consistent(Some(order.side.Opposite()))
      requires order.filledQty < order.quantity
      requires var flat := book.On(order.side.Opposite());
        && flat != [] && flat[0].order.id == restingId
        && flat[0].order.price == BestOn(order.side.Opposite())
      modifies Repr
      ensures Consistent(Some(order.side.Opposite())) && fresh(Repr - old(Repr))
      ensures bestBid == old(bestBid) && bestAsk == old(bestAsk)
      ensures bidLevels == old(bidLevels) && askLevels == old(askLevels)
      ensures var side := order.side.Opposite();
        var maker := old(book).On(side)[0].order;
        var q := Min(order.Remaining(), maker.Remaining());
        && order' == order.Fill(q) && fill == Fill(maker.id, maker.price, q)
        && book == old(book).With(side, FrontHit(old(book).On(side), q))
      ensures Spoke(old(Said()), order.side, order.id, [fill], Said()) && reports == old(reports)
    {
      hide Consistent, Order.Fill, Order.Remaining, FrontHit;
      var side, best := order.side.Opposite(), BestOn(order.side.Opposite());
      FrontLive(side);
      var qty := Min(order.Remaining(), orders[restingId].Remaining());
      order' := order.Fill(qty);
      fill := Fill(restingId, best, qty);
      TakeFront(side, restingId, qty);
      if order.side == Buy {
        EmitTrade(order.id, restingId, best, qty, Buy, Some(side));
      } else {
        EmitTrade(restingId, order.id, best, qty, Sell, Some(side));
      }
    }

    lemma FrontLive(side: Side)
      requires Consistent(Some(side)) && book.On(side) != []
      ensures var o := book.On(side)[0].order;
        o.id in orders && orders[o.id] == o && o.filledQty < o.quantity
    {
      FrontInOrders(orders, book, side);
    }

    /** The resting half of the round. */
    method TakeFront(side: Side, restingId: OrderId, qty: Quantity)
      requires Consistent(Some(side))
      requires var flat := book.On(side);
        && flat != [] && flat[0].order.id == restingId && flat[0].order.price == BestOn(side)
        && qty <= flat[0].order.Remaining()
      modifies this`orders, this`book, this`Repr, this`bidRepr, this`askRepr, ReprOn(side)
      ensures Consistent(Some(side)) && fresh(Repr - old(Repr))
      ensures book == old(book).With(side, FrontHit(old(book).On(side), qty))
    {
      hide Order.Fill, Order.Remaining, FrontHit, SideRep, WellFormed, OrdersMatch, Find;
      FrontInOrders(orders, book, side);
      FillLevelFront(side, qty);
      StoreFront(side, restingId, qty);
    }

    /** The id map after the fill; the level has been filled already. */
    method StoreFront(side: Side, restingId: OrderId, qty: Quantity)
      requires Disjoint() && WellFormed(book) && OrdersMatch(orders, book)
      requires var flat := book.On(side);
        && flat != [] && flat[0].order.id == restingId && flat[0].order.price == BestOn(side)
        && qty <= flat[0].order.Remaining() && BestOn(side) in LevelsOn(side)
      requires SideRep(LevelsOn(side), FrontHit(book.On(side), qty), {BestOn(side)}, ReprOn(side))
      requires Held(side.Opposite(), {}) && BestOk(side.Opposite(), false)
      requires config.Batches() || pendingTrades == []
      modifies this`orders, this`book
      ensures Consistent(Some(side))
      ensures book == old(book).With(side, FrontHit(old(book).On(side), qty))
    {
      hide Order.Fill, Order.Remaining, FrontHit, SideRep, WellFormed, OrdersMatch, Find;
      ghost var flat := book.On(side);
      FrontInOrders(orders, book, side);
      FillAccounts(orders[restingId], qty);
      var resting := orders[restingId].Fill(qty);
      var live := orders[restingId := resting];
      if resting.IsFilled() {
        live := live - {restingId};
      }
      FrontHitKeeps(book, side, qty, orders, live);
      orders := live;
      book := book.With(side, FrontHit(flat, qty));
    }

    /** `level.fill_front` on the best level of `side`; the other side's memory is not touched. */
    method FillLevelFront(side: Side, qty: Quantity)
      requires Disjoint() && BestOn(side) in LevelsOn(side)
      requires Held(side, {BestOn(side)}) && Held(side.Opposite(), {})
      requires var flat := book.On(side);
        && flat != [] && flat[0].order.price == BestOn(side)
        && flat[0].order.filledQty < flat[0].order.quantity && qty <= flat[0].order.Remaining()
      modifies this`Repr, this`bidRepr, this`askRepr, ReprOn(side)
      ensures Disjoint() && fresh(Repr - old(Repr))
      ensures SideRep(LevelsOn(side), FrontHit(book.On(side), qty), {BestOn(side)}, ReprOn(side))
      ensures Held(side.Opposite(), {})
    {
      hide SideRep, FrontHit, Order.Remaining;
      LevelInside(LevelsOn(side), book.On(side), {BestOn(side)}, ReprOn(side), BestOn(side));
      ghost var repr := FillFrontAt(LevelsOn(side), BestOn(side), qty, book.On(side), ReprOn(side));
      SetRepr(side, repr);
    }

    ghost method SetRepr(side: Side, repr: set<object>)
      modifies this`Repr, this`bidRepr, this`askRepr
      ensures ReprOn(side) == repr && ReprOn(side.Opposite()) == old(ReprOn(side.Opposite()))
      ensures Repr == {this} + bidRepr + askRepr
    {
      if side == Buy {
        bidRepr := repr;
      } else {
        askRepr := repr;
      }
      Repr := {this} + bidRepr + askRepr;
    }

    // ----- Resting and leaving -----

    /** The level half of `insert_resting_order`. */
    method AppendLevel(order: Order)
      requires Disjoint() && Held(order.side, {}) && Held(order.side.Opposite(), {})
      requires Sorted(order.side, book.On(order.side)) && !Has(book.On(order.side), order.id)
      modifies this`bidLevels, this`askLevels, this`Repr, this`bidRepr, this`askRepr, ReprOn(order.side)
      ensures Disjoint() && fresh(Repr - old(Repr))
      ensures SideRep(LevelsOn(order.side), Inserted(order.side, book.On(order.side), Rest(order, book.clock)), {},
                      ReprOn(order.side))
      ensures Held(order.side.Opposite(), {})
    {
      hide SideRep, Inserted, Sorted, Order.Remaining;
      var side := order.side;
      if order.price in LevelsOn(side) {
        LevelInside(LevelsOn(side), book.On(side), {}, ReprOn(side), order.price);
      }
      var levels;
      ghost var repr;
      levels, repr := AppendAt(LevelsOn(side), side, book.On(side), Rest(order, book.clock), order.price, order.id,
                               order.Remaining(), ReprOn(side));
      SetLevels(side, levels);
      SetRepr(side, repr);
    }

    /** The cached best after an insertion, without looking at the levels. */
    method RaiseBest(side: Side, price: Price)
      requires price != INVALID_PRICE
      modifies this`bestBid, this`bestAsk
      ensures BestOn(side) == if old(BestOn(side)) == INVALID_PRICE || Better(side, price, old(BestOn(side))) then price
                              else old(BestOn(side))
      ensures BestOn(side.Opposite()) == old(BestOn(side.Opposite()))
    {
      if side == Buy {
        if bestBid == INVALID_PRICE || price > bestBid {
          bestBid := price;
        }
      } else {
        if price < bestAsk {
          bestAsk := price;
        }
      }
    }

    /** Level, cached best and model together. */
    method JoinLevel(order: Order)
      requires Disjoint() && Held(Buy, {}) && Held(Sell, {}) && BestOk(Buy, false) && BestOk(Sell, false)
      requires WellFormed(book) && order.price != INVALID_PRICE && !Has(book.On(order.side), order.id)
      modifies this`bidLevels, this`askLevels, this`bestBid, this`bestAsk, this`book
      modifies this`Repr, this`bidRepr, this`askRepr, ReprOn(order.side)
      ensures Disjoint() && fresh(Repr - old(Repr))
      ensures Held(Buy, {}) && Held(Sell, {}) && BestOk(Buy, false) && BestOk(Sell, false)
      ensures book == old(book).With(order.side,
                                     Inserted(order.side, old(book).On(order.side), Rest(order, old(book).clock)))
                               .(clock := old(book).clock + 1)
    {
      hide SideRep, Inserted, Sorted, UniqueIds, Has, Order.Remaining;
      ghost var flat, r := book.On(order.side), Rest(order, book.clock);
      BestMarksEmpty(book, order.side);
      InsertedFront(order.side, flat, r);
      AppendLevel(order);
      RaiseBest(order.side, order.price);
      book := book.With(order.side, Inserted(order.side, flat, r)).(clock := book.clock + 1);
    }

    method InsertResting(order: Order)
      requires Valid() && order.filledQty < order.quantity && order.price != INVALID_PRICE
      requires !Has(book.bids, order.id) && !Has(book.asks, order.id)
      modifies this`orders, this`bidLevels, this`askLevels, this`bestBid, this`bestAsk, this`book
      modifies this`Repr, this`bidRepr, this`askRepr, ReprOn(order.side)
      ensures Valid() && fresh(Repr - old(Repr))
      ensures book == old(book).With(order.side,
                                     Inserted(order.side, old(book).On(order.side), Rest(order, old(book).clock)))
                               .(clock := old(book).clock + 1)
    {
      hide SideRep, BestOk, WellFormed, Inserted, Has, OrdersMatch;
      JoinKeepsBook(book, order);
      JoinKeepsOrders(book, Rest(order, book.clock), orders);
      JoinLevel(order);
      orders := orders[order.id := order];
    }

    /** `remove_order_from_level` and the cached best after it. */
    method LeaveLevel(id: OrderId, side: Side, price: Price)
      requires Disjoint() && Held(Buy, {}) && Held(Sell, {}) && BestOk(Buy, false) && BestOk(Sell, false)
      requires WellFormed(book) && Has(book.On(side), id)
      requires book.On(side)[Position(book.On(side), id)].order.price == price
      modifies this`bidLevels, this`askLevels, this`bestBid, this`bestAsk, this`book
      modifies this`Repr, this`bidRepr, this`askRepr, ReprOn(side)
      ensures Disjoint() && fresh(Repr - old(Repr))
      ensures Held(Buy, {}) && Held(Sell, {}) && BestOk(Buy, false) && BestOk(Sell, false)
      ensures book == old(book).With(side, Removed(old(book).On(side), id))
    {
      hide SideRep, Removed, Sorted, UniqueIds, Has, Position;
      ghost var flat := book.On(side);
      RemovedGood(side, flat, id, book.clock);
      RemoveLevelOrder(id, side, price);
      book := book.With(side, Removed(flat, id));
      UpdateBest(side);
    }

    method RemoveLevelOrder(id: OrderId, side: Side, price: Price)
      requires Disjoint() && Held(side, {}) && Held(side.Opposite(), {})
      requires UniqueIds(book.On(side)) && Has(book.On(side), id)
      requires book.On(side)[Position(book.On(side), id)].order.price == price
      modifies this`bidLevels, this`askLevels, this`Repr, this`bidRepr, this`askRepr, ReprOn(side)
      ensures Disjoint() && fresh(Repr - old(Repr))
      ensures SideRep(LevelsOn(side), Removed(book.On(side), id), {}, ReprOn(side))
      ensures Held(side.Opposite(), {})
    {
      hide SideRep, Removed, UniqueIds, Has, Position;
      if price in LevelsOn(side) {
        LevelInside(LevelsOn(side), book.On(side), {}, ReprOn(side), price);
      }
      var levels;
      ghost var repr;
      levels, repr := RemoveAt(LevelsOn(side), book.On(side), id, price, ReprOn(side));
      SetLevels(side, levels);
      SetRepr(side, repr);
    }

    /** The side is read before the order is erased. */
    method CancelOrder(id: OrderId) returns (result: OrderResult)
      requires Valid()
      modifies Repr
      ensures Valid() && fresh(Repr - old(Repr))
      ensures book == Cancel(old(book), id)
      ensures result.orderId == id && (result.success <==> Find(old(book), id).Some?)
      ensures !result.success ==> result.reason == OrderNotFound
      ensures nextSeqNum == old(nextSeqNum) && delivered == old(delivered)
      ensures pendingTrades == old(pendingTrades) && reports == old(reports)
    {
      hide SideRep, BestOk, WellFormed, Removed, Has, Position, Find;
      if id !in orders {
        FindIsOnItsSide(book, id);
        return OrderResult(false, OrderNotFound, id, 0);
      }
      var order := orders[id];
      FindIsOnItsSide(book, id);
      CancelIsRemoval(book, id);
      CancelKeepsBook(book, id);
      CancelKeepsOrders(book, id, orders);
      hide OrdersMatch;
      LeaveLevel(id, order.side, order.price);
      orders := orders - {id};
      result := OrderResult(true, NoReason, id, 0);
    }

    // ----- Adding -----

    /** The fill-or-kill pre-check: levels in numeric order, 32-bit sums, stopping once there is enough. */
    method FokCheck(order: Order) returns (ok: bool)
      requires Valid()
      ensures ok <==> FokAccepts(order, book.On(order.side.Opposite()))
    {
      hide SideRep, Queue, Prices, WellFormed, OrdersMatch, FokSoFar, FokAccepts, Wrap32, BestOk;
      var levels := LevelsOn(order.side.Opposite());
      ghost var flat := book.On(order.side.Opposite());
      KeysArePrices(levels, flat, ReprOn(order.side.Opposite()));
      var available: Quantity := 0;
      var todo := levels.Keys;
      FokStart(order, flat);
      while todo != {}
        invariant FokSoFar(order, flat, todo, available)
      {
        var price := LowestPrice(todo);
        FokVisit(order, flat, todo, available, price);
        if Crosses(order, price) {
          var total := TotalAt(levels, price, flat, ReprOn(order.side.Opposite()));
          available := Wrap32(available + total);
        }
        todo := todo - {price};
        if available >= order.quantity {
          return true;
        }
      }
      FokDone(order, flat, available);
      return false;
    }

    /** The part of `add_order` after all checks: match, then rest, drop or fail the remainder. */
    method Execute(order: Order) returns (result: OrderResult)
      requires Valid() && order.filledQty == 0 < order.quantity && (Rests(order) ==> order.price != INVALID_PRICE)
      requires !Has(book.bids, order.id) && !Has(book.asks, order.id)
      modifies Repr
      ensures Valid() && fresh(Repr - old(Repr))
      ensures var m := Match(config.settings.selfTradePrevention, order, old(book).On(order.side.Opposite()));
        var ns := if FokMissed(m.taker) then [] else Notices(m.taker);
        && book == AfterMatch(old(book), m)
        && result == (if FokMissed(m.taker) then OrderResult(false, InvalidQuantity, order.id, 0)
                      else OrderResult(true, NoReason, order.id, m.taker.filledQty))
        && Emitted() == old(Emitted()) + Sent(order.side, order.id, m.fills, old(nextSeqNum))
        && reports == old(reports) + Noted(ns, old(nextSeqNum) + Count(m.fills))
        && nextSeqNum == old(nextSeqNum) + Count(m.fills) + CountNotices(ns)
      ensures result.success ==> pendingTrades == []
      ensures !result.success ==> |pendingTrades| == config.Backlog(old(|pendingTrades|),
        |Match(config.settings.selfTradePrevention, order, old(book).On(order.side.Opposite())).fills|)
    {
      hide Consistent, Match, Has, Sent, Count, Inserted, WellFormed, Noted, CountNotices, Notices, Emitted,
           Config.Backlog;
      SweepFacts(order);
      NotedConcat([], [], nextSeqNum);
      var taker;
      ghost var fills;
      taker, fills := MatchOrder(order);
      NotedConcat([], [], nextSeqNum);
      var settled := Settle(taker);
      if !settled {
        return OrderResult(false, InvalidQuantity, order.id, 0);
      }
      if config.batchCallbacks {
        FlushTrades(None);
      }
      result := OrderResult(true, NoReason, order.id, taker.filledQty);
    }

    /** What becomes of the taker after the sweep, with its reports; false for a fill-or-kill that did not fill. */
    method Settle(taker: Order) returns (ok: bool)
      requires Valid() && taker.filledQty <= taker.quantity && (Rests(taker) ==> taker.price != INVALID_PRICE)
      requires !Has(book.bids, taker.id) && !Has(book.asks, taker.id)
      modifies Repr
      ensures Valid() && fresh(Repr - old(Repr))
      ensures ok <==> !FokMissed(taker)
      ensures var side, flat := taker.side, old(book).On(taker.side);
        book == if Rests(taker) then old(book).With(side, Inserted(side, flat, Rest(taker, old(book).clock)))
                                             .(clock := old(book).clock + 1)
                else old(book)
      ensures var ns := if FokMissed(taker) then [] else Notices(taker);
        && reports == old(reports) + Noted(ns, old(nextSeqNum))
        && nextSeqNum == old(nextSeqNum) + CountNotices(ns)
      ensures delivered == old(delivered) && pendingTrades == old(pendingTrades)
    {
      hide Consistent, Has, Inserted, Noted, CountNotices;
      ghost var note := [Notice(taker, taker.filledQty)];
      ghost var first := if taker.IsIoc() && !taker.IsFilled() then note else [];
      ghost var second := if taker.filledQty > 0 then note else [];
      NotedConcat(first, second, nextSeqNum);
      if taker.IsIoc() {
        if !taker.IsFilled() {
          EmitReport(taker, taker.filledQty);
        }
      } else if taker.IsFok() {
        if !taker.IsFilled() {
          return false;
        }
      } else if !taker.IsFilled() && taker.kind == Limit {
        InsertResting(taker);
      } else if !taker.IsFilled() && taker.kind == PostOnly {
        InsertResting(taker);
      }
      if taker.filledQty > 0 {
        EmitReport(taker, taker.filledQty);
      }
      ok := true;
    }

    /** What the sweep about to happen leaves of the taker and of the ids on the other side. */
    lemma SweepFacts(order: Order)
      requires Valid() && order.filledQty <= order.quantity
      requires !Has(book.bids, order.id) && !Has(book.asks, order.id)
      ensures var side := order.side.Opposite();
        var m := Match(config.settings.selfTradePrevention, order, book.On(side));
        && m.taker == order.(filledQty := m.taker.filledQty, status := m.taker.status)
        && m.taker.filledQty <= m.taker.quantity
        && !Has(book.With(side, m.opp).bids, order.id) && !Has(book.With(side, m.opp).asks, order.id)
    {
      hide Match, SideRep, OrdersMatch, Sorted, UniqueIds, Has, BestOk;
      var side, stp := order.side.Opposite(), config.settings.selfTradePrevention;
      GoodIsFillable(side, book.On(side), book.clock);
      SweepConserves(stp, order, book.On(side));
      SweepKeepsSide(stp, order, book.On(side), side, book.clock);
      var m := Match(stp, order, book.On(side));
      if Has(m.opp, order.id) {
        NoBetterHas(side, m.opp, book.On(side), order.id);
      }
    }

    /** `add_order`: the checks, the match, and what becomes of the remainder. */
    method AddOrder(order0: Order) returns (result: OrderResult)
      requires Valid() && Incoming(order0)
      modifies Repr
      ensures Valid() && fresh(Repr - old(Repr))
      ensures var a := Add(config.settings, old(book), order0);
        && book == a.book && result == a.result
        && Emitted() == old(Emitted()) + Sent(order0.side, order0.id, a.fills, old(nextSeqNum))
        && reports == old(reports) + Noted(a.notices, old(nextSeqNum) + Count(a.fills))
        && nextSeqNum == old(nextSeqNum) + Count(a.fills) + CountNotices(a.notices)
      ensures |pendingTrades| == config.Waiting(old(|pendingTrades|), Add(config.settings, old(book), order0))
      ensures Verdict(config.settings, old(book), Priced(order0)) != NoReason ==>
        pendingTrades == old(pendingTrades) && delivered == old(delivered)
    {
      hide Consistent, Match, Has, Sent, Count, AfterMatch, WellFormed, Noted, CountNotices, Notices, Emitted, Verdict;
      hide Config.Backlog;
      config.BacklogNone(|pendingTrades|);
      NotedConcat([], [], nextSeqNum);
      SentNone(order0.side, order0.id, nextSeqNum);
      var order := order0;
      if order.kind == Market {
        order := order.(price := if order.side == Buy then INVALID_PRICE else 0);
      }
      var reason := Check(order);
      if reason != NoReason {
        if reason == WouldCrossBook {
          EmitReport(order, 0);
        }
        return OrderResult(false, reason, order0.id, 0);
      }
      CheckedOut(order);
      result := Execute(order);
    }

    /** The checks before matching, in the order of the source, on the order with its market price set. */
    method Check(order: Order) returns (reason: RejectReason)
      requires Valid()
      ensures reason == Verdict(config.settings, book, order)
    {
      hide Consistent, Has, FokAccepts, WellFormed;
      KnownId(order.id);
      BestFacts(order.side.Opposite());
      if order.quantity == 0 {
        return InvalidQuantity;
      }
      if order.kind == Limit && order.price <= 0 {
        return InvalidPrice;
      }
      if order.id in orders {
        return DuplicateOrderId;
      }
      if order.kind == PostOnly && config.settings.postOnlyRejection {
        var best := BestOn(order.side.Opposite());
        if best != INVALID_PRICE && order.WouldCross(best) {
          return WouldCrossBook;
        }
      }
      if order.IsFok() {
        var enough := FokCheck(order);
        if !enough {
          return InvalidQuantity;
        }
      }
      return NoReason;
    }

    lemma CheckedOut(order: Order)
      requires Verdict(config.settings, book, order) == NoReason
      ensures order.quantity > 0 && !Has(book.bids, order.id) && !Has(book.asks, order.id)
    {
      hide Has, FokAccepts;
    }

    lemma KnownId(id: OrderId)
      requires Valid()
      ensures id in orders <==> Has(book.bids, id) || Has(book.asks, id)
      ensures id in orders <==> Find(book, id).Some?
      ensures id in orders ==> orders[id] == Find(book, id).value.order
    {
      FindIsOnItsSide(book, id);
      hide WellFormed, SideRep, BestOk, Find, Has;
    }

    /** Same price: the quantity is overwritten in node and order, the place and what is filled stay. */
    method AmendInPlace(id: OrderId, newQty: Quantity)
      requires Valid() && id in orders
      modifies this`orders, this`book, this`Repr, this`bidRepr, this`askRepr, ReprOn(orders[id].side)
      ensures Disjoint() && fresh(Repr - old(Repr))
      ensures var o := old(orders)[id];
        book == old(book).With(o.side, Requantified(old(book).On(o.side), id, newQty))
      ensures Valid() <==> old(orders)[id].filledQty == 0 && newQty > 0
    {
      hide SideRep, WellFormed, Requantified, OrdersMatch, Has, BestPrice;
      var order := orders[id];
      AmendFacts(book, id, newQty, orders);
      AmendLevel(id, order.side, order.price, newQty);
      orders := orders[id := order.(quantity := newQty)];
      book := book.With(order.side, Requantified(book.On(order.side), id, newQty));
    }

    method AmendLevel(id: OrderId, side: Side, price: Price, newQty: Quantity)
      requires Disjoint() && Held(side, {}) && Held(side.Opposite(), {})
      requires UniqueIds(book.On(side)) && Has(book.On(side), id) && price in Prices(book.On(side))
      requires book.On(side)[Position(book.On(side), id)].order.price == price
      modifies this`Repr, this`bidRepr, this`askRepr, ReprOn(side)
      ensures Disjoint() && fresh(Repr - old(Repr))
      ensures SideRep(LevelsOn(side), Requantified(book.On(side), id, newQty), {}, ReprOn(side))
        <==> book.On(side)[Position(book.On(side), id)].order.filledQty == 0
      ensures Held(side.Opposite(), {})
    {
      hide SideRep, Requantified, UniqueIds, Has, Position, Prices;
      PricesHeld(LevelsOn(side), book.On(side), {}, ReprOn(side));
      LevelInside(LevelsOn(side), book.On(side), {}, ReprOn(side), price);
      ghost var repr := ModifyAt(LevelsOn(side), book.On(side), id, price, newQty, ReprOn(side));
      SetRepr(side, repr);
    }

    /** The object still represents a book afterwards exactly when the replacement was a proper one. */
    method ReplaceOrder(id: OrderId, newPrice: Price, newQty: Quantity) returns (result: OrderResult)
      requires Valid()
      requires Find(book, id).Some? && Find(book, id).value.order.price != newPrice
        ==> Replaceable(book, id, newPrice, newQty)
      modifies Repr
      ensures Disjoint() && fresh(Repr - old(Repr))
      ensures Valid() <==> Replaceable(old(book), id, newPrice, newQty)
      ensures var a := Replace(config.settings, old(book), id, newPrice, newQty);
        && book == a.book && result.success == a.result.success
        && (Find(old(book), id).Some? && Find(old(book), id).value.order.price != newPrice ==> result == a.result)
        && (Valid() ==>
              && Emitted() == old(Emitted()) + Sent(a.taker.side, id, a.fills, old(nextSeqNum))
              && reports == old(reports) + Noted(a.notices, old(nextSeqNum) + Count(a.fills))
              && nextSeqNum == old(nextSeqNum) + Count(a.fills) + CountNotices(a.notices)
              && |pendingTrades| == if Find(old(book), id).Some? && Find(old(book), id).value.order.price != newPrice
                                    then config.Waiting(old(|pendingTrades|), a) else old(|pendingTrades|))
    {
      hide Consistent, Has, FokAccepts, Match, Inserted, WellFormed, Sent, Noted, Count, CountNotices, Requantified,
           Config.Waiting, Incoming, Add, Cancel;
      KnownId(id);
      NoMessages(id, nextSeqNum);
      if id !in orders {
        return OrderResult(false, NoReason, 0, 0);
      }
      var existing := orders[id];
      SideIsOwn(id);
      if existing.price == newPrice && existing.price in LevelsOn(existing.side) {
        AmendInPlace(id, newQty);
        return OrderResult(true, NoReason, 0, 0);
      }
      PriceIsHeld(id);
      result := Reprice(id, newPrice, newQty);
    }

    /** Cancel, then add anew under the same id; nothing undoes the cancel should the add be refused. */
    method Reprice(id: OrderId, newPrice: Price, newQty: Quantity) returns (result: OrderResult)
      requires Valid() && Find(book, id).Some? && Find(book, id).value.order.price != newPrice
      requires Replaceable(book, id, newPrice, newQty)
      modifies Repr
      ensures Valid() && fresh(Repr - old(Repr))
      ensures var a := Replace(config.settings, old(book), id, newPrice, newQty);
        && book == a.book && result == a.result
        && Emitted() == old(Emitted()) + Sent(a.taker.side, id, a.fills, old(nextSeqNum))
        && reports == old(reports) + Noted(a.notices, old(nextSeqNum) + Count(a.fills))
        && nextSeqNum == old(nextSeqNum) + Count(a.fills) + CountNotices(a.notices)
        && |pendingTrades| == config.Waiting(old(|pendingTrades|), a)
    {
      hide Add, Consistent, Has, Match, Inserted, WellFormed, Sent, Noted, Count, CountNotices, Config.Waiting;
      KnownId(id);
      SideIsOwn(id);
      CancelKeepsBook(book, id);
      var existing := orders[id];
      var cancelled := CancelOrder(id);
      if !cancelled.success {
        return cancelled;
      }
      hide Cancel, Find;
      var order := NewOrder(id, existing.symbol, existing.side, newPrice, newQty, existing.kind, existing.tif);
      AddBothSides(config.settings, book, order);
      result := AddOrder(order);
    }

    lemma NoMessages(id: OrderId, first: nat)
      ensures Sent(Buy, id, [], first) == Sent(Sell, id, [], first) == []
      ensures Noted([], first) == [] && Noted([], first + Count([])) == []
      ensures Count([]) == 0 && CountNotices([]) == 0
    {
    }

    lemma SideIsOwn(id: OrderId)
      requires Valid() && id in orders
      ensures orders[id] == Find(book, id).value.order && ReprOn(orders[id].side) <= Repr && WellFormed(book)
    {
      KnownId(id);
    }

    lemma PriceIsHeld(id: OrderId)
      requires Valid() && id in orders
      ensures orders[id].price in LevelsOn(orders[id].side)
    {
      KnownId(id);
      FindIsOnItsSide(book, id);
      var o := orders[id];
      var flat := book.On(o.side);
      assert flat[Position(flat, id)].order.price in Prices(flat);
      PricesHeld(LevelsOn(o.side), flat, {}, ReprOn(o.side));
    }
  }

  method LowestPrice(ps: set<Price>) returns (price: Price)
    requires ps != {}
    ensures price in ps && forall q :: q in ps ==> price <= q
  {
    ghost var least := LeastPrice(ps);
    price :| price in ps && forall q :: q in ps ==> price <= q;
  }

  lemma LeastPrice(ps: set<Price>) returns (least: Price)
    requires ps != {}
    ensures least in ps && forall q :: q in ps ==> least <= q
  {
    var p :| p in ps;
    if ps == {p} {
      least := p;
    } else {
      var rest := ps - {p};
      var l := LeastPrice(rest);
      least := if p < l then p else l;
      assert forall q :: q in ps ==> q == p || q in rest;
    }
  }

  /** The prices in `todo` are still to come, the others are summed up, and none of them was enough. */
  ghost predicate FokSoFar(order: Order, flat: seq<Rest>, todo: set<Price>, available: Quantity) {
    && todo <= Prices(flat)
    && (forall p, q :: p in Prices(flat) - todo && q in todo ==> p < q)
    && available == Wrap32(CrossingIn(order, flat, Prices(flat) - todo))
    && (forall p :: p in Prices(flat) - todo ==> Wrap32(CrossingUpTo(order, flat, p)) < order.quantity)
  }

  lemma FokStart(order: Order, flat: seq<Rest>)
    ensures FokSoFar(order, flat, Prices(flat), 0)
  {
    CrossingInNone(order, flat);
    assert Prices(flat) - Prices(flat) == {};
  }

  lemma FokVisit(order: Order, flat: seq<Rest>, todo: set<Price>, available: Quantity, price: Price)
    requires FokSoFar(order, flat, todo, available)
    requires price in todo && forall q :: q in todo ==> price <= q
    ensures price in Prices(flat)
    ensures var sum := if Crosses(order, price) then Wrap32(available + Wrap32(Sum(Queue(flat, price)))) else available;
      if sum >= order.quantity then FokAccepts(order, flat) else FokSoFar(order, flat, todo - {price}, sum)
  {
    var sum := if Crosses(order, price) then Wrap32(available + Wrap32(Sum(Queue(flat, price)))) else available;
    hide Prices, Queue, CrossingUpTo, CrossingIn;
    var visited := Prices(flat) - todo;
    CrossingInMore(order, flat, visited, price);
    WrapAdd(CrossingIn(order, flat, visited), Wrap32(Sum(Queue(flat, price))));
    WrapAdd(Sum(Queue(flat, price)), CrossingIn(order, flat, visited));
    assert Prices(flat) - (todo - {price}) == visited + {price};
    UpToHere(order, flat, visited + {price}, price);
    if sum >= order.quantity {
      AcceptedAt(order, flat, price);
    }
  }

  lemma FokDone(order: Order, flat: seq<Rest>, available: Quantity)
    requires FokSoFar(order, flat, {}, available)
    ensures !FokAccepts(order, flat)
  {
    hide CrossingUpTo, CrossingIn;
    forall i | 0 <= i < |flat| ensures flat[i].order.price in Prices(flat) - {} {
    }
  }

  /** Having visited `ps`, up to and including `price`, the sum runs over all prices up to it. */
  lemma UpToHere(order: Order, flat: seq<Rest>, ps: set<Price>, price: Price)
    requires forall p :: p in Prices(flat) ==> (p in ps <==> p <= price)
    ensures CrossingIn(order, flat, ps) == CrossingUpTo(order, flat, price)
  {
    forall i | 0 <= i < |flat| ensures flat[i].order.price in ps <==> flat[i].order.price <= price {
      assert flat[i].order.price in Prices(flat);
    }
    CrossingInIsUpTo(order, flat, ps, price);
  }

  lemma AcceptedAt(order: Order, flat: seq<Rest>, price: Price)
    requires price in Prices(flat) && Wrap32(CrossingUpTo(order, flat, price)) >= order.quantity
    ensures FokAccepts(order, flat)
  {
    hide CrossingUpTo;
    var i :| 0 <= i < |flat| && flat[i].order.price == price;
  }

  lemma AmendFacts(book: Book, id: OrderId, newQty: Quantity, orders: map<OrderId, Order>)
    requires WellFormed(book) && OrdersMatch(orders, book) && id in orders
    ensures var o := orders[id];
      var flat := book.On(o.side);
      var after := book.With(o.side, Requantified(flat, id, newQty));
      && Has(flat, id) && flat[Position(flat, id)].order == o && o.price in Prices(flat) && UniqueIds(flat)
      && OrdersMatch(orders[id := o.(quantity := newQty)], after)
      && BestPrice(after.On(o.side)) == BestPrice(flat)
      && (o.filledQty == 0 ==> (WellFormed(after) <==> newQty > 0))
  {
    FindIsOnItsSide(book, id);
    var o := orders[id];
    var flat := book.On(o.side);
    assert flat[Position(flat, id)].order.price in Prices(flat);
    AmendLookup(book, id, newQty, orders);
    if o.filledQty == 0 {
      AmendWellFormed(book, id, newQty);
    }
    hide WellFormed, OrdersMatch, Find, Prices;
  }

  lemma AmendOne(book: Book, id: OrderId, newQty: Quantity, other: OrderId)
    requires WellFormed(book) && Find(book, id).Some?
    ensures var r := Find(book, id).value;
      var flat := book.On(r.order.side);
      var after := Requantified(flat, id, newQty);
      && Lookup(after, other)
           == (if other == id then Some(r.(order := r.order.(quantity := newQty))) else Lookup(flat, other))
      && (Has(after, other) <==> Has(flat, other))
  {
    hide Lookup, Find, Position;
    FindIsOnItsSide(book, id);
    var r := Find(book, id).value;
    var flat := book.On(r.order.side);
    LookupEdited(flat, Position(flat, id), r.order.(quantity := newQty), other);
    RequantifiedHas(flat, id, newQty, other);
  }

  lemma AmendLookup(book: Book, id: OrderId, newQty: Quantity, orders: map<OrderId, Order>)
    requires WellFormed(book) && OrdersMatch(orders, book) && id in orders
    ensures var o := orders[id];
      OrdersMatch(orders[id := o.(quantity := newQty)],
                  book.With(o.side, Requantified(book.On(o.side), id, newQty)))
  {
    hide Requantified, Lookup, Has, WellFormed, Position;
    FindIsOnItsSide(book, id);
    var o := orders[id];
    forall other
      ensures Lookup(Requantified(book.On(o.side), id, newQty), other)
           == if other == id then Some(Find(book, id).value.(order := o.(quantity := newQty)))
              else Lookup(book.On(o.side), other)
      ensures Has(Requantified(book.On(o.side), id, newQty), other) <==> Has(book.On(o.side), other)
    {
      AmendOne(book, id, newQty, other);
    }
  }

  lemma AmendWellFormed(book: Book, id: OrderId, newQty: Quantity)
    requires WellFormed(book) && Find(book, id).Some? && Find(book, id).value.order.filledQty == 0
    ensures var side := Find(book, id).value.order.side;
      WellFormed(book.With(side, Requantified(book.On(side), id, newQty))) <==> newQty > 0
  {
    FindIsOnItsSide(book, id);
    var side := Find(book, id).value.order.side;
    var flat := book.On(side);
    var up := Requantified(flat, id, newQty);
    forall other ensures Has(up, other) <==> Has(flat, other) {
      RequantifiedHas(flat, id, newQty, other);
    }
    if newQty > 0 {
      RequantifiedGood(side, flat, id, newQty, book.clock);
    } else {
      assert !GoodRest(side, up[Position(flat, id)], book.clock);
    }
    hide Has, Requantified, Find, Position;
  }

  lemma CancelIsRemoval(book: Book, id: OrderId)
    requires Find(book, id).Some?
    ensures var side := Find(book, id).value.order.side;
      Cancel(book, id) == book.With(side, Removed(book.On(side), id))
  {
  }

  lemma CancelKeepsOrders(book: Book, id: OrderId, orders: map<OrderId, Order>)
    requires WellFormed(book) && OrdersMatch(orders, book)
    ensures OrdersMatch(orders - {id}, Cancel(book, id))
  {
    hide WellFormed, Cancel, Find;
    forall other ensures Find(Cancel(book, id), other) == if other == id then None else Find(book, other) {
      FindAfterCancel(book, id, other);
    }
  }

  lemma BestMarksEmpty(book: Book, side: Side)
    requires WellFormed(book)
    ensures BestPrice(book.On(side)) == INVALID_PRICE <==> book.On(side) == []
  {
    if book.On(side) != [] {
      assert GoodRest(side, book.On(side)[0], book.clock);
    }
  }

  lemma JoinKeepsOrders(book: Book, r: Rest, orders: map<OrderId, Order>)
    requires OrdersMatch(orders, book) && !Has(book.bids, r.order.id) && !Has(book.asks, r.order.id)
    ensures var side := r.order.side;
      OrdersMatch(orders[r.order.id := r.order],
                  book.With(side, Inserted(side, book.On(side), r)).(clock := book.clock + 1))
  {
    var side := r.order.side;
    var after := book.With(side, Inserted(side, book.On(side), r)).(clock := book.clock + 1);
    forall id ensures Find(after, id) == if id == r.order.id then Some(r) else Find(book, id) {
      FindAfterJoin(book, side, r, id);
    }
  }

  lemma SidesAreSorted(book: Book)
    requires WellFormed(book)
    ensures Sorted(Buy, book.bids) && Sorted(Sell, book.asks)
  {
    hide Sorted, UniqueIds;
  }

  /** If the best level holds anyone, its front is the front of the side. */
  lemma FrontOfBest(side: Side, flat: seq<Rest>, best: Price)
    requires Sorted(side, flat) && Queue(flat, best) != []
    requires flat != [] ==> !Better(side, flat[0].order.price, best)
    ensures flat != [] && flat[0].order.price == best && Queue(flat, best)[0].id == flat[0].order.id
  {
    QueueNonEmpty(flat, best);
    var i :| 0 <= i < |flat| && flat[i].order.price == best;
    assert i > 0 ==> Ahead(side, flat[0], flat[i]);
  }

  lemma KeysArePrices(levels: Levels, flat: seq<Rest>, repr: set<object>)
    requires SideRep(levels, flat, {}, repr)
    ensures levels.Keys == Prices(flat)
  {
    forall p ensures p in levels ==> p in Prices(flat) {
      QueueNonEmpty(flat, p);
    }
  }

  lemma BestIsFront(side: Side, flat: seq<Rest>) returns (p: Price)
    requires Sorted(side, flat) && Prices(flat) != {}
    ensures flat != [] && p == flat[0].order.price && p in Prices(flat)
    ensures forall q :: q in Prices(flat) ==> !Better(side, q, p)
  {
    p := flat[0].order.price;
    forall q | q in Prices(flat) ensures !Better(side, q, p) {
      var i :| 0 <= i < |flat| && flat[i].order.price == q;
      assert i > 0 ==> Ahead(side, flat[0], flat[i]);
    }
  }

  /** `rbegin()` of the bids, `begin()` of the asks. */
  method BestKey(levels: Levels, side: Side, ghost flat: seq<Rest>, ghost repr: set<object>) returns (best: Price)
    requires SideRep(levels, flat, {}, repr) && Sorted(side, flat)
    ensures best == BestPrice(flat)
  {
    KeysArePrices(levels, flat, repr);
    hide SideRep, Sorted;
    if levels == map[] {
      PricesEmpty(flat);
      return INVALID_PRICE;
    }
    ghost var p := BestIsFront(side, flat);
    best := PickBest(levels.Keys, side, p);
  }

  method PickBest(keys: set<Price>, side: Side, ghost p: Price) returns (best: Price)
    requires p in keys && forall q :: q in keys ==> !Better(side, q, p)
    ensures best == p
  {
    best :| best in keys && forall q :: q in keys ==> !Better(side, q, best);
    assert !Better(side, p, best) && !Better(side, best, p);
  }

  lemma PricesEmpty(flat: seq<Rest>)
    ensures Prices(flat) == {} <==> flat == []
  {
    if flat != [] {
      assert flat[0].order.price in Prices(flat);
    }
  }

  /** The front of a side is in the id map, unfilled. */
  lemma HeadIsFound(book: Book, side: Side)
    requires WellFormed(book) && book.On(side) != []
    ensures var r := book.On(side)[0];
      Find(book, r.order.id) == Some(r) && r.order.filledQty < r.order.quantity
  {
    var r := book.On(side)[0];
    assert GoodRest(side, r, book.clock);
    assert Position(book.On(side), r.order.id) == 0;
    assert Has(book.On(side), r.order.id);
    assert !(Has(book.bids, r.order.id) && Has(book.asks, r.order.id));
  }

  lemma FrontInOrders(orders: map<OrderId, Order>, book: Book, side: Side)
    requires WellFormed(book) && OrdersMatch(orders, book) && book.On(side) != []
    ensures var o := book.On(side)[0].order;
      o.id in orders && orders[o.id] == o && o.filledQty < o.quantity && o.side == side
  {
    HeadIsFound(book, side);
    assert GoodRest(side, book.On(side)[0], book.clock);
    hide WellFormed, Find;
  }

  lemma FrontHitKeeps(book: Book, side: Side, qty: Quantity, orders: map<OrderId, Order>, orders': map<OrderId, Order>)
    requires WellFormed(book) && OrdersMatch(orders, book) && book.On(side) != []
    requires var o := book.On(side)[0].order;
      && qty <= o.Remaining()
      && orders' == if o.Fill(qty).IsFilled() then orders[o.id := o.Fill(qty)] - {o.id} else orders[o.id := o.Fill(qty)]
    ensures var after := book.With(side, FrontHit(book.On(side), qty));
      WellFormed(after) && OrdersMatch(orders', after)
      && (after.On(side) != [] ==> !Better(side, after.On(side)[0].order.price, book.On(side)[0].order.price))
  {
    hide WellFormed, Order.Fill, Order.Remaining, Find;
    var flat, o := book.On(side), book.On(side)[0].order;
    HeadIsFound(book, side);
    FillAccounts(o, qty);
    if o.Fill(qty).IsFilled() {
      FrontGoneKeeps(book, side);
      assert FrontHit(flat, qty) == flat[1..];
    } else {
      FrontEditKeeps(book, side, o.Fill(qty));
      assert FrontHit(flat, qty) == flat[0 := flat[0].(order := o.Fill(qty))];
    }
    hide FrontHit;
  }

  lemma FrontGoneKeeps(book: Book, side: Side)
    requires WellFormed(book) && book.On(side) != []
    ensures var flat := book.On(side);
      var after := book.With(side, flat[1..]);
      && WellFormed(after)
      && (forall id :: Find(after, id) == if id == flat[0].order.id then None else Find(book, id))
      && (|flat| > 1 ==> !Better(side, flat[1].order.price, flat[0].order.price))
  {
    hide WellFormed, Cancel, Find, Better;
    var gone := book.On(side)[0].order.id;
    FrontIsCancelled(book, side);
    CancelKeepsBook(book, gone);
    forall id
      ensures Find(Cancel(book, gone), id) == if id == gone then None else Find(book, id)
    {
      FindAfterCancel(book, gone, id);
    }
  }

  lemma FrontIsCancelled(book: Book, side: Side)
    requires WellFormed(book) && book.On(side) != []
    ensures var flat := book.On(side);
      && book.With(side, flat[1..]) == Cancel(book, flat[0].order.id)
      && (|flat| > 1 ==> !Better(side, flat[1].order.price, flat[0].order.price))
  {
    hide UniqueIds, DisjointIds, Has, Find;
    var flat := book.On(side);
    HeadIsFound(book, side);
    assert GoodRest(side, flat[0], book.clock);
    assert |flat| > 1 ==> Ahead(side, flat[0], flat[1]);
    assert Position(flat, flat[0].order.id) == 0;
    assert flat[..0] + flat[1..] == flat[1..];
  }

  lemma FrontEditKeeps(book: Book, side: Side, order: Order)
    requires WellFormed(book) && book.On(side) != [] && Survives(book.On(side)[0].(order := order), book.On(side)[0])
    ensures var flat := book.On(side);
      var after := book.With(side, flat[0 := flat[0].(order := order)]);
      && WellFormed(after)
      && (forall id :: Find(after, id) == if id == order.id then Some(flat[0].(order := order)) else Find(book, id))
  {
    var flat := book.On(side);
    var head := flat[0].(order := order);
    var after := book.With(side, flat[0 := head]);
    HeadGood(side, flat, head, book.clock);
    forall id ensures Lookup(flat[0 := head], id) == if id == order.id then Some(head) else Lookup(flat, id) {
      LookupEdited(flat, 0, order, id);
    }
    assert Has(flat, order.id) by {
      assert Position(flat, order.id) == 0;
    }
    hide GoodSide, Has, Position;
  }
}
