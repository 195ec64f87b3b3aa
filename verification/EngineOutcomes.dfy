/** What the callbacks are told, field by field: who bought, who sold, at what price, and what a report says of its order
    (src/engine/order_book.cpp). */
module EngineOutcomes {
  import opened Core
  import opened BookModel
  import opened BookLaws
  import opened BookSafety
  import opened BookGuarantees
  import opened BookOutcomes
  import opened BookEvents
  import opened BookRuns
  import opened OrderBooks
  import opened EngineModel

  // ----- Trades -----

  /** A trade in which `taker`, on `side`, took `qty` from the resting order `maker` at the maker's price. */
  predicate TradeIs(tr: Trade, n: nat, symbol: Symbol, side: Side, taker: OrderId, maker: Order, qty: nat) {
    && tr.seqNum == n && tr.symbol == symbol && tr.price == maker.price && tr.quantity == qty && tr.aggressor == side
    && (side == Buy ==> tr.buyOrderId == taker && tr.sellOrderId == maker.id)
    && (side == Sell ==> tr.sellOrderId == taker && tr.buyOrderId == maker.id)
  }

  lemma ToldTrade(config: Config, symbol: Symbol, t: Tape, a: Added, side: Side, id: OrderId, k: nat, maker: Order)
    requires config.hearsTrades && k < |a.fills| && a.fills[k].makerId == maker.id && a.fills[k].price == maker.price
    ensures var after := Told(config, symbol, t, a, side, id);
      && |after.trades| == |t.trades| + |a.fills| && t.trades <= after.trades
      && TradeIs(after.trades[|t.trades| + k], t.next + k, symbol, side, id, maker, a.fills[k].qty)
  {
    hide ReportsOf;
  }

  lemma ToldCount(config: Config, symbol: Symbol, t: Tape, a: Added, side: Side, id: OrderId)
    requires config.hearsTrades
    ensures |Told(config, symbol, t, a, side, id).trades| == |t.trades| + |a.fills|
  {
    hide ReportsOf;
  }

  /** The k-th fill of an add takes its share from the k-th resting order of the opposite side. */
  lemma FillIsShare(s: Settings, book: Book, order: Order, k: nat)
    requires WellFormed(book) && Incoming(order) && k < |Add(s, book, order).fills|
    ensures var opp, fill := book.On(order.side.Opposite()), Add(s, book, order).fills[k];
      && k < |opp| && fill.makerId == opp[k].order.id && fill.price == opp[k].order.price
      && fill.qty == Share(order.quantity, opp, k)
  {
    hide Match, Inserted, Verdict, Add, GoodSide, Fillable, Share, Order.Remaining, Order.IsFilled;
    AddBothSides(s, book, order);
    GoodIsFillable(order.side.Opposite(), book.On(order.side.Opposite()), book.clock);
    hide WellFormed;
    StartAccounts(Priced(order));
    SweepFillIsShare(s.selfTradePrevention, Priced(order), book.On(order.side.Opposite()), k);
  }

  lemma SweepFillIsShare(stp: bool, taker: Order, opp: seq<Rest>, k: nat)
    requires taker.filledQty <= taker.quantity && Fillable(opp) && k < |Match(stp, taker, opp).fills|
    ensures var fill := Match(stp, taker, opp).fills[k];
      && k < |opp| && fill.makerId == opp[k].order.id && fill.price == opp[k].order.price
      && fill.qty == Share(taker.Remaining(), opp, k)
  {
    hide Match, Fillable, Share, Order.Remaining, Leftover, Reach;
    SweepInOrder(stp, taker, opp);
    FillsWithinReach(stp, taker, opp);
    SweepClosedForm(stp, taker, opp, k);
    assert Hits(Match(stp, taker, opp).fills[k], opp[k]);
  }

  /** The k-th trade an add emits is with the k-th order of the opposite side, at that order's price, for its share; the
      incoming order buys or sells according to its own side. */
  lemma AddNamesItsParties(config: Config, symbol: Symbol, t: Tape, order: Order, k: nat)
    requires WellFormed(t.book) && Incoming(order) && config.hearsTrades
    requires |t.trades| + k < |Play(config, symbol, t, AddCommand(order)).trades|
    ensures var opp := t.book.On(order.side.Opposite());
      && k < |opp|
      && TradeIs(Play(config, symbol, t, AddCommand(order)).trades[|t.trades| + k], t.next + k, symbol,
                 order.side, order.id, opp[k].order, Share(order.quantity, opp, k))
  {
    hide Add, WellFormed, Incoming, Told, TradeIs, Share, Config.Waiting;
    var a := Add(config.settings, t.book, order);
    ToldCount(config, symbol, t, a, order.side, order.id);
    FillIsShare(config.settings, t.book, order, k);
    ToldTrade(config, symbol, t, a, order.side, order.id, k, t.book.On(order.side.Opposite())[k].order);
  }

  /** Likewise for a reprice, which takes with the order's own side and id. */
  lemma RepriceNamesItsParties(config: Config, symbol: Symbol, t: Tape, id: OrderId, newPrice: Price, newQty: Quantity,
                               k: nat)
    requires WellFormed(t.book) && Replaceable(t.book, id, newPrice, newQty) && config.hearsTrades
    requires Find(t.book, id).Some? && Find(t.book, id).value.order.price != newPrice
    requires |t.trades| + k < |Play(config, symbol, t, ReplaceCommand(id, newPrice, newQty)).trades|
    ensures var side := Find(t.book, id).value.order.side;
      var opp := t.book.On(side.Opposite());
      && k < |opp|
      && TradeIs(Play(config, symbol, t, ReplaceCommand(id, newPrice, newQty)).trades[|t.trades| + k], t.next + k, symbol,
                 side, id, opp[k].order, Share(newQty, opp, k))
  {
    hide Add, Cancel, Replace, Find, WellFormed, Incoming, Told, TradeIs, Share, Config.Waiting, Has;
    var s, o := config.settings, Find(t.book, id).value.order;
    var a := Replace(s, t.book, id, newPrice, newQty);
    var renewed := Renewed(o, newPrice, newQty);
    RepriceIsCancelThenAdd(s, t.book, id, newPrice, newQty);
    CancelKeepsBook(t.book, id);
    GoneAfterCancel(t.book, id);
    TakerKeepsSide(s, Cancel(t.book, id), renewed);
    ToldCount(config, symbol, t, a, o.side, id);
    FillIsShare(s, Cancel(t.book, id), renewed, k);
    ToldTrade(config, symbol, t, a, o.side, id, k, t.book.On(o.side.Opposite())[k].order);
  }

  lemma TakerKeepsSide(s: Settings, book: Book, order: Order)
    requires WellFormed(book) && Incoming(order)
    ensures Add(s, book, order).taker.side == order.side && Add(s, book, order).taker.id == order.id
  {
    hide Add, Match, Verdict, WellFormed, Incoming;
    AddBothSides(s, book, order);
  }

  // ----- Where traders come from -----

  /** An order of this id rests on this side, or the command brings it in on this side. */
  ghost predicate CameBy(book: Book, c: Command, id: OrderId, side: Side) {
    Has(book.On(side), id) || (c.AddCommand? && c.order.id == id && c.order.side == side)
  }

  ghost predicate Came(book: Book, cs: seq<Command>, id: OrderId, side: Side) {
    || Has(book.On(side), id)
    || exists i :: 0 <= i < |cs| && cs[i].AddCommand? && cs[i].order.id == id && cs[i].order.side == side
  }

  lemma AddSides(s: Settings, book: Book, order: Order, id: OrderId, side: Side)
    requires WellFormed(book) && Incoming(order) && Has(Add(s, book, order).book.On(side), id)
    ensures Has(book.On(side), id) || (order.id == id && order.side == side)
  {
    hide Match, Inserted, Verdict, Add, GoodSide, Has;
    var opp := book.On(order.side.Opposite());
    AddBothSides(s, book, order);
    if side == order.side {
      InsertedHas(side, book.On(side), Rest(Add(s, book, order).taker, book.clock), id);
    } else if Verdict(s, book, Priced(order)) == NoReason {
      SweepKeepsSide(s.selfTradePrevention, Priced(order), opp, side, book.clock);
      NoBetterHas(side, Match(s.selfTradePrevention, Priced(order), opp).opp, opp, id);
    }
  }

  lemma CancelSides(book: Book, gone: OrderId, id: OrderId, side: Side)
    requires WellFormed(book) && Has(Cancel(book, gone).On(side), id)
    ensures Has(book.On(side), id)
  {
    hide Has, Removed, Sorted, GoodRest;
    RemovedHas(book.bids, gone, id);
    RemovedHas(book.asks, gone, id);
  }

  /** No step brings an order to a side that neither rested there nor was sent there. */
  lemma StepSides(s: Settings, book: Book, c: Command, id: OrderId, side: Side)
    requires WellFormed(book) && Proper(book, c) && Has(Step(s, book, c).On(side), id)
    ensures CameBy(book, c, id, side)
  {
    hide Add, Cancel, Has, Find, WellFormed, Incoming, Requantified;
    match c
    case AddCommand(order) => AddSides(s, book, order, id, side);
    case CancelCommand(gone) => CancelSides(book, gone, id, side);
    case ReplaceCommand(old', p, q) =>
      if Find(book, old').Some? {
        var o := Find(book, old').value.order;
        FindIsOnItsSide(book, old');
        if o.price == p {
          RequantifiedHas(book.On(o.side), old', q, id);
        } else {
          CancelKeepsBook(book, old');
          AddSides(s, Cancel(book, old'), Renewed(o, p, q), id, side);
          if Has(Cancel(book, old').On(side), id) {
            CancelSides(book, old', id, side);
          }
        }
      }
  }

  lemma RestsAt(flat: seq<Rest>, k: nat)
    requires k < |flat|
    ensures Has(flat, flat[k].order.id)
  {
    HasIff(flat, flat[k].order.id);
  }

  /** In every trade of one command the buyer came from the bids or as a buy order, the seller likewise. */
  lemma StepTraders(config: Config, symbol: Symbol, t: Tape, c: Command, i: nat)
    requires WellFormed(t.book) && Proper(t.book, c) && config.hearsTrades
    requires |t.trades| <= i < |Play(config, symbol, t, c).trades|
    ensures var tr := Play(config, symbol, t, c).trades[i];
      CameBy(t.book, c, tr.buyOrderId, Buy) && CameBy(t.book, c, tr.sellOrderId, Sell)
  {
    hide WellFormed, Incoming, Play, Has, Share, Find;
    var k := i - |t.trades|;
    match c
    case AddCommand(order) =>
      AddNamesItsParties(config, symbol, t, order, k);
      RestsAt(t.book.On(order.side.Opposite()), k);
    case CancelCommand(id) => CancelIsSilent(config, symbol, t, id);
    case ReplaceCommand(id, p, q) =>
      if Find(t.book, id).Some? && Find(t.book, id).value.order.price != p {
        RepriceNamesItsParties(config, symbol, t, id, p, q, k);
        FindIsOnItsSide(t.book, id);
        RestsAt(t.book.On(Find(t.book, id).value.order.side.Opposite()), k);
      } else {
        AmendIsSilent(config, symbol, t, id, p, q);
      }
  }

  lemma CancelIsSilent(config: Config, symbol: Symbol, t: Tape, id: OrderId)
    ensures Play(config, symbol, t, CancelCommand(id)).trades == t.trades
  {
    hide Cancel;
  }

  lemma AmendIsSilent(config: Config, symbol: Symbol, t: Tape, id: OrderId, p: Price, q: Quantity)
    requires !(Find(t.book, id).Some? && Find(t.book, id).value.order.price != p)
    ensures Play(config, symbol, t, ReplaceCommand(id, p, q)).trades == t.trades
  {
    hide Add, Cancel, Find;
  }

  /** Over any run: whoever is named as buyer of a trade rested as a bid or was sent as a buy order, and whoever is named
      as seller rested as an ask or was sent as a sell order. */
  lemma {:induction false} RunTraders(config: Config, symbol: Symbol, t: Tape, cs: seq<Command>, i: nat)
    requires WellFormed(t.book) && AllProper(config.settings, t.book, cs) && config.hearsTrades
    requires |t.trades| <= i < |PlayAll(config, symbol, t, cs).trades|
    ensures var tr := PlayAll(config, symbol, t, cs).trades[i];
      Came(t.book, cs, tr.buyOrderId, Buy) && Came(t.book, cs, tr.sellOrderId, Sell)
    decreases |cs|
  {
    hide WellFormed, Play, Proper, CameBy, Came, Step;
    if cs != [] {
      var next := Play(config, symbol, t, cs[0]);
      PlaySteps(config, symbol, t, cs[0]);
      StepKeepsBook(config.settings, t.book, cs[0]);
      PlayEmitsFills(config, symbol, t, cs[0]);
      TradesSumToLedger(config, symbol, next, cs[1..], Buy);
      if i < |next.trades| {
        StepTraders(config, symbol, t, cs[0], i);
        CameFirst(t.book, cs, next.trades[i].buyOrderId, Buy);
        CameFirst(t.book, cs, next.trades[i].sellOrderId, Sell);
      } else {
        RunTraders(config, symbol, next, cs[1..], i);
        var tr := PlayAll(config, symbol, t, cs).trades[i];
        CameLater(config.settings, t.book, cs, tr.buyOrderId, Buy);
        CameLater(config.settings, t.book, cs, tr.sellOrderId, Sell);
      }
    }
  }

  lemma CameFirst(book: Book, cs: seq<Command>, id: OrderId, side: Side)
    requires cs != []
    ensures CameBy(book, cs[0], id, side) ==> Came(book, cs, id, side)
  {
    hide Has;
  }

  lemma CameLater(s: Settings, book: Book, cs: seq<Command>, id: OrderId, side: Side)
    requires cs != [] && WellFormed(book) && Proper(book, cs[0]) && Came(Step(s, book, cs[0]), cs[1..], id, side)
    ensures Came(book, cs, id, side)
  {
    hide Has, Step, WellFormed, Proper;
    if Has(Step(s, book, cs[0]).On(side), id) {
      StepSides(s, book, cs[0], id, side);
    } else {
      var j :| 0 <= j < |cs[1..]| && cs[1..][j].AddCommand? && cs[1..][j].order.id == id && cs[1..][j].order.side == side;
      assert cs[j + 1] == cs[1..][j];
    }
  }

  // ----- Reports -----

  /** What a report of an accepted order says, `traded` being what its trades sum to. */
  predicate ReportIs(r: Report, n: nat, order: Order, traded: nat) {
    && r.execId == n && r.orderId == order.id && r.symbol == order.symbol && r.side == order.side
    && (order.kind != Market ==> r.price == order.price) && r.orderQty == order.quantity
    && r.filledQty == traded <= order.quantity && r.leavesQty == order.quantity - traded
    && r.status == (if traded == 0 then order.status else if traded == order.quantity then Filled else PartiallyFilled)
  }

  /** The reports of an add that succeeds, field by field. */
  lemma AddReportsItself(config: Config, symbol: Symbol, t: Tape, order: Order, i: nat)
    requires WellFormed(t.book) && Incoming(order) && Add(config.settings, t.book, order).result.success
    requires |t.reports| + i < |Play(config, symbol, t, AddCommand(order)).reports|
    ensures var a, after := Add(config.settings, t.book, order), Play(config, symbol, t, AddCommand(order));
      ReportIs(after.reports[|t.reports| + i], t.next + (|after.trades| - |t.trades|) + i, order, Traded(a.fills))
  {
    hide Add, WellFormed, Incoming, TradesOf, Config.Waiting, ReportIs;
    var a := Add(config.settings, t.book, order);
    NoticesTellAll(config.settings, t.book, order, i);
    var after := Play(config, symbol, t, AddCommand(order));
    assert after.reports[|t.reports| + i] == ReportOf(a.notices[i], t.next + (|after.trades| - |t.trades|) + i);
    ReportSays(a.notices[i], t.next + (|after.trades| - |t.trades|) + i, order, Traded(a.fills));
  }

  lemma ReportSays(n: Notice, execId: nat, order: Order, traded: nat)
    requires n.filled == traded <= order.quantity && n.order.id == order.id && n.order.symbol == order.symbol
    requires n.order.side == order.side && n.order.quantity == order.quantity
    requires order.kind != Market ==> n.order.price == order.price
    requires n.order.status ==
      if traded == 0 then order.status else if traded == order.quantity then Filled else PartiallyFilled
    ensures ReportIs(ReportOf(n, execId), execId, order, traded)
  {
  }

  lemma NoticesTellAll(s: Settings, book: Book, order: Order, i: nat)
    requires WellFormed(book) && Incoming(order) && Add(s, book, order).result.success
    ensures var a, traded := Add(s, book, order), Traded(Add(s, book, order).fills);
      i < |a.notices| ==>
        var n := a.notices[i];
        && n.filled == traded <= order.quantity && n.order.id == order.id && n.order.symbol == order.symbol
        && n.order.side == order.side && n.order.quantity == order.quantity
        && (order.kind != Market ==> n.order.price == order.price)
        && n.order.status ==
           (if traded == 0 then order.status else if traded == order.quantity then Filled else PartiallyFilled)
  {
    hide Match, Verdict, Notices, AfterMatch, GoodSide, Fillable, Order.Fill, Order.Remaining;
    var stp, taker, opp := s.selfTradePrevention, Priced(order), book.On(order.side.Opposite());
    GoodIsFillable(order.side.Opposite(), opp, book.clock);
    SweepConserves(stp, taker, opp);
    SweepTellsStatus(stp, taker, opp);
    NoticesTell(Match(stp, taker, opp).taker);
  }

  // ----- Counters -----

  /** What one direct call counts: every order received, the cancels that found their order, and for an order that
      traded and succeeded one match, one execution and the quantity of its trades. */
  lemma DirectCounts(config: Config, x: Snapshot, m: Message)
    requires m.Target() in x.tapes ==>
      WellFormed(x.tapes[m.Target()].book) && Proper(x.tapes[m.Target()].book, m.Command())
    ensures var st, after := x.stats, Direct(config, x, m).stats;
      var known := m.Target() in x.tapes;
      && after.messagesProcessed == st.messagesProcessed
      && after.ordersReceived == st.ordersReceived + (if m.NewOrderMessage? then 1 else 0)
      && after.ordersCancelled == st.ordersCancelled
           + (if m.CancelMessage? && known && IdRests(x.tapes[m.Target()].book, m.id) then 1 else 0)
      && (if m.NewOrderMessage? && known && Add(config.settings, x.tapes[m.Target()].book, m.order).result.success
          then
            var traded := Traded(Add(config.settings, x.tapes[m.Target()].book, m.order).fills);
            && after.totalVolume == st.totalVolume + traded
            && after.ordersMatched == st.ordersMatched + (if traded > 0 then 1 else 0)
            && after.tradesExecuted == st.tradesExecuted + (if traded > 0 then 1 else 0)
          else
            && after.totalVolume == st.totalVolume && after.ordersMatched == st.ordersMatched
            && after.tradesExecuted == st.tradesExecuted)
  {
    hide Add, Find, WellFormed, Incoming, Play, TradeCalls, ReportCalls, IdRests, Replaceable;
    if m.Target() in x.tapes {
      var book := x.tapes[m.Target()].book;
      match m
      case NewOrderMessage(order) => SuccessTellsFill(config.settings, book, order);
      case CancelMessage(symbol, id) => FindMeansRests(book, id);
      case ReplaceMessage(symbol, id, p, q) =>
    }
  }

  lemma FindMeansRests(book: Book, id: OrderId)
    requires WellFormed(book)
    ensures Find(book, id).Some? <==> IdRests(book, id)
  {
    hide Find, Has, WellFormed;
    FindIsOnItsSide(book, id);
    HasIff(book.bids, id);
    HasIff(book.asks, id);
  }

  lemma SuccessTellsFill(s: Settings, book: Book, order: Order)
    requires WellFormed(book) && Incoming(order)
    ensures var a := Add(s, book, order); a.result.success ==> a.result.filledQty == Traded(a.fills)
  {
    hide Add, WellFormed, Incoming;
    AddConserves(s, book, order, Buy);
  }
}
