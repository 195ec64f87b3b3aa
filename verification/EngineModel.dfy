/** The engine as a value: one independent book per symbol, messages applied one by one
    (src/engine/matching_engine.cpp). */
module EngineModel {
  import opened Core
  import opened BookModel
  import opened BookLaws
  import opened BookSafety
  import opened BookGuarantees
  import opened BookEvents
  import opened BookRuns
  import opened OrderBooks

  // ----- One book and what it has said -----

  /** A book with everything it has emitted, the next sequence number, and how many of the last trades still wait to
      be sent to the callback. */
  datatype Tape = Tape(book: Book, trades: seq<Trade>, reports: seq<Report>, next: nat, waiting: nat)

  const BLANK_TAPE := Tape(EMPTY_BOOK, [], [], 1, 0)

  /** What the trade callback has been called with. */
  function Delivered(t: Tape): seq<Trade> {
    if t.waiting <= |t.trades| then t.trades[..|t.trades| - t.waiting] else []
  }

  ghost function Told(config: Config, symbol: Symbol, t: Tape, a: Added, side: Side, id: OrderId): Tape {
    var trades := if config.hearsTrades then TradesOf(symbol, side, id, a.fills, t.next) else [];
    var reports := if config.hearsReports then ReportsOf(a.notices, t.next + |trades|) else [];
    Tape(a.book, t.trades + trades, t.reports + reports, t.next + |trades| + |reports|, t.waiting)
  }

  predicate Reprices(book: Book, id: OrderId, newPrice: Price) {
    Find(book, id).Some? && Find(book, id).value.order.price != newPrice
  }

  ghost function Play(config: Config, symbol: Symbol, t: Tape, c: Command): Tape {
    match c
    case AddCommand(order) =>
      var a := Add(config.settings, t.book, order);
      Told(config, symbol, t, a, order.side, order.id).(waiting := config.Waiting(t.waiting, a))
    case CancelCommand(id) => t.(book := Cancel(t.book, id))
    case ReplaceCommand(id, newPrice, newQty) =>
      var a := Replace(config.settings, t.book, id, newPrice, newQty);
      Told(config, symbol, t, a, a.taker.side, id)
        .(waiting := if Reprices(t.book, id, newPrice) then config.Waiting(t.waiting, a) else t.waiting)
  }

  ghost function PlayAll(config: Config, symbol: Symbol, t: Tape, cs: seq<Command>): Tape
    decreases |cs|
  {
    if cs == [] then t else PlayAll(config, symbol, Play(config, symbol, t, cs[0]), cs[1..])
  }

  /** The books a run goes through are those of the order book's own runs. */
  lemma {:induction false} PlayIsRun(config: Config, symbol: Symbol, t: Tape, cs: seq<Command>)
    ensures PlayAll(config, symbol, t, cs).book == Run(config.settings, t.book, cs)
    decreases |cs|
  {
    hide Add, Cancel, Replace;
    if cs != [] {
      PlayIsRun(config, symbol, Play(config, symbol, t, cs[0]), cs[1..]);
    }
  }

  // ----- Numbers -----

  /** One counter numbers trades and reports: each kind increases, no number is used twice, and all of them lie
      below the next one. */
  ghost predicate Numbered(t: Tape) {
    && (forall i :: 0 <= i < |t.trades| ==> t.trades[i].seqNum < t.next)
    && (forall i :: 0 <= i < |t.reports| ==> t.reports[i].execId < t.next)
    && (forall i, j :: 0 <= i < j < |t.trades| ==> t.trades[i].seqNum < t.trades[j].seqNum)
    && (forall i, j :: 0 <= i < j < |t.reports| ==> t.reports[i].execId < t.reports[j].execId)
    && (forall i, j :: 0 <= i < |t.trades| && 0 <= j < |t.reports| ==> t.trades[i].seqNum != t.reports[j].execId)
  }

  lemma ToldKeepsNumbers(config: Config, symbol: Symbol, t: Tape, a: Added, side: Side, id: OrderId)
    requires Numbered(t)
    ensures Numbered(Told(config, symbol, t, a, side, id))
  {
    var after := Told(config, symbol, t, a, side, id);
    assert forall i :: |t.trades| <= i < |after.trades| ==> after.trades[i].seqNum == t.next + (i - |t.trades|);
    assert forall i :: |t.reports| <= i < |after.reports| ==>
      after.reports[i].execId == t.next + (|after.trades| - |t.trades|) + (i - |t.reports|);
  }

  lemma PlayKeepsNumbers(config: Config, symbol: Symbol, t: Tape, c: Command)
    requires Numbered(t)
    ensures Numbered(Play(config, symbol, t, c))
  {
    hide Add, Cancel, Replace, Told;
    match c
    case AddCommand(order) =>
      ToldKeepsNumbers(config, symbol, t, Add(config.settings, t.book, order), order.side, order.id);
    case CancelCommand(id) =>
    case ReplaceCommand(id, p, q) =>
      var a := Replace(config.settings, t.book, id, p, q);
      ToldKeepsNumbers(config, symbol, t, a, a.taker.side, id);
  }

  /** Over any run, across all its calls, trade numbers and execution ids strictly increase and are all different. */
  lemma {:induction false} RunKeepsNumbers(config: Config, symbol: Symbol, t: Tape, cs: seq<Command>)
    requires Numbered(t)
    ensures Numbered(PlayAll(config, symbol, t, cs))
    decreases |cs|
  {
    hide Numbered, Play;
    if cs != [] {
      PlayKeepsNumbers(config, symbol, t, cs[0]);
      RunKeepsNumbers(config, symbol, Play(config, symbol, t, cs[0]), cs[1..]);
    }
  }

  // ----- Trades and the ledger -----

  function Volume(trades: seq<Trade>): nat {
    if trades == [] then 0 else trades[0].quantity + Volume(trades[1..])
  }

  lemma {:induction false} VolumeConcat(a: seq<Trade>, b: seq<Trade>)
    ensures Volume(a + b) == Volume(a) + Volume(b)
  {
    if a == [] {
      assert a + b == b;
    } else {
      VolumeConcat(a[1..], b);
      assert (a + b)[1..] == a[1..] + b;
    }
  }

  lemma {:induction false} VolumeIsTraded(symbol: Symbol, side: Side, id: OrderId, fills: seq<Fill>, first: nat)
    ensures Volume(TradesOf(symbol, side, id, fills, first)) == Traded(fills)
    decreases |fills|
  {
    if fills != [] {
      VolumeIsTraded(symbol, side, id, fills[1..], first + 1);
      assert TradesOf(symbol, side, id, fills, first)[1..] == TradesOf(symbol, side, id, fills[1..], first + 1);
    }
  }

  /** The fills of one command, and who took them. */
  ghost function FillsOf(s: Settings, book: Book, c: Command): seq<Fill> {
    match c
    case AddCommand(order) => Add(s, book, order).fills
    case CancelCommand(id) => []
    case ReplaceCommand(id, newPrice, newQty) => Replace(s, book, id, newPrice, newQty).fills
  }

  lemma LedgerTakesFills(s: Settings, book: Book, c: Command, side: Side)
    ensures Flow(s, book, c, side).traded == Traded(FillsOf(s, book, c))
  {
    hide Match, Verdict, AfterMatch, Notices, Find, Cancel;
  }

  lemma PlayEmitsFills(config: Config, symbol: Symbol, t: Tape, c: Command)
    requires config.hearsTrades
    ensures t.trades <= Play(config, symbol, t, c).trades
    ensures Volume(Play(config, symbol, t, c).trades) == Volume(t.trades) + Traded(FillsOf(config.settings, t.book, c))
  {
    hide Add, Cancel, Replace, TradesOf, Volume;
    var fills := FillsOf(config.settings, t.book, c);
    match c
    case AddCommand(order) =>
      VolumeIsTraded(symbol, order.side, order.id, fills, t.next);
      VolumeConcat(t.trades, TradesOf(symbol, order.side, order.id, fills, t.next));
    case CancelCommand(id) =>
    case ReplaceCommand(id, p, q) =>
      var side := Replace(config.settings, t.book, id, p, q).taker.side;
      VolumeIsTraded(symbol, side, id, fills, t.next);
      VolumeConcat(t.trades, TradesOf(symbol, side, id, fills, t.next));
  }

  /** Bought is sold: over any run the quantities of the trades emitted sum to what either side's ledger has traded. */
  lemma {:induction false} TradesSumToLedger(config: Config, symbol: Symbol, t: Tape, cs: seq<Command>, side: Side)
    requires config.hearsTrades
    ensures t.trades <= PlayAll(config, symbol, t, cs).trades
    ensures Volume(PlayAll(config, symbol, t, cs).trades[|t.trades|..])
         == RunFlow(config.settings, t.book, cs, side).traded
    decreases |cs|
  {
    hide Play, Flow, FillsOf;
    if cs == [] {
      assert t.trades[|t.trades|..] == [];
    } else {
      var next, end := Play(config, symbol, t, cs[0]), PlayAll(config, symbol, t, cs);
      PlaySteps(config, symbol, t, cs[0]);
      PlayEmitsFills(config, symbol, t, cs[0]);
      LedgerTakesFills(config.settings, t.book, cs[0], side);
      TradesSumToLedger(config, symbol, next, cs[1..], side);
      VolumeOfRest(t.trades, next.trades);
      VolumeOfRest(next.trades, end.trades);
      VolumeOfRest(t.trades, end.trades);
    }
  }

  lemma VolumeOfRest(a: seq<Trade>, b: seq<Trade>)
    requires a <= b
    ensures Volume(b[|a|..]) == Volume(b) - Volume(a)
  {
    VolumeConcat(a, b[|a|..]);
    assert a + b[|a|..] == b;
  }

  lemma PlaySteps(config: Config, symbol: Symbol, t: Tape, c: Command)
    ensures Play(config, symbol, t, c).book == Step(config.settings, t.book, c)
  {
    hide Add, Cancel, Replace;
  }

  // ----- Delivery -----

  /** No trade is both waiting and never emitted. */
  predicate Sound(t: Tape) {
    t.waiting <= |t.trades|
  }

  /** The trade callback calls one command makes. */
  function TradeCalls(before: Tape, after: Tape): seq<Trade> {
    if |Delivered(before)| <= |Delivered(after)| then Delivered(after)[|Delivered(before)|..] else []
  }

  function ReportCalls(before: Tape, after: Tape): seq<Report> {
    if |before.reports| <= |after.reports| then after.reports[|before.reports|..] else []
  }

  /** A command only adds to what was delivered, in the order of emission. */
  lemma PlayDelivers(config: Config, symbol: Symbol, t: Tape, c: Command)
    requires Sound(t)
    ensures var after := Play(config, symbol, t, c);
      && Sound(after) && Delivered(after) == Delivered(t) + TradeCalls(t, after)
      && after.reports == t.reports + ReportCalls(t, after)
      && t.trades <= after.trades
      && (forall i :: |t.trades| <= i < |after.trades| ==> after.trades[i].symbol == symbol)
  {
    hide Add, Cancel, Replace, ReportsOf, Config.Backlog;
    var after := Play(config, symbol, t, c);
    config.BacklogBound(t.waiting, |FillsOf(config.settings, t.book, c)|);
    if !config.Batches() {
      config.BacklogIdle(t.waiting, |FillsOf(config.settings, t.book, c)|);
    }
    assert t.trades <= after.trades;
  }

  /** From nothing waiting, an add leaves trades waiting exactly when it is a fill-or-kill that passes the checks and
      will miss, and the trades it makes before that, one for each order within reach, do not fill whole batches. */
  lemma AddLeavesWaitingIff(config: Config, symbol: Symbol, t: Tape, order: Order)
    requires WellFormed(t.book) && Incoming(order) && t.waiting == 0
    ensures var s, book := config.settings, t.book;
      var trades := Reach(s.selfTradePrevention, Priced(order), book.On(order.side.Opposite()));
      Play(config, symbol, t, AddCommand(order)).waiting > 0 <==>
        && Verdict(s, book, Priced(order)) == NoReason && WillMiss(s, book, order)
        && config.Batches() && trades % config.BatchSize() != 0
  {
    hide Add, Verdict, WellFormed, Incoming, Reach, There, Told, Config.Backlog, Config.BatchSize;
    var s, book := config.settings, t.book;
    var n := |Add(s, book, order).fills|;
    config.BacklogNone(0);
    if Verdict(s, book, Priced(order)) == NoReason {
      CheckedOutcome(s, book, order);
    } else {
      RefusedUnchanged(s, book, order);
    }
    if config.Batches() {
      config.BacklogIsRemainder(n);
    } else {
      config.BacklogIdle(0, n);
    }
  }

  /** No self-trade prevention, no order at price zero, and nothing waiting for a flush. */
  ghost predicate Smooth(config: Config, t: Tape, cs: seq<Command>) {
    && !config.settings.selfTradePrevention && Tidy(t.book) && t.waiting == 0
    && AllProper(config.settings, t.book, cs)
    && forall i :: 0 <= i < |cs| ==> AvoidsZero(cs[i])
  }

  /** On a smooth run nothing waits after any command: what was emitted was delivered. */
  lemma {:induction false} SmoothRunsDeliver(config: Config, symbol: Symbol, t: Tape, cs: seq<Command>)
    requires Smooth(config, t, cs)
    ensures PlayAll(config, symbol, t, cs).waiting == 0
    decreases |cs|
  {
    hide Play, Tidy, Proper, AvoidsZero;
    if cs != [] {
      StepStaysSmooth(config, symbol, t, cs[0]);
      SmoothRunsDeliver(config, symbol, Play(config, symbol, t, cs[0]), cs[1..]);
    }
  }

  lemma StepStaysSmooth(config: Config, symbol: Symbol, t: Tape, c: Command)
    requires !config.settings.selfTradePrevention && Tidy(t.book) && t.waiting == 0
    requires Proper(t.book, c) && AvoidsZero(c)
    ensures var after := Play(config, symbol, t, c);
      Tidy(after.book) && after.waiting == 0 && after.book == Step(config.settings, t.book, c)
  {
    hide Play, Tidy, Proper, AvoidsZero;
    PlaySteps(config, symbol, t, c);
    StepNeverCrosses(config.settings, t.book, c);
    NothingWaits(config, symbol, t, c);
  }

  lemma NothingWaits(config: Config, symbol: Symbol, t: Tape, c: Command)
    requires !config.settings.selfTradePrevention && Tidy(t.book) && t.waiting == 0
    requires Proper(t.book, c)
    ensures Play(config, symbol, t, c).waiting == 0
  {
    hide Add, Cancel, Find, WellFormed, Incoming, Verdict, NoZeroPrice, Uncrossed, Config.Backlog;
    var s, book := config.settings, t.book;
    config.BacklogNone(0);
    match c
    case AddCommand(order) =>
      CheckedOrdersSucceed(s, book, order);
      RefusedUnchanged(s, book, order);
    case CancelCommand(id) =>
    case ReplaceCommand(id, p, q) =>
      var found := Find(book, id);
      if found.Some? && found.value.order.price != p {
        CancelKeepsBook(book, id);
        CancelNeverCrosses(book, id);
        CheckedOrdersSucceed(s, Cancel(book, id), Renewed(found.value.order, p, q));
        RefusedUnchanged(s, Cancel(book, id), Renewed(found.value.order, p, q));
      }
  }

  /** On a smooth run the callback gets the same calls in the same order whether trades are batched or not, whatever
      the batch size, and so after every single command. */
  lemma {:induction false} BatchingIsInvisible(c1: Config, c2: Config, symbol: Symbol, t: Tape, cs: seq<Command>)
    requires c1.settings == c2.settings && c1.hearsTrades == c2.hearsTrades && c1.hearsReports == c2.hearsReports
    requires Smooth(c1, t, cs)
    ensures PlayAll(c1, symbol, t, cs) == PlayAll(c2, symbol, t, cs)
    ensures Delivered(PlayAll(c1, symbol, t, cs)) == Delivered(PlayAll(c2, symbol, t, cs))
    decreases |cs|
  {
    hide Play, Tidy, Proper, AvoidsZero, Delivered;
    if cs != [] {
      StepStaysSmooth(c1, symbol, t, cs[0]);
      StepStaysSmooth(c2, symbol, t, cs[0]);
      SameButForBatching(c1, c2, symbol, t, cs[0]);
      BatchingIsInvisible(c1, c2, symbol, Play(c1, symbol, t, cs[0]), cs[1..]);
    }
  }

  lemma SameButForBatching(c1: Config, c2: Config, symbol: Symbol, t: Tape, c: Command)
    requires c1.settings == c2.settings && c1.hearsTrades == c2.hearsTrades && c1.hearsReports == c2.hearsReports
    ensures Play(c1, symbol, t, c).(waiting := 0) == Play(c2, symbol, t, c).(waiting := 0)
  {
    hide Add, Cancel, Replace;
  }

  // ----- Messages -----

  datatype Message =
    | NewOrderMessage(order: Order)
    | CancelMessage(symbol: Symbol, id: OrderId)
    | ReplaceMessage(symbol: Symbol, id: OrderId, newPrice: Price, newQty: Quantity)
  {
    function Target(): Symbol {
      match this
      case NewOrderMessage(order) => order.symbol
      case CancelMessage(symbol, id) => symbol
      case ReplaceMessage(symbol, id, newPrice, newQty) => symbol
    }

    function Command(): Command {
      match this
      case NewOrderMessage(order) => AddCommand(order)
      case CancelMessage(symbol, id) => CancelCommand(id)
      case ReplaceMessage(symbol, id, newPrice, newQty) => ReplaceCommand(id, newPrice, newQty)
    }
  }

  type Tapes = map<Symbol, Tape>

  /** Messages for unknown symbols change no book. */
  ghost function Deliver(config: Config, tapes: Tapes, m: Message): Tapes {
    var s := m.Target();
    if s in tapes then tapes[s := Play(config, s, tapes[s], m.Command())] else tapes
  }

  ghost function DeliverAll(config: Config, tapes: Tapes, ms: seq<Message>): Tapes
    decreases |ms|
  {
    if ms == [] then tapes else DeliverAll(config, Deliver(config, tapes, ms[0]), ms[1..])
  }

  /** The commands among `ms` that are for one symbol, in order. */
  function Only(ms: seq<Message>, symbol: Symbol): seq<Command> {
    if ms == [] then []
    else if ms[0].Target() == symbol then [ms[0].Command()] + Only(ms[1..], symbol)
    else Only(ms[1..], symbol)
  }

  /** The callers' side of the bargain, message by message. */
  ghost predicate Acceptable(tapes: Tapes, m: Message) {
    m.Target() in tapes ==> Proper(tapes[m.Target()].book, m.Command())
  }

  ghost predicate AllAcceptable(config: Config, tapes: Tapes, ms: seq<Message>)
    decreases |ms|
  {
    ms == [] || (Acceptable(tapes, ms[0]) && AllAcceptable(config, Deliver(config, tapes, ms[0]), ms[1..]))
  }

  // ----- Symbols do not interfere -----

  /** Each symbol's book, trades and reports are those of a lone book given only that symbol's commands. */
  lemma {:induction false} SymbolsDoNotInterfere(config: Config, tapes: Tapes, ms: seq<Message>, symbol: Symbol)
    requires symbol in tapes
    ensures symbol in DeliverAll(config, tapes, ms)
    ensures DeliverAll(config, tapes, ms)[symbol] == PlayAll(config, symbol, tapes[symbol], Only(ms, symbol))
    decreases |ms|
  {
    hide Play;
    if ms != [] {
      SymbolsDoNotInterfere(config, Deliver(config, tapes, ms[0]), ms[1..], symbol);
      if ms[0].Target() == symbol {
        var cs := Only(ms, symbol);
        assert cs[0] == ms[0].Command() && cs[1..] == Only(ms[1..], symbol);
      }
    }
  }

  lemma {:induction false} SymbolsStay(config: Config, tapes: Tapes, ms: seq<Message>)
    ensures DeliverAll(config, tapes, ms).Keys == tapes.Keys
    decreases |ms|
  {
    hide Play;
    if ms != [] {
      SymbolsStay(config, Deliver(config, tapes, ms[0]), ms[1..]);
    }
  }

  /** What the callers owe the engine is what they owe each book. */
  lemma {:induction false} AcceptableForEach(config: Config, tapes: Tapes, ms: seq<Message>, symbol: Symbol)
    requires symbol in tapes && AllAcceptable(config, tapes, ms)
    ensures AllProper(config.settings, tapes[symbol].book, Only(ms, symbol))
    decreases |ms|
  {
    hide Add, Cancel, Replace, Proper;
    if ms != [] {
      AcceptableForEach(config, Deliver(config, tapes, ms[0]), ms[1..], symbol);
      if ms[0].Target() == symbol {
        var cs := Only(ms, symbol);
        assert cs[0] == ms[0].Command() && cs[1..] == Only(ms[1..], symbol);
      }
    }
  }

  ghost predicate AllBlank(tapes: Tapes) {
    forall s :: s in tapes ==> tapes[s] == BLANK_TAPE
  }

  lemma {:induction false} OnlyAvoidsZero(ms: seq<Message>, symbol: Symbol)
    requires forall i :: 0 <= i < |ms| ==> AvoidsZero(ms[i].Command())
    ensures forall i :: 0 <= i < |Only(ms, symbol)| ==> AvoidsZero(Only(ms, symbol)[i])
  {
    hide AvoidsZero;
    if ms != [] {
      OnlyAvoidsZero(ms[1..], symbol);
    }
  }

  /** No stream of messages, for any mix of symbols, crosses or locks any book. */
  lemma NoBookIsCrossed(config: Config, tapes: Tapes, ms: seq<Message>, symbol: Symbol)
    requires AllBlank(tapes) && symbol in tapes && AllAcceptable(config, tapes, ms)
    requires !config.settings.selfTradePrevention
    requires forall i :: 0 <= i < |ms| ==> AvoidsZero(ms[i].Command())
    ensures symbol in DeliverAll(config, tapes, ms) && Tidy(DeliverAll(config, tapes, ms)[symbol].book)
  {
    hide AvoidsZero, Run, Tidy, DeliverAll, AllAcceptable, AllProper;
    SymbolsDoNotInterfere(config, tapes, ms, symbol);
    AcceptableForEach(config, tapes, ms, symbol);
    PlayIsRun(config, symbol, BLANK_TAPE, Only(ms, symbol));
    OnlyAvoidsZero(ms, symbol);
    ReachableBooksAreTidy(config.settings, Only(ms, symbol));
  }

  // ----- Statistics -----

  datatype Stats = Stats(
    ordersReceived: nat, ordersMatched: nat, ordersCancelled: nat,
    tradesExecuted: nat, totalVolume: nat, messagesProcessed: nat)

  /** The books with what each has said, the counters, and every call of the two callbacks all books share, in order. */
  datatype Snapshot = Snapshot(tapes: Tapes, stats: Stats, tradeCalls: seq<Trade>, reportCalls: seq<Report>)

  /** Counts kept by the direct calls; fills made by a replacement are not counted. */
  ghost function Counted(config: Config, x: Snapshot, m: Message): Stats {
    match m
    case NewOrderMessage(order) =>
      var st := x.stats.(ordersReceived := x.stats.ordersReceived + 1);
      if order.symbol !in x.tapes then st
      else
        var r := Add(config.settings, x.tapes[order.symbol].book, order).result;
        if r.success && r.filledQty > 0 then
          st.(ordersMatched := st.ordersMatched + 1, tradesExecuted := st.tradesExecuted + 1,
          totalVolume := st.totalVolume + r.filledQty)
        else st
    case CancelMessage(symbol, id) =>
      if symbol in x.tapes && Find(x.tapes[symbol].book, id).Some? then
        x.stats.(ordersCancelled := x.stats.ordersCancelled + 1)
      else x.stats
    case ReplaceMessage(symbol, id, newPrice, newQty) => x.stats
  }

  /** A direct call. */
  ghost function Direct(config: Config, x: Snapshot, m: Message): Snapshot {
    var symbol, after := m.Target(), Deliver(config, x.tapes, m);
    if symbol !in x.tapes then x.(stats := Counted(config, x, m))
    else
      Snapshot(after, Counted(config, x, m),
               x.tradeCalls + TradeCalls(x.tapes[symbol], after[symbol]),
               x.reportCalls + ReportCalls(x.tapes[symbol], after[symbol]))
  }

  /** Direct calls in order. */
  ghost function DirectAll(config: Config, x: Snapshot, ms: seq<Message>): Snapshot
    decreases |ms|
  {
    if ms == [] then x else DirectAll(config, Direct(config, x, ms[0]), ms[1..])
  }

  /** The queue adds its own count, and nothing else. */
  function Processed(x: Snapshot, n: nat): Snapshot {
    x.(stats := x.stats.(messagesProcessed := x.stats.messagesProcessed + n))
  }

  lemma {:induction false} ProcessedCommutes(config: Config, x: Snapshot, n: nat, ms: seq<Message>)
    ensures DirectAll(config, Processed(x, n), ms) == Processed(DirectAll(config, x, ms), n)
    decreases |ms|
  {
    hide Deliver, Add, Find;
    if ms != [] {
      assert Direct(config, Processed(x, n), ms[0]) == Processed(Direct(config, x, ms[0]), n);
      ProcessedCommutes(config, Direct(config, x, ms[0]), n, ms[1..]);
    }
  }

  lemma {:induction false} DirectDelivers(config: Config, x: Snapshot, ms: seq<Message>)
    ensures DirectAll(config, x, ms).tapes == DeliverAll(config, x.tapes, ms)
    decreases |ms|
  {
    hide Play, Counted, TradeCalls, ReportCalls;
    if ms != [] {
      DirectDelivers(config, Direct(config, x, ms[0]), ms[1..]);
    }
  }

  /** Direct calls in any order of symbols leave each book as if it had been alone with its own commands. */
  lemma EachBookIsAlone(config: Config, x: Snapshot, ms: seq<Message>, n: nat)
    ensures var after := Processed(DirectAll(config, x, ms), n).tapes;
      && after.Keys == x.tapes.Keys
      && forall s :: s in x.tapes ==> after[s] == PlayAll(config, s, x.tapes[s], Only(ms, s))
  {
    hide DeliverAll, PlayAll, Only, DirectAll;
    DirectDelivers(config, x, ms);
    SymbolsStay(config, x.tapes, ms);
    forall s | s in x.tapes
      ensures DeliverAll(config, x.tapes, ms)[s] == PlayAll(config, s, x.tapes[s], Only(ms, s))
    {
      SymbolsDoNotInterfere(config, x.tapes, ms, s);
    }
  }

  // ----- The shared callbacks -----

  function TradeSymbol(t: Trade): Symbol {
    t.symbol
  }

  function ReportSymbol(r: Report): Symbol {
    r.symbol
  }

  /** The calls that are about one symbol. */
  function CallsFor<T>(calls: seq<T>, about: T -> Symbol, s: Symbol): seq<T> {
    if calls == [] then []
    else if about(calls[0]) == s then [calls[0]] + CallsFor(calls[1..], about, s)
    else CallsFor(calls[1..], about, s)
  }

  predicate AllOf<T>(calls: seq<T>, about: T -> Symbol, s: Symbol) {
    forall i :: 0 <= i < |calls| ==> about(calls[i]) == s
  }

  lemma {:induction false} CallsForConcat<T>(a: seq<T>, b: seq<T>, about: T -> Symbol, s: Symbol)
    ensures CallsFor(a + b, about, s) == CallsFor(a, about, s) + CallsFor(b, about, s)
  {
    if a == [] {
      assert a + b == b;
    } else {
      CallsForConcat(a[1..], b, about, s);
      assert (a + b)[1..] == a[1..] + b && (a + b)[0] == a[0];
      hide CallsFor;
      assert [a[0]] + (CallsFor(a[1..], about, s) + CallsFor(b, about, s))
          == ([a[0]] + CallsFor(a[1..], about, s)) + CallsFor(b, about, s);
    }
  }

  lemma {:induction false} CallsOfOne<T>(calls: seq<T>, about: T -> Symbol, s: Symbol, t: Symbol)
    requires AllOf(calls, about, s)
    ensures CallsFor(calls, about, t) == if s == t then calls else []
  {
    if calls != [] {
      CallsOfOne(calls[1..], about, s, t);
    }
  }

  lemma MoreCalls<T>(calls: seq<T>, more: seq<T>, about: T -> Symbol, s: Symbol, t: Symbol)
    requires AllOf(more, about, s)
    ensures CallsFor(calls + more, about, t) == CallsFor(calls, about, t) + if s == t then more else []
  {
    CallsForConcat(calls, more, about, t);
    CallsOfOne(more, about, s, t);
  }

  /** Every book holds orders and says things of its own symbol only, and the shared callbacks have had exactly what
      it delivered. */
  ghost predicate SharedBy(x: Snapshot, s: Symbol)
    requires s in x.tapes
  {
    var t := x.tapes[s];
    && Sound(t) && BookMayRest(t.book, Some(s)) && AllOf(t.trades, TradeSymbol, s)
    && CallsFor(x.tradeCalls, TradeSymbol, s) == Delivered(t)
    && CallsFor(x.reportCalls, ReportSymbol, s) == t.reports
  }

  ghost predicate Shared(x: Snapshot) {
    forall s :: s in x.tapes ==> SharedBy(x, s)
  }

  lemma DirectStaysShared(config: Config, x: Snapshot, m: Message)
    requires Shared(x)
    ensures Shared(Direct(config, x, m))
  {
    hide Play, Counted, CallsFor, AllOf, Delivered, TradeCalls, ReportCalls, BookMayRest, Sound;
    var symbol := m.Target();
    if symbol in x.tapes {
      assert SharedBy(x, symbol);
      var before, after := x.tapes[symbol], Play(config, symbol, x.tapes[symbol], m.Command());
      PlayDelivers(config, symbol, before, m.Command());
      PlayIsOfSymbol(config, symbol, before, m.Command());
      forall s | s in x.tapes
        ensures SharedBy(Direct(config, x, m), s)
      {
        assert SharedBy(x, s);
        MoreCalls(x.tradeCalls, TradeCalls(before, after), TradeSymbol, symbol, s);
        MoreCalls(x.reportCalls, ReportCalls(before, after), ReportSymbol, symbol, s);
      }
    } else {
      forall s | s in x.tapes
        ensures SharedBy(Direct(config, x, m), s)
      {
        assert SharedBy(x, s);
      }
    }
  }

  /** Trades carry the book's symbol, reports that of the order they are about. */
  lemma PlayIsOfSymbol(config: Config, symbol: Symbol, t: Tape, c: Command)
    requires Sound(t) && BookMayRest(t.book, Some(symbol)) && AllOf(t.trades, TradeSymbol, symbol)
    requires c.AddCommand? ==> c.order.symbol == symbol
    ensures var after := Play(config, symbol, t, c);
      && BookMayRest(after.book, Some(symbol)) && AllOf(after.trades, TradeSymbol, symbol)
      && AllOf(TradeCalls(t, after), TradeSymbol, symbol)
      && AllOf(ReportCalls(t, after), ReportSymbol, symbol)
  {
    hide Play, BookMayRest, Sound, TradeCalls, ReportCalls, AllOf;
    PlayDelivers(config, symbol, t, c);
    CallsAreEmitted(t, Play(config, symbol, t, c), symbol);
    ReportsAreOwn(config, symbol, t, c);
  }

  lemma CallsAreEmitted(before: Tape, after: Tape, symbol: Symbol)
    requires Sound(after) && before.trades <= after.trades && AllOf(before.trades, TradeSymbol, symbol)
    requires forall i :: |before.trades| <= i < |after.trades| ==> after.trades[i].symbol == symbol
    ensures AllOf(after.trades, TradeSymbol, symbol) && AllOf(TradeCalls(before, after), TradeSymbol, symbol)
  {
  }

  lemma ReportsAreOwn(config: Config, symbol: Symbol, t: Tape, c: Command)
    requires BookMayRest(t.book, Some(symbol)) && (c.AddCommand? ==> c.order.symbol == symbol)
    ensures var after := Play(config, symbol, t, c);
      BookMayRest(after.book, Some(symbol)) && AllOf(ReportCalls(t, after), ReportSymbol, symbol)
  {
    hide Add, Cancel, Replace, BookMayRest, Told, Config.Waiting, AllOf;
    match c
    case AddCommand(order) =>
      AddKeepsKinds(config.settings, t.book, order, Some(symbol));
      ToldReports(config, symbol, t, Add(config.settings, t.book, order), order.side, order.id);
    case CancelCommand(id) =>
      CancelKeepsKinds(t.book, id, Some(symbol));
      assert t.reports[|t.reports|..] == [];
      NothingOf(symbol);
    case ReplaceCommand(id, p, q) =>
      ReplaceKeepsKinds(config.settings, t.book, id, p, q, Some(symbol));
      var a := Replace(config.settings, t.book, id, p, q);
      ToldReports(config, symbol, t, a, a.taker.side, id);
  }

  lemma NothingOf(symbol: Symbol)
    ensures AllOf([], ReportSymbol, symbol)
  {
  }

  lemma ToldReports(config: Config, symbol: Symbol, t: Tape, a: Added, side: Side, id: OrderId)
    requires forall i :: 0 <= i < |a.notices| ==> IsOf(a.notices[i].order, Some(symbol))
    ensures var after := Told(config, symbol, t, a, side, id);
      after.book == a.book && t.reports <= after.reports && AllOf(after.reports[|t.reports|..], ReportSymbol, symbol)
  {
    hide TradesOf, ReportsOf, AllOf, IsOf;
    var trades := if config.hearsTrades then TradesOf(symbol, side, id, a.fills, t.next) else [];
    var reports := if config.hearsReports then ReportsOf(a.notices, t.next + |trades|) else [];
    assert (t.reports + reports)[|t.reports|..] == reports;
    NothingOf(symbol);
    ReportsAreOf(a.notices, t.next + |trades|, symbol);
  }

  lemma ReportsAreOf(ns: seq<Notice>, first: nat, symbol: Symbol)
    requires forall i :: 0 <= i < |ns| ==> IsOf(ns[i].order, Some(symbol))
    ensures AllOf(ReportsOf(ns, first), ReportSymbol, symbol)
  {
    forall i | 0 <= i < |ns|
      ensures ReportsOf(ns, first)[i].symbol == symbol
    {
      assert IsOf(ns[i].order, Some(symbol));
    }
  }

  lemma {:induction false} RunStaysShared(config: Config, x: Snapshot, ms: seq<Message>)
    requires Shared(x)
    ensures Shared(DirectAll(config, x, ms))
    decreases |ms|
  {
    hide Shared, Direct;
    if ms != [] {
      DirectStaysShared(config, x, ms[0]);
      RunStaysShared(config, Direct(config, x, ms[0]), ms[1..]);
    }
  }

  /** After any messages to blank books the calls of each shared callback, taken symbol by symbol, are what each book
      delivered and reported: calls of different books interleave as their messages do, and none is lost, repeated or
      out of its book's order. */
  lemma CallsSplitBySymbol(config: Config, x: Snapshot, ms: seq<Message>, s: Symbol)
    requires AllBlank(x.tapes) && x.tradeCalls == [] && x.reportCalls == [] && s in x.tapes
    ensures var after := DirectAll(config, x, ms);
      && s in after.tapes
      && CallsFor(after.tradeCalls, TradeSymbol, s) == Delivered(after.tapes[s])
      && CallsFor(after.reportCalls, ReportSymbol, s) == after.tapes[s].reports
  {
    hide DirectAll, DeliverAll;
    RunStaysShared(config, x, ms);
    DirectDelivers(config, x, ms);
    SymbolsStay(config, x.tapes, ms);
    assert s in DirectAll(config, x, ms).tapes && SharedBy(DirectAll(config, x, ms), s);
  }

  lemma NothingProcessed(x: Snapshot)
    ensures Processed(x, 0) == x
  {
  }

  /** One message taken from the queue, seen from the end of the run. */
  lemma QueueStep(config: Config, x: Snapshot, ms: seq<Message>, end: Snapshot, n: nat)
    requires ms != [] && AllAcceptable(config, x.tapes, ms) && DirectAll(config, x, ms) == Processed(end, n)
    ensures Acceptable(x.tapes, ms[0])
    ensures var y := Direct(config, Processed(x, 1), ms[0]);
      AllAcceptable(config, y.tapes, ms[1..]) && DirectAll(config, y, ms[1..]) == Processed(end, n + 1)
  {
    hide Play, Counted, Acceptable, TradeCalls, ReportCalls;
    ProcessedCommutes(config, x, 1, ms);
  }
}
