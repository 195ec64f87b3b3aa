/** The matching engine in the heap: books by symbol, an inbound queue and counters
    (include/engine/matching_engine.hpp, src/engine/matching_engine.cpp). */
module Engines {
  import opened Core
  import opened BookModel
  import opened BookLaws
  import opened BookSafety
  import opened BookRuns
  import opened OrderBooks
  import opened EngineModel
  import Spsc
  import opened SpscQueues

  const QUEUE_CAPACITY := 65536

  lemma QueueCapacityAdmitted()
    ensures Spsc.Admitted(QUEUE_CAPACITY)
  {
    assert Pow2(4) == 16;
    assert Pow2(8) == 16 * Pow2(4);
    assert Pow2(12) == 16 * Pow2(8);
    assert Pow2(16) == 16 * Pow2(12);
    Spsc.MaskIsMod(65536, 16);
  }

  ghost function TapeOf(b: OrderBook): Tape
    reads b
  {
    Tape(b.book, b.Emitted(), b.reports, b.nextSeqNum, |b.pendingTrades|)
  }

  lemma TapeDelivers(b: OrderBook)
    ensures Sound(TapeOf(b)) && Delivered(TapeOf(b)) == b.delivered && TapeOf(b).reports == b.reports
  {
  }

  lemma AsTold(b: OrderBook, t: Tape, a: Added, side: Side, id: OrderId)
    ensures Told(b.config, b.symbol, t, a, side, id) ==
      Tape(a.book, t.trades + b.Sent(side, id, a.fills, t.next),
           t.reports + b.Noted(a.notices, t.next + b.Count(a.fills)),
           t.next + b.Count(a.fills) + b.CountNotices(a.notices), t.waiting)
  {
  }

  // ----- A lone book -----

  /** The result of a command, as far as the source sets it. */
  ghost predicate Answers(s: Settings, before: Book, c: Command, result: OrderResult) {
    match c
    case AddCommand(order) => result == Add(s, before, order).result
    case CancelCommand(id) => result.success <==> Find(before, id).Some?
    case ReplaceCommand(id, newPrice, newQty) =>
      && result.success == Replace(s, before, id, newPrice, newQty).result.success
      && (Reprices(before, id, newPrice) ==> result == Replace(s, before, id, newPrice, newQty).result)
  }

  /** Commands given straight to one order book. */
  method Perform(b: OrderBook, c: Command) returns (result: OrderResult)
    requires b.Valid() && Proper(b.book, c)
    modifies b.Repr
    ensures b.Valid() && fresh(b.Repr - old(b.Repr))
    ensures TapeOf(b) == Play(b.config, b.symbol, old(TapeOf(b)), c)
    ensures Answers(b.config.settings, old(b.book), c, result)
  {
    hide Config.Waiting, OrderBook.Valid, Add, Cancel, Replace, Find, Incoming, OrderBook.Sent, OrderBook.Noted;
    ghost var t := TapeOf(b);
    match c
    case AddCommand(order) =>
      AsTold(b, t, Add(b.config.settings, t.book, order), order.side, order.id);
      result := b.AddOrder(order);
    case CancelCommand(id) =>
      result := b.CancelOrder(id);
    case ReplaceCommand(id, newPrice, newQty) =>
      ghost var a := Replace(b.config.settings, t.book, id, newPrice, newQty);
      AsTold(b, t, a, a.taker.side, id);
      result := b.ReplaceOrder(id, newPrice, newQty);
  }

  /** A lone book run through a list of commands. On a smooth run nothing is left pending: what was emitted has been
      delivered. */
  method PerformAll(b: OrderBook, cs: seq<Command>)
    requires b.Valid() && AllProper(b.config.settings, b.book, cs)
    modifies b.Repr
    ensures b.Valid() && fresh(b.Repr - old(b.Repr))
    ensures TapeOf(b) == PlayAll(b.config, b.symbol, old(TapeOf(b)), cs)
    ensures Smooth(b.config, old(TapeOf(b)), cs) ==> b.pendingTrades == [] && b.delivered == TapeOf(b).trades
  {
    hide OrderBook.Valid, Play, Step, Proper, Smooth;
    for i := 0 to |cs|
      invariant b.Valid() && fresh(b.Repr - old(b.Repr))
      invariant AllProper(b.config.settings, b.book, cs[i..])
      invariant PlayAll(b.config, b.symbol, TapeOf(b), cs[i..]) == PlayAll(b.config, b.symbol, old(TapeOf(b)), cs)
    {
      assert cs[i..][0] == cs[i] && cs[i..][1..] == cs[i + 1..];
      PlaySteps(b.config, b.symbol, TapeOf(b), cs[i]);
      var _ := Perform(b, cs[i]);
    }
    if Smooth(b.config, old(TapeOf(b)), cs) {
      SmoothRunsDeliver(b.config, b.symbol, old(TapeOf(b)), cs);
    }
  }

  /** Two books that differ in batching only, given the same commands one by one: after each command, so after every
      add, both trade callbacks have had the same calls and neither book keeps anything back. */
  method PerformBoth(b1: OrderBook, b2: OrderBook, cs: seq<Command>)
    requires b1.Valid() && b2.Valid() && b1.Repr !! b2.Repr && b1.symbol == b2.symbol
    requires b1.config.settings == b2.config.settings
    requires b1.config.hearsTrades == b2.config.hearsTrades && b1.config.hearsReports == b2.config.hearsReports
    requires TapeOf(b1) == TapeOf(b2) && Smooth(b1.config, TapeOf(b1), cs)
    modifies b1.Repr, b2.Repr
    ensures b1.Valid() && b2.Valid() && fresh(b1.Repr - old(b1.Repr)) && fresh(b2.Repr - old(b2.Repr))
    ensures b1.delivered == b2.delivered && b1.pendingTrades == b2.pendingTrades == []
    ensures b1.reports == b2.reports && b1.book == b2.book
    ensures b1.delivered == PlayAll(b1.config, b1.symbol, old(TapeOf(b1)), cs).trades
  {
    hide OrderBook.Valid, Play, Step, Proper, Tidy, AvoidsZero, Delivered, TapeOf;
    TapeBooks(b1);
    TapeBooks(b2);
    for i := 0 to |cs|
      invariant b1.Valid() && b2.Valid() && b1.Repr !! b2.Repr
      invariant fresh(b1.Repr - old(b1.Repr)) && fresh(b2.Repr - old(b2.Repr))
      invariant TapeOf(b1) == TapeOf(b2) && Smooth(b1.config, TapeOf(b1), cs[i..])
      invariant b1.delivered == b2.delivered && b1.pendingTrades == b2.pendingTrades == []
      invariant PlayAll(b1.config, b1.symbol, TapeOf(b1), cs[i..]) == PlayAll(b1.config, b1.symbol, old(TapeOf(b1)), cs)
    {
      ghost var t := TapeOf(b1);
      assert cs[i..][0] == cs[i] && cs[i..][1..] == cs[i + 1..];
      StepStaysSmooth(b1.config, b1.symbol, t, cs[i]);
      StepStaysSmooth(b2.config, b2.symbol, t, cs[i]);
      SameButForBatching(b1.config, b2.config, b1.symbol, t, cs[i]);
      TapeBooks(b1);
      TapeBooks(b2);
      var _ := Perform(b1, cs[i]);
      var _ := Perform(b2, cs[i]);
      TapeBooks(b1);
      TapeBooks(b2);
    }
    TapeBooks(b1);
    TapeBooks(b2);
  }

  lemma TapeBooks(b: OrderBook)
    ensures TapeOf(b).book == b.book && TapeOf(b).waiting == |b.pendingTrades| && TapeOf(b).reports == b.reports
    ensures b.pendingTrades == [] ==> TapeOf(b).trades == b.delivered
  {
  }

  // ----- The engine -----

  ghost predicate Parted(reprs: map<Symbol, set<object>>, own: set<object>, all: set<object>) {
    && (forall s :: s in reprs ==> reprs[s] <= all && reprs[s] !! own)
    && (forall s, t :: s in reprs && t in reprs && s != t ==> reprs[s] !! reprs[t])
  }

  lemma PartedWith(reprs: map<Symbol, set<object>>, own: set<object>, all: set<object>, s: Symbol, r: set<object>)
    requires Parted(reprs, own, all) && own <= all
    requires forall o :: o in r && o in all ==> s in reprs && o in reprs[s]
    ensures Parted(reprs[s := r], own, all + r)
  {
  }

  class MatchingEngine {
    const config: Config
    const queue: SpscQueue<Message>
    var books: map<Symbol, OrderBook>
    var stats: Stats
    /** The calls of the two callbacks all books share, in order. */
    ghost var tradeCalls: seq<Trade>
    ghost var reportCalls: seq<Report>
    ghost var Repr: set<object>

    ghost function Reprs(): map<Symbol, set<object>>
      reads this`books, set s | s in books :: books[s]
    {
      map s | s in books :: books[s].Repr
    }

    /** The queue and the books lie apart. */
    ghost predicate Separate()
      reads this`books, this`Repr, Repr
    {
      && {this, queue, queue.slots} <= Repr
      && (forall s :: s in books ==> books[s] in Repr)
      && Parted(Reprs(), {this, queue, queue.slots}, Repr)
    }

    ghost predicate BookValid(s: Symbol)
      requires s in books
      reads this`books, books[s], books[s].Repr
    {
      books[s].Valid() && books[s].symbol == s && books[s].config == config
    }

    ghost predicate Valid()
      reads this, Repr
    {
      && Separate() && queue.Valid() && queue.capacity == QUEUE_CAPACITY
      && (forall s :: s in books ==> books[s].Repr <= Repr)
      && forall s :: s in books ==> BookValid(s)
    }

    ghost function Tapes(): Tapes
      reads this`books, set s | s in books :: books[s]
    {
      map s | s in books :: TapeOf(books[s])
    }

    ghost function Now(): Snapshot
      reads this`books, this`stats, this`tradeCalls, this`reportCalls, set s | s in books :: books[s]
    {
      Snapshot(Tapes(), stats, tradeCalls, reportCalls)
    }

    constructor (config: Config)
      ensures Valid() && fresh(Repr) && this.config == config && books == map[]
      ensures Now() == Snapshot(map[], Stats(0, 0, 0, 0, 0, 0), [], []) && queue.Contents() == []
    {
      hide OrderBook.Valid, SpscQueue.Valid, SpscQueue.Contents, Spsc.Admitted;
      QueueCapacityAdmitted();
      this.config := config;
      var blank := NewOrderMessage(NewOrder(0, [0, 0, 0, 0, 0, 0, 0, 0], Buy, 0, 0, Limit, Day));
      var q := new SpscQueue<Message>(QUEUE_CAPACITY, blank);
      queue := q;
      books := map[];
      stats := Stats(0, 0, 0, 0, 0, 0);
      tradeCalls, reportCalls := [], [];
      Repr := {this, q, q.slots};
    }

    method GetBook(symbol: Symbol) returns (book: OrderBook?)
      ensures book == null <==> symbol !in books
      ensures symbol in books ==> book == books[symbol]
    {
      book := if symbol in books then books[symbol] else null;
    }

    lemma Holds()
      requires Valid()
      ensures {this, queue, queue.slots} <= Repr && queue.Valid() && queue.capacity == QUEUE_CAPACITY
      ensures Parted(Reprs(), {this, queue, queue.slots}, Repr)
      ensures forall s :: s in books ==> books[s] in Repr && BookValid(s) && this !in books[s].Repr
    {
      hide OrderBook.Valid, SpscQueue.Valid;
      forall s | s in books
        ensures this !in books[s].Repr && books[s] in books[s].Repr
      {
        Alone(s);
      }
    }

    /** The memory of one book has grown; the engine takes note. */
    ghost method Absorb(symbol: Symbol)
      requires symbol in books && {this, queue, queue.slots} <= Repr
      requires queue.Valid() && queue.capacity == QUEUE_CAPACITY
      requires Parted(Reprs(), {this, queue, queue.slots}, Repr + books[symbol].Repr)
      requires forall s :: s in books ==> BookValid(s)
      modifies this`Repr
      ensures Valid() && Repr == old(Repr) + books[symbol].Repr
      ensures Tapes() == old(Tapes()) && queue.Contents() == old(queue.Contents())
    {
      hide OrderBook.Valid, SpscQueue.Valid, TapeOf;
      ghost var all := Repr + books[symbol].Repr;
      ghost var reprs := Reprs();
      forall s | s in books
        ensures books[s] in all && books[s].Repr <= all && this !in books[s].Repr
      {
        assert reprs[s] == books[s].Repr && BookValid(s);
      }
      hide Parted;
      Repr := all;
      assert Reprs() == reprs;
    }

    /** No book's memory is the engine's own, the queue's or another book's. */
    lemma Alone(s: Symbol)
      requires Valid() && s in books
      ensures BookValid(s) && books[s] in books[s].Repr && books[s].Repr <= Repr
      ensures this !in books[s].Repr && queue !in books[s].Repr && queue.slots !in books[s].Repr
      ensures forall t :: t in books && t != s ==> books[t].Repr !! books[s].Repr
    {
      hide OrderBook.Valid, SpscQueue.Valid;
      var reprs := Reprs();
      assert reprs[s] == books[s].Repr;
      forall t | t in books && t != s
        ensures books[t].Repr !! books[s].Repr
      {
        assert reprs[t] == books[t].Repr;
      }
    }

    /** Whatever happened within one book's memory, the rest of the engine is as it was. */
    twostate lemma OthersKeep(symbol: Symbol)
      requires old(Valid()) && unchanged(this) && symbol in books
      requires queue !in old(books[symbol].Repr) && queue.slots !in old(books[symbol].Repr)
      requires forall t :: t in books && t != symbol ==> old(books[t].Repr) !! old(books[symbol].Repr)
      requires forall o: object :: o in old(Repr) && o !in old(books[symbol].Repr) ==> unchanged(o)
      ensures queue.Valid() && queue.Contents() == old(queue.Contents())
      ensures forall t :: t in books && t != symbol ==>
        && books[t].Repr == old(books[t].Repr) && BookValid(t) && TapeOf(books[t]) == old(TapeOf(books[t]))
    {
      hide OrderBook.Valid, SpscQueue.Valid, Parted;
      forall t | t in books && t != symbol
        ensures books[t].Repr == old(books[t].Repr) && BookValid(t) && TapeOf(books[t]) == old(TapeOf(books[t]))
      {
        assert old(BookValid(t));
        assert old(books[t].Repr) !! old(books[symbol].Repr);
      }
    }

    /** A second book for a symbol replaces the first, orders and all. */
    method AddSymbol(symbol: Symbol)
      requires Valid()
      modifies this`books, this`Repr
      ensures Valid() && fresh(Repr - old(Repr))
      ensures Now() == old(Now()).(tapes := old(Tapes())[symbol := BLANK_TAPE])
      ensures queue.Contents() == old(queue.Contents())
    {
      hide OrderBook.Valid, SpscQueue.Valid, Parted, Valid, Separate, BookValid, Reprs, TapeOf;
      InRepr();
      Holds();
      var book := new OrderBook(symbol, config);
      PartedWith(Reprs(), {this, queue, queue.slots}, Repr, symbol, book.Repr);
      BlankTape(book);
      assert Tapes() == old(Tapes());
      Place(symbol, book);
      Absorb(symbol);
    }

    lemma BlankTape(book: OrderBook)
      requires book.book == EMPTY_BOOK && book.nextSeqNum == 1
      requires book.delivered == [] && book.pendingTrades == [] && book.reports == []
      ensures TapeOf(book) == BLANK_TAPE
    {
    }

    lemma InRepr()
      requires Valid()
      ensures forall o, s :: s in Reprs() && o in Reprs()[s] ==> o in Repr
    {
      hide OrderBook.Valid, SpscQueue.Valid;
    }

    method Place(symbol: Symbol, book: OrderBook)
      requires book.Valid() && book.symbol == symbol && book.config == config && this !in book.Repr
      requires forall s :: s in books ==> BookValid(s) && this !in books[s].Repr
      modifies this`books
      ensures books == old(books)[symbol := book] && Reprs() == old(Reprs())[symbol := book.Repr]
      ensures Tapes() == old(Tapes())[symbol := TapeOf(book)]
      ensures forall s :: s in books ==> BookValid(s)
    {
      hide OrderBook.Valid, TapeOf;
      books := books[symbol := book];
      assert Reprs() == old(Reprs())[symbol := book.Repr];
      assert Tapes() == old(Tapes())[symbol := TapeOf(book)];
    }

    twostate lemma MapsKeep(symbol: Symbol)
      requires symbol in books && unchanged(this)
      requires forall t :: t in books && t != symbol ==>
        books[t].Repr == old(books[t].Repr) && TapeOf(books[t]) == old(TapeOf(books[t]))
      ensures Tapes() == old(Tapes())[symbol := TapeOf(books[symbol])]
      ensures Reprs() == old(Reprs())[symbol := books[symbol].Repr]
    {
      hide TapeOf;
    }

    /** Hands a command to the book of a symbol; every other book stays as it is, and what the book delivers is what
        the shared callbacks get. */
    method Route(symbol: Symbol, c: Command) returns (result: OrderResult)
      requires Valid() && symbol in books && Proper(books[symbol].book, c)
      modifies this`Repr, this`tradeCalls, this`reportCalls, books[symbol].Repr
      ensures Valid() && fresh(Repr - old(Repr)) && unchanged(this`books, this`stats)
      ensures var before := old(TapeOf(books[symbol]));
        var after := Play(config, symbol, before, c);
        && Tapes() == old(Tapes())[symbol := after]
        && tradeCalls == old(tradeCalls) + TradeCalls(before, after)
        && reportCalls == old(reportCalls) + ReportCalls(before, after)
      ensures queue.Contents() == old(queue.Contents())
      ensures Answers(config.settings, old(books[symbol].book), c, result)
    {
      hide OrderBook.Valid, SpscQueue.Valid, Play, Add, Proper, Parted, Valid, Separate, BookValid, Tapes, TapeOf,
           Answers;
      Holds();
      ghost var before, told, heard := TapeOf(books[symbol]), books[symbol].delivered, books[symbol].reports;
      TapeDelivers(books[symbol]);
      result := Tell(symbol, c);
      PartedWith(old(Reprs()), {this, queue, queue.slots}, Repr, symbol, books[symbol].Repr);
      Absorb(symbol);
      TapeDelivers(books[symbol]);
      PlayDelivers(config, symbol, before, c);
      Log(books[symbol].delivered[|told|..], books[symbol].reports[|heard|..]);
    }

    ghost method Log(trades: seq<Trade>, reports: seq<Report>)
      requires Valid()
      modifies this`tradeCalls, this`reportCalls
      ensures Valid() && tradeCalls == old(tradeCalls) + trades && reportCalls == old(reportCalls) + reports
      ensures Tapes() == old(Tapes()) && queue.Contents() == old(queue.Contents())
    {
      hide OrderBook.Valid, SpscQueue.Valid, Parted;
      Holds();
      tradeCalls, reportCalls := tradeCalls + trades, reportCalls + reports;
      assert Reprs() == old(Reprs());
      assert forall s :: s in books ==> BookValid(s);
    }

    /** The part of it within the book's own memory. */
    method Tell(symbol: Symbol, c: Command) returns (result: OrderResult)
      requires Valid() && symbol in books && Proper(books[symbol].book, c)
      modifies books[symbol].Repr
      ensures queue.Valid() && queue.Contents() == old(queue.Contents()) && unchanged(this)
      ensures forall s :: s in books ==> BookValid(s)
      ensures Tapes() == old(Tapes())[symbol := Play(config, symbol, old(TapeOf(books[symbol])), c)]
      ensures Reprs() == old(Reprs())[symbol := books[symbol].Repr]
      ensures old(books[symbol].Repr) <= Repr && fresh(books[symbol].Repr - old(books[symbol].Repr))
      ensures TapeOf(books[symbol]) == Play(config, symbol, old(TapeOf(books[symbol])), c)
      ensures Answers(config.settings, old(books[symbol].book), c, result)
    {
      hide OrderBook.Valid, SpscQueue.Valid, Play, Proper, Parted, Valid, Separate, Tapes, Reprs, TapeOf, Answers;
      Alone(symbol);
      result := Perform(books[symbol], c);
      OthersKeep(symbol);
      MapsKeep(symbol);
    }
  
    method SetStats(s: Stats)
      requires Valid()
      modifies this`stats
      ensures Valid() && stats == s && Tapes() == old(Tapes()) && queue.Contents() == old(queue.Contents())
    {
      hide OrderBook.Valid, SpscQueue.Valid, Parted;
      Holds();
      stats := s;
      assert Reprs() == old(Reprs());
      assert forall s :: s in books ==> BookValid(s);
    }

    lemma Owned()
      requires Valid()
      ensures {this, queue, queue.slots} <= Repr && queue.Valid() && queue.capacity == QUEUE_CAPACITY
      ensures forall s :: s in books ==> books[s].Repr <= Repr
    {
      hide OrderBook.Valid, SpscQueue.Valid, Parted;
    }

    // ----- Direct calls -----

    method SubmitOrder(order: Order) returns (result: OrderResult)
      requires Valid() && Acceptable(Tapes(), NewOrderMessage(order))
      modifies Repr
      ensures Valid() && fresh(Repr - old(Repr)) && queue.Contents() == old(queue.Contents())
      ensures Now() == Direct(config, old(Now()), NewOrderMessage(order))
      ensures order.symbol in old(Tapes()) ==>
        result == Add(config.settings, old(Tapes())[order.symbol].book, order).result
      ensures order.symbol !in old(Tapes()) ==> !result.success && result.reason == UnknownSymbol
    {
      hide OrderBook.Valid, SpscQueue.Valid, Valid, Play, Add, Proper, Incoming;
      Owned();
      SetStats(stats.(ordersReceived := stats.ordersReceived + 1));
      if order.symbol !in books {
        return OrderResult(false, UnknownSymbol, INVALID_ORDER_ID, 0);
      }
      result := Route(order.symbol, AddCommand(order));
      if result.success && result.filledQty > 0 {
        SetStats(stats.(ordersMatched := stats.ordersMatched + 1, tradesExecuted := stats.tradesExecuted + 1,
                 totalVolume := stats.totalVolume + result.filledQty));
      }
    }

    method CancelOrder(symbol: Symbol, id: OrderId) returns (result: OrderResult)
      requires Valid()
      modifies Repr
      ensures Valid() && fresh(Repr - old(Repr)) && queue.Contents() == old(queue.Contents())
      ensures Now() == Direct(config, old(Now()), CancelMessage(symbol, id))
      ensures symbol in old(Tapes()) ==> (result.success <==> Find(old(Tapes())[symbol].book, id).Some?)
      ensures symbol !in old(Tapes()) ==> !result.success && result.reason == UnknownSymbol
    {
      hide OrderBook.Valid, SpscQueue.Valid, Valid, Play, Find;
      Owned();
      if symbol !in books {
        return OrderResult(false, UnknownSymbol, INVALID_ORDER_ID, 0);
      }
      result := Route(symbol, CancelCommand(id));
      if result.success {
        SetStats(stats.(ordersCancelled := stats.ordersCancelled + 1));
      }
    }

    method ReplaceOrder(symbol: Symbol, id: OrderId, newPrice: Price, newQty: Quantity) returns (result: OrderResult)
      requires Valid() && Acceptable(Tapes(), ReplaceMessage(symbol, id, newPrice, newQty))
      modifies Repr
      ensures Valid() && fresh(Repr - old(Repr)) && queue.Contents() == old(queue.Contents())
      ensures Now() == Direct(config, old(Now()), ReplaceMessage(symbol, id, newPrice, newQty))
      ensures symbol in old(Tapes()) ==>
        Answers(config.settings, old(Tapes())[symbol].book, ReplaceCommand(id, newPrice, newQty), result)
      ensures symbol !in old(Tapes()) ==> !result.success && result.reason == UnknownSymbol
    {
      hide OrderBook.Valid, SpscQueue.Valid, Valid, Play, Proper, Replaceable;
      Owned();
      if symbol !in books {
        return OrderResult(false, UnknownSymbol, INVALID_ORDER_ID, 0);
      }
      result := Route(symbol, ReplaceCommand(id, newPrice, newQty));
    }

    // ----- The queue -----

    /** `enqueue_order`, `enqueue_cancel` and `enqueue_replace`: refused exactly when the queue is full. */
    method Enqueue(m: Message) returns (ok: bool)
      requires Valid()
      modifies queue, queue.slots
      ensures Valid() && Now() == old(Now())
      ensures ok <==> |old(queue.Contents())| < 65535
      ensures queue.Contents() == if ok then old(queue.Contents()) + [m] else old(queue.Contents())
    {
      hide OrderBook.Valid, SpscQueue.Valid, SpscQueue.Contents, Parted;
      Holds();
      Unshared();
      ghost var steps;
      ok, steps := queue.TryPush(m);
      assert Reprs() == old(Reprs());
      assert forall s :: s in books ==> BookValid(s);
    }

    lemma Unshared()
      requires Valid()
      ensures forall s :: s in books ==> queue !in books[s].Repr && queue.slots !in books[s].Repr
    {
      hide OrderBook.Valid, SpscQueue.Valid;
      forall s | s in books
        ensures queue !in books[s].Repr && queue.slots !in books[s].Repr
      {
        Alone(s);
      }
    }

    method Dequeue() returns (m: Option<Message>)
      requires Valid()
      modifies queue
      ensures Valid() && Now() == old(Now())
      ensures m == if old(queue.Contents()) == [] then None else Some(old(queue.Contents())[0])
      ensures queue.Contents() == if m == None then old(queue.Contents()) else old(queue.Contents())[1..]
    {
      hide OrderBook.Valid, SpscQueue.Valid, SpscQueue.Contents, Parted;
      Holds();
      Unshared();
      ghost var steps;
      m, steps := queue.TryPop();
      assert Reprs() == old(Reprs());
      assert forall s :: s in books ==> BookValid(s);
    }

    method ProcessOne() returns (more: bool)
      requires Valid()
      requires queue.Contents() != [] ==> Acceptable(Tapes(), queue.Contents()[0])
      modifies Repr
      ensures Valid() && fresh(Repr - old(Repr))
      ensures more <==> old(queue.Contents()) != []
      ensures !more ==> Now() == old(Now()) && queue.Contents() == []
      ensures more ==> queue.Contents() == old(queue.Contents())[1..]
      ensures more ==> Now() == Direct(config, Processed(old(Now()), 1), old(queue.Contents())[0])
    {
      hide OrderBook.Valid, SpscQueue.Valid, SpscQueue.Contents, Valid, Tapes, Direct, Acceptable;
      Owned();
      var next := Dequeue();
      if next.None? {
        return false;
      }
      SetStats(stats.(messagesProcessed := stats.messagesProcessed + 1));
      match next.value {
        case NewOrderMessage(order) => var _ := SubmitOrder(order);
        case CancelMessage(symbol, id) => var _ := CancelOrder(symbol, id);
        case ReplaceMessage(symbol, id, newPrice, newQty) => var _ := ReplaceOrder(symbol, id, newPrice, newQty);
      }
      return true;
    }

    /** Queued submission equals direct submission: the same books, trades, reports and counters as the direct calls
        in queue order, but for the count of messages. */
    method ProcessQueue() returns (processed: nat)
      requires Valid() && AllAcceptable(config, Now().tapes, queue.Contents())
      modifies Repr
      ensures Valid() && fresh(Repr - old(Repr)) && queue.Contents() == []
      ensures processed == |old(queue.Contents())|
      ensures Now() == Processed(DirectAll(config, old(Now()), old(queue.Contents())), processed)
      ensures Tapes().Keys == old(Tapes()).Keys
      ensures forall s :: s in old(Tapes()) ==>
        Tapes()[s] == PlayAll(config, s, old(Tapes())[s], Only(old(queue.Contents()), s))
    {
      hide OrderBook.Valid, SpscQueue.Valid, SpscQueue.Contents, Valid, Tapes, Direct, Acceptable, Processed, Deliver;
      Owned();
      ghost var start, ms := Now(), queue.Contents();
      processed := 0;
      var more := true;
      NothingProcessed(DirectAll(config, start, ms));
      assert ms[0..] == ms;
      while more
        invariant Valid() && fresh(Repr - old(Repr)) && processed <= |ms|
        invariant queue.Valid() && queue.Contents() == ms[processed..] && (!more ==> queue.Contents() == [])
        invariant AllAcceptable(config, Now().tapes, queue.Contents())
        invariant DirectAll(config, Now(), queue.Contents()) == Processed(DirectAll(config, start, ms), processed)
        decreases |ms| - processed, more
      {
        ghost var x, left := Now(), queue.Contents();
        more := ProcessOne();
        Owned();
        if more {
          QueueStep(config, x, left, DirectAll(config, start, ms), processed);
          Dropped(ms, processed);
          processed := processed + 1;
        }
      }
      EachBookIsAlone(config, start, ms, processed);
      assert ms[processed..] == [];
    }
  }
}
