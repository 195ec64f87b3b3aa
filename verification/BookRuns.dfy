/** Whole runs: what holds after any sequence of adds, cancels and replaces. */
module BookRuns {
  import opened Core
  import opened BookModel
  import opened BookLaws
  import opened BookSafety
  import opened BookGuarantees

  datatype Command =
    | AddCommand(order: Order)
    | CancelCommand(id: OrderId)
    | ReplaceCommand(id: OrderId, newPrice: Price, newQty: Quantity)

  ghost function Step(s: Settings, book: Book, c: Command): Book {
    match c
    case AddCommand(order) => Add(s, book, order).book
    case CancelCommand(id) => Cancel(book, id)
    case ReplaceCommand(id, newPrice, newQty) => Replace(s, book, id, newPrice, newQty).book
  }

  ghost function Run(s: Settings, book: Book, cs: seq<Command>): Book
    decreases |cs|
  {
    if cs == [] then book else Run(s, Step(s, book, cs[0]), cs[1..])
  }

  /** The callers' side of the bargain, command by command. */
  ghost predicate Proper(book: Book, c: Command) {
    match c
    case AddCommand(order) => Incoming(order)
    case CancelCommand(id) => true
    case ReplaceCommand(id, newPrice, newQty) => Replaceable(book, id, newPrice, newQty)
  }

  ghost predicate AllProper(s: Settings, book: Book, cs: seq<Command>)
    decreases |cs|
  {
    cs == [] || (Proper(book, cs[0]) && AllProper(s, Step(s, book, cs[0]), cs[1..]))
  }

  /** No command names price 0 for an order that may rest. */
  predicate AvoidsZero(c: Command) {
    match c
    case AddCommand(order) => Rests(order) ==> order.price != 0
    case CancelCommand(id) => true
    case ReplaceCommand(id, newPrice, newQty) => newPrice != 0
  }

  lemma StepKeepsBook(s: Settings, book: Book, c: Command)
    requires WellFormed(book) && Proper(book, c)
    ensures WellFormed(Step(s, book, c))
  {
    hide WellFormed, Incoming, Replaceable, Add, Cancel, Replace;
    match c
    case AddCommand(order) => AddKeepsBook(s, book, order);
    case CancelCommand(id) => CancelKeepsBook(book, id);
    case ReplaceCommand(id, p, q) => ReplaceKeepsBook(s, book, id, p, q);
  }

  /** Every reachable book is well formed: sorted by price and arrival, ids unique, nothing filled rests. */
  lemma {:induction false} RunKeepsBook(s: Settings, book: Book, cs: seq<Command>)
    requires WellFormed(book) && AllProper(s, book, cs)
    ensures WellFormed(Run(s, book, cs))
    decreases |cs|
  {
    hide WellFormed, Step, Proper;
    if cs != [] {
      StepKeepsBook(s, book, cs[0]);
      RunKeepsBook(s, Step(s, book, cs[0]), cs[1..]);
    }
  }

  ghost predicate Tidy(book: Book) {
    WellFormed(book) && Uncrossed(book) && NoZeroPrice(book.bids) && NoZeroPrice(book.asks)
  }

  /** No run crosses or locks the book, with self-trade prevention off. */
  lemma {:induction false} RunNeverCrosses(s: Settings, book: Book, cs: seq<Command>)
    requires Tidy(book) && AllProper(s, book, cs) && !s.selfTradePrevention
    requires forall i :: 0 <= i < |cs| ==> AvoidsZero(cs[i])
    ensures Tidy(Run(s, book, cs))
    decreases |cs|
  {
    if cs != [] {
      StepNeverCrosses(s, book, cs[0]);
      hide Tidy, Step, Proper, AvoidsZero;
      RunNeverCrosses(s, Step(s, book, cs[0]), cs[1..]);
    }
  }

  lemma StepNeverCrosses(s: Settings, book: Book, c: Command)
    requires Tidy(book) && Proper(book, c) && AvoidsZero(c) && !s.selfTradePrevention
    ensures Tidy(Step(s, book, c))
  {
    StepKeepsBook(s, book, c);
    hide WellFormed, Uncrossed, NoZeroPrice, Incoming, Replaceable, Add, Cancel, Replace;
    match c
    case AddCommand(order) => AddNeverCrosses(s, book, order);
    case CancelCommand(id) => CancelNeverCrosses(book, id);
    case ReplaceCommand(id, p, q) => ReplaceNeverCrosses(s, book, id, p, q);
  }

  /** From the empty book. */
  lemma ReachableBooksAreTidy(s: Settings, cs: seq<Command>)
    requires AllProper(s, EMPTY_BOOK, cs) && !s.selfTradePrevention
    requires forall i :: 0 <= i < |cs| ==> AvoidsZero(cs[i])
    ensures Tidy(Run(s, EMPTY_BOOK, cs))
  {
    RunNeverCrosses(s, EMPTY_BOOK, cs);
  }

  /** Only limit and post-only orders that are neither immediate-or-cancel nor fill-or-kill ever rest. */
  lemma {:induction false} RunKeepsKinds(s: Settings, book: Book, cs: seq<Command>)
    requires BookMayRest(book, None)
    ensures BookMayRest(Run(s, book, cs), None)
    decreases |cs|
  {
    hide BookMayRest, Add, Cancel, Replace;
    if cs != [] {
      match cs[0] {
        case AddCommand(order) => AddKeepsKinds(s, book, order, None);
        case CancelCommand(id) => CancelKeepsKinds(book, id, None);
        case ReplaceCommand(id, p, q) => ReplaceKeepsKinds(s, book, id, p, q, None);
      }
      RunKeepsKinds(s, Step(s, book, cs[0]), cs[1..]);
    }
  }

  // ----- Conservation -----

  /** Where the quantity of one side went. */
  datatype Ledger = Ledger(accepted: nat, amended: int, traded: nat, cancelled: nat, discarded: nat) {
    function Plus(o: Ledger): Ledger {
      Ledger(accepted + o.accepted, amended + o.amended, traded + o.traded, cancelled + o.cancelled,
             discarded + o.discarded)
    }

    /** What should still be resting. */
    function Resting(): int {
      accepted + amended - traded - cancelled - discarded
    }
  }

  const NOTHING := Ledger(0, 0, 0, 0, 0)

  /** Both sides trade what the taker got; its own side takes in the whole order and gives up what neither
      traded nor rests. */
  ghost function AddFlow(s: Settings, book: Book, order: Order, side: Side): Ledger {
    if Verdict(s, book, Priced(order)) != NoReason then NOTHING
    else
      var a := Add(s, book, order);
      if side == order.side then
        Ledger(order.quantity, 0, Traded(a.fills), 0, if Rests(a.taker) then 0 else a.taker.Remaining())
      else Ledger(0, 0, Traded(a.fills), 0, 0)
  }

  function CancelFlow(book: Book, id: OrderId, side: Side): Ledger {
    match Find(book, id)
    case None => NOTHING
    case Some(r) => if side == r.order.side then NOTHING.(cancelled := r.order.Remaining()) else NOTHING
  }

  ghost function Flow(s: Settings, book: Book, c: Command, side: Side): Ledger {
    match c
    case AddCommand(order) => AddFlow(s, book, order, side)
    case CancelCommand(id) => CancelFlow(book, id, side)
    case ReplaceCommand(id, newPrice, newQty) =>
      match Find(book, id)
      case None => NOTHING
      case Some(r) =>
        if r.order.price == newPrice then
          if side == r.order.side then NOTHING.(amended := newQty - r.order.quantity) else NOTHING
        else CancelFlow(book, id, side).Plus(AddFlow(s, Cancel(book, id), Renewed(r.order, newPrice, newQty), side))
  }

  ghost function RunFlow(s: Settings, book: Book, cs: seq<Command>, side: Side): Ledger
    decreases |cs|
  {
    if cs == [] then NOTHING
    else Flow(s, book, cs[0], side).Plus(RunFlow(s, Step(s, book, cs[0]), cs[1..], side))
  }

  lemma DepthSplit(flat: seq<Rest>, k: nat)
    requires k < |flat|
    ensures Depth(flat) == Depth(flat[..k]) + flat[k].order.Remaining() + Depth(flat[k + 1..])
  {
    assert flat == flat[..k] + flat[k..];
    DepthConcat(flat[..k], flat[k..]);
  }

  lemma InsertedDepth(side: Side, flat: seq<Rest>, r: Rest)
    ensures Depth(Inserted(side, flat, r)) == Depth(flat) + r.order.Remaining()
  {
    var k, up := Slot(side, flat, r.order.price), Inserted(side, flat, r);
    assert up[..k] == flat[..k] && up[k] == r && up[k + 1..] == flat[k..] && flat == flat[..k] + flat[k..];
    DepthSplit(up, k);
    DepthConcat(flat[..k], flat[k..]);
  }

  lemma RemovedDepth(flat: seq<Rest>, id: OrderId)
    requires Has(flat, id)
    ensures Depth(Removed(flat, id)) == Depth(flat) - flat[Position(flat, id)].order.Remaining()
  {
    var k := Position(flat, id);
    DepthSplit(flat, k);
    DepthConcat(flat[..k], flat[k + 1..]);
  }

  lemma RequantifiedDepth(flat: seq<Rest>, id: OrderId, qty: Quantity)
    requires Has(flat, id)
    ensures var o := flat[Position(flat, id)].order;
      Depth(Requantified(flat, id, qty)) == Depth(flat) - o.Remaining() + o.(quantity := qty).Remaining()
  {
    var k, up := Position(flat, id), Requantified(flat, id, qty);
    DepthSplit(flat, k);
    DepthSplit(up, k);
    assert up[..k] == flat[..k] && up[k + 1..] == flat[k + 1..];
  }

  lemma AddConserves(s: Settings, book: Book, order: Order, side: Side)
    requires WellFormed(book) && Incoming(order)
    ensures Depth(Add(s, book, order).book.On(side)) == Depth(book.On(side)) + AddFlow(s, book, order, side).Resting()
    ensures var a := Add(s, book, order);
      a.result.success ==> Traded(a.fills) == a.result.filledQty
  {
    hide Match, Verdict, Inserted, Depth, Order.Remaining, GoodSide, Fillable, Notices;
    AddBothSides(s, book, order);
    var a, opp := Add(s, book, order), book.On(order.side.Opposite());
    GoodIsFillable(order.side.Opposite(), opp, book.clock);
    SweepConserves(s.selfTradePrevention, Priced(order), opp);
    StartAccounts(Priced(order));
    StartAccounts(a.taker);
    InsertedDepth(order.side, book.On(order.side), Rest(a.taker, book.clock));
  }

  lemma CancelConserves(book: Book, id: OrderId, side: Side)
    requires WellFormed(book)
    ensures Depth(Cancel(book, id).On(side)) == Depth(book.On(side)) + CancelFlow(book, id, side).Resting()
  {
    FindIsOnItsSide(book, id);
    if Find(book, id).Some? {
      RemovedDepth(book.On(Find(book, id).value.order.side), id);
    }
    hide Removed, Depth, WellFormed, Order.Remaining;
  }

  lemma AmendConserves(s: Settings, book: Book, id: OrderId, newQty: Quantity, side: Side)
    requires WellFormed(book) && Find(book, id).Some?
    requires Find(book, id).value.order.filledQty == 0
    ensures var price := Find(book, id).value.order.price;
      Depth(Replace(s, book, id, price, newQty).book.On(side))
        == Depth(book.On(side)) + Flow(s, book, ReplaceCommand(id, price, newQty), side).Resting()
  {
    FindIsOnItsSide(book, id);
    var o := Find(book, id).value.order;
    RequantifiedDepth(book.On(o.side), id, newQty);
    StartAccounts(o);
    StartAccounts(o.(quantity := newQty));
    hide Requantified, Depth, Order.Remaining, WellFormed, Find, Has, Position;
  }

  lemma RepriceConserves(s: Settings, book: Book, id: OrderId, newPrice: Price, newQty: Quantity, side: Side)
    requires WellFormed(book) && Replaceable(book, id, newPrice, newQty)
    requires Find(book, id).Some? && Find(book, id).value.order.price != newPrice
    ensures Depth(Replace(s, book, id, newPrice, newQty).book.On(side))
         == Depth(book.On(side)) + Flow(s, book, ReplaceCommand(id, newPrice, newQty), side).Resting()
  {
    hide Add, AddFlow, Cancel, CancelFlow, Replace, Depth, WellFormed, Find;
    RepriceIsCancelThenAdd(s, book, id, newPrice, newQty);
    CancelKeepsBook(book, id);
    CancelConserves(book, id, side);
    AddConserves(s, Cancel(book, id), Renewed(Find(book, id).value.order, newPrice, newQty), side);
  }

  lemma ReplaceConserves(s: Settings, book: Book, id: OrderId, newPrice: Price, newQty: Quantity, side: Side)
    requires WellFormed(book) && Replaceable(book, id, newPrice, newQty)
    ensures Depth(Replace(s, book, id, newPrice, newQty).book.On(side))
         == Depth(book.On(side)) + Flow(s, book, ReplaceCommand(id, newPrice, newQty), side).Resting()
  {
    hide Depth, WellFormed, Find, Add, AddFlow, Cancel, CancelFlow;
    if Find(book, id).Some? {
      if Find(book, id).value.order.price == newPrice {
        AmendConserves(s, book, id, newQty, side);
      } else {
        RepriceConserves(s, book, id, newPrice, newQty, side);
      }
    }
  }

  lemma StepConserves(s: Settings, book: Book, c: Command, side: Side)
    requires WellFormed(book) && Proper(book, c)
    ensures Depth(Step(s, book, c).On(side)) == Depth(book.On(side)) + Flow(s, book, c, side).Resting()
  {
    hide WellFormed, Incoming, Replaceable, Add, AddFlow, Cancel, CancelFlow, Replace, Depth;
    match c
    case AddCommand(order) => AddConserves(s, book, order, side);
    case CancelCommand(id) => CancelConserves(book, id, side);
    case ReplaceCommand(id, p, q) => ReplaceConserves(s, book, id, p, q, side);
  }

  /** Over any run and on either side: accepted plus amended is traded plus cancelled plus discarded plus
      what rests. */
  lemma {:induction false} RunConserves(s: Settings, book: Book, cs: seq<Command>, side: Side)
    requires WellFormed(book) && AllProper(s, book, cs)
    ensures var l := RunFlow(s, book, cs, side);
      Depth(book.On(side)) + l.accepted + l.amended
        == l.traded + l.cancelled + l.discarded + Depth(Run(s, book, cs).On(side))
    decreases |cs|
  {
    hide WellFormed, Proper, Step, Flow, Depth;
    if cs != [] {
      StepKeepsBook(s, book, cs[0]);
      StepConserves(s, book, cs[0], side);
      RunConserves(s, Step(s, book, cs[0]), cs[1..], side);
    }
  }

  /** In a reachable book whoever is traded with next has priority over everyone behind. */
  lemma RunHonoursPriority(s: Settings, cs: seq<Command>, order: Order, k: nat, j: nat)
    requires AllProper(s, EMPTY_BOOK, cs) && Incoming(order)
    requires var book := Run(s, EMPTY_BOOK, cs);
      k < |Add(s, book, order).fills| && k < j < |book.On(order.side.Opposite())|
    ensures var book := Run(s, EMPTY_BOOK, cs);
      var opp := book.On(order.side.Opposite());
      Hits(Add(s, book, order).fills[k], opp[k]) && Ahead(order.side.Opposite(), opp[k], opp[j])
  {
    RunKeepsBook(s, EMPTY_BOOK, cs);
    hide Add, Run, AllProper;
    TradesHonourPriority(s, Run(s, EMPTY_BOOK, cs), order, k, j);
  }
}
