/** Trades and reports as numbered messages, lookups after each edit, and the sum the fill-or-kill check takes. */
module BookEvents {
  import opened Core
  import opened PriceLevels
  import opened BookModel
  import opened BookLaws
  import opened BookSafety
  import opened BookQueues

  // ----- Numbered messages -----

  function TradeOf(symbol: Symbol, side: Side, taker: OrderId, f: Fill, seqNum: nat): Trade {
    if side == Buy then Trade(seqNum, symbol, f.price, f.qty, taker, f.makerId, side)
    else Trade(seqNum, symbol, f.price, f.qty, f.makerId, taker, side)
  }

  /** One trade per fill, numbered consecutively. */
  function TradesOf(symbol: Symbol, side: Side, taker: OrderId, fills: seq<Fill>, first: nat): seq<Trade> {
    seq(|fills|, i requires 0 <= i < |fills| => TradeOf(symbol, side, taker, fills[i], first + i))
  }

  lemma TradesOfConcat(symbol: Symbol, side: Side, taker: OrderId, a: seq<Fill>, b: seq<Fill>, first: nat)
    ensures TradesOf(symbol, side, taker, a + b, first)
         == TradesOf(symbol, side, taker, a, first) + TradesOf(symbol, side, taker, b, first + |a|)
  {
  }

  function ReportOf(n: Notice, execId: nat): Report {
    Report(execId, n.order.id, n.order.symbol, n.order.side, n.order.status, n.order.price, n.order.quantity,
           n.filled, Wrap32(n.order.quantity - n.filled))
  }

  function ReportsOf(ns: seq<Notice>, first: nat): seq<Report> {
    seq(|ns|, i requires 0 <= i < |ns| => ReportOf(ns[i], first + i))
  }

  // ----- Lookups -----

  /** The id map holds exactly the resting orders. */
  ghost predicate OrdersMatch(orders: map<OrderId, Order>, book: Book) {
    forall id :: (id in orders <==> Find(book, id).Some?) && (id in orders ==> orders[id] == Find(book, id).value.order)
  }

  lemma {:induction false} LookupConcat(a: seq<Rest>, b: seq<Rest>, id: OrderId)
    ensures Lookup(a + b, id) == if Lookup(a, id).Some? then Lookup(a, id) else Lookup(b, id)
  {
    if a == [] {
      assert a + b == b;
    } else {
      LookupConcat(a[1..], b, id);
      assert (a + b)[1..] == a[1..] + b;
    }
  }

  lemma LookupOne(r: Rest, id: OrderId)
    ensures Lookup([r], id) == if id == r.order.id then Some(r) else None
  {
    assert [r][1..] == [];
  }

  lemma LookupAround(a: seq<Rest>, r: Rest, b: seq<Rest>, id: OrderId)
    ensures Lookup(a + [r] + b, id) == if Lookup(a, id).Some? then Lookup(a, id)
                                       else if id == r.order.id then Some(r) else Lookup(b, id)
  {
    LookupConcat(a + [r], b, id);
    LookupConcat(a, [r], id);
    LookupOne(r, id);
    hide Lookup;
  }

  lemma LookupInserted(side: Side, flat: seq<Rest>, r: Rest, id: OrderId)
    requires !Has(flat, r.order.id)
    ensures Lookup(Inserted(side, flat, r), id) == if id == r.order.id then Some(r) else Lookup(flat, id)
  {
    var k := Slot(side, flat, r.order.price);
    assert flat == flat[..k] + flat[k..];
    LookupAround(flat[..k], r, flat[k..], id);
    LookupConcat(flat[..k], flat[k..], id);
    assert Lookup(flat, r.order.id).None?;
    hide Lookup, Slot;
  }

  lemma LookupRemoved(flat: seq<Rest>, gone: OrderId, id: OrderId)
    requires id != gone
    ensures Lookup(Removed(flat, gone), id) == Lookup(flat, id)
  {
    hide Lookup;
    var k := Position(flat, gone);
    if k < |flat| {
      assert flat == flat[..k] + [flat[k]] + flat[k + 1..];
      LookupAround(flat[..k], flat[k], flat[k + 1..], id);
      LookupConcat(flat[..k], flat[k + 1..], id);
    }
  }

  /** Editing the order at position `k` in place. */
  lemma LookupEdited(flat: seq<Rest>, k: nat, order: Order, id: OrderId)
    requires k < |flat| && UniqueIds(flat) && order.id == flat[k].order.id
    ensures Lookup(flat[k := flat[k].(order := order)], id)
         == if id == order.id then Some(flat[k].(order := order)) else Lookup(flat, id)
  {
    var r := flat[k].(order := order);
    var up := flat[k := r];
    assert flat == flat[..k] + [flat[k]] + flat[k + 1..] && up == flat[..k] + [r] + flat[k + 1..];
    LookupAround(flat[..k], flat[k], flat[k + 1..], id);
    LookupAround(flat[..k], r, flat[k + 1..], id);
    HasIff(flat[..k], order.id);
    hide Lookup;
  }

  lemma FindAfterJoin(book: Book, side: Side, r: Rest, id: OrderId)
    requires !Has(book.bids, r.order.id) && !Has(book.asks, r.order.id)
    ensures Find(book.With(side, Inserted(side, book.On(side), r)), id)
         == if id == r.order.id then Some(r) else Find(book, id)
  {
    LookupInserted(side, book.On(side), r, id);
    hide Has, Inserted;
  }

  lemma FindAfterCancel(book: Book, gone: OrderId, id: OrderId)
    requires WellFormed(book)
    ensures Find(Cancel(book, gone), id) == if id == gone then None else Find(book, id)
  {
    FindIsOnItsSide(book, gone);
    CancelKeepsBook(book, gone);
    if id != gone {
      LookupRemoved(book.bids, gone, id);
      LookupRemoved(book.asks, gone, id);
    }
    hide WellFormed, Has, Position, Removed;
  }

  // ----- A sweep in progress -----

  /** Having made `fills` so far, with `order` and `flat` left, the sweep of `order0` over `flat0` is still on course. */
  ghost predicate OnCourse(stp: bool, order0: Order, flat0: seq<Rest>, fills: seq<Fill>, order: Order, flat: seq<Rest>) {
    var m := Match(stp, order, flat);
    Match(stp, order0, flat0) == Matched(m.taker, m.opp, fills + m.fills)
  }

  lemma OnCourseStart(stp: bool, order: Order, flat: seq<Rest>)
    ensures OnCourse(stp, order, flat, [], order, flat)
  {
    hide Match;
  }

  lemma OnCourseStep(stp: bool, order0: Order, flat0: seq<Rest>, fills: seq<Fill>, order: Order, flat: seq<Rest>)
    requires OnCourse(stp, order0, flat0, fills, order, flat)
    requires order.filledQty < order.quantity && flat != [] && !Stops(stp, order, flat[0].order)
    requires flat[0].order.filledQty < flat[0].order.quantity
    ensures var maker := flat[0].order;
      var q := Min(order.Remaining(), maker.Remaining());
      && OnCourse(stp, order0, flat0, fills + [Fill(maker.id, maker.price, q)], order.Fill(q), FrontHit(flat, q))
      && order.Fill(q).Remaining() < order.Remaining() && order.Fill(q).filledQty <= order.quantity
      && order.Fill(q) == order.(filledQty := order.Fill(q).filledQty, status := order.Fill(q).status)
      && q <= maker.Remaining()
  {
    var maker := flat[0].order;
    var q := Min(order.Remaining(), maker.Remaining());
    StartAccounts(order);
    StartAccounts(maker);
    FillAccounts(order, q);
    FillAccounts(maker, q);
    hide Order.Fill, Order.Remaining, Order.IsFilled, Stops;
    var m, m' := Match(stp, order, flat), Match(stp, order.Fill(q), FrontHit(flat, q));
    assert m.fills == [Fill(maker.id, maker.price, q)] + m'.fills && m.taker == m'.taker && m.opp == m'.opp;
    hide Match;
    assert fills + m.fills == (fills + [Fill(maker.id, maker.price, q)]) + m'.fills;
  }

  lemma OnCourseTrans(stp: bool, order0: Order, flat0: seq<Rest>, fills: seq<Fill>, order: Order, flat: seq<Rest>,
                      more: seq<Fill>, order': Order, flat': seq<Rest>)
    requires OnCourse(stp, order0, flat0, fills, order, flat) && OnCourse(stp, order, flat, more, order', flat')
    ensures OnCourse(stp, order0, flat0, fills + more, order', flat')
  {
    hide Match;
    var m, m' := Match(stp, order, flat), Match(stp, order', flat');
    assert fills + m.fills == (fills + more) + m'.fills;
  }

  /** Where the sweep halts, what was done is all of it. */
  lemma OnCourseEnds(stp: bool, order0: Order, flat0: seq<Rest>, fills: seq<Fill>, order: Order, flat: seq<Rest>)
    requires OnCourse(stp, order0, flat0, fills, order, flat)
    requires order.IsFilled() || flat == [] || Stops(stp, order, flat[0].order)
    ensures Match(stp, order0, flat0) == Matched(order, flat, fills)
  {
    hide Stops;
    assert fills + [] == fills;
  }

  // ----- The fill-or-kill sum -----

  /** Crossing quantity over the prices in `ps`. */
  ghost function CrossingIn(taker: Order, opp: seq<Rest>, ps: set<Price>): nat {
    if opp == [] then 0
    else
      var o := opp[0].order;
      (if o.price in ps && Crosses(taker, o.price) then o.Remaining() else 0) + CrossingIn(taker, opp[1..], ps)
  }

  lemma {:induction false} CrossingInNone(taker: Order, opp: seq<Rest>)
    ensures CrossingIn(taker, opp, {}) == 0
  {
    if opp != [] {
      CrossingInNone(taker, opp[1..]);
    }
  }

  /** One more level adds what its queue holds. */
  lemma {:induction false} CrossingInMore(taker: Order, opp: seq<Rest>, ps: set<Price>, p: Price)
    requires p !in ps
    ensures CrossingIn(taker, opp, ps + {p})
         == CrossingIn(taker, opp, ps) + if Crosses(taker, p) then Sum(Queue(opp, p)) else 0
  {
    if opp != [] {
      CrossingInMore(taker, opp[1..], ps, p);
      SumConcat(EntryAt(opp[0], p), Queue(opp[1..], p));
      hide Queue;
    }
  }

  lemma {:induction false} CrossingInIsUpTo(taker: Order, opp: seq<Rest>, ps: set<Price>, bound: Price)
    requires forall i :: 0 <= i < |opp| ==> (opp[i].order.price in ps <==> opp[i].order.price <= bound)
    ensures CrossingIn(taker, opp, ps) == CrossingUpTo(taker, opp, bound)
  {
    if opp != [] {
      assert forall i :: 0 <= i < |opp[1..]| ==> opp[1..][i] == opp[i + 1];
      CrossingInIsUpTo(taker, opp[1..], ps, bound);
    }
  }
}
