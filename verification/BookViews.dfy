/** How the stored forms of one book agree, and the depth snapshot read off them
    (include/engine/order_book.hpp, src/engine/order_book.cpp). */
module BookViews {
  import opened Core
  import opened PriceLevels
  import opened BookModel
  import opened BookLaws
  import opened BookSafety
  import opened BookQueues
  import opened BookEvents
  import opened BookGuarantees
  import opened LevelMaps
  import opened OrderBooks

  /** `e` is listed in the level at `p`. */
  ghost predicate Lists(b: OrderBook, side: Side, p: Price, e: Entry)
    reads b, b.LevelsOn(side).Values
  {
    p in b.LevelsOn(side) && e in b.LevelsOn(side)[p].contents
  }

  lemma {:induction false} QueueHolds(flat: seq<Rest>, p: Price, e: Entry)
    ensures e in Queue(flat, p) <==>
      exists i :: 0 <= i < |flat| && flat[i].order.price == p && Entry(flat[i].order.id, flat[i].order.Remaining()) == e
  {
    hide Order.Remaining;
    if flat != [] {
      QueueHolds(flat[1..], p, e);
      assert forall i :: 0 < i < |flat| ==> flat[i] == flat[1..][i - 1];
      assert forall i :: 0 <= i < |flat| - 1 ==> flat[1..][i] == flat[i + 1];
    }
  }

  lemma LevelIsQueue(b: OrderBook, side: Side, p: Price)
    requires b.Valid() && p in b.LevelsOn(side)
    ensures b.LevelsOn(side)[p].Valid() && b.LevelsOn(side)[p].contents == Queue(b.book.On(side), p) != []
    ensures b.LevelsOn(side)[p] in b.Repr && b.LevelsOn(side)[p].Repr <= b.Repr
  {
    hide Queue, Prices, WellFormed, OrdersMatch, PriceLevel.Valid;
    LevelInside(b.LevelsOn(side), b.book.On(side), {}, b.ReprOn(side), p);
  }

  lemma BookIsWellFormed(b: OrderBook)
    requires b.Valid()
    ensures WellFormed(b.book) && OrdersMatch(b.orders, b.book)
    ensures SideRep(b.LevelsOn(Buy), b.book.bids, {}, b.bidRepr) && SideRep(b.LevelsOn(Sell), b.book.asks, {}, b.askRepr)
  {
    hide SideRep, WellFormed, OrdersMatch;
  }

  lemma FoundAt(book: Book, id: OrderId) returns (i: nat)
    requires WellFormed(book) && Find(book, id).Some?
    ensures var r := Find(book, id).value;
      i < |book.On(r.order.side)| && book.On(r.order.side)[i] == r && r.order.id == id && r.order.Remaining() > 0
  {
    hide WellFormed, Find, UniqueIds, Position;
    FindIsOnItsSide(book, id);
    var r := Find(book, id).value;
    i := Position(book.On(r.order.side), id);
  }

  /** Every order of the id map is listed on its own side, at its own price, with what remains of it. */
  lemma OrderIsListed(b: OrderBook, id: OrderId)
    requires b.Valid() && id in b.orders
    ensures var o := b.orders[id]; o.id == id && o.Remaining() > 0 && Lists(b, o.side, o.price, Entry(id, o.Remaining()))
  {
    hide OrderBook.Valid, SideRep, WellFormed, OrdersMatch, Find, Has, Order.Remaining, Queue;
    BookIsWellFormed(b);
    b.KnownId(id);
    var o := b.orders[id];
    var i := FoundAt(b.book, id);
    b.PriceIsHeld(id);
    LevelIsQueue(b, o.side, o.price);
    QueueHolds(b.book.On(o.side), o.price, Entry(id, o.Remaining()));
  }

  /** Every listing is that of an order of the id map, so no order is listed twice. */
  lemma ListedIsOrder(b: OrderBook, side: Side, p: Price, e: Entry)
    requires b.Valid() && Lists(b, side, p, e)
    ensures e.id in b.orders
    ensures var o := b.orders[e.id]; o.side == side && o.price == p && e.qty == o.Remaining() > 0
    ensures DistinctIds(b.LevelsOn(side)[p].contents)
  {
    BookIsWellFormed(b);
    LevelIsQueue(b, side, p);
    var flat := b.book.On(side);
    hide OrderBook.Valid, SideRep, OrdersMatch;
    QueueHolds(flat, p, e);
    var i :| 0 <= i < |flat| && flat[i].order.price == p && Entry(flat[i].order.id, flat[i].order.Remaining()) == e;
    Placed(b.book, side, i);
    b.KnownId(e.id);
  }

  lemma Placed(book: Book, side: Side, i: nat)
    requires WellFormed(book) && i < |book.On(side)|
    ensures var r := book.On(side)[i];
      Find(book, r.order.id) == Some(r) && r.order.side == side && r.order.Remaining() > 0
  {
    hide Find, Sorted, Position, Has;
    var flat := book.On(side);
    var id := flat[i].order.id;
    assert GoodRest(side, flat[i], book.clock);
    HasIff(flat, id);
    PositionOf(flat, i);
    hide GoodSide, DisjointIds, UniqueIds, GoodRest;
    FindIsOnItsSide(book, id);
  }

  /** The cached best is the extreme key of its map, or the sentinel when the map is empty. */
  lemma BestIsExtreme(b: OrderBook, side: Side)
    requires b.Valid()
    ensures if b.LevelsOn(side) == map[] then b.BestOn(side) == INVALID_PRICE
            else b.BestOn(side) in b.LevelsOn(side) &&
                 forall p :: p in b.LevelsOn(side) ==> !Better(side, p, b.BestOn(side))
  {
    BookIsWellFormed(b);
    b.BestFacts(side);
    var flat := b.book.On(side);
    KeysArePrices(b.LevelsOn(side), flat, b.ReprOn(side));
    hide OrderBook.Valid, SideRep, OrdersMatch;
    if Prices(flat) == {} {
      PricesEmpty(flat);
      assert b.LevelsOn(side).Keys == {};
    } else {
      var p := BestIsFront(side, flat);
      hide Prices;
    }
  }

  // ----- The stored state as a value -----

  /** Everything the object stores about the book: each queue as it is linked, front first. */
  datatype View = View(
    orders: map<OrderId, Order>,
    bids: map<Price, seq<Entry>>, asks: map<Price, seq<Entry>>,
    bestBid: Price, bestAsk: Price)

  ghost function Queues(levels: Levels): map<Price, seq<Entry>>
    reads levels.Values
  {
    map p | p in levels :: levels[p].contents
  }

  ghost function ViewOf(b: OrderBook): View
    reads b, b.bidLevels.Values, b.askLevels.Values
  {
    View(b.orders, Queues(b.bidLevels), Queues(b.askLevels), b.bestBid, b.bestAsk)
  }

  ghost predicate Holds(queues: map<Price, seq<Entry>>, flat: seq<Rest>) {
    queues.Keys == Prices(flat) && forall p :: p in queues ==> queues[p] == Queue(flat, p)
  }

  ghost predicate Shows(v: View, book: Book) {
    && OrdersMatch(v.orders, book)
    && Holds(v.bids, book.bids) && Holds(v.asks, book.asks)
    && v.bestBid == BestPrice(book.bids) && v.bestAsk == BestPrice(book.asks)
  }

  lemma QueuesHold(b: OrderBook, side: Side)
    requires b.Valid()
    ensures Holds(Queues(b.LevelsOn(side)), b.book.On(side))
  {
    hide Queue, Prices, WellFormed, OrdersMatch, OrderBook.Valid;
    BookIsWellFormed(b);
    KeysArePrices(b.LevelsOn(side), b.book.On(side), b.ReprOn(side));
    forall p | p in b.LevelsOn(side)
      ensures b.LevelsOn(side)[p].contents == Queue(b.book.On(side), p)
    {
      LevelIsQueue(b, side, p);
    }
  }

  lemma ShowsItsBook(b: OrderBook)
    requires b.Valid()
    ensures Shows(ViewOf(b), b.book)
  {
    hide Holds, OrdersMatch, WellFormed, SideRep, OrderBook.Valid;
    BookIsWellFormed(b);
    b.BestFacts(Buy);
    b.BestFacts(Sell);
    QueuesHold(b, Buy);
    QueuesHold(b, Sell);
  }

  /** The stored state is a function of the two queues: equal books are stored alike, whatever their history. */
  lemma OneViewPerBook(v: View, w: View, book: Book, clock: nat)
    requires Shows(v, book) && Shows(w, book.(clock := clock))
    ensures v == w
  {
    hide Queue, Prices, Find;
    forall id
      ensures (id in v.orders <==> id in w.orders) && (id in v.orders ==> v.orders[id] == w.orders[id])
    {
      FindIgnoresClock(book, clock, id);
    }
    assert v.orders == w.orders && v.bids == w.bids && v.asks == w.asks;
  }

  lemma FindIgnoresClock(book: Book, clock: nat, id: OrderId)
    ensures Find(book.(clock := clock), id) == Find(book, id)
  {
  }

  /** Adding an order that rests without trading, then cancelling it, restores the stored state exactly: the id map,
      every queue in order, and both cached bests. */
  method AddThenCancel(b: OrderBook, order: Order)
    requires b.Valid() && Incoming(order)
    requires var a := Add(b.config.settings, b.book, order); a.result.success && a.fills == [] && Rests(a.taker)
    modifies b.Repr
    ensures b.Valid() && fresh(b.Repr - old(b.Repr))
    ensures ViewOf(b) == old(ViewOf(b))
  {
    hide OrderBook.Valid, Add, Cancel, Shows, ViewOf, WellFormed, Incoming, SideRep, OrdersMatch;
    ghost var view, book := ViewOf(b), b.book;
    ShowsItsBook(b);
    BookIsWellFormed(b);
    CancelUndoesAdd(b.config.settings, book, order);
    var _ := b.AddOrder(order);
    var _ := b.CancelOrder(order.id);
    ShowsItsBook(b);
    OneViewPerBook(view, ViewOf(b), book, book.clock + 1);
  }

  // ----- Amending after a fill -----

  /** Why a fill stands in the way: a buy of 10 rests, 4 of it trade, and it is replaced by 8 at its own price. The level
      then holds 8 for it, the order says 4 remain; a new quantity of 3 would leave 2^32 - 1. */
  lemma AmendAfterFillDisagrees(s: Settings, symbol: Symbol)
    requires !s.selfTradePrevention
    ensures var buy := NewOrder(1, symbol, Buy, 5, 10, Limit, Day);
      var sell := NewOrder(2, symbol, Sell, 5, 4, Limit, Day);
      var one := Add(s, EMPTY_BOOK, buy);
      var two := Add(s, one.book, sell);
      var three := Replace(s, two.book, 1, 5, 8);
      && Incoming(buy) && Incoming(sell) && one.result.success && two.result.success && three.result.success
      && Queue(two.book.bids, 5) == [Entry(1, 6)]
      && WithQuantity(Queue(two.book.bids, 5), 1, 8) == [Entry(1, 8)] && Queue(three.book.bids, 5) == [Entry(1, 4)]
      && Queue(Replace(s, two.book, 1, 5, 3).book.bids, 5) == [Entry(1, 0xFFFF_FFFF)]
  {
    hide Add, Queue, Order.Remaining;
    var hit := PartlyTraded(s, symbol);
    AmendedTo(s, hit, 8);
    AmendedTo(s, hit, 3);
    QueueOfOne(hit, 5);
    NumbersAfterFill(hit);
    assert IndexOf([Entry(1, 6)], 1) == 0;
  }

  /** The book after the trade: one buy of 10, with 4 filled. */
  lemma PartlyTraded(s: Settings, symbol: Symbol) returns (hit: Rest)
    requires !s.selfTradePrevention
    ensures var buy := NewOrder(1, symbol, Buy, 5, 10, Limit, Day);
      var sell := NewOrder(2, symbol, Sell, 5, 4, Limit, Day);
      var one := Add(s, EMPTY_BOOK, buy);
      var two := Add(s, one.book, sell);
      && hit == Rest(buy.(filledQty := 4, status := PartiallyFilled), 0)
      && one.result.success && two.result.success && two.book == Book([hit], [], 1)
  {
    hide FokAccepts, Notices;
    var buy := NewOrder(1, symbol, Buy, 5, 10, Limit, Day);
    var sell := NewOrder(2, symbol, Sell, 5, 4, Limit, Day);
    RestsUntraded(s, EMPTY_BOOK, buy);
    assert Inserted(Buy, [], Rest(buy, 0)) == [Rest(buy, 0)];
    var one := Book([Rest(buy, 0)], [], 1);
    hit := Rest(buy.Fill(4), 0);
    HasIff(one.bids, 2);
    assert Match(false, sell, one.bids) == Matched(sell.Fill(4), [hit], [Fill(1, 5, 4)]);
  }

  lemma AmendedTo(s: Settings, hit: Rest, qty: Quantity)
    requires hit.order.side == Buy && hit.order.price == 5 && hit.order.id == 1
    ensures var a := Replace(s, Book([hit], [], 1), 1, 5, qty);
      && a.result.success
      && Queue(a.book.bids, 5) == [Entry(1, hit.order.(quantity := qty).Remaining())]
  {
    hide Queue, Order.Remaining, Add;
    var amended := hit.(order := hit.order.(quantity := qty));
    assert Requantified([hit], 1, qty) == [amended];
    QueueOfOne(amended, 5);
  }

  lemma NumbersAfterFill(hit: Rest)
    requires hit.order.quantity == 10 && hit.order.filledQty == 4
    ensures hit.order.Remaining() == 6
    ensures hit.order.(quantity := 8).Remaining() == 4 && hit.order.(quantity := 3).Remaining() == 0xFFFF_FFFF
  {
  }

  lemma QueueOfOne(r: Rest, p: Price)
    requires r.order.price == p
    ensures Queue([r], p) == [Entry(r.order.id, r.order.Remaining())]
  {
    hide Order.Remaining;
    assert [r][1..] == [];
    assert Queue([r], p) == EntryAt(r, p) + Queue([], p);
  }

  // ----- Depth -----

  datatype LevelUpdate = LevelUpdate(price: Price, quantity: Quantity, orderCount: Quantity)

  /** The row of a snapshot for one price of the model. */
  function Row(flat: seq<Rest>, p: Price): LevelUpdate {
    LevelUpdate(p, Wrap32(Sum(Queue(flat, p))), Wrap32(|Queue(flat, p)|))
  }

  /** `rows` are the best prices of `prices`, best first, and `left` are the rest. */
  ghost predicate BestFirst(side: Side, rows: seq<LevelUpdate>, prices: set<Price>, left: set<Price>) {
    && (forall i, j :: 0 <= i < j < |rows| ==> Better(side, rows[i].price, rows[j].price))
    && (forall i :: 0 <= i < |rows| ==> rows[i].price in prices && rows[i].price !in left)
    && (forall i, p :: 0 <= i < |rows| && p in left ==> Better(side, rows[i].price, p))
    && left <= prices && |rows| + |left| == |prices|
  }

  /** `get_bids` and `get_asks`: the best levels, best first, with their totals; no better level is left out. */
  method Depth(b: OrderBook, side: Side, depth: nat) returns (rows: seq<LevelUpdate>, ghost left: set<Price>)
    requires b.Valid()
    ensures BestFirst(side, rows, Prices(b.book.On(side)), left)
    ensures forall i :: 0 <= i < |rows| ==> rows[i] == Row(b.book.On(side), rows[i].price)
    ensures |rows| == Min(depth, |Prices(b.book.On(side))|)
  {
    hide OrderBook.Valid, WellFormed, OrdersMatch, SideRep, Queue, Prices, Sum;
    ghost var flat := b.book.On(side);
    BookIsWellFormed(b);
    KeysArePrices(b.LevelsOn(side), flat, b.ReprOn(side));
    var keys := b.LevelsOn(side).Keys;
    rows := [];
    while |rows| < depth && keys != {}
      invariant BestFirst(side, rows, Prices(flat), keys) && |rows| <= depth
      invariant forall i :: 0 <= i < |rows| ==> rows[i] == Row(flat, rows[i].price)
      decreases |keys|
    {
      ghost var extreme := Extreme(side, keys);
      var p := PickBest(keys, side, extreme);
      LevelIsQueue(b, side, p);
      var level := b.LevelsOn(side)[p];
      var row := LevelUpdate(p, level.totalQuantity, Wrap32(level.orderCount));
      NextRow(side, rows, Prices(flat), keys, row);
      rows, keys := rows + [row], keys - {p};
    }
    left := keys;
  }

  lemma {:induction false} Extreme(side: Side, keys: set<Price>) returns (p: Price)
    requires keys != {}
    ensures p in keys && forall q :: q in keys ==> !Better(side, q, p)
    decreases |keys|
  {
    p :| p in keys;
    if keys != {p} {
      var rest := keys - {p};
      var q := Extreme(side, rest);
      assert forall r :: r in keys ==> r == p || r in rest;
      p := if Better(side, p, q) then p else q;
    }
  }

  lemma NextRow(side: Side, rows: seq<LevelUpdate>, prices: set<Price>, left: set<Price>, row: LevelUpdate)
    requires BestFirst(side, rows, prices, left) && row.price in left
    requires forall q :: q in left ==> !Better(side, q, row.price)
    ensures BestFirst(side, rows + [row], prices, left - {row.price})
  {
    assert |left| == |left - {row.price}| + 1;
  }
}
