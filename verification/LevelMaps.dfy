/** One side of the book in the heap: a map from price to level (the `bid_levels_` and `ask_levels_` of
    src/engine/order_book.cpp), tied to the flat side of the model. */
module LevelMaps {
  import opened Core
  import opened PriceLevels
  import opened BookModel
  import opened BookLaws
  import opened BookSafety
  import opened BookQueues

  type Levels = map<Price, PriceLevel>

  /** The level at `p` is intact and holds the queue of `p`. */
  ghost predicate LevelAt(levels: Levels, flat: seq<Rest>, p: Price)
    requires p in levels
    reads levels[p], levels[p].Repr
  {
    levels[p].Valid() && levels[p].price == p && levels[p].contents == Queue(flat, p)
  }

  ghost predicate Apart(levels: Levels, p: Price, q: Price)
    requires p in levels && q in levels
    reads levels[p], levels[q]
  {
    levels[p].Repr !! levels[q].Repr
  }

  /** The levels share no memory. */
  ghost predicate Separate(levels: Levels)
    reads levels.Values
  {
    forall p, q :: p in levels && q in levels && p != q ==> Apart(levels, p, q)
  }

  /** The map holds `flat`, in the memory `repr`; only a level in `hole` may be empty. */
  ghost predicate SideRep(levels: Levels, flat: seq<Rest>, hole: set<Price>, repr: set<object>)
    reads repr
    ensures SideRep(levels, flat, hole, repr) ==>
      forall p :: p in levels ==> levels[p] in repr
  {
    && (forall p :: p in levels ==> levels[p] in repr)
    && (forall p :: p in levels ==> levels[p].Repr <= repr)
    && Separate(levels)
    && (forall p :: p in levels ==> LevelAt(levels, flat, p))
    && (forall p :: p in levels && p !in hole ==> Queue(flat, p) != [])
    && Prices(flat) <= levels.Keys
  }

  lemma LevelInside(levels: Levels, flat: seq<Rest>, hole: set<Price>, repr: set<object>, p: Price)
    requires SideRep(levels, flat, hole, repr) && p in levels
    ensures levels[p].Repr <= repr && LevelAt(levels, flat, p)
  {
  }

  /** A level may be called a hole, and a hole that is not empty is none. */
  lemma HoleAllowed(levels: Levels, flat: seq<Rest>, repr: set<object>, p: Price)
    requires p in levels
    ensures SideRep(levels, flat, {}, repr) ==> SideRep(levels, flat, {p}, repr) && Queue(flat, p) != []
    ensures SideRep(levels, flat, {p}, repr) && Queue(flat, p) != [] ==> SideRep(levels, flat, {}, repr)
  {
    hide Queue, Prices, LevelAt, Separate;
  }

  lemma PricesHeld(levels: Levels, flat: seq<Rest>, hole: set<Price>, repr: set<object>)
    requires SideRep(levels, flat, hole, repr)
    ensures Prices(flat) <= levels.Keys
  {
  }

  /** `level.total_quantity()` */
  method TotalAt(levels: Levels, price: Price, ghost flat: seq<Rest>, ghost repr: set<object>) returns (total: Quantity)
    requires SideRep(levels, flat, {}, repr) && price in levels
    ensures total == Wrap32(Sum(Queue(flat, price)))
  {
    LevelInside(levels, flat, {}, repr, price);
    hide SideRep, Queue, Wrap32, Sum;
    total := levels[price].totalQuantity;
  }

  /** `level.fill_front`, when the front of the side rests at `price`. */
  method FillFrontAt(levels: Levels, price: Price, qty: Quantity, ghost flat: seq<Rest>, ghost repr: set<object>)
    returns (ghost repr': set<object>)
    requires SideRep(levels, flat, {price}, repr) && price in levels
    requires flat != [] && flat[0].order.price == price
    requires flat[0].order.filledQty < flat[0].order.quantity && qty <= flat[0].order.Remaining()
    modifies levels[price].Repr
    ensures SideRep(levels, FrontHit(flat, qty), {price}, repr') && repr <= repr' && fresh(repr' - repr)
  {
    hide Queue, Prices, FrontHit, FrontFilled, Order.Fill, Order.Remaining, PriceLevel.Valid;
    var level := levels[price];
    assert LevelAt(levels, flat, price);
    forall p ensures Queue(FrontHit(flat, qty), p)
      == if p == price then FrontFilled(Queue(flat, p), qty) else Queue(flat, p) {
      QueueFrontHit(flat, qty, p);
    }
    PricesFrontHit(flat, qty);
    level.FillFront(qty);
    repr' := repr + level.Repr;
    forall p | p in levels ensures LevelAt(levels, FrontHit(flat, qty), p) {
      assert old(LevelAt(levels, flat, p));
      assert p != price ==> old(Apart(levels, p, price));
    }
    forall p, q | p in levels && q in levels && p != q ensures Apart(levels, p, q) {
      assert old(Apart(levels, p, q));
    }
  }

  /** `try_emplace`: a missing level is created empty. */
  method Emplace(levels: Levels, ghost flat: seq<Rest>, price: Price, ghost repr: set<object>)
    returns (levels': Levels, ghost repr': set<object>)
    requires SideRep(levels, flat, {}, repr)
    ensures SideRep(levels', flat, {price}, repr') && price in levels' && repr <= repr' && fresh(repr' - repr)
    ensures levels'.Keys == levels.Keys + {price}
    ensures price in levels ==> levels' == levels
    ensures price !in levels ==> fresh(levels'[price].Repr)
  {
    hide Queue, Prices, PriceLevel.Valid;
    levels', repr' := levels, repr;
    if price !in levels {
      QueueNonEmpty(flat, price);
      var level := new PriceLevel(price);
      levels', repr' := levels[price := level], repr + level.Repr;
      forall p | p in levels' ensures LevelAt(levels', flat, p) {
        assert p != price ==> LevelAt(levels, flat, p);
      }
      forall p, q | p in levels' && q in levels' && p != q ensures Apart(levels', p, q) {
        assert p != price && q != price ==> Apart(levels, p, q);
      }
    }
  }

  /** `try_emplace` and `add_order`: the new order goes to the back of its level. */
  method AppendAt(levels: Levels, side: Side, ghost flat: seq<Rest>, ghost r: Rest, price: Price, id: OrderId,
                  qty: Quantity, ghost repr: set<object>)
    returns (levels': Levels, ghost repr': set<object>)
    requires SideRep(levels, flat, {}, repr) && Sorted(side, flat) && !Has(flat, id)
    requires r.order.id == id && r.order.price == price && r.order.Remaining() == qty
    modifies if price in levels then levels[price].Repr else {}
    ensures SideRep(levels', Inserted(side, flat, r), {}, repr') && repr <= repr' && fresh(repr' - repr)
    ensures levels'.Keys == levels.Keys + {price}
  {
    hide SideRep;
    if price in levels {
      LevelInside(levels, flat, {}, repr, price);
    }
    levels', repr' := Emplace(levels, flat, price, repr);
    repr' := AddOrderAt(levels', side, flat, r, price, id, qty, repr');
  }

  method AddOrderAt(levels: Levels, side: Side, ghost flat: seq<Rest>, ghost r: Rest, price: Price, id: OrderId,
                    qty: Quantity, ghost repr: set<object>)
    returns (ghost repr': set<object>)
    requires SideRep(levels, flat, {price}, repr) && price in levels && Sorted(side, flat) && !Has(flat, id)
    requires r.order.id == id && r.order.price == price && r.order.Remaining() == qty
    modifies levels[price].Repr
    ensures SideRep(levels, Inserted(side, flat, r), {}, repr') && repr <= repr' && fresh(repr' - repr)
  {
    hide Queue, Prices, Inserted, Sorted, Order.Remaining, PriceLevel.Valid, Has, Ids;
    forall p ensures Queue(Inserted(side, flat, r), p)
      == if p == price then Queue(flat, p) + [Entry(id, qty)] else Queue(flat, p) {
      QueueInserted(side, flat, r, p);
    }
    PricesInserted(side, flat, r);
    HasIff(flat, id);
    QueueIds(flat, price, id);
    assert LevelAt(levels, flat, price);
    levels[price].AddOrder(id, qty);
    repr' := repr + levels[price].Repr;
    forall p | p in levels ensures LevelAt(levels, Inserted(side, flat, r), p) {
      assert old(LevelAt(levels, flat, p));
      assert p != price ==> old(Apart(levels, p, price));
    }
    forall p, q | p in levels && q in levels && p != q ensures Apart(levels, p, q) {
      assert old(Apart(levels, p, q));
    }
  }

  /** `remove_order_from_level`: an emptied level leaves the map. */
  method RemoveAt(levels: Levels, ghost flat: seq<Rest>, id: OrderId, price: Price, ghost repr: set<object>)
    returns (levels': Levels, ghost repr': set<object>)
    requires SideRep(levels, flat, {}, repr) && UniqueIds(flat) && Has(flat, id)
    requires flat[Position(flat, id)].order.price == price
    modifies if price in levels then levels[price].Repr else {}
    ensures SideRep(levels', Removed(flat, id), {}, repr') && repr <= repr' && fresh(repr' - repr)
    ensures levels'.Keys <= levels.Keys
  {
    hide Queue, Prices, Removed, Without, UniqueIds, PriceLevel.Valid, Position, Ids;
    forall p ensures Queue(Removed(flat, id), p) == if p == price then Without(Queue(flat, p), id) else Queue(flat, p) {
      QueueRemoved(flat, id, p);
    }
    PricesRemoved(flat, id);
    QueueIds(flat, price, id);
    levels', repr' := levels, repr;
    if price in levels {
      assert LevelAt(levels, flat, price);
      var found := levels[price].RemoveOrder(id);
      repr' := repr + levels[price].Repr;
      forall p | p in levels ensures LevelAt(levels, Removed(flat, id), p) {
        assert old(LevelAt(levels, flat, p));
        assert p != price ==> old(Apart(levels, p, price));
      }
      forall p, q | p in levels && q in levels && p != q ensures Apart(levels, p, q) {
        assert old(Apart(levels, p, q));
      }
      if levels[price].orderCount == 0 {
        levels' := EraseAt(levels, Removed(flat, id), price, repr');
      }
    }
  }

  /** `levels.erase` of an empty level. */
  method EraseAt(levels: Levels, ghost flat: seq<Rest>, price: Price, ghost repr: set<object>) returns (levels': Levels)
    requires SideRep(levels, flat, {price}, repr) && price in levels && Queue(flat, price) == []
    ensures SideRep(levels', flat, {}, repr) && levels' == levels - {price}
  {
    hide Queue, Prices, PriceLevel.Valid;
    QueueNonEmpty(flat, price);
    levels' := levels - {price};
    forall p | p in levels' ensures LevelAt(levels', flat, p) {
      assert LevelAt(levels, flat, p);
    }
    forall p, q | p in levels' && q in levels' && p != q ensures Apart(levels', p, q) {
      assert Apart(levels, p, q);
    }
  }

  /** `modify_quantity` on the level and `quantity = new_qty` on the order: the two agree again only if nothing of
      the order had been filled. */
  method ModifyAt(levels: Levels, ghost flat: seq<Rest>, id: OrderId, price: Price, qty: Quantity,
                  ghost repr: set<object>)
    returns (ghost repr': set<object>)
    requires SideRep(levels, flat, {}, repr) && price in levels && UniqueIds(flat) && Has(flat, id)
    requires flat[Position(flat, id)].order.price == price
    modifies levels[price].Repr
    ensures repr <= repr' && fresh(repr' - repr)
    ensures SideRep(levels, Requantified(flat, id, qty), {}, repr') <==> flat[Position(flat, id)].order.filledQty == 0
  {
    hide Queue, Prices, Requantified, UniqueIds, PriceLevel.Valid, Position, Ids, WithQuantity;
    ghost var up := Requantified(flat, id, qty);
    ghost var rem := flat[Position(flat, id)].order.(quantity := qty).Remaining();
    forall p ensures Queue(up, p) == if p == price then WithQuantity(Queue(flat, p), id, rem) else Queue(flat, p) {
      QueueRequantified(flat, id, qty, p);
    }
    PricesRequantified(flat, id, qty);
    QueueIds(flat, price, id);
    HasIff(flat, id);
    assert LevelAt(levels, flat, price);
    var found := levels[price].ModifyQuantity(id, qty);
    repr' := repr + levels[price].Repr;
    WithQuantityTells(Queue(flat, price), id, qty, rem);
    forall p | p in levels && p != price ensures LevelAt(levels, up, p) {
      assert old(LevelAt(levels, flat, p)) && old(Apart(levels, p, price));
    }
    forall p, q | p in levels && q in levels && p != q ensures Apart(levels, p, q) {
      assert old(Apart(levels, p, q));
    }
    assert LevelAt(levels, up, price) <==> qty == rem;
  }

  /** Setting two quantities gives two queues. */
  lemma WithQuantityTells(q: seq<Entry>, id: OrderId, a: Quantity, b: Quantity)
    requires id in Ids(q)
    ensures WithQuantity(q, id, a) == WithQuantity(q, id, b) <==> a == b
    ensures |WithQuantity(q, id, a)| == |q| > 0
  {
    IndexOfFinds(q, id);
    hide IndexOf;
    var k := IndexOf(q, id);
    assert WithQuantity(q, id, a)[k].qty == a;
  }

  lemma {:induction false} IndexOfFinds(q: seq<Entry>, id: OrderId)
    requires id in Ids(q)
    ensures IndexOf(q, id) < |q|
  {
    if q[0].id != id {
      IndexOfFinds(q[1..], id);
    }
  }
}
