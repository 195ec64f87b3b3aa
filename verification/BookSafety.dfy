/** What every operation keeps, and the guarantees of each order type. */
module BookSafety {
  import opened Core
  import opened BookModel
  import opened BookLaws

  // ----- Editing one side -----

  lemma {:induction false} PositionFirst(flat: seq<Rest>, id: OrderId)
    ensures forall i :: 0 <= i < Position(flat, id) ==> flat[i].order.id != id
  {
    if flat != [] && flat[0].order.id != id {
      PositionFirst(flat[1..], id);
      assert forall i :: 0 < i < Position(flat, id) ==> flat[i] == flat[1..][i - 1];
    }
  }

  lemma PositionOf(flat: seq<Rest>, k: nat)
    requires UniqueIds(flat) && k < |flat|
    ensures Position(flat, flat[k].order.id) == k
  {
    PositionFirst(flat, flat[k].order.id);
  }

  lemma HasIff(flat: seq<Rest>, id: OrderId)
    ensures Has(flat, id) <==> exists i :: 0 <= i < |flat| && flat[i].order.id == id
  {
    PositionFirst(flat, id);
  }

  /** A newcomer at `price` goes after everyone better or equal and before everyone worse. */
  lemma {:induction false} SlotSplits(side: Side, flat: seq<Rest>, price: Price)
    requires Sorted(side, flat)
    ensures var k := Slot(side, flat, price);
      && (forall i :: 0 <= i < k ==> !Better(side, price, flat[i].order.price))
      && (forall i :: k <= i < |flat| ==> Better(side, price, flat[i].order.price))
  {
    if flat == [] {
    } else if Better(side, price, flat[0].order.price) {
      forall i | 0 < i < |flat| ensures Better(side, price, flat[i].order.price) {
        assert Ahead(side, flat[0], flat[i]);
      }
    } else {
      var tail := flat[1..];
      assert forall i :: 0 <= i < |tail| ==> tail[i] == flat[i + 1];
      forall i, j | 0 <= i < j < |tail| ensures Ahead(side, tail[i], tail[j]) {
        assert Ahead(side, flat[i + 1], flat[j + 1]);
      }
      SlotSplits(side, tail, price);
      var k := Slot(side, tail, price);
      forall i | 0 < i < |flat| ensures if i < k + 1 then !Better(side, price, flat[i].order.price)
                                        else Better(side, price, flat[i].order.price) {
        assert flat[i] == tail[i - 1];
      }
    }
  }

  lemma InsertedGood(side: Side, flat: seq<Rest>, r: Rest, clock: nat)
    requires GoodSide(side, flat, clock) && GoodRest(side, r, clock + 1) && r.stamp == clock
    requires !Has(flat, r.order.id)
    ensures GoodSide(side, Inserted(side, flat, r), clock + 1)
  {
    SlotSplits(side, flat, r.order.price);
    HasIff(flat, r.order.id);
    var k := Slot(side, flat, r.order.price);
    var up := Inserted(side, flat, r);
    forall i | 0 <= i < |up| ensures GoodRest(side, up[i], clock + 1) {
      assert i != k ==> GoodRest(side, flat[if i < k then i else i - 1], clock);
    }
    forall i, j | 0 <= i < j < |up| ensures Ahead(side, up[i], up[j]) && up[i].order.id != up[j].order.id {
      InsertedPair(side, flat, r, clock, i, j);
    }
  }

  lemma InsertedPair(side: Side, flat: seq<Rest>, r: Rest, clock: nat, i: nat, j: nat)
    requires GoodSide(side, flat, clock) && r.stamp == clock
    requires var k := Slot(side, flat, r.order.price);
      && (forall i :: 0 <= i < k ==> !Better(side, r.order.price, flat[i].order.price))
      && (forall i :: k <= i < |flat| ==> Better(side, r.order.price, flat[i].order.price))
    requires forall i :: 0 <= i < |flat| ==> flat[i].order.id != r.order.id
    requires i < j < |flat| + 1
    ensures var up := Inserted(side, flat, r); Ahead(side, up[i], up[j]) && up[i].order.id != up[j].order.id
  {
    var k := Slot(side, flat, r.order.price);
    if i != k && j != k {
      assert Ahead(side, flat[if i < k then i else i - 1], flat[if j < k then j else j - 1]);
    } else if j == k {
      assert GoodRest(side, flat[i], clock);
    }
  }

  lemma RemovedGood(side: Side, flat: seq<Rest>, id: OrderId, clock: nat)
    requires GoodSide(side, flat, clock)
    ensures GoodSide(side, Removed(flat, id), clock) && !Has(Removed(flat, id), id)
  {
    PositionFirst(flat, id);
    var k := Position(flat, id);
    var cut := Removed(flat, id);
    if k < |flat| {
      forall i, j | 0 <= i < j < |cut| ensures Ahead(side, cut[i], cut[j]) && cut[i].order.id != cut[j].order.id {
        assert Ahead(side, flat[if i < k then i else i + 1], flat[if j < k then j else j + 1]);
      }
      forall i | 0 <= i < |cut| ensures GoodRest(side, cut[i], clock) && cut[i].order.id != id {
        assert GoodRest(side, flat[if i < k then i else i + 1], clock);
        assert flat[k].order.id == id;
      }
    }
    HasIff(cut, id);
  }

  lemma RequantifiedGood(side: Side, flat: seq<Rest>, id: OrderId, qty: Quantity, clock: nat)
    requires GoodSide(side, flat, clock)
    requires Has(flat, id) ==> flat[Position(flat, id)].order.filledQty < qty
    ensures GoodSide(side, Requantified(flat, id, qty), clock)
  {
    var k := Position(flat, id);
    var up := Requantified(flat, id, qty);
    forall i, j | 0 <= i < j < |up| ensures Ahead(side, up[i], up[j]) && up[i].order.id != up[j].order.id {
      assert Ahead(side, flat[i], flat[j]);
    }
    forall i | 0 <= i < |up| ensures GoodRest(side, up[i], clock) {
      assert GoodRest(side, flat[i], clock);
    }
  }

  lemma InsertedFront(side: Side, flat: seq<Rest>, r: Rest)
    ensures var up := Inserted(side, flat, r);
      |up| == |flat| + 1 && up[0] == if flat == [] || Better(side, r.order.price, flat[0].order.price) then r else flat[0]
  {
  }

  lemma InsertedHas(side: Side, flat: seq<Rest>, r: Rest, id: OrderId)
    ensures Has(Inserted(side, flat, r), id) <==> id == r.order.id || Has(flat, id)
  {
    var k := Slot(side, flat, r.order.price);
    var up := Inserted(side, flat, r);
    HasIff(flat, id);
    HasIff(up, id);
    assert up[k] == r;
    assert forall i :: 0 <= i < |flat| ==> flat[i] == up[if i < k then i else i + 1];
  }

  lemma RemovedHas(flat: seq<Rest>, id: OrderId, other: OrderId)
    requires UniqueIds(flat)
    ensures Has(Removed(flat, id), other) <==> other != id && Has(flat, other)
  {
    var k := Position(flat, id);
    var cut := Removed(flat, id);
    HasIff(flat, other);
    HasIff(cut, other);
    PositionFirst(flat, id);
    if k < |flat| {
      assert forall i :: 0 <= i < |flat| && i != k ==> flat[i] == cut[if i < k then i else i - 1];
    }
  }

  lemma RequantifiedHas(flat: seq<Rest>, id: OrderId, qty: Quantity, other: OrderId)
    ensures Has(Requantified(flat, id, qty), other) <==> Has(flat, other)
  {
    HasIff(flat, other);
    HasIff(Requantified(flat, id, qty), other);
    assert forall i :: 0 <= i < |flat| ==> Requantified(flat, id, qty)[i].order.id == flat[i].order.id;
  }

  lemma NoBetterHas(side: Side, left: seq<Rest>, opp: seq<Rest>, id: OrderId)
    requires NoBetter(side, left, opp) && Has(left, id)
    ensures Has(opp, id)
  {
    HasIff(left, id);
    HasIff(opp, id);
    var i :| 0 <= i < |left| && left[i].order.id == id;
    assert exists j :: 0 <= j < |opp| && SamePlace(left[i], opp[j]);
  }

  // ----- Every operation keeps the book well formed -----

  lemma SweepKeepsBook(stp: bool, taker: Order, book: Book)
    requires WellFormed(book) && taker.filledQty <= taker.quantity
    ensures var opp := taker.side.Opposite();
      WellFormed(book.With(opp, Match(stp, taker, book.On(opp)).opp))
  {
    hide Match, Sorted, UniqueIds, Has;
    var side := taker.side.Opposite();
    SweepKeepsSide(stp, taker, book.On(side), side, book.clock);
    var m := Match(stp, taker, book.On(side));
    forall id ensures !(Has(m.opp, id) && Has(book.On(taker.side), id)) {
      if Has(m.opp, id) {
        NoBetterHas(side, m.opp, book.On(side), id);
      }
    }
  }

  lemma JoinKeepsBook(book: Book, order: Order)
    requires WellFormed(book) && order.filledQty < order.quantity && order.price != INVALID_PRICE
    requires !Has(book.bids, order.id) && !Has(book.asks, order.id)
    ensures var r := Rest(order, book.clock);
      WellFormed(book.With(order.side, Inserted(order.side, book.On(order.side), r)).(clock := book.clock + 1))
  {
    hide Sorted, UniqueIds, Has, Inserted;
    var r := Rest(order, book.clock);
    InsertedGood(order.side, book.On(order.side), r, book.clock);
    LaterGood(order.side.Opposite(), book.On(order.side.Opposite()), book.clock);
    var up := Inserted(order.side, book.On(order.side), r);
    forall id ensures !(Has(up, id) && Has(book.On(order.side.Opposite()), id)) {
      InsertedHas(order.side, book.On(order.side), r, id);
    }
  }

  lemma LaterGood(side: Side, flat: seq<Rest>, clock: nat)
    requires GoodSide(side, flat, clock)
    ensures GoodSide(side, flat, clock + 1)
  {
    forall i | 0 <= i < |flat| ensures GoodRest(side, flat[i], clock + 1) {
      assert GoodRest(side, flat[i], clock);
    }
  }

  lemma AddKeepsBook(s: Settings, book: Book, order: Order)
    requires WellFormed(book) && Incoming(order)
    ensures WellFormed(Add(s, book, order).book)
  {
    hide Match, Sorted, UniqueIds, Has, Inserted, FokAccepts;
    var taker := Priced(order);
    if Verdict(s, book, taker) == NoReason {
      var side := taker.side.Opposite();
      var opp := book.On(side);
      GoodIsFillable(side, opp, book.clock);
      var m := Match(s.selfTradePrevention, taker, opp);
      SweepConserves(s.selfTradePrevention, taker, opp);
      SweepKeepsBook(s.selfTradePrevention, taker, book);
      SweepKeepsSide(s.selfTradePrevention, taker, opp, side, book.clock);
      if Rests(m.taker) {
        var swept := book.With(side, m.opp);
        if Has(m.opp, taker.id) {
          NoBetterHas(side, m.opp, opp, taker.id);
        }
        JoinKeepsBook(swept, m.taker);
      }
    }
  }

  lemma CancelKeepsBook(book: Book, id: OrderId)
    requires WellFormed(book)
    ensures WellFormed(Cancel(book, id))
    ensures !Has(Cancel(book, id).bids, id) && !Has(Cancel(book, id).asks, id)
  {
    FindIsOnItsSide(book, id);
    hide Sorted, UniqueIds, Has, Removed;
    var found := Find(book, id);
    if found.Some? {
      var side := found.value.order.side;
      var flat := book.On(side);
      RemovedGood(side, flat, id, book.clock);
      forall other ensures Has(Removed(flat, id), other) <==> other != id && Has(flat, other) {
        RemovedHas(flat, id, other);
      }
    }
  }

  lemma FindIsOnItsSide(book: Book, id: OrderId)
    requires WellFormed(book)
    ensures Find(book, id) == None <==> !Has(book.bids, id) && !Has(book.asks, id)
    ensures Find(book, id).Some? ==>
      var r := Find(book, id).value;
      var flat := book.On(r.order.side);
      && Has(flat, id) && r == flat[Position(flat, id)] && r.order.id == id
      && GoodRest(r.order.side, r, book.clock) && !Has(book.On(r.order.side.Opposite()), id)
  {
    var b, a := Position(book.bids, id), Position(book.asks, id);
    assert b < |book.bids| ==> GoodRest(Buy, book.bids[b], book.clock);
    assert a < |book.asks| ==> GoodRest(Sell, book.asks[a], book.clock);
    assert !(Has(book.bids, id) && Has(book.asks, id));
  }

  /** What a replace must satisfy: at the same price, nothing filled yet and a positive new quantity;
      at a new price, no sentinel. */
  ghost predicate Replaceable(book: Book, id: OrderId, newPrice: Price, newQty: Quantity) {
    match Find(book, id)
    case None => true
    case Some(r) =>
      if r.order.price == newPrice then r.order.filledQty == 0 && newQty > 0
      else Incoming(Renewed(r.order, newPrice, newQty))
  }

  lemma ReplaceKeepsBook(s: Settings, book: Book, id: OrderId, newPrice: Price, newQty: Quantity)
    requires WellFormed(book) && Replaceable(book, id, newPrice, newQty)
    ensures WellFormed(Replace(s, book, id, newPrice, newQty).book)
  {
    FindIsOnItsSide(book, id);
    hide Sorted, UniqueIds, Has, Requantified, Add;
    var found := Find(book, id);
    if found.Some? {
      var o := found.value.order;
      if o.price == newPrice {
        var flat := book.On(o.side);
        RequantifiedGood(o.side, flat, id, newQty, book.clock);
        forall other ensures Has(Requantified(flat, id, newQty), other) <==> Has(flat, other) {
          RequantifiedHas(flat, id, newQty, other);
        }
      } else {
        CancelKeepsBook(book, id);
        AddKeepsBook(s, Cancel(book, id), Renewed(o, newPrice, newQty));
      }
    }
  }

  /** What an add does to the two sides: the opposite one is swept, its own gains at most the remainder. */
  lemma AddBothSides(s: Settings, book: Book, order: Order)
    requires WellFormed(book) && Incoming(order)
    ensures var a := Add(s, book, order);
      var ok := Verdict(s, book, Priced(order)) == NoReason;
      var opp := book.On(order.side.Opposite());
      && (ok ==> Matched(a.taker, a.book.On(order.side.Opposite()), a.fills)
                 == Match(s.selfTradePrevention, Priced(order), opp))
      && (!ok ==> a.book == book && a.fills == [] && a.taker == Priced(order) && !a.result.success)
      && a.taker == Priced(order).(filledQty := a.taker.filledQty, status := a.taker.status)
      && a.taker.filledQty <= a.taker.quantity
      && a.book.On(order.side) == (if ok && Rests(a.taker)
                                   then Inserted(order.side, book.On(order.side), Rest(a.taker, book.clock))
                                   else book.On(order.side))
      && a.book.clock == (if ok && Rests(a.taker) then book.clock + 1 else book.clock)
  {
    hide Match, Inserted, Verdict;
    GoodIsFillable(order.side.Opposite(), book.On(order.side.Opposite()), book.clock);
    SweepConserves(s.selfTradePrevention, Priced(order), book.On(order.side.Opposite()));
  }
}
