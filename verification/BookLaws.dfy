/** What the book promises: the shape of a sweep, price-time priority, conservation, an uncrossed book,
    all-or-nothing orders. */
module BookLaws {
  import opened Core
  import opened BookModel

  // ----- Well-formed books -----

  ghost predicate UniqueIds(flat: seq<Rest>) {
    forall i, j :: 0 <= i < j < |flat| ==> flat[i].order.id != flat[j].order.id
  }

  /** Unfilled, on its own side, at a price that is not the "no price" marker. */
  ghost predicate GoodRest(side: Side, r: Rest, clock: nat) {
    && r.order.side == side && r.order.filledQty < r.order.quantity
    && r.order.price != INVALID_PRICE && r.stamp < clock
  }

  ghost predicate GoodSide(side: Side, flat: seq<Rest>, clock: nat) {
    && Sorted(side, flat) && UniqueIds(flat)
    && (forall i :: 0 <= i < |flat| ==> GoodRest(side, flat[i], clock))
  }

  ghost predicate DisjointIds(a: seq<Rest>, b: seq<Rest>) {
    forall id :: !(Has(a, id) && Has(b, id))
  }

  ghost predicate WellFormed(book: Book) {
    && GoodSide(Buy, book.bids, book.clock) && GoodSide(Sell, book.asks, book.clock)
    && DisjointIds(book.bids, book.asks)
  }

  /** What callers owe: a fresh order, and no sentinel as the price of an order that may rest. */
  ghost predicate Incoming(order: Order) {
    && order.filledQty == 0
    && (Rests(order) ==> order.price != INVALID_PRICE)
  }

  // ----- Quantities -----

  function Traded(fills: seq<Fill>): nat {
    if fills == [] then 0 else fills[0].qty + Traded(fills[1..])
  }

  function Depth(flat: seq<Rest>): nat {
    if flat == [] then 0 else flat[0].order.Remaining() + Depth(flat[1..])
  }

  lemma {:induction false} DepthConcat(a: seq<Rest>, b: seq<Rest>)
    ensures Depth(a + b) == Depth(a) + Depth(b)
  {
    if a == [] {
      assert a + b == b;
    } else {
      DepthConcat(a[1..], b);
      assert (a + b)[1..] == a[1..] + b;
    }
  }

  // ----- The shape of a sweep -----

  ghost predicate Fillable(flat: seq<Rest>) {
    forall i :: 0 <= i < |flat| ==> flat[i].order.filledQty < flat[i].order.quantity
  }

  ghost predicate Hits(f: Fill, r: Rest) {
    && f.makerId == r.order.id && f.price == r.order.price
    && 0 < f.qty <= r.order.Remaining()
  }

  predicate HitsInFull(f: Fill, r: Rest) {
    f.qty == r.order.Remaining()
  }

  /** What is left of the resting side once its first `|fills|` orders were hit. */
  function Leftover(opp: seq<Rest>, fills: seq<Fill>): seq<Rest>
    requires |fills| <= |opp|
  {
    var n := |fills|;
    if n == 0 || HitsInFull(fills[n - 1], opp[n - 1]) then opp[n..]
    else opp[n - 1..][0 := opp[n - 1].(order := opp[n - 1].order.Fill(fills[n - 1].qty))]
  }

  lemma LeftoverTail(opp: seq<Rest>, fills: seq<Fill>)
    requires 1 < |fills| <= |opp|
    ensures Leftover(opp, fills) == Leftover(opp[1..], fills[1..])
  {
    assert opp[1..][|fills| - 1..] == opp[|fills|..];
    assert opp[1..][|fills| - 2..] == opp[|fills| - 1..];
    assert opp[1..][|fills| - 2] == opp[|fills| - 1];
  }

  lemma InFull(f: Fill, r: Rest)
    ensures HitsInFull(f, r) <==> f.qty == r.order.Remaining()
  {
  }

  lemma LeftoverShort(opp: seq<Rest>, fills: seq<Fill>)
    requires |fills| <= |opp|
    ensures fills == [] ==> Leftover(opp, fills) == opp
    ensures |fills| == 1 && HitsInFull(fills[0], opp[0]) ==> Leftover(opp, fills) == opp[1..]
    ensures |fills| == 1 && !HitsInFull(fills[0], opp[0]) ==>
              Leftover(opp, fills) == opp[0 := opp[0].(order := opp[0].order.Fill(fills[0].qty))]
  {
    assert opp[0..] == opp;
  }

  /** Price-time priority of one sweep: the makers are hit in queue order from the front, each in full before
      the next, and whoever is not hit is left as it was. */
  lemma {:induction false} SweepInOrder(stp: bool, taker: Order, opp: seq<Rest>)
    requires taker.filledQty <= taker.quantity && Fillable(opp)
    ensures var m := Match(stp, taker, opp);
      && |m.fills| <= |opp|
      && (forall k :: 0 <= k < |m.fills| ==> Hits(m.fills[k], opp[k]))
      && (forall k :: 0 <= k < |m.fills| - 1 ==> HitsInFull(m.fills[k], opp[k]))
      && m.opp == Leftover(opp, m.fills)
    decreases |opp|
  {
    hide Order.Remaining, Order.Fill, Order.IsFilled, Leftover, HitsInFull, Stops;
    var m := Match(stp, taker, opp);
    if !(taker.IsFilled() || opp == [] || Stops(stp, taker, opp[0].order)) {
      var maker := opp[0].order;
      var q := Min(taker.Remaining(), maker.Remaining());
      StartAccounts(taker);
      StartAccounts(maker);
      FillAccounts(taker, q);
      FillAccounts(maker, q);
      assert Hits(m.fills[0], opp[0]);
      if maker.Fill(q).IsFilled() {
        var tail := opp[1..];
        assert forall i :: 0 <= i < |tail| ==> tail[i] == opp[i + 1];
        SweepInOrder(stp, taker.Fill(q), tail);
        var rest := Match(stp, taker.Fill(q), tail);
        assert m.fills[1..] == rest.fills;
        forall k | 0 < k < |m.fills| ensures Hits(m.fills[k], opp[k]) {
          assert Hits(rest.fills[k - 1], tail[k - 1]);
        }
        forall k | 0 < k < |m.fills| - 1 ensures HitsInFull(m.fills[k], opp[k]) {
          assert HitsInFull(rest.fills[k - 1], tail[k - 1]);
        }
        assert HitsInFull(m.fills[0], opp[0]) by { InFull(m.fills[0], opp[0]); }
        if |m.fills| > 1 {
          LeftoverTail(opp, m.fills);
        } else {
          LeftoverShort(tail, rest.fills);
          LeftoverShort(opp, m.fills);
        }
      } else {
        LeftoverShort(opp, m.fills);
        assert !HitsInFull(m.fills[0], opp[0]) by { InFull(m.fills[0], opp[0]); }
      }
    } else {
      LeftoverShort(opp, m.fills);
    }
  }

  lemma StartAccounts(o: Order)
    requires o.filledQty <= o.quantity
    ensures o.Remaining() == o.quantity - o.filledQty
    ensures o.IsFilled() <==> o.Remaining() == 0
  {
  }

  /** The sweep goes on until the taker is filled or the front of the queue may not trade with it. */
  lemma {:induction false} SweepEnds(stp: bool, taker: Order, opp: seq<Rest>)
    requires taker.filledQty <= taker.quantity && Fillable(opp)
    ensures var m := Match(stp, taker, opp);
      m.taker.IsFilled() || m.opp == [] || Stops(stp, m.taker, m.opp[0].order)
    decreases |opp|
  {
    if !(taker.IsFilled() || opp == [] || Stops(stp, taker, opp[0].order)) {
      var maker := opp[0].order;
      var q := Min(taker.Remaining(), maker.Remaining());
      FillAccounts(taker, q);
      FillAccounts(maker, q);
      if maker.Fill(q).IsFilled() {
        SweepEnds(stp, taker.Fill(q), opp[1..]);
      }
    }
  }

  /** The taker only gains what was traded. */
  lemma {:induction false} SweepConserves(stp: bool, taker: Order, opp: seq<Rest>)
    requires taker.filledQty <= taker.quantity && Fillable(opp)
    ensures var m := Match(stp, taker, opp);
      && m.taker == taker.(filledQty := m.taker.filledQty, status := m.taker.status)
      && m.taker.filledQty <= m.taker.quantity
      && Traded(m.fills) == m.taker.filledQty - taker.filledQty == Depth(opp) - Depth(m.opp)
    decreases |opp|
  {
    if !(taker.IsFilled() || opp == [] || Stops(stp, taker, opp[0].order)) {
      var maker := opp[0].order;
      var q := Min(taker.Remaining(), maker.Remaining());
      FillAccounts(taker, q);
      FillAccounts(maker, q);
      if maker.Fill(q).IsFilled() {
        SweepConserves(stp, taker.Fill(q), opp[1..]);
        var rest := Match(stp, taker.Fill(q), opp[1..]);
        assert ([Fill(maker.id, maker.price, q)] + rest.fills)[1..] == rest.fills;
      } else {
        assert opp[0 := opp[0].(order := maker.Fill(q))][1..] == opp[1..];
      }
    }
  }

  // ----- The sweep in closed form -----

  /** How many orders at the front of the queue may trade with the taker. */
  function Reach(stp: bool, taker: Order, opp: seq<Rest>): (n: nat)
    ensures n <= |opp|
    ensures forall k :: 0 <= k < n ==> !Stops(stp, taker, opp[k].order)
    ensures n < |opp| ==> Stops(stp, taker, opp[n].order)
  {
    if opp == [] || Stops(stp, taker, opp[0].order) then 0 else 1 + Reach(stp, taker, opp[1..])
  }

  function FilledFrom(fills: seq<Fill>, k: nat): nat {
    if k < |fills| then fills[k].qty else 0
  }

  /** What the `k`-th order in the queue is owed by a taker of size `q`: what is left after everyone ahead. */
  function Share(q: nat, opp: seq<Rest>, k: nat): nat
    requires k < |opp|
  {
    var ahead := Depth(opp[..k]);
    if q <= ahead then 0 else Min(opp[k].order.Remaining(), q - ahead)
  }

  lemma ShareFirst(q: nat, opp: seq<Rest>)
    requires opp != []
    ensures Share(q, opp, 0) == Min(opp[0].order.Remaining(), q)
  {
    hide Order.Remaining;
    assert opp[..0] == [];
  }

  lemma ShareBehind(q: nat, opp: seq<Rest>, k: nat)
    requires 0 < k < |opp|
    ensures var first := opp[0].order.Remaining();
      Share(q, opp, k) == if q <= first then 0 else Share(q - first, opp[1..], k - 1)
  {
    hide Order.Remaining;
    assert opp[..k][1..] == opp[1..][..k - 1];
  }

  /** One trade of the sweep: how much, and what the rest of the sweep does. */
  lemma OneRound(stp: bool, taker: Order, opp: seq<Rest>)
    requires taker.filledQty < taker.quantity && opp != [] && Fillable(opp) && !Stops(stp, taker, opp[0].order)
    ensures var maker, tail := opp[0].order, opp[1..];
      var q := Min(taker.Remaining(), maker.Remaining());
      var m, next := Match(stp, taker, opp), taker.Fill(q);
      && m.fills != [] && m.fills[0].qty == q && Fillable(tail)
      && next.filledQty <= next.quantity && next.Remaining() == taker.Remaining() - q
      && Reach(stp, taker, opp) == 1 + Reach(stp, next, tail)
      && m.fills[1..] == if q == maker.Remaining() then Match(stp, next, tail).fills else []
  {
    hide Order.Remaining, Order.Fill, Order.IsFilled, Stops;
    var maker, tail := opp[0].order, opp[1..];
    var q := Min(taker.Remaining(), maker.Remaining());
    StartAccounts(taker);
    StartAccounts(maker);
    FillAccounts(taker, q);
    FillAccounts(maker, q);
    SameReach(stp, taker, taker.Fill(q), tail);
    assert forall i :: 0 <= i < |tail| ==> tail[i] == opp[i + 1];
  }

  /** A second definition of matching, with no recursion over trades: every order within reach gets exactly
      its share, every other one nothing. */
  lemma {:induction false} SweepClosedForm(stp: bool, taker: Order, opp: seq<Rest>, k: nat)
    requires taker.filledQty <= taker.quantity && Fillable(opp) && k < |opp|
    ensures FilledFrom(Match(stp, taker, opp).fills, k)
         == if k < Reach(stp, taker, opp) then Share(taker.Remaining(), opp, k) else 0
    decreases |opp|
  {
    hide Order.Remaining, Order.Fill, Order.IsFilled, Stops, Share, Match, Reach, Fillable;
    StartAccounts(taker);
    ShareFirst(taker.Remaining(), opp);
    if k > 0 {
      ShareBehind(taker.Remaining(), opp, k);
    }
    if taker.IsFilled() || Stops(stp, taker, opp[0].order) {
      NoRound(stp, taker, opp);
      NothingOwed(opp, k);
    } else {
      OneRound(stp, taker, opp);
      if k > 0 {
        var maker := opp[0].order;
        var q := Min(taker.Remaining(), maker.Remaining());
        NothingOwed(opp[1..], k - 1);
        if q == maker.Remaining() {
          SweepClosedForm(stp, taker.Fill(q), opp[1..], k - 1);
        }
      }
    }
  }

  lemma NoRound(stp: bool, taker: Order, opp: seq<Rest>)
    requires opp != [] && (taker.IsFilled() || Stops(stp, taker, opp[0].order))
    ensures Match(stp, taker, opp).fills == []
    ensures Stops(stp, taker, opp[0].order) ==> Reach(stp, taker, opp) == 0
  {
    hide Stops, Order.IsFilled;
  }

  lemma NothingOwed(opp: seq<Rest>, k: nat)
    requires k < |opp|
    ensures Share(0, opp, k) == 0
  {
    hide Depth, Order.Remaining;
  }

  lemma {:induction false} SameReach(stp: bool, a: Order, b: Order, opp: seq<Rest>)
    requires b == a.(filledQty := b.filledQty, status := b.status)
    ensures Reach(stp, a, opp) == Reach(stp, b, opp)
  {
    if opp != [] {
      SameReach(stp, a, b, opp[1..]);
    }
  }

  /** In total: the taker's size or all there is within reach, whichever is less. */
  lemma {:induction false} SweepTotal(stp: bool, taker: Order, opp: seq<Rest>)
    requires taker.filledQty <= taker.quantity && Fillable(opp)
    ensures Traded(Match(stp, taker, opp).fills) == Min(taker.Remaining(), Depth(opp[..Reach(stp, taker, opp)]))
    decreases |opp|
  {
    hide Order.Remaining, Order.Fill, Order.IsFilled, Stops;
    StartAccounts(taker);
    if opp != [] && !Stops(stp, taker, opp[0].order) && !taker.IsFilled() {
      FirstHit(stp, taker, opp);
      FirstReached(stp, taker, opp);
      hide Match, Reach, Depth, Traded;
      var maker := opp[0].order;
      var q := Min(taker.Remaining(), maker.Remaining());
      StartAccounts(maker);
      FillAccounts(taker, q);
      FillAccounts(maker, q);
      var tail := opp[1..];
      assert Fillable(tail) by {
        assert forall i :: 0 <= i < |tail| ==> tail[i] == opp[i + 1];
      }
      hide Fillable;
      SameReach(stp, taker, taker.Fill(q), tail);
      if maker.Fill(q).IsFilled() {
        SweepTotal(stp, taker.Fill(q), tail);
      }
    }
  }

  lemma FirstHit(stp: bool, taker: Order, opp: seq<Rest>)
    requires opp != [] && !taker.IsFilled() && !Stops(stp, taker, opp[0].order)
    ensures var maker := opp[0].order;
      var q := Min(taker.Remaining(), maker.Remaining());
      Traded(Match(stp, taker, opp).fills)
        == q + if maker.Fill(q).IsFilled() then Traded(Match(stp, taker.Fill(q), opp[1..]).fills) else 0
  {
    hide Order.Remaining, Order.Fill, Order.IsFilled, Stops;
    var maker := opp[0].order;
    var q := Min(taker.Remaining(), maker.Remaining());
    var rest := Match(stp, taker.Fill(q), opp[1..]).fills;
    assert ([Fill(maker.id, maker.price, q)] + rest)[1..] == rest;
  }

  lemma FirstReached(stp: bool, taker: Order, opp: seq<Rest>)
    requires opp != [] && !Stops(stp, taker, opp[0].order)
    ensures Depth(opp[..Reach(stp, taker, opp)])
         == opp[0].order.Remaining() + Depth(opp[1..][..Reach(stp, taker, opp[1..])])
  {
    hide Order.Remaining, Stops;
    var n := Reach(stp, taker, opp);
    assert opp[..n][1..] == opp[1..][..n - 1];
  }

  /** A taker that is not filled has used up everyone within reach, and nobody else. */
  lemma {:induction false} UnfilledLeaves(stp: bool, taker: Order, opp: seq<Rest>)
    requires taker.filledQty <= taker.quantity && Fillable(opp)
    ensures var m := Match(stp, taker, opp);
      !m.taker.IsFilled() ==>
        |m.fills| == Reach(stp, taker, opp) && m.opp == opp[Reach(stp, taker, opp)..]
    decreases |opp|
  {
    hide Order.Remaining, Order.Fill, Order.IsFilled, Stops;
    StartAccounts(taker);
    if opp == [] || Stops(stp, taker, opp[0].order) || taker.IsFilled() {
    } else {
      var maker := opp[0].order;
      var q := Min(taker.Remaining(), maker.Remaining());
      StartAccounts(maker);
      FillAccounts(taker, q);
      FillAccounts(maker, q);
      var tail := opp[1..];
      assert forall i :: 0 <= i < |tail| ==> tail[i] == opp[i + 1];
      SameReach(stp, taker, taker.Fill(q), tail);
      if maker.Fill(q).IsFilled() {
        UnfilledLeaves(stp, taker.Fill(q), tail);
      }
    }
  }

  lemma {:induction false} FillsWithinReach(stp: bool, taker: Order, opp: seq<Rest>)
    requires taker.filledQty <= taker.quantity && Fillable(opp)
    ensures |Match(stp, taker, opp).fills| <= Reach(stp, taker, opp)
    decreases |opp|
  {
    hide Order.Remaining, Order.Fill, Order.IsFilled, Stops, Match, Reach, Fillable;
    StartAccounts(taker);
    if opp == [] {
      NoMakers(stp, taker);
    } else if taker.IsFilled() || Stops(stp, taker, opp[0].order) {
      NoRound(stp, taker, opp);
    } else {
      OneRound(stp, taker, opp);
      FillsWithinReach(stp, taker.Fill(Min(taker.Remaining(), opp[0].order.Remaining())), opp[1..]);
    }
  }

  lemma NoMakers(stp: bool, taker: Order)
    ensures Match(stp, taker, []).fills == []
  {
  }

  // ----- What a sweep leaves of a good side -----

  /** The survivors keep their order, ids, prices and stamps; all but the first are untouched. */
  ghost predicate Survives(after: Rest, before: Rest) {
    && after.stamp == before.stamp
    && after.order == before.order.(filledQty := after.order.filledQty, status := after.order.status)
    && after.order.filledQty < after.order.quantity
  }

  lemma SuffixGood(side: Side, flat: seq<Rest>, d: nat, clock: nat)
    requires d <= |flat| && GoodSide(side, flat, clock)
    ensures GoodSide(side, flat[d..], clock)
  {
    var tail := flat[d..];
    assert forall i :: 0 <= i < |tail| ==> tail[i] == flat[i + d];
    forall i, j | 0 <= i < j < |tail| ensures Ahead(side, tail[i], tail[j]) && tail[i].order.id != tail[j].order.id {
      assert Ahead(side, flat[i + d], flat[j + d]);
    }
    forall i | 0 <= i < |tail| ensures GoodRest(side, tail[i], clock) {
      assert GoodRest(side, flat[i + d], clock);
    }
  }

  lemma HeadGood(side: Side, flat: seq<Rest>, head: Rest, clock: nat)
    requires flat != [] && GoodSide(side, flat, clock) && Survives(head, flat[0])
    ensures GoodSide(side, flat[0 := head], clock)
  {
    var up := flat[0 := head];
    assert GoodRest(side, flat[0], clock);
    forall i, j | 0 <= i < j < |up| ensures Ahead(side, up[i], up[j]) && up[i].order.id != up[j].order.id {
      assert Ahead(side, flat[i], flat[j]);
    }
    assert forall i :: 0 < i < |up| ==> GoodRest(side, flat[i], clock);
  }

  lemma GoodIsFillable(side: Side, flat: seq<Rest>, clock: nat)
    requires GoodSide(side, flat, clock)
    ensures Fillable(flat)
  {
    assert forall i :: 0 <= i < |flat| ==> GoodRest(side, flat[i], clock);
  }

  lemma PartlyFilledSurvives(r: Rest, f: Fill)
    requires r.order.filledQty < r.order.quantity && Hits(f, r) && !HitsInFull(f, r)
    ensures Survives(r.(order := r.order.Fill(f.qty)), r)
  {
    FillAccounts(r.order, f.qty);
  }

  /** Nobody gains priority, or a new id, by a sweep. */
  ghost predicate NoBetter(side: Side, left: seq<Rest>, opp: seq<Rest>) {
    && (left != [] ==> opp != [] && !Better(side, left[0].order.price, opp[0].order.price))
    && (forall i :: 0 <= i < |left| ==> exists j :: 0 <= j < |opp| && SamePlace(left[i], opp[j]))
  }

  ghost predicate SamePlace(a: Rest, b: Rest) {
    a.order.id == b.order.id && a.order.price == b.order.price && a.stamp == b.stamp
  }

  lemma SweepKeepsSide(stp: bool, taker: Order, opp: seq<Rest>, side: Side, clock: nat)
    requires taker.filledQty <= taker.quantity && GoodSide(side, opp, clock)
    ensures GoodSide(side, Match(stp, taker, opp).opp, clock)
    ensures NoBetter(side, Match(stp, taker, opp).opp, opp)
  {
    hide Match, Sorted, UniqueIds;
    GoodIsFillable(side, opp, clock);
    SweepInOrder(stp, taker, opp);
    var fills := Match(stp, taker, opp).fills;
    LeftoverGood(side, opp, fills, clock);
  }

  lemma LeftoverGood(side: Side, opp: seq<Rest>, fills: seq<Fill>, clock: nat)
    requires GoodSide(side, opp, clock) && |fills| <= |opp|
    requires forall k :: 0 <= k < |fills| ==> Hits(fills[k], opp[k])
    ensures GoodSide(side, Leftover(opp, fills), clock)
    ensures NoBetter(side, Leftover(opp, fills), opp)
  {
    var n := |fills|;
    if n == 0 || HitsInFull(fills[n - 1], opp[n - 1]) {
      SuffixGood(side, opp, n, clock);
      SuffixNoBetter(side, opp, n, clock);
    } else {
      GoodIsFillable(side, opp, clock);
      var tail, head := opp[n - 1..], opp[n - 1].(order := opp[n - 1].order.Fill(fills[n - 1].qty));
      PartlyFilledSurvives(opp[n - 1], fills[n - 1]);
      SuffixGood(side, opp, n - 1, clock);
      SuffixNoBetter(side, opp, n - 1, clock);
      hide NoBetter, GoodSide, Order.Fill;
      HeadGood(side, tail, head, clock);
      HeadNoBetter(side, tail, head, opp);
    }
  }

  lemma HeadNoBetter(side: Side, flat: seq<Rest>, head: Rest, opp: seq<Rest>)
    requires flat != [] && NoBetter(side, flat, opp) && Survives(head, flat[0])
    ensures NoBetter(side, flat[0 := head], opp)
  {
    var up := flat[0 := head];
    forall i | 0 <= i < |up| ensures exists j :: 0 <= j < |opp| && SamePlace(up[i], opp[j]) {
      var j :| 0 <= j < |opp| && SamePlace(flat[i], opp[j]);
      assert SamePlace(up[i], opp[j]);
    }
  }

  lemma SuffixNoBetter(side: Side, opp: seq<Rest>, d: nat, clock: nat)
    requires d <= |opp| && GoodSide(side, opp, clock)
    ensures NoBetter(side, opp[d..], opp)
  {
    if 0 < d < |opp| {
      assert Ahead(side, opp[0], opp[d]);
    }
    forall i | 0 <= i < |opp[d..]| ensures SamePlace(opp[d..][i], opp[i + d]) {
    }
  }
}
