/** How the flat side of the model falls apart into one queue per price. */
module BookQueues {
  import opened Core
  import opened PriceLevels
  import opened BookModel
  import opened BookLaws
  import opened BookSafety

  function EntryAt(r: Rest, p: Price): seq<Entry> {
    if r.order.price == p then [Entry(r.order.id, r.order.Remaining())] else []
  }

  /** The orders resting at price `p`, as the level at `p` holds them. */
  function Queue(flat: seq<Rest>, p: Price): seq<Entry> {
    if flat == [] then [] else EntryAt(flat[0], p) + Queue(flat[1..], p)
  }

  lemma {:induction false} QueueConcat(a: seq<Rest>, b: seq<Rest>, p: Price)
    ensures Queue(a + b, p) == Queue(a, p) + Queue(b, p)
  {
    hide EntryAt;
    if a == [] {
      assert a + b == b;
    } else {
      QueueConcat(a[1..], b, p);
      assert (a + b)[1..] == a[1..] + b;
    }
  }

  lemma {:induction false} QueueEmpty(flat: seq<Rest>, p: Price)
    ensures Queue(flat, p) == [] <==> forall i :: 0 <= i < |flat| ==> flat[i].order.price != p
  {
    if flat != [] {
      QueueEmpty(flat[1..], p);
      assert forall i :: 0 < i < |flat| ==> flat[i] == flat[1..][i - 1];
    }
  }

  /** Around position `k`. */
  lemma QueueSplit(flat: seq<Rest>, k: nat, p: Price)
    requires k < |flat|
    ensures Queue(flat, p) == Queue(flat[..k], p) + EntryAt(flat[k], p) + Queue(flat[k + 1..], p)
  {
    hide EntryAt;
    var one := [flat[k]];
    assert flat == flat[..k] + (one + flat[k + 1..]);
    QueueConcat(flat[..k], one + flat[k + 1..], p);
    QueueConcat(one, flat[k + 1..], p);
    assert one[1..] == [] && Queue(one, p) == EntryAt(one[0], p) + [];
  }

  lemma {:induction false} QueueIds(flat: seq<Rest>, p: Price, id: OrderId)
    ensures id in Ids(Queue(flat, p)) <==>
      exists i :: 0 <= i < |flat| && flat[i].order.id == id && flat[i].order.price == p
  {
    if flat == [] {
    } else {
      QueueIds(flat[1..], p, id);
      IdsConcat(EntryAt(flat[0], p), Queue(flat[1..], p));
      assert forall i :: 0 < i < |flat| ==> flat[i] == flat[1..][i - 1];
      assert forall i :: 0 <= i < |flat| - 1 ==> flat[1..][i] == flat[i + 1];
    }
  }

  lemma {:induction false} IdsConcat(a: seq<Entry>, b: seq<Entry>)
    ensures Ids(a + b) == Ids(a) + Ids(b)
  {
    if a == [] {
      assert a + b == b;
    } else {
      IdsConcat(a[1..], b);
      assert (a + b)[1..] == a[1..] + b;
    }
  }

  lemma {:induction false} QueueDistinct(flat: seq<Rest>, p: Price)
    requires UniqueIds(flat)
    ensures DistinctIds(Queue(flat, p))
  {
    if flat != [] {
      var tail := flat[1..];
      forall i, j | 0 <= i < j < |tail| ensures tail[i].order.id != tail[j].order.id {
        assert flat[i + 1].order.id != flat[j + 1].order.id;
      }
      QueueDistinct(tail, p);
      QueueIds(tail, p, flat[0].order.id);
      HeadDistinct(Entry(flat[0].order.id, flat[0].order.Remaining()), Queue(tail, p));
    }
  }

  lemma HeadDistinct(e: Entry, q: seq<Entry>)
    requires DistinctIds(q) && e.id !in Ids(q)
    ensures DistinctIds([e] + q)
  {
    var k := IdsMembership(q, e.id);
    hide Ids;
  }

  // ----- What each edit does to the queues -----

  lemma QueueInserted(side: Side, flat: seq<Rest>, r: Rest, p: Price)
    requires Sorted(side, flat)
    ensures Queue(Inserted(side, flat, r), p)
         == if p == r.order.price then Queue(flat, p) + [Entry(r.order.id, r.order.Remaining())] else Queue(flat, p)
  {
    var k := Slot(side, flat, r.order.price);
    NoneBehindSlot(side, flat, r.order.price);
    hide Sorted, Slot;
    QueueAround(flat, k, r, p);
  }

  lemma NoneBehindSlot(side: Side, flat: seq<Rest>, price: Price)
    requires Sorted(side, flat)
    ensures Queue(flat[Slot(side, flat, price)..], price) == []
  {
    SlotSplits(side, flat, price);
    var k := Slot(side, flat, price);
    hide Queue, Sorted, Slot;
    var tail := flat[k..];
    forall i | 0 <= i < |tail| ensures tail[i].order.price != price {
      assert Better(side, price, flat[k + i].order.price);
    }
    QueueEmpty(tail, price);
  }

  lemma QueueAround(flat: seq<Rest>, k: nat, r: Rest, p: Price)
    requires k <= |flat| && (p == r.order.price ==> Queue(flat[k..], p) == [])
    ensures Queue(flat[..k] + [r] + flat[k..], p) == Queue(flat, p) + EntryAt(r, p)
  {
    var up := flat[..k] + [r] + flat[k..];
    assert up[..k] == flat[..k] && up[k] == r && up[k + 1..] == flat[k..] && flat == flat[..k] + flat[k..];
    QueueSplit(up, k, p);
    QueueConcat(flat[..k], flat[k..], p);
    hide Queue;
  }

  lemma QueueRemoved(flat: seq<Rest>, id: OrderId, p: Price)
    requires UniqueIds(flat) && Has(flat, id)
    ensures Queue(Removed(flat, id), p)
         == if p == flat[Position(flat, id)].order.price then Without(Queue(flat, p), id) else Queue(flat, p)
  {
    var k := Position(flat, id);
    var before, after := Queue(flat[..k], p), Queue(flat[k + 1..], p);
    QueueSplit(flat, k, p);
    QueueConcat(flat[..k], flat[k + 1..], p);
    QueueDistinct(flat, p);
    hide Queue, UniqueIds, DistinctIds, Position;
    if p == flat[k].order.price {
      WithoutMiddle(before, EntryAt(flat[k], p)[0], after);
    } else {
      assert before + [] + after == before + after;
    }
  }

  lemma WithoutMiddle(a: seq<Entry>, e: Entry, b: seq<Entry>)
    requires DistinctIds(a + [e] + b)
    ensures Without(a + [e] + b, e.id) == a + b
  {
    var q := a + [e] + b;
    IndexOfAt(q, |a|);
    assert q[..|a|] == a && q[|a| + 1..] == b;
  }

  lemma QueueRequantified(flat: seq<Rest>, id: OrderId, qty: Quantity, p: Price)
    requires UniqueIds(flat) && Has(flat, id)
    ensures var o := flat[Position(flat, id)].order;
      Queue(Requantified(flat, id, qty), p)
        == if p == o.price then WithQuantity(Queue(flat, p), id, o.(quantity := qty).Remaining()) else Queue(flat, p)
  {
    var k, up := Position(flat, id), Requantified(flat, id, qty);
    QueueSplit(flat, k, p);
    QueueSplit(up, k, p);
    assert up[..k] == flat[..k] && up[k + 1..] == flat[k + 1..];
    QueueDistinct(flat, p);
    hide Queue, UniqueIds, DistinctIds, Position, Order.Remaining, Has;
    if p == flat[k].order.price {
      WithQuantityMiddle(Queue(flat[..k], p), EntryAt(flat[k], p)[0], Queue(flat[k + 1..], p),
                         flat[k].order.(quantity := qty).Remaining());
    }
  }

  lemma WithQuantityMiddle(a: seq<Entry>, e: Entry, b: seq<Entry>, qty: Quantity)
    requires DistinctIds(a + [e] + b)
    ensures WithQuantity(a + [e] + b, e.id, qty) == a + [Entry(e.id, qty)] + b
  {
    IndexOfAt(a + [e] + b, |a|);
  }

  /** Filling the order at the front. */
  function FrontHit(flat: seq<Rest>, qty: Quantity): seq<Rest>
    requires flat != []
  {
    var o := flat[0].order.Fill(qty);
    if o.IsFilled() then flat[1..] else flat[0 := flat[0].(order := o)]
  }

  lemma QueueFrontHit(flat: seq<Rest>, qty: Quantity, p: Price)
    requires flat != [] && flat[0].order.filledQty < flat[0].order.quantity && qty <= flat[0].order.Remaining()
    ensures Queue(FrontHit(flat, qty), p)
         == if p == flat[0].order.price then FrontFilled(Queue(flat, p), qty) else Queue(flat, p)
  {
    FillAccounts(flat[0].order, qty);
    hide Order.Fill, Order.IsFilled, Order.Remaining;
    var up := flat[0 := flat[0].(order := flat[0].order.Fill(qty))];
    var rest := Queue(flat[1..], p);
    assert up[1..] == flat[1..];
    assert Queue(flat, p) == EntryAt(flat[0], p) + rest && Queue(up, p) == EntryAt(up[0], p) + rest;
    hide Queue;
  }

  // ----- The prices in use -----

  ghost function Prices(flat: seq<Rest>): set<Price> {
    set i | 0 <= i < |flat| :: flat[i].order.price
  }

  lemma PricesInserted(side: Side, flat: seq<Rest>, r: Rest)
    ensures Prices(Inserted(side, flat, r)) <= Prices(flat) + {r.order.price}
  {
  }

  lemma PricesRemoved(flat: seq<Rest>, id: OrderId)
    ensures Prices(Removed(flat, id)) <= Prices(flat)
  {
  }

  lemma PricesRequantified(flat: seq<Rest>, id: OrderId, qty: Quantity)
    ensures Prices(Requantified(flat, id, qty)) <= Prices(flat)
  {
    forall i | 0 <= i < |flat| ensures Requantified(flat, id, qty)[i].order.price in Prices(flat) {
      assert flat[i].order.price in Prices(flat);
    }
  }

  lemma PricesFrontHit(flat: seq<Rest>, qty: Quantity)
    requires flat != []
    ensures Prices(FrontHit(flat, qty)) <= Prices(flat)
  {
    var up := FrontHit(flat, qty);
    forall i | 0 <= i < |up| ensures up[i].order.price in Prices(flat) {
      assert flat[if |up| < |flat| then i + 1 else i].order.price in Prices(flat);
    }
  }

  lemma QueueNonEmpty(flat: seq<Rest>, p: Price)
    ensures Queue(flat, p) != [] <==> p in Prices(flat)
  {
    QueueEmpty(flat, p);
  }
}
