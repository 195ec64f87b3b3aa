/** The FIFO of orders at one price: a doubly linked list with an index by order id
    (include/engine/price_level.hpp, src/engine/price_level.cpp). */
module PriceLevels {
  import opened Core

  datatype Entry = Entry(id: OrderId, qty: Quantity)

  // The queue as a plain sequence, and what each operation does to it.

  function Sum(q: seq<Entry>): nat {
    if q == [] then 0 else q[0].qty + Sum(q[1..])
  }

  ghost predicate DistinctIds(q: seq<Entry>) {
    forall i, j :: 0 <= i < j < |q| ==> q[i].id != q[j].id
  }

  ghost function Ids(q: seq<Entry>): set<OrderId> {
    if q == [] then {} else {q[0].id} + Ids(q[1..])
  }

  lemma {:induction false} IdsMembership(q: seq<Entry>, id: OrderId) returns (k: nat)
    ensures id in Ids(q) <==> exists i :: 0 <= i < |q| && q[i].id == id
    ensures id in Ids(q) ==> k < |q| && q[k].id == id
  {
    k := 0;
    if q != [] && q[0].id != id {
      k := IdsMembership(q[1..], id);
      assert forall i :: 0 <= i < |q| && q[i].id == id ==> 0 < i && q[1..][i - 1].id == id;
      k := k + 1;
    }
  }

  /** The place of `id` in the queue, or its length. */
  function IndexOf(q: seq<Entry>, id: OrderId): (k: nat)
    ensures k <= |q|
  {
    if q == [] || q[0].id == id then 0 else 1 + IndexOf(q[1..], id)
  }

  function Without(q: seq<Entry>, id: OrderId): seq<Entry> {
    var k := IndexOf(q, id);
    if k < |q| then q[..k] + q[k + 1..] else q
  }

  function WithQuantity(q: seq<Entry>, id: OrderId, qty: Quantity): seq<Entry> {
    var k := IndexOf(q, id);
    if k < |q| then q[k := Entry(id, qty)] else q
  }

  function FrontFilled(q: seq<Entry>, qty: Quantity): seq<Entry> {
    if q == [] then []
    else if qty >= q[0].qty then q[1..]
    else q[0 := q[0].(qty := q[0].qty - qty)]
  }

  lemma {:induction false} SumConcat(a: seq<Entry>, b: seq<Entry>)
    ensures Sum(a + b) == Sum(a) + Sum(b)
  {
    if a == [] {
      assert a + b == b;
    } else {
      SumConcat(a[1..], b);
      assert (a + b)[1..] == a[1..] + b;
    }
  }

  lemma SumSplit(q: seq<Entry>, k: nat)
    requires k < |q|
    ensures Sum(q) == Sum(q[..k]) + q[k].qty + Sum(q[k + 1..])
  {
    assert q == q[..k] + q[k..];
    SumConcat(q[..k], q[k..]);
  }

  lemma {:induction false} IndexOfAt(q: seq<Entry>, k: nat)
    requires k < |q| && DistinctIds(q)
    ensures IndexOf(q, q[k].id) == k
  {
    if k > 0 {
      assert forall i, j :: 0 <= i < j < |q[1..]| ==> q[1..][i].id == q[i + 1].id && q[1..][j].id == q[j + 1].id;
      IndexOfAt(q[1..], k - 1);
    }
  }

  lemma ExtendAt(q: seq<Entry>, e: Entry)
    requires DistinctIds(q) && e.id !in Ids(q)
    ensures DistinctIds(q + [e]) && Ids(q + [e]) == Ids(q) + {e.id} && Sum(q + [e]) == Sum(q) + e.qty
    ensures Wrap32(Sum(q + [e])) == Wrap32(Wrap32(Sum(q)) + e.qty)
  {
    hide Wrap32;
    WrapAdd(Sum(q), e.qty);
    var up := q + [e];
    SumConcat(q, [e]);
    forall id ensures id in Ids(up) <==> id in Ids(q) + {e.id} {
      var i := IdsMembership(q, id);
      var j := IdsMembership(up, id);
      assert up[|q|].id == e.id;
      assert forall i :: 0 <= i < |q| ==> up[i] == q[i];
    }
    var k := IdsMembership(q, e.id);
  }

  /** Cutting out position `k` removes that entry and nothing else. */
  lemma CutAt(q: seq<Entry>, k: nat, cut: seq<Entry>)
    requires k < |q| && DistinctIds(q) && cut == q[..k] + q[k + 1..]
    ensures cut == Without(q, q[k].id) && DistinctIds(cut) && Ids(cut) == Ids(q) - {q[k].id}
    ensures Sum(cut) == Sum(q) - q[k].qty
    ensures Wrap32(Sum(cut)) == Wrap32(Wrap32(Sum(q)) - q[k].qty)
    ensures forall i :: 0 <= i < |q| && i != k ==> q[i].id != q[k].id
  {
    hide Wrap32, Ids, Sum;
    IndexOfAt(q, k);
    CutSum(q, k, cut);
    CutIds(q, k, cut);
    CutDistinct(q, k, cut);
  }

  lemma CutSum(q: seq<Entry>, k: nat, cut: seq<Entry>)
    requires k < |q| && cut == q[..k] + q[k + 1..]
    ensures Sum(cut) == Sum(q) - q[k].qty
    ensures Wrap32(Sum(cut)) == Wrap32(Wrap32(Sum(q)) - q[k].qty)
  {
    hide Wrap32, Sum;
    SumSplit(q, k);
    SumConcat(q[..k], q[k + 1..]);
    WrapAdd(Sum(q), 0 - q[k].qty);
  }

  lemma CutDistinct(q: seq<Entry>, k: nat, cut: seq<Entry>)
    requires k < |q| && DistinctIds(q) && cut == q[..k] + q[k + 1..]
    ensures DistinctIds(cut)
  {
    assert forall i :: 0 <= i < |cut| ==> cut[i] == q[if i < k then i else i + 1];
  }

  lemma CutMember(q: seq<Entry>, k: nat, cut: seq<Entry>, id: OrderId)
    requires k < |q| && DistinctIds(q) && cut == q[..k] + q[k + 1..]
    ensures id in Ids(cut) <==> id in Ids(q) && id != q[k].id
  {
    hide Ids;
    var i := IdsMembership(q, id);
    var j := IdsMembership(cut, id);
    if id in Ids(cut) {
      assert cut[j] == q[if j < k then j else j + 1];
    }
    if id in Ids(q) && i != k {
      assert cut[if i < k then i else i - 1] == q[i];
    }
  }

  lemma CutIds(q: seq<Entry>, k: nat, cut: seq<Entry>)
    requires k < |q| && DistinctIds(q) && cut == q[..k] + q[k + 1..]
    ensures Ids(cut) == Ids(q) - {q[k].id}
  {
    hide Ids, DistinctIds;
    forall id
      ensures id in Ids(cut) <==> id in Ids(q) - {q[k].id}
    {
      CutMember(q, k, cut, id);
    }
  }

  lemma UpdateAt(q: seq<Entry>, k: nat, qty: Quantity, up: seq<Entry>)
    requires k < |q| && DistinctIds(q) && up == q[k := Entry(q[k].id, qty)]
    ensures up == WithQuantity(q, q[k].id, qty) && DistinctIds(up) && Ids(up) == Ids(q)
    ensures Sum(up) == Sum(q) - q[k].qty + qty
    ensures Wrap32(Sum(up)) == Wrap32(Wrap32(Wrap32(Sum(q)) - q[k].qty) + qty)
    ensures forall i :: 0 <= i < |q| && i != k ==> q[i].id != q[k].id
  {
    hide Wrap32, Ids, Sum;
    IndexOfAt(q, k);
    UpdateSum(q, k, qty, up);
    UpdateIds(q, k, qty, up);
  }

  lemma UpdateSum(q: seq<Entry>, k: nat, qty: Quantity, up: seq<Entry>)
    requires k < |q| && up == q[k := Entry(q[k].id, qty)]
    ensures Sum(up) == Sum(q) - q[k].qty + qty
    ensures Wrap32(Sum(up)) == Wrap32(Wrap32(Wrap32(Sum(q)) - q[k].qty) + qty)
  {
    hide Wrap32, Sum;
    SumSplit(q, k);
    SumSplit(up, k);
    assert up[..k] == q[..k] && up[k + 1..] == q[k + 1..];
    WrapAdd(Sum(q), 0 - q[k].qty);
    WrapAdd(Sum(q) - q[k].qty, qty);
  }

  lemma UpdateIds(q: seq<Entry>, k: nat, qty: Quantity, up: seq<Entry>)
    requires k < |q| && up == q[k := Entry(q[k].id, qty)]
    ensures Ids(up) == Ids(q)
  {
    hide Ids;
    assert forall i :: 0 <= i < |q| ==> up[i].id == q[i].id;
    forall id
      ensures id in Ids(up) <==> id in Ids(q)
    {
      var i := IdsMembership(q, id);
      var j := IdsMembership(up, id);
    }
  }

  class OrderNode {
    const orderId: OrderId
    var quantity: Quantity
    var prev: OrderNode?
    var next: OrderNode?

    constructor (id: OrderId, qty: Quantity)
      ensures orderId == id && quantity == qty && prev == null && next == null
    {
      orderId, quantity, prev, next := id, qty, null, null;
    }
  }

  class PriceLevel {
    const price: Price
    var totalQuantity: Quantity
    var orderCount: nat
    var head: OrderNode?
    var tail: OrderNode?
    var nodeIndex: map<OrderId, OrderNode>

    ghost var nodes: seq<OrderNode>  // the list read from head to tail
    ghost var contents: seq<Entry>   // what those nodes hold
    ghost var Repr: set<object>

    ghost predicate LinkAt(i: nat)
      requires i < |nodes|
      reads this`nodes, nodes`prev, nodes`next
    {
      && nodes[i].prev == (if i == 0 then null else nodes[i - 1])
      && nodes[i].next == (if i == |nodes| - 1 then null else nodes[i + 1])
    }

    /** The list from `head` to `tail`, both ways, without repetition. */
    ghost predicate Linked()
      ensures Linked() ==> head == (if nodes == [] then null else nodes[0])
      reads this`head, this`tail, this`nodes, nodes`prev, nodes`next
    {
      && (forall i, j :: 0 <= i < j < |nodes| ==> nodes[i] != nodes[j])
      && (forall i :: 0 <= i < |nodes| ==> LinkAt(i))
      && head == (if nodes == [] then null else nodes[0])
      && tail == (if nodes == [] then null else nodes[|nodes| - 1])
    }

    /** Node `i` holds entry `i`, and the index leads to it. */
    ghost predicate HoldsAt(i: nat)
      requires i < |nodes| == |contents|
      reads this`nodes, this`contents, this`nodeIndex, nodes`quantity
    {
      && nodes[i].orderId == contents[i].id && nodes[i].quantity == contents[i].qty
      && contents[i].id in nodeIndex && nodeIndex[contents[i].id] == nodes[i]
    }

    ghost predicate Valid()
      reads this, Repr
      ensures Valid() ==> this in Repr && orderCount == |contents|
    {
      && this in Repr && (forall i :: 0 <= i < |nodes| ==> nodes[i] in Repr)
      && |nodes| == |contents| == orderCount
      && Linked()
      && (forall i :: 0 <= i < |nodes| ==> HoldsAt(i))
      && DistinctIds(contents) && nodeIndex.Keys == Ids(contents)
      && totalQuantity == Wrap32(Sum(contents))
    }

    constructor (price: Price)
      ensures Valid() && fresh(Repr) && contents == [] && this.price == price
    {
      this.price := price;
      totalQuantity, orderCount, head, tail, nodeIndex := 0, 0, null, null, map[];
      nodes, contents, Repr := [], [], {this};
    }

    /** Ids are unique within a level; the book rejects duplicates before it gets here. */
    method AddOrder(orderId: OrderId, quantity: Quantity)
      requires Valid() && orderId !in Ids(contents)
      modifies Repr
      ensures Valid() && fresh(Repr - old(Repr))
      ensures contents == old(contents) + [Entry(orderId, quantity)]
    {
      hide Linked, Wrap32, DistinctIds, Sum, Ids;
      var node := new OrderNode(orderId, quantity);
      Link(node);
      nodeIndex := nodeIndex[orderId := node];
      WrapAdd(Sum(contents), quantity);
      totalQuantity := Wrap32(totalQuantity + quantity);
      orderCount := orderCount + 1;
      ExtendAt(contents, Entry(orderId, quantity));
      contents := contents + [Entry(orderId, quantity)];
      Repr := Repr + {node};
      forall i | 0 <= i < |nodes| ensures HoldsAt(i) {
        assert i < |old(nodes)| ==> old(HoldsAt(i));
      }
    }

    /** The pointer half of `add_order`. */
    method Link(node: OrderNode)
      requires Linked() && node !in nodes
      modifies this`head, this`tail, this`nodes, nodes, node
      ensures nodes == old(nodes) + [node] && Linked()
      ensures forall n :: n in nodes ==> n.quantity == old(n.quantity)
    {
      node.prev := tail;
      node.next := null;
      if tail != null {
        tail.next := node;
      } else {
        head := node;
      }
      tail := node;
      nodes := nodes + [node];
      forall i | 0 <= i < |nodes| ensures LinkAt(i) {
        assert i < |old(nodes)| ==> old(LinkAt(i));
      }
    }

    method FindNode(orderId: OrderId) returns (node: OrderNode?, ghost k: nat)
      requires Valid()
      ensures node == null <==> orderId !in Ids(contents)
      ensures node != null ==>
        && k < |nodes| && nodes[k] == node && node.orderId == orderId
        && contents[k] == Entry(orderId, node.quantity)
    {
      hide Linked, Wrap32, Sum, Ids, DistinctIds;
      node := if orderId in nodeIndex then nodeIndex[orderId] else null;
      k := 0;
      if node != null {
        k := IdsMembership(contents, orderId);
        assert HoldsAt(k);
      }
    }

    /** The pointer surgery alone; index and totals still count the node. */
    method Unlink(node: OrderNode, ghost k: nat)
      requires Linked() && k < |nodes| && nodes[k] == node
      modifies this`head, this`tail, this`nodes, nodes
      ensures nodes == old(nodes[..k] + nodes[k + 1..]) && Linked()
      ensures forall n :: n in old(nodes) ==> n.quantity == old(n.quantity)
    {
      assert LinkAt(k);
      if node.prev != null {
        node.prev.next := node.next;
      } else {
        head := node.next;
      }
      if node.next != null {
        node.next.prev := node.prev;
      } else {
        tail := node.prev;
      }
      nodes := nodes[..k] + nodes[k + 1..];
      forall i | 0 <= i < |nodes| ensures LinkAt(i) {
        assert old(LinkAt(if i < k then i else i + 1));
      }
    }

    /** The bookkeeping half of both removals: totals and index stop counting the node. */
    method Forget(node: OrderNode)
      requires 0 < orderCount && totalQuantity == Wrap32(Sum(contents))
      modifies this`totalQuantity, this`orderCount, this`nodeIndex
      ensures totalQuantity == Wrap32(Sum(contents) - node.quantity)
      ensures orderCount == old(orderCount) - 1 && nodeIndex == old(nodeIndex) - {node.orderId}
    {
      totalQuantity := Wrap32(totalQuantity - node.quantity);
      orderCount := orderCount - 1;
      nodeIndex := nodeIndex - {node.orderId};
    }

    method RemoveOrder(orderId: OrderId) returns (found: bool)
      requires Valid()
      modifies Repr
      ensures Valid() && fresh(Repr - old(Repr))
      ensures found <==> orderId in old(Ids(contents))
      ensures contents == if found then Without(old(contents), orderId) else old(contents)
    {
      hide Linked, Wrap32, DistinctIds, Sum, Ids, Without, WithQuantity;
      ghost var k;
      var node;
      node, k := FindNode(orderId);
      if node == null {
        return false;
      }
      Unlink(node, k);
      Forget(node);
      ghost var cut := contents[..k] + contents[k + 1..];
      CutAt(contents, k, cut);
      contents := cut;
      forall i | 0 <= i < |nodes| ensures HoldsAt(i) {
        assert old(HoldsAt(if i < k then i else i + 1));
      }
      return true;
    }

    method ModifyQuantity(orderId: OrderId, newQuantity: Quantity) returns (found: bool)
      requires Valid()
      modifies Repr
      ensures Valid() && fresh(Repr - old(Repr))
      ensures found <==> orderId in old(Ids(contents))
      ensures contents == if found then WithQuantity(old(contents), orderId, newQuantity) else old(contents)
    {
      hide Linked, Wrap32, DistinctIds, Sum, Ids, Without, WithQuantity;
      ghost var k;
      var node;
      node, k := FindNode(orderId);
      if node == null {
        return false;
      }
      ghost var up := contents[k := Entry(orderId, newQuantity)];
      UpdateAt(contents, k, newQuantity, up);
      WrapAdd(Sum(contents), 0 - node.quantity);
      WrapAdd(Sum(contents) - node.quantity, newQuantity);
      totalQuantity := Wrap32(Wrap32(totalQuantity - node.quantity) + newQuantity);
      node.quantity := newQuantity;
      contents := up;
      forall i | 0 <= i < |nodes| ensures HoldsAt(i) {
        assert old(HoldsAt(i)) && old(HoldsAt(k));
      }
      return true;
    }

    method FrontOrderId() returns (id: OrderId)
      requires Valid()
      ensures id == if contents == [] then INVALID_ORDER_ID else contents[0].id
    {
      assert contents != [] ==> HoldsAt(0);
      id := if head != null then head.orderId else INVALID_ORDER_ID;
    }

    /** The pointer half of `pop_front`. */
    method UnlinkHead()
      requires Linked() && head != null
      modifies this`head, this`tail, this`nodes, nodes
      ensures nodes == old(nodes)[1..] && Linked()
      ensures forall n :: n in old(nodes) ==> n.quantity == old(n.quantity)
    {
      assert LinkAt(0);
      head := head.next;
      if head != null {
        head.prev := null;
      } else {
        tail := null;
      }
      nodes := nodes[1..];
      forall i | 0 <= i < |nodes| ensures LinkAt(i) {
        assert old(LinkAt(i + 1));
      }
    }

    method PopFront()
      requires Valid()
      modifies Repr
      ensures Valid() && fresh(Repr - old(Repr))
      ensures contents == if old(contents) == [] then [] else old(contents)[1..]
    {
      hide Linked, Wrap32, Sum, Ids, DistinctIds, Without;
      if head == null {
        return;
      }
      assert HoldsAt(0);
      var oldHead := head;
      UnlinkHead();
      Forget(oldHead);
      CutAt(contents, 0, contents[1..]);
      contents := contents[1..];
      forall i | 0 <= i < |nodes| ensures HoldsAt(i) {
        assert old(HoldsAt(i + 1));
      }
    }

    method FillFront(qty: Quantity)
      requires Valid()
      modifies Repr
      ensures Valid() && fresh(Repr - old(Repr))
      ensures contents == FrontFilled(old(contents), qty)
    {
      hide Linked, Wrap32, Sum, Ids, DistinctIds, WithQuantity;
      if head == null {
        return;
      }
      assert HoldsAt(0);
      if qty >= head.quantity {
        PopFront();
      } else {
        WrapAdd(Sum(contents), 0 - qty);
        totalQuantity := Wrap32(totalQuantity - qty);
        head.quantity := head.quantity - qty;
        ghost var up := contents[0 := contents[0].(qty := contents[0].qty - qty)];
        UpdateAt(contents, 0, up[0].qty, up);
        contents := up;
        forall i | 0 <= i < |nodes| ensures HoldsAt(i) {
          assert old(HoldsAt(i)) && old(HoldsAt(0));
        }
      }
    }
  }
}
