/** The ring as an object used by one thread at a time (include/utils/spsc_queue.hpp): each call is an
    uninterrupted run of the two-thread model, with up-to-date loads. */
module SpscQueues {
  import opened Core
  import opened Spsc

  class SpscQueue<T> {
    const capacity: nat
    const slots: array<T>
    var head: nat
    var cachedTail: nat
    var tail: nat
    var cachedHead: nat
    /** The state of the two-thread model this object is in. */
    ghost var ring: State<T>

    ghost predicate Valid()
      reads this, slots
    {
      && Admitted(capacity) && slots.Length == capacity
      && Inv(capacity, ring) && ring.slots == slots[..]
      && ring.producer == ProducerIdle && ring.consumer == ConsumerIdle
      && head == |ring.pushed| % capacity && tail == |ring.popped| % capacity
      && cachedTail == ring.cachedTail && cachedHead == ring.cachedHead
    }

    /** The items waiting, oldest first. */
    ghost function Contents(): (items: seq<T>)
      requires Valid()
      reads this, slots
      ensures |items| < capacity
    {
      ring.pushed[|ring.popped|..]
    }

    constructor (capacity: nat, blank: T)
      requires Admitted(capacity)
      ensures Valid() && Contents() == [] && this.capacity == capacity && fresh(slots)
    {
      this.capacity := capacity;
      slots := new T[capacity](i => blank);
      head, cachedTail, tail, cachedHead := 0, 0, 0, 0;
      new;
      ring := Start(slots[..]);
    }

    /** The steps the call takes are returned: an uninterrupted run of the producer. */
    method TryPush(item: T) returns (ok: bool, ghost steps: seq<Step<T>>)
      requires Valid()
      modifies this, slots
      ensures Valid()
      ensures ok <==> |old(Contents())| < capacity - 1
      ensures Contents() == if ok then old(Contents()) + [item] else old(Contents())
      ensures Reaches(capacity, old(ring), steps, ring)
    {
      hide BitAnd, Next, Admitted, Inv, Reaches;
      Indices(capacity, ring);
      ghost var end;
      steps, end := PushAlone(capacity, ring, item);
      Indices(capacity, end);
      var head := this.head;
      var nextHead := Next(head, capacity);
      if nextHead == cachedTail {
        cachedTail := tail;
        if nextHead == cachedTail {
          ring := end;
          return false, steps;
        }
      }
      slots[head] := item;
      this.head := nextHead;
      ring := end;
      return true, steps;
    }

    /** Likewise a run of the consumer. */
    method TryPop() returns (popped: Option<T>, ghost steps: seq<Step<T>>)
      requires Valid()
      modifies this
      ensures Valid()
      ensures popped == if old(Contents()) == [] then None else Some(old(Contents())[0])
      ensures Contents() == if popped == None then old(Contents()) else old(Contents())[1..]
      ensures Reaches(capacity, old(ring), steps, ring)
    {
      hide BitAnd, Next, Admitted, Inv, Reaches;
      Indices(capacity, ring);
      ghost var start, end := ring, ring;
      steps, end := PopAlone(capacity, ring);
      Indices(capacity, end);
      var tail := this.tail;
      if tail == cachedHead {
        cachedHead := head;
        if tail == cachedHead {
          ring := end;
          return None, steps;
        }
      }
      var item := slots[tail];
      this.tail := Next(tail, capacity);
      ring := end;
      Dropped(start.pushed, |start.popped|);
      return Some(item), steps;
    }
  }

  // ----- Uninterrupted runs -----

  /** The producer's whole call, with the current tail if it looks. */
  lemma PushAlone<T>(cap: nat, s: State<T>, item: T) returns (steps: seq<Step<T>>, end: State<T>)
    requires Admitted(cap) && Inv(cap, s) && s.producer == ProducerIdle
    ensures Inv(cap, end) && Reaches(cap, s, steps, end)
    ensures end.producer == ProducerIdle && end.consumer == s.consumer
    ensures end.cachedHead == s.cachedHead && end.popped == s.popped
    ensures var next, tail := (|s.pushed| + 1) % cap, |s.popped| % cap;
      var slot := |s.pushed| % cap;
      && end.cachedTail == (if next == s.cachedTail then tail else s.cachedTail)
      && (next == end.cachedTail <==> |s.pushed| - |s.popped| == cap - 1)
      && |s.slots| == cap && slot < cap
      && (if next == end.cachedTail then end.pushed == s.pushed && end.slots == s.slots
          else end.pushed == s.pushed + [item] && end.slots == s.slots[slot := item])
  {
    hide BitAnd, Next, Admitted, Inv, Reaches;
    Indices(cap, s);
    NoSteps(cap, s);
    var next := (|s.pushed| + 1) % cap;
    steps, end := Take(cap, s, [], s, StartPush(item));
    if next == s.cachedTail {
      steps, end := Take(cap, s, steps, end, RefreshTail(|s.popped|));
    }
    if next == end.cachedTail {
      Full(cap, s);
    } else {
      Room(cap, end);
      steps, end := Take(cap, s, steps, end, WriteSlot);
      steps, end := Take(cap, s, steps, end, PublishHead);
    }
  }

  lemma PopAlone<T>(cap: nat, s: State<T>) returns (steps: seq<Step<T>>, end: State<T>)
    requires Admitted(cap) && Inv(cap, s) && s.consumer == ConsumerIdle
    ensures Inv(cap, end) && Reaches(cap, s, steps, end)
    ensures end.consumer == ConsumerIdle && end.producer == s.producer
    ensures end.cachedTail == s.cachedTail && end.pushed == s.pushed && end.slots == s.slots
    ensures var head, tail := |s.pushed| % cap, |s.popped| % cap;
      && end.cachedHead == (if tail == s.cachedHead then head else s.cachedHead)
      && (tail == end.cachedHead <==> |s.pushed| == |s.popped|)
      && |s.slots| == cap && tail < cap
      && (if tail == end.cachedHead then end.popped == s.popped
          else |s.popped| < |s.pushed| && s.slots[tail] == s.pushed[|s.popped|]
               && end.popped == s.popped + [s.pushed[|s.popped|]])
  {
    hide BitAnd, Next, Admitted, Inv, Reaches;
    Indices(cap, s);
    NoSteps(cap, s);
    var tail := |s.popped| % cap;
    steps, end := Take(cap, s, [], s, StartPop);
    if tail == s.cachedHead {
      steps, end := Take(cap, s, steps, end, RefreshHead(|s.pushed|));
    }
    if tail == end.cachedHead {
      Empty(cap, s);
    } else {
      Waiting(cap, end);
      steps, end := Take(cap, s, steps, end, ReadSlot);
      steps, end := Take(cap, s, steps, end, ReleaseTail);
    }
  }

  /** One more step of the model. */
  lemma Take<T>(cap: nat, start: State<T>, steps: seq<Step<T>>, s: State<T>, step: Step<T>)
    returns (more: seq<Step<T>>, end: State<T>)
    requires Admitted(cap) && Inv(cap, s) && Enabled(s, step) && Reaches(cap, start, steps, s)
    ensures Inv(cap, end) && end == Do(cap, s, step) && Reaches(cap, start, more, end)
  {
    hide Inv, Do, Enabled, Reaches, Admitted;
    StepKeeps(cap, s, step);
    OneMoreStep(cap, start, steps, s, step);
    more, end := steps + [step], Do(cap, s, step);
  }

  lemma NoSteps<T>(cap: nat, s: State<T>)
    requires cap > 0
    ensures Reaches(cap, s, [], s)
  {
  }

  lemma {:induction false} OneMoreStep<T>(cap: nat, s: State<T>, steps: seq<Step<T>>, end: State<T>, step: Step<T>)
    requires cap > 0 && Reaches(cap, s, steps, end) && Enabled(end, step)
    ensures Reaches(cap, s, steps + [step], Do(cap, end, step))
    decreases |steps|
  {
    hide Do, Enabled;
    if steps == [] {
      assert [step][1..] == [];
    } else {
      OneMoreStep(cap, Do(cap, s, steps[0]), steps[1..], end, step);
      assert (steps + [step])[1..] == steps[1..] + [step];
    }
  }

  lemma Dropped<T>(items: seq<T>, n: nat)
    requires n < |items|
    ensures items[n..] != [] && items[n..][0] == items[n] && items[n..][1..] == items[n + 1..]
  {
  }

  lemma Indices<T>(cap: nat, s: State<T>)
    requires Admitted(cap) && Inv(cap, s)
    ensures cap > 0 && s.headStores != [] && s.tailStores != []
    ensures Last(s.headStores) == |s.pushed| % cap && Last(s.tailStores) == |s.popped| % cap
    ensures s.headStores[|s.pushed|..] == [|s.pushed| % cap] && s.tailStores[|s.popped|..] == [|s.popped| % cap]
    ensures |s.headStores| == |s.pushed| + 1 && |s.tailStores| == |s.popped| + 1 && |s.slots| == cap
    ensures s.tailSeen <= |s.popped| <= s.headSeen <= |s.pushed| && s.popped == s.pushed[..|s.popped|]
    ensures Next(|s.pushed| % cap, cap) == (|s.pushed| + 1) % cap
    ensures Next(|s.popped| % cap, cap) == (|s.popped| + 1) % cap
  {
    LastCounts(s.headStores, cap);
    LastCounts(s.tailStores, cap);
    NextIsSuccessor(|s.pushed|, cap);
    NextIsSuccessor(|s.popped|, cap);
  }

  lemma Full<T>(cap: nat, s: State<T>)
    requires Inv(cap, s) && (|s.pushed| + 1) % cap == |s.popped| % cap
    ensures |s.pushed| - |s.popped| == cap - 1
  {
    WholeLap(|s.popped|, cap);
    SameSlot(|s.pushed| + 1, |s.popped| + cap, cap);
  }

  lemma Room<T>(cap: nat, s: State<T>)
    requires Inv(cap, s) && s.producer.MayWrite?
    ensures |s.popped| <= |s.pushed| && |s.pushed| - |s.popped| < cap - 1 && s.producer.head < |s.slots| == cap
  {
  }

  lemma Empty<T>(cap: nat, s: State<T>)
    requires Inv(cap, s) && |s.pushed| % cap == |s.popped| % cap
    ensures |s.pushed| == |s.popped|
  {
    SameSlot(|s.popped|, |s.pushed|, cap);
  }

  lemma Waiting<T>(cap: nat, s: State<T>)
    requires Inv(cap, s) && (s.consumer.MayRead? || s.consumer.MayRelease?)
    ensures |s.popped| < |s.pushed| && s.consumer.tail == |s.popped| % cap < |s.slots| == cap
    ensures s.slots[s.consumer.tail] == s.pushed[|s.popped|]
    ensures s.consumer.MayRelease? ==> s.consumer.item == s.pushed[|s.popped|]
  {
    var pops := |s.popped|;
    assert pops < |s.pushed| ==> s.slots[pops % cap] == s.pushed[pops];
  }
}
