/** The single-producer single-consumer ring (include/utils/spsc_queue.hpp) as two threads taking one step per
    atomic load, atomic store or slot access. An acquire load may return any store that is not older than what
    the thread has already seen. */
module Spsc {
  import opened Core

  // ----- Masks -----

  /** `&` on unsigned integers. */
  function BitAnd(a: nat, b: nat): nat {
    if a == 0 || b == 0 then 0 else 2 * BitAnd(a / 2, b / 2) + if a % 2 == 1 && b % 2 == 1 then 1 else 0
  }

  lemma {:induction false} MaskIsMod(x: nat, k: nat)
    ensures Pow2(k) >= 1 && BitAnd(x, Pow2(k) - 1) == x % Pow2(k)
    decreases k
  {
    if k == 0 {
    } else {
      var c := Pow2(k - 1);
      MaskIsMod(x / 2, k - 1);
      assert (2 * c - 1) / 2 == c - 1 && (2 * c - 1) % 2 == 1;
      HalfMod(x, c);
      if x == 0 {
      }
    }
  }

  lemma HalfMod(x: nat, c: nat)
    requires c >= 1
    ensures x % (2 * c) == 2 * ((x / 2) % c) + x % 2
  {
    var q, r := (x / 2) / c, (x / 2) % c;
    assert x == 2 * (q * c + r) + x % 2;
    assert x == q * (2 * c) + (2 * r + x % 2);
    DivModUnique(x, 2 * c, q, 2 * r + x % 2);
  }

  /** What the static assertions admit: exactly the powers of two. */
  lemma {:induction false} CapacityIsPowerOfTwo(c: nat) returns (k: nat)
    requires c > 0 && BitAnd(c, c - 1) == 0
    ensures c == Pow2(k)
    decreases c
  {
    if c == 1 {
      k := 0;
    } else {
      NoOddCapacity(c);
      assert (c - 1) / 2 == c / 2 - 1;
      k := CapacityIsPowerOfTwo(c / 2);
      k := k + 1;
    }
  }

  lemma NoOddCapacity(c: nat)
    requires c > 1 && BitAnd(c, c - 1) == 0
    ensures c % 2 == 0
  {
    if c % 2 == 1 {
      SelfAnd(c / 2);
    }
  }

  lemma {:induction false} SelfAnd(n: nat)
    ensures BitAnd(n, n) == n
  {
    if n > 0 {
      SelfAnd(n / 2);
    }
  }

  // ----- The two threads -----

  /** `try_push`, between its memory accesses. */
  datatype Producer<T> =
    | ProducerIdle
    | MustRefreshTail(item: T, head: nat)  // the ring looked full
    | MayWrite(item: T, head: nat)
    | MayPublish(item: T, head: nat)       // slot written, head not yet stored

  /** `try_pop`, likewise. */
  datatype Consumer<T> =
    | ConsumerIdle
    | MustRefreshHead(tail: nat)
    | MayRead(tail: nat)
    | MayRelease(item: T, tail: nat)

  /** Every atomic variable is the list of all stores to it; each thread remembers the latest store of the other
      that it has read. `pushed` and `popped` record completed calls. */
  datatype State<T> = State(
    headStores: seq<nat>, tailStores: seq<nat>,
    tailSeen: nat, headSeen: nat,
    cachedTail: nat, cachedHead: nat,
    slots: seq<T>,
    producer: Producer<T>, consumer: Consumer<T>,
    pushed: seq<T>, popped: seq<T>)

  datatype Step<T> =
    | StartPush(item: T)          // load own head, compare with the cached tail
    | RefreshTail(store: nat)     // acquire load of tail returning that store, compare again
    | WriteSlot
    | PublishHead                 // release store of head: push returns true
    | StartPop
    | RefreshHead(store: nat)
    | ReadSlot
    | ReleaseTail                 // release store of tail: pop returns the item

  function Next(i: nat, cap: nat): nat
    requires cap > 0
  {
    BitAnd(i + 1, cap - 1)
  }

  function Last(stores: seq<nat>): nat
    requires stores != []
  {
    stores[|stores| - 1]
  }

  predicate Enabled<T>(s: State<T>, step: Step<T>) {
    && s.headStores != [] && s.tailStores != []
    && match step
       case StartPush(item) => s.producer.ProducerIdle?
       case RefreshTail(k) => s.producer.MustRefreshTail? && s.tailSeen <= k < |s.tailStores|
       case WriteSlot => s.producer.MayWrite? && s.producer.head < |s.slots|
       case PublishHead => s.producer.MayPublish?
       case StartPop => s.consumer.ConsumerIdle?
       case RefreshHead(k) => s.consumer.MustRefreshHead? && s.headSeen <= k < |s.headStores|
       case ReadSlot => s.consumer.MayRead? && s.consumer.tail < |s.slots|
       case ReleaseTail => s.consumer.MayRelease?
  }

  function Do<T>(cap: nat, s: State<T>, step: Step<T>): State<T>
    requires cap > 0 && Enabled(s, step)
  {
    match step
    case StartPush(item) =>
      var head := Last(s.headStores);
      s.(producer := if Next(head, cap) == s.cachedTail then MustRefreshTail(item, head) else MayWrite(item, head))
    case RefreshTail(k) =>
      var tail := s.tailStores[k];
      s.(tailSeen := k, cachedTail := tail,
      producer := if Next(s.producer.head, cap) == tail then ProducerIdle
                  else MayWrite(s.producer.item, s.producer.head))
    case WriteSlot =>
      s.(slots := s.slots[s.producer.head := s.producer.item], producer := MayPublish(s.producer.item, s.producer.head))
    case PublishHead =>
      s.(headStores := s.headStores + [Next(s.producer.head, cap)],
      pushed := s.pushed + [s.producer.item], producer := ProducerIdle)
    case StartPop =>
      var tail := Last(s.tailStores);
      s.(consumer := if tail == s.cachedHead then MustRefreshHead(tail) else MayRead(tail))
    case RefreshHead(k) =>
      var head := s.headStores[k];
      s.(headSeen := k, cachedHead := head,
      consumer := if s.consumer.tail == head then ConsumerIdle else MayRead(s.consumer.tail))
    case ReadSlot =>
      s.(consumer := MayRelease(s.slots[s.consumer.tail], s.consumer.tail))
    case ReleaseTail =>
      s.(tailStores := s.tailStores + [Next(s.consumer.tail, cap)],
      popped := s.popped + [s.consumer.item], consumer := ConsumerIdle)
  }

  function Start<T>(slots: seq<T>): State<T> {
    State([0], [0], 0, 0, 0, 0, slots, ProducerIdle, ConsumerIdle, [], [])
  }

  /** A run of any length, in any interleaving, with any loads the memory model allows. */
  ghost predicate Reaches<T>(cap: nat, s: State<T>, steps: seq<Step<T>>, end: State<T>)
    requires cap > 0
    decreases |steps|
  {
    if steps == [] then s == end else Enabled(s, steps[0]) && Reaches(cap, Do(cap, s, steps[0]), steps[1..], end)
  }

  // ----- The invariant -----

  /** The `i`-th store to an index variable is `i` modulo the capacity. */
  ghost predicate Counts(stores: seq<nat>, cap: nat)
    requires cap > 0
  {
    stores != [] && forall i :: 0 <= i < |stores| ==> stores[i] == i % cap
  }

  ghost predicate Ordered<T>(cap: nat, s: State<T>)
    requires cap > 0
  {
    && Counts(s.headStores, cap) && Counts(s.tailStores, cap)
    && |s.headStores| == |s.pushed| + 1 && |s.tailStores| == |s.popped| + 1
    && s.cachedTail == s.tailSeen % cap && s.cachedHead == s.headSeen % cap
    // each thread's view of the other lags, and never runs ahead
    && s.tailSeen <= |s.popped| <= s.headSeen <= |s.pushed| < s.tailSeen + cap
  }

  ghost predicate Stored<T>(cap: nat, s: State<T>)
    requires cap > 0
  {
    && |s.slots| == cap
    && |s.popped| <= |s.pushed| && s.popped == s.pushed[..|s.popped|]
    && (forall i {:trigger s.pushed[i]} :: |s.popped| <= i < |s.pushed| ==> s.slots[i % cap] == s.pushed[i])
  }

  ghost predicate Poised<T>(cap: nat, s: State<T>)
    requires cap > 0 && |s.slots| == cap
  {
    var pushes, pops := |s.pushed|, |s.popped|;
    && (!s.producer.ProducerIdle? ==> s.producer.head == pushes % cap)
    && (s.producer.MustRefreshTail? ==> (pushes + 1) % cap == s.cachedTail)
    && (s.producer.MayWrite? || s.producer.MayPublish? ==> pushes + 1 < s.tailSeen + cap)
    && (s.producer.MayPublish? ==> s.slots[pushes % cap] == s.producer.item)
    && (!s.consumer.ConsumerIdle? ==> s.consumer.tail == pops % cap)
    && (s.consumer.MayRead? || s.consumer.MayRelease? ==> pops < s.headSeen)
    && (s.consumer.MayRelease? ==> pops < pushes && s.consumer.item == s.pushed[pops])
  }

  ghost predicate Inv<T>(cap: nat, s: State<T>) {
    cap > 0 && Ordered(cap, s) && Stored(cap, s) && Poised(cap, s)
  }

  ghost predicate Admitted(cap: nat) {
    cap > 0 && BitAnd(cap, cap - 1) == 0
  }

  // ----- Arithmetic of the ring -----

  lemma NextIsSuccessor(i: nat, cap: nat)
    requires Admitted(cap)
    ensures Next(i % cap, cap) == (i + 1) % cap
  {
    MaskCap(i % cap + 1, cap);
    IncrementMod(i, cap);
  }

  lemma IncrementMod(i: nat, n: nat)
    requires n > 0
    ensures (i % n + 1) % n == (i + 1) % n
  {
    Euclid(i, n);
    SuccessorMod(i, n, i / n, i % n);
  }

  lemma MaskCap(x: nat, cap: nat)
    requires Admitted(cap)
    ensures BitAnd(x, cap - 1) == x % cap
  {
    var k := CapacityIsPowerOfTwo(cap);
    MaskIsMod(x, k);
  }

  lemma Euclid(i: nat, n: nat)
    requires n > 0
    ensures i == (i / n) * n + i % n && i % n < n
  {
  }

  lemma SuccessorMod(i: nat, n: nat, q: nat, r: nat)
    requires r < n && i == q * n + r
    ensures (r + 1) % n == (i + 1) % n
  {
    if r + 1 < n {
      DivModUnique(i + 1, n, q, r + 1);
      DivModUnique(r + 1, n, 0, r + 1);
    } else {
      assert (q + 1) * n == q * n + n;
      DivModUnique(i + 1, n, q + 1, 0);
      DivModUnique(n, n, 1, 0);
    }
  }

  /** Positions less than a lap apart use different slots. */
  lemma SameSlot(i: nat, j: nat, cap: nat)
    requires cap > 0 && i <= j < i + cap && i % cap == j % cap
    ensures i == j
  {
    var d := j / cap - i / cap;
    assert j - i == d * cap;
    MulGrows(d, cap);
  }

  lemma LastCounts(stores: seq<nat>, cap: nat)
    requires cap > 0 && Counts(stores, cap)
    ensures Last(stores) == (|stores| - 1) % cap
  {
  }

  lemma CountsMore(stores: seq<nat>, cap: nat, next: nat)
    requires cap > 0 && Counts(stores, cap) && next == |stores| % cap
    ensures Counts(stores + [next], cap)
  {
  }

  // ----- Every step keeps the invariant -----

  lemma ProducerKeeps<T>(cap: nat, s: State<T>, step: Step<T>)
    requires Inv(cap, s) && Admitted(cap) && Enabled(s, step)
    requires step.StartPush? || step.RefreshTail? || step.WriteSlot? || step.PublishHead?
    ensures Inv(cap, Do(cap, s, step))
  {
    var h, t := |s.pushed|, |s.popped|;
    NextIsSuccessor(h, cap);
    LastCounts(s.headStores, cap);
    hide BitAnd, Admitted, Next;
    match step
    case StartPush(item) =>
      if h + 1 == s.tailSeen + cap {
        WholeLap(s.tailSeen, cap);
      }
    case RefreshTail(k) =>
      assert s.tailStores[k] == k % cap;
      if h + 1 == k + cap {
        WholeLap(k, cap);
      }
    case WriteSlot =>
      forall i | t <= i < h ensures i % cap != h % cap {
        if i % cap == h % cap {
          SameSlot(i, h, cap);
        }
      }
    case PublishHead =>
      CountsMore(s.headStores, cap, (h + 1) % cap);
  }

  lemma WholeLap(i: nat, cap: nat)
    requires cap > 0
    ensures (i + cap) % cap == i % cap
  {
    DivModUnique(i, cap, i / cap, i % cap);
    assert i + cap == (i / cap + 1) * cap + i % cap;
    DivModUnique(i + cap, cap, i / cap + 1, i % cap);
  }

  lemma ConsumerKeeps<T>(cap: nat, s: State<T>, step: Step<T>)
    requires Inv(cap, s) && Admitted(cap) && Enabled(s, step)
    requires step.StartPop? || step.RefreshHead? || step.ReadSlot? || step.ReleaseTail?
    ensures Inv(cap, Do(cap, s, step))
  {
    var h, t := |s.pushed|, |s.popped|;
    NextIsSuccessor(t, cap);
    LastCounts(s.tailStores, cap);
    hide BitAnd, Admitted, Next;
    match step
    case StartPop =>
    case RefreshHead(k) =>
      assert s.headStores[k] == k % cap;
    case ReadSlot =>
      assert s.slots[t % cap] == s.pushed[t];
    case ReleaseTail =>
      CountsMore(s.tailStores, cap, (t + 1) % cap);
  }

  lemma StepKeeps<T>(cap: nat, s: State<T>, step: Step<T>)
    requires Inv(cap, s) && Admitted(cap) && Enabled(s, step)
    ensures Inv(cap, Do(cap, s, step))
  {
    if step.StartPush? || step.RefreshTail? || step.WriteSlot? || step.PublishHead? {
      ProducerKeeps(cap, s, step);
    } else {
      ConsumerKeeps(cap, s, step);
    }
  }

  lemma {:induction false} RunKeeps<T>(cap: nat, s: State<T>, steps: seq<Step<T>>, end: State<T>)
    requires Inv(cap, s) && Admitted(cap) && Reaches(cap, s, steps, end)
    ensures Inv(cap, end)
    decreases |steps|
  {
    if steps != [] {
      StepKeeps(cap, s, steps[0]);
      hide Inv, Do, Enabled;
      RunKeeps(cap, Do(cap, s, steps[0]), steps[1..], end);
    }
  }

  // ----- What every run guarantees -----

  ghost predicate Reachable<T(!new)>(cap: nat, s: State<T>) {
    Admitted(cap) && exists slots: seq<T>, steps: seq<Step<T>> :: |slots| == cap && Reaches(cap, Start(slots), steps, s)
  }

  lemma ReachableKeeps<T(!new)>(cap: nat, s: State<T>)
    requires Reachable(cap, s)
    ensures Inv(cap, s)
  {
    var slots: seq<T>, steps :| |slots| == cap && Reaches(cap, Start(slots), steps, s);
    RunKeeps(cap, Start(slots), steps, s);
  }

  /** The items between tail and head, going round. */
  function Circular<T>(slots: seq<T>, tail: nat, count: nat): seq<T>
    requires |slots| > 0
  {
    seq(count, i => slots[(tail + i) % |slots|])
  }

  /** Nothing is lost, duplicated or reordered: what went in is what came out followed by what is in the ring,
      read round from the tail, and the ring never holds `cap` items. */
  lemma FirstInFirstOut<T(!new)>(cap: nat, s: State<T>)
    requires Reachable(cap, s)
    ensures var held := |s.pushed| - |s.popped|;
      && |s.slots| == cap && 0 <= held < cap
      && s.pushed == s.popped + Circular(s.slots, |s.popped|, held)
      && s.popped <= s.pushed
  {
    ReachableKeeps(cap, s);
    hide Ordered, Poised, Circular, Reachable;
    assert |s.pushed| - |s.popped| < cap by {
      InvCounts(cap, s);
    }
    RingHolds(cap, s);
    assert s.pushed == s.pushed[..|s.popped|] + s.pushed[|s.popped|..];
  }

  lemma InvCounts<T>(cap: nat, s: State<T>)
    requires Inv(cap, s)
    ensures |s.popped| <= |s.pushed| < |s.popped| + cap
  {
  }

  lemma RingHolds<T>(cap: nat, s: State<T>)
    requires cap > 0 && Stored(cap, s)
    ensures Circular(s.slots, |s.popped|, |s.pushed| - |s.popped|) == s.pushed[|s.popped|..]
  {
    var t := |s.popped|;
    var ring := Circular(s.slots, t, |s.pushed| - t);
    forall i | 0 <= i < |ring| ensures ring[i] == s.pushed[t..][i] {
      var j := t + i;
      assert s.pushed[t..][i] == s.pushed[j];
    }
  }

  /** The producer's write and the consumer's read are never poised on the same slot. */
  lemma SlotsDoNotCollide<T(!new)>(cap: nat, s: State<T>)
    requires Reachable(cap, s) && s.producer.MayWrite? && s.consumer.MayRead?
    ensures s.producer.head != s.consumer.tail
  {
    ReachableKeeps(cap, s);
    if s.producer.head == s.consumer.tail {
      SameSlot(|s.popped|, |s.pushed|, cap);
    }
  }

  /** No data race with the past either, in terms of what each thread has acquired. A read of push number `pops`
      comes after an acquire of a head store that follows that push, and no other push (counting the one in
      progress) has touched its slot since. */
  lemma ReadSeesItsPush<T(!new)>(cap: nat, s: State<T>, push: nat)
    requires Reachable(cap, s) && s.consumer.MayRead?
    requires push <= |s.pushed| && push % cap == s.consumer.tail
    requires push == |s.pushed| ==> s.producer.MayWrite? || s.producer.MayPublish?
    ensures |s.popped| < s.headSeen <= |s.pushed| && push <= |s.popped| && s.consumer.tail < |s.slots|
    ensures s.slots[s.consumer.tail] == s.pushed[|s.popped|]
  {
    ReachableKeeps(cap, s);
    if push > |s.popped| {
      SameSlot(|s.popped|, push, cap);
    }
    assert s.slots[|s.popped| % cap] == s.pushed[|s.popped|];
  }

  /** Likewise a write: every earlier pop that used the slot is covered by a tail store the producer has acquired. */
  lemma WriteFollowsPops<T(!new)>(cap: nat, s: State<T>, pop: nat)
    requires Reachable(cap, s) && s.producer.MayWrite?
    requires pop <= |s.popped| && pop % cap == s.producer.head
    requires pop == |s.popped| ==> s.consumer.MayRead?
    ensures pop + 1 <= s.tailSeen
  {
    ReachableKeeps(cap, s);
    if pop >= s.tailSeen {
      SameSlot(pop, |s.pushed|, cap);
    }
  }

  /** A push gives up exactly when the ring is full as of the tail store it loaded; with an up-to-date load, full. */
  lemma PushFailsIffFull<T(!new)>(cap: nat, s: State<T>, k: nat)
    requires Reachable(cap, s) && Enabled(s, RefreshTail(k))
    ensures Do(cap, s, RefreshTail(k)).producer.ProducerIdle? <==> |s.pushed| - k == cap - 1
    ensures Do(cap, s, RefreshTail(k)).producer.ProducerIdle? && k == |s.popped|
      ==> |s.pushed| - |s.popped| == cap - 1
  {
    ReachableKeeps(cap, s);
    NextIsSuccessor(|s.pushed|, cap);
    assert s.tailStores[k] == k % cap;
    if (|s.pushed| + 1) % cap == k % cap {
      WholeLap(k, cap);
      SameSlot(|s.pushed| + 1, k + cap, cap);
    }
    if |s.pushed| + 1 == k + cap {
      WholeLap(k, cap);
    }
  }

  lemma PopFailsIffEmpty<T(!new)>(cap: nat, s: State<T>, k: nat)
    requires Reachable(cap, s) && Enabled(s, RefreshHead(k))
    ensures Do(cap, s, RefreshHead(k)).consumer.ConsumerIdle? <==> k == |s.popped|
    ensures Do(cap, s, RefreshHead(k)).consumer.ConsumerIdle? && k == |s.pushed| ==> s.pushed == s.popped
  {
    ReachableKeeps(cap, s);
    assert s.headStores[k] == k % cap;
    if |s.popped| % cap == k % cap {
      SameSlot(|s.popped|, k, cap);
    }
  }

  /** `size_approx` in 64-bit arithmetic, and `empty`. */
  function SizeApprox(head: nat, tail: nat, cap: nat): nat
    requires cap > 0
  {
    BitAnd((head - tail + cap) % 0x1_0000_0000_0000_0000, cap - 1)
  }

  /** Between operations both are exact. */
  lemma SizeIsExact<T(!new)>(cap: nat, s: State<T>)
    requires Reachable(cap, s) && cap <= 0x8000_0000_0000_0000
    ensures s.headStores != [] && s.tailStores != []
    ensures SizeApprox(Last(s.headStores), Last(s.tailStores), cap) == |s.pushed| - |s.popped|
    ensures Last(s.headStores) == Last(s.tailStores) <==> s.pushed == s.popped
  {
    ReachableKeeps(cap, s);
    var h, t := |s.pushed|, |s.popped|;
    LastCounts(s.headStores, cap);
    LastCounts(s.tailStores, cap);
    RoundTrip(h, t, cap);
    if h % cap == t % cap {
      SameSlot(t, h, cap);
    }
  }

  lemma RoundTrip(h: nat, t: nat, cap: nat)
    requires Admitted(cap) && cap <= 0x8000_0000_0000_0000 && t <= h < t + cap
    ensures SizeApprox(h % cap, t % cap, cap) == h - t
  {
    Euclid(h, cap);
    Euclid(t, cap);
    var d := h % cap - t % cap + cap;
    SmallMod(d);
    MaskCap(d, cap);
    DifferenceMod(h, t, cap);
  }

  lemma SmallMod(d: nat)
    requires d < 0x1_0000_0000_0000_0000
    ensures d % 0x1_0000_0000_0000_0000 == d
  {
  }

  lemma DifferenceMod(h: nat, t: nat, n: nat)
    requires 0 < n && t <= h < t + n
    ensures (h % n - t % n + n) % n == h - t
  {
    Euclid(h, n);
    Euclid(t, n);
    LapsApart(h, t, n, h / n, h % n, t / n, t % n);
    CloseGap(h % n - t % n, h - t, n);
  }

  lemma CloseGap(d: int, gap: nat, n: nat)
    requires gap < n && (d == gap || d == gap - n)
    ensures d + n >= 0 && (d + n) % n == gap
  {
    DivModUnique(gap, n, 0, gap);
    if d == gap {
      WholeLap(gap, n);
    }
  }

  lemma LapsApart(h: nat, t: nat, n: nat, qh: nat, rh: nat, qt: nat, rt: nat)
    requires t <= h < t + n && rh < n && rt < n && h == qh * n + rh && t == qt * n + rt
    ensures rh - rt == h - t || rh - rt == h - t - n
  {
    var d := qh - qt;
    assert h - t == d * n + (rh - rt);
    assert (d - 1) * n == d * n - n;
    MulGrows(d, n);
    MulGrows(d - 1, n);
  }
}
