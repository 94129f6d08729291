/** The ring buffer under the asynchronous queue and the ring-buffer sink, and the bounded
    sequence it stands for. */
module CircularQueue {

  // Number of values of the counters and sizes (size_t on a 64-bit platform).
  const SIZE_MODULUS := 0x1_0000_0000_0000_0000

  // What a ring means: `slots` is 0 when the ring is disabled, otherwise one more than the
  // number of items it can hold; `items` runs from the oldest to the newest.
  datatype Ring<T> = Ring(slots: nat, items: seq<T>, overrun: nat)
  {
    ghost predicate Valid() {
      && 0 <= overrun < SIZE_MODULUS
      && slots < SIZE_MODULUS
      && (if slots == 0 then items == [] else |items| < slots)
    }

    predicate Full() { slots > 0 && |items| == slots - 1 }

    function Push(x: T): Ring<T> {
      if slots == 0 then this
      else if Full() then Ring(slots, (items + [x])[1..], (overrun + 1) % SIZE_MODULUS)
      else Ring(slots, items + [x], overrun)
    }

    function Pop(): Ring<T>
      requires items != []
    {
      Ring(slots, items[1..], overrun)
    }
  }

  // A new ring asked to hold `capacity` items; the slot count is computed in size_t.
  function NewRing<T>(capacity: nat): Ring<T> {
    Ring((capacity + 1) % SIZE_MODULUS, [], 0)
  }

  // The next index of a buffer of `n` slots.
  function NextIndex(i: nat, n: nat): (r: nat)
    requires i < n
    ensures r == if i + 1 == n then 0 else i + 1
  {
    (i + 1) % n
  }

  function PushAll<T>(r: Ring<T>, xs: seq<T>): Ring<T> {
    if xs == [] then r else PushAll(r, xs[..|xs| - 1]).Push(xs[|xs| - 1])
  }

  // The newest `n` elements, in order.
  function Newest<T>(xs: seq<T>, n: nat): seq<T> {
    if n <= |xs| then xs[|xs| - n..] else xs
  }

  // A sequence that agrees with the end of another, item by item, is its newest part.
  lemma NewestIs<T>(xs: seq<T>, n: nat, ys: seq<T>)
    requires |ys| == (if n <= |xs| then n else |xs|)
    requires forall j :: 0 <= j < |ys| ==> ys[j] == xs[|xs| - |ys| + j]
    ensures ys == Newest(xs, n)
  {
  }

  // The ring that has seen exactly xs.
  function RingOf<T>(capacity: nat, xs: seq<T>): Ring<T> {
    Ring(capacity + 1, Newest(xs, capacity), (if |xs| > capacity then |xs| - capacity else 0) % SIZE_MODULUS)
  }

  lemma CounterStep(n: nat)
    ensures (n % SIZE_MODULUS + 1) % SIZE_MODULUS == (n + 1) % SIZE_MODULUS
  {
  }

  lemma PushAfterNewest<T>(front: seq<T>, x: T, capacity: nat)
    ensures |front| < capacity ==> Newest(front, capacity) + [x] == Newest(front + [x], capacity)
    ensures |front| >= capacity ==> (Newest(front, capacity) + [x])[1..] == Newest(front + [x], capacity)
  {
  }

  lemma PushOntoNewest<T>(capacity: nat, front: seq<T>, x: T)
    ensures RingOf(capacity, front).Push(x) == RingOf(capacity, front + [x])
  {
    PushAfterNewest(front, x, capacity);
    if |front| >= capacity {
      CounterStep(|front| - capacity);
    }
  }

  // A push-only run keeps exactly the newest `capacity` items and counts all the others as overrun.
  lemma {:induction false} PushOnlyRunKeepsNewest<T>(capacity: nat, xs: seq<T>)
    requires capacity < SIZE_MODULUS - 1
    ensures PushAll(NewRing(capacity), xs) == RingOf(capacity, xs)
    ensures RingOf(capacity, xs).Valid()
  {
    if xs != [] {
      var front, last := xs[..|xs| - 1], xs[|xs| - 1];
      PushOnlyRunKeepsNewest(capacity, front);
      PushOntoNewest(capacity, front, last);
      assert front + [last] == xs;
    }
  }

  // Splitting a push-only run anywhere makes no difference.
  lemma {:induction false} PushAllConcat<T>(r: Ring<T>, xs: seq<T>, ys: seq<T>)
    ensures PushAll(r, xs + ys) == PushAll(PushAll(r, xs), ys)
  {
    if ys == [] {
      assert xs + ys == xs;
    } else {
      var front := ys[..|ys| - 1];
      assert (xs + ys)[..|xs + ys| - 1] == xs + front;
      PushAllConcat(r, xs, front);
    }
  }

  // A new ring stores what is pushed into it exactly when its capacity is neither 0 nor the
  // largest size_t, for which the slot count wraps to 0 and the ring is born disabled.
  lemma NewRingStoresIffUsable<T>(capacity: nat, x: T)
    requires capacity < SIZE_MODULUS
    ensures NewRing(capacity).Push(x).items == [x] <==> 0 < capacity < SIZE_MODULUS - 1
  {
    if capacity == SIZE_MODULUS - 1 {
      assert NewRing<T>(capacity).slots == 0;
    } else {
      assert NewRing<T>(capacity).slots == capacity + 1;
    }
  }

  lemma WrapOnce(i: nat, n: nat)
    requires 0 < n && i < 2 * n
    ensures i % n == if i < n then i else i - n
  {
    if n <= i {
      assert i / n == 1;
    }
  }

  // The items from head up to, not including, tail, going round the end of the buffer.
  function Window<T>(v: seq<T>, head: nat, tail: nat): seq<T>
    requires head <= |v| && tail <= |v|
  {
    if head <= tail then v[head..tail] else v[head..] + v[..tail]
  }

  // Writing at tail and advancing it appends.
  lemma WindowPush<T>(v: seq<T>, head: nat, tail: nat, x: T)
    requires head < |v| && tail < |v| && NextIndex(tail, |v|) != head
    ensures Window(v[tail := x], head, NextIndex(tail, |v|)) == Window(v, head, tail) + [x]
  {
  }

  // Where that makes tail meet head, head has to step over the oldest item.
  lemma WindowOverrun<T>(v: seq<T>, head: nat, tail: nat, x: T)
    requires head < |v| && tail < |v| && NextIndex(tail, |v|) == head
    ensures Window(v[tail := x], NextIndex(head, |v|), head) == (Window(v, head, tail) + [x])[1..]
  {
    var w := v[tail := x];
    if head == 0 {
      assert tail == |v| - 1;
      assert Window(v, head, tail) + [x] == w;
    } else if head + 1 == |v| {
      assert Window(v, head, tail) + [x] == [w[head]] + w[..head];
    } else {
      assert Window(v, head, tail) + [x] == w[head..] + w[..head];
    }
  }

  lemma WindowPop<T>(v: seq<T>, head: nat, tail: nat)
    requires head < |v| && tail < |v| && head != tail
    ensures Window(v, NextIndex(head, |v|), tail) == Window(v, head, tail)[1..]
  {
  }

  class CircularQ<T(0)> {
    var maxItems: nat
    var head: nat
    var tail: nat
    var overrunCounter: nat
    var v: array<T>

    ghost predicate Valid()
      reads this, v
    {
      && v.Length == maxItems < SIZE_MODULUS
      && overrunCounter < SIZE_MODULUS
      && (if maxItems == 0 then head == tail == 0 else head < maxItems && tail < maxItems)
    }

    ghost function Contents(): seq<T>
      reads this, v
      requires Valid()
    {
      Window(v[..], head, tail)
    }

    ghost function Abs(): (r: Ring<T>)
      reads this, v
      requires Valid()
      ensures r.Valid()
    {
      Ring(maxItems, Contents(), overrunCounter)
    }

    constructor Disabled()
      ensures Valid() && fresh(v)
      ensures Abs() == Ring(0, [], 0)
    {
      maxItems, head, tail, overrunCounter := 0, 0, 0, 0;
      v := new T[0];
    }

    constructor (capacity: nat)
      requires capacity < SIZE_MODULUS
      ensures Valid() && fresh(v)
      ensures Abs() == NewRing(capacity)
    {
      maxItems := (capacity + 1) % SIZE_MODULUS;
      head, tail, overrunCounter := 0, 0, 0;
      v := new T[(capacity + 1) % SIZE_MODULUS];
    }

    method PushBack(item: T)
      requires Valid()
      modifies this, v
      ensures Valid() && v == old(v)
      ensures Abs() == old(Abs()).Push(item)
    {
      if maxItems > 0 {
        if NextIndex(tail, maxItems) == head {
          WindowOverrun(v[..], head, tail, item);
        } else {
          WindowPush(v[..], head, tail, item);
        }
        ghost var was := v[..];
        v[tail] := item;
        assert v[..] == was[tail := item];
        tail := NextIndex(tail, maxItems);
        if tail == head {
          head := NextIndex(head, maxItems);
          overrunCounter := (overrunCounter + 1) % SIZE_MODULUS;
        }
      }
    }

    method Front() returns (item: T)
      requires Valid() && Contents() != []
      ensures item == Contents()[0]
    {
      item := v[head];
    }

    method Size() returns (n: nat)
      requires Valid()
      ensures n == |Contents()|
    {
      if tail >= head {
        n := tail - head;
      } else {
        n := maxItems - (head - tail);
      }
    }

    method At(i: nat) returns (item: T)
      requires Valid() && i < |Contents()|
      ensures item == Contents()[i]
    {
      WrapOnce(head + i, maxItems);
      item := v[(head + i) % maxItems];
    }

    method PopFront()
      requires Valid() && Contents() != []
      modifies this
      ensures Valid() && v == old(v)
      ensures Abs() == old(Abs()).Pop()
    {
      WindowPop(v[..], head, tail);
      head := NextIndex(head, maxItems);
    }

    predicate Empty()
      reads this
    {
      tail == head
    }

    predicate Full()
      requires Valid()
      reads this, v
    {
      if maxItems > 0 then NextIndex(tail, maxItems) == head else false
    }

    // The two index tests mean what their names say.
    lemma QueriesAreExact()
      requires Valid()
      ensures Empty() <==> Contents() == []
      ensures Full() <==> Abs().Full()
    {
    }

    method ResetOverrunCounter()
      requires Valid()
      modifies this
      ensures Valid() && v == old(v)
      ensures Abs() == old(Abs()).(overrun := 0)
    {
      overrunCounter := 0;
    }

    // Move assignment: take over the other ring and leave it disabled. Moving a ring onto
    // itself is allowed and disables it.
    method CopyMoveable(other: CircularQ<T>)
      requires Valid() && other.Valid()
      modifies this, other
      ensures Valid() && other.Valid()
      ensures other.Abs() == Ring(0, [], 0) && fresh(other.v)
      ensures other != this ==> Abs() == old(other.Abs()) && v == old(other.v)
    {
      maxItems := other.maxItems;
      head := other.head;
      tail := other.tail;
      overrunCounter := other.overrunCounter;
      v := other.v;
      other.maxItems := 0;
      other.head, other.tail := 0, 0;
      other.overrunCounter := 0;
      other.v := new T[0];
    }
  }

  // A sink that remembers the latest messages.
  class RingbufferSink<T(0)> {
    const q: CircularQ<T>

    constructor (nItems: nat)
      requires nItems < SIZE_MODULUS
      ensures fresh(q) && q.Valid() && fresh(q.v)
      ensures q.Abs() == NewRing(nItems)
    {
      q := new CircularQ<T>(nItems);
    }

    method SinkIt(msg: T)
      requires q.Valid()
      modifies q, q.v
      ensures q.Valid() && q.v == old(q.v)
      ensures q.Abs() == old(q.Abs()).Push(msg)
    {
      q.PushBack(msg);
    }

    // The newest `lim` messages in order; a limit of 0 means all of them.
    method LastRaw(lim: nat) returns (ret: seq<T>)
      requires q.Valid()
      ensures ret == Newest(q.Contents(), if lim > 0 then lim else |q.Contents()|)
    {
      var itemsAvailable := q.Size();
      var nItems := if lim > 0 then (if lim < itemsAvailable then lim else itemsAvailable) else itemsAvailable;
      ret := [];
      var start := itemsAvailable - nItems;
      var i := start;
      while i < itemsAvailable
        invariant start <= i <= itemsAvailable && |ret| == i - start
        invariant forall j :: 0 <= j < |ret| ==> ret[j] == q.Contents()[start + j]
      {
        var item := q.At(i);
        ret := ret + [item];
        i := i + 1;
      }
      NewestIs(q.Contents(), if lim > 0 then lim else |q.Contents()|, ret);
    }
  }
}
