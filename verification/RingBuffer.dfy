/** A fixed-capacity buffer that overwrites its oldest value, and its two iterators. */
module RingBuffer {
  import opened Basics

  lemma QuotientUnique(n: nat, q: nat, r: nat, q': nat, r': nat)
    requires r < n && r' < n && q * n + r == q' * n + r'
    ensures q == q' && r == r'
  {
    if q < q' {
      MulAtLeast(q' - q, n);
    } else if q' < q {
      MulAtLeast(q - q', n);
    }
  }

  lemma {:induction false} MulAtLeast(k: nat, n: nat)
    requires k >= 1
    ensures k * n >= n
  {
    if k > 1 {
      MulAtLeast(k - 1, n);
      assert k * n == (k - 1) * n + n;
    }
  }

  lemma ModIs(a: nat, n: nat, q: nat, r: nat)
    requires r < n && a == q * n + r
    ensures a % n == r
  {
    QuotientUnique(n, q, r, a / n, a % n);
  }

  /** `a % n` for an operand below `2 * n`. */
  lemma ModOnce(a: nat, n: nat)
    requires n > 0 && a < 2 * n
    ensures a % n == if a < n then a else a - n
  {
    if a < n {
      ModIs(a, n, 0, a);
    } else {
      ModIs(a, n, 1, a - n);
    }
  }

  lemma ModSucc(k: nat, n: nat)
    requires n > 0
    ensures (k + 1) % n == if k % n + 1 == n then 0 else k % n + 1
  {
    var q, r := k / n, k % n;
    assert k == q * n + r;
    if r + 1 == n {
      assert (q + 1) * n == q * n + n;
      ModIs(k + 1, n, q + 1, 0);
    } else {
      ModIs(k + 1, n, q, r + 1);
    }
  }

  /** Where the iterators find the value at distance `k` from the oldest. */
  function Slot(k: nat, i: nat, len: nat): nat
    requires len > 0
  {
    (k + i) % len
  }

  /** The stored values from the oldest on. */
  function Unrolled<T>(data: seq<T>, i: nat): (s: seq<T>)
    requires i <= |data|
    ensures |s| == |data|
  {
    data[i..] + data[..i]
  }

  lemma SlotReads<T>(data: seq<T>, i: nat, k: nat)
    requires i <= |data| && k < |data|
    ensures Slot(k, i, |data|) < |data|
    ensures data[Slot(k, i, |data|)] == Unrolled(data, i)[k]
  {
    ModOnce(k + i, |data|);
  }

  /** Overwriting the oldest value drops it and appends the new one. */
  lemma OverwriteOldest<T>(data: seq<T>, i: nat, value: T)
    requires i < |data|
    ensures Unrolled(data[i := value], if i + 1 == |data| then 0 else i + 1) == Unrolled(data, i)[1..] + [value]
  {
  }

  class RingBuffer<T> {
    var data: seq<T>
    var i: nat
    const capacity: nat
    /** Every value ever pushed. */
    ghost var pushed: seq<T>

    ghost predicate Valid()
      reads this
    {
      && |data| == Min(|pushed|, capacity)
      && (capacity > 0 ==> i == |pushed| % capacity)
      && (capacity == 0 ==> i == 0)
      && i <= |data|
      && Unrolled(data, i) == LastN(pushed, capacity)
    }

    constructor (capacity: nat)
      ensures Valid() && this.capacity == capacity && pushed == []
    {
      this.capacity := capacity;
      data, i, pushed := [], 0, [];
    }

    /** Indexing an empty buffer panics, so a buffer without capacity cannot be pushed to. */
    method Push(value: T) returns (panicked: bool)
      requires Valid()
      modifies this
      ensures Valid()
      ensures panicked <==> capacity == 0
      ensures pushed == if panicked then old(pushed) else old(pushed) + [value]
    {
      if capacity == 0 {
        return true;
      }
      ModOnce(i + 1, capacity);
      ModSucc(|pushed|, capacity);
      if |data| == capacity {
        OverwriteOldest(data, i, value);
        data := data[i := value];
      } else {
        ModOnce(|pushed|, capacity);
        data := data + [value];
      }
      i := (i + 1) % capacity;
      pushed := pushed + [value];
      panicked := false;
    }
  }

  /** Borrowing iterator. */
  class RingBufferIter<T> {
    const buffer: RingBuffer<T>
    var index: nat

    constructor (buffer: RingBuffer<T>)
      ensures this.buffer == buffer && index == 0
    {
      this.buffer, index := buffer, 0;
    }

    method Next() returns (item: Option<T>)
      requires buffer.Valid() && index <= |buffer.data|
      modifies this
      ensures index <= |buffer.data|
      ensures var last := LastN(buffer.pushed, buffer.capacity);
        if old(index) == |last| then item == None && index == old(index)
        else old(index) < |last| && item == Some(last[old(index)]) && index == old(index) + 1
    {
      if index == |buffer.data| {
        return None;
      }
      SlotReads(buffer.data, buffer.i, index);
      item := Some(buffer.data[Slot(index, buffer.i, |buffer.data|)]);
      index := index + 1;
    }
  }

  /** Consuming iterator: takes each value out and leaves a default behind. */
  class OwnedRingBufferIter<T> {
    var data: seq<T>
    const i: nat
    const default: T
    var index: nat
    ghost const all: seq<T>

    ghost predicate Valid()
      reads this
    {
      && |data| == |all| && index <= |data| && i <= |data|
      && (forall k :: index <= k < |data| ==> Slot(k, i, |data|) < |data| && data[Slot(k, i, |data|)] == all[k])
    }

    constructor (buffer: RingBuffer<T>, default: T)
      requires buffer.Valid()
      ensures Valid() && index == 0 && all == LastN(buffer.pushed, buffer.capacity)
    {
      data, i, index, this.default := buffer.data, buffer.i, 0, default;
      all := LastN(buffer.pushed, buffer.capacity);
      forall k | 0 <= k < |buffer.data|
        ensures Slot(k, buffer.i, |buffer.data|) < |buffer.data|
        ensures buffer.data[Slot(k, buffer.i, |buffer.data|)] == Unrolled(buffer.data, buffer.i)[k]
      {
        SlotReads(buffer.data, buffer.i, k);
      }
    }

    method Next() returns (item: Option<T>)
      requires Valid()
      modifies this
      ensures Valid()
      ensures if old(index) == |all| then item == None && index == old(index)
        else old(index) < |all| && item == Some(all[old(index)]) && index == old(index) + 1
    {
      if index == |data| {
        return None;
      }
      var slot := Slot(index, i, |data|);
      item := Some(data[slot]);
      forall k | index < k < |data| ensures Slot(k, i, |data|) != slot {
        ModOnce(k + i, |data|);
        ModOnce(index + i, |data|);
      }
      data := data[slot := default];
      index := index + 1;
    }
  }

  lemma TakeNext<T>(s: seq<T>, k: nat)
    requires k < |s|
    ensures s[..k + 1] == s[..k] + [s[k]]
  {
  }

  method Borrowed<T>(buffer: RingBuffer<T>) returns (out: seq<T>)
    requires buffer.Valid()
    ensures out == LastN(buffer.pushed, buffer.capacity)
  {
    var iter := new RingBufferIter(buffer);
    ghost var last := LastN(buffer.pushed, buffer.capacity);
    out := [];
    while true
      invariant buffer.Valid() && iter.buffer == buffer && fresh(iter) && iter.index <= |buffer.data| == |last|
      invariant last == LastN(buffer.pushed, buffer.capacity) && out == last[..iter.index]
      decreases |last| - iter.index
    {
      ghost var k := iter.index;
      var item := iter.Next();
      if item.None? {
        return;
      }
      TakeNext(last, k);
      out := out + [item.value];
    }
  }

  method Owned<T>(buffer: RingBuffer<T>, default: T) returns (out: seq<T>)
    requires buffer.Valid()
    ensures out == LastN(buffer.pushed, buffer.capacity)
  {
    var iter := new OwnedRingBufferIter(buffer, default);
    out := [];
    while true
      invariant iter.Valid() && fresh(iter) && iter.all == LastN(buffer.pushed, buffer.capacity)
      invariant out == iter.all[..iter.index]
      decreases |iter.all| - iter.index
    {
      ghost var k := iter.index;
      var item := iter.Next();
      if item.None? {
        return;
      }
      TakeNext(iter.all, k);
      out := out + [item.value];
    }
  }

  /** Both iterators, run to the end after any sequence of pushes, yield the last
      `min(pushes, capacity)` values in push order. */
  method PushAllThenIterate<T>(capacity: nat, values: seq<T>, default: T) returns (borrowed: seq<T>, owned: seq<T>)
    requires capacity > 0
    ensures borrowed == owned == values[if |values| <= capacity then 0 else |values| - capacity..]
  {
    var buffer := new RingBuffer<T>(capacity);
    for k := 0 to |values|
      invariant buffer.Valid() && buffer.pushed == values[..k] && fresh(buffer)
    {
      var panicked := buffer.Push(values[k]);
    }
    assert values[..|values|] == values;
    borrowed := Borrowed(buffer);
    owned := Owned(buffer, default);
  }
}
