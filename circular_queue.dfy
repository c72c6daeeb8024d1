/**
 * The ring buffer behind the record tokenizer. Items live in a fixed array;
 * `front` is the oldest unconsumed item, `back` the first free slot, and
 * `Count` the number of live items. The reader asks for one contiguous free
 * block (`PrepareBlock`), fills part of it, commits what it wrote
 * (`RecordGrowth`), looks ahead (`Peek`) and consumes (`Dequeue`).
 */
module CircularQueues {

  /** An index in `[0, 2n)` brought back into `[0, n)` by at most one subtraction of `n`. */
  function Wrap(p: nat, n: nat): (r: nat)
    requires p < n + n || p == 0
    ensures n > 0 ==> r < n
    ensures r == p || r + n == p
  {
    if p >= n then p - n else p
  }

  /** Wrapping twice in a row is wrapping once: the step that keeps `back` and `front` consistent. */
  lemma WrapAdd(x: nat, y: nat, n: nat)
    requires n > 0 && x < n + n && x + y < n + n
    ensures Wrap(x, n) + y < n + n
    ensures Wrap(Wrap(x, n) + y, n) == Wrap(x + y, n)
  {
  }

  /**
   * `Array.Copy(a, source, a, 0, count)`: moves `count` items starting at `source`
   * down to index 0. The source and target ranges may overlap; the copy behaves as if
   * the items were first saved elsewhere.
   */
  method CopyToFront<T>(a: array<T>, source: nat, count: nat)
    requires source + count <= a.Length
    modifies a
    ensures forall k :: 0 <= k < count ==> a[k] == old(a[source + k])
    ensures forall k :: count <= k < a.Length ==> a[k] == old(a[k])
  {
    var i := 0;
    while i < count
      invariant 0 <= i <= count
      invariant forall k :: 0 <= k < i ==> a[k] == old(a[source + k])
      invariant forall k :: i <= k < a.Length ==> a[k] == old(a[k])
    {
      a[i] := a[source + i];
      i := i + 1;
    }
  }

  class CircularQueue<T(0)> {
    const items: array<T>
    var front: nat
    var back: nat
    var Count: nat

    /** The object invariant: indices in range and `back` exactly `Count` slots after `front`. */
    ghost predicate Valid()
      reads this
    {
      && Count <= items.Length
      && (items.Length == 0 ==> front == 0 && back == 0)
      && (items.Length > 0 ==> front < items.Length && back < items.Length)
      && back == Wrap(front + Count, items.Length)
    }

    /** The array slot holding the item `index` places after `front`. */
    function Position(index: nat): (p: nat)
      reads this
      requires Valid() && index <= items.Length
      requires index < items.Length || index == 0
      ensures items.Length > 0 ==> p < items.Length
    {
      Wrap(front + index, items.Length)
    }

    /** The queue as a sequence: oldest item first. */
    ghost function Contents(): (q: seq<T>)
      reads this, items
      requires Valid()
      ensures |q| == Count
      ensures forall i :: 0 <= i < Count ==> q[i] == items[Position(i)]
    {
      Slots(front, Count)
    }

    /** The `n` items in the slots from `start` on, going round the end of the array. */
    ghost function Slots(start: nat, n: nat): (s: seq<T>)
      reads items
      requires n <= items.Length && (start < items.Length || n == 0)
      ensures |s| == n
      ensures forall i :: 0 <= i < n ==> s[i] == items[Wrap(start + i, items.Length)]
    {
      var a, len := items[..], items.Length;
      seq(n, i requires 0 <= i < n => a[Wrap(start + i, len)])
    }

    /** A run of slots splits at any point into two runs, the second starting where the first stops. */
    lemma SlotsSplit(start: nat, m: nat, k: nat)
      requires start < items.Length && m + k <= items.Length
      ensures Slots(start, m + k) == Slots(start, m) + Slots(Wrap(start + m, items.Length), k)
    {
      var n := items.Length;
      var whole, rest := Slots(start, m + k), Slots(Wrap(start + m, n), k);
      forall j | 0 <= j < k
        ensures rest[j] == whole[m + j]
      {
        WrapAdd(start + m, j, n);
      }
    }

    constructor (bufferSize: nat)
      ensures Valid() && fresh(items)
      ensures items.Length == bufferSize && Contents() == []
    {
      items := new T[bufferSize];
      front, back, Count := 0, 0, 0;
    }

    /**
     * Returns the free block `[offset, offset + size)`: it starts at `back`, holds every
     * free slot, lies inside the array and overlaps no live item. When the free slots
     * would be split by the end of the array, the live items are first moved to index 0.
     * The queue's contents are unchanged.
     */
    method PrepareBlock() returns (offset: nat, size: nat)
      requires Valid()
      modifies this, items
      ensures Valid() && Count == old(Count) && Contents() == old(Contents())
      ensures offset == back && size == items.Length - Count
      ensures offset + size <= items.Length
      ensures forall i :: 0 <= i < Count ==> !(offset <= Position(i) < offset + size)
    {
      size := items.Length - Count;
      if back >= front && items.Length - back < size {
        ghost var was := Contents();
        CopyToFront(items, front, Count);
        front := 0;
        back := Count;
        assert forall i :: 0 <= i < Count ==> Position(i) == i;
        assert Contents() == was;
      }
      offset := back;
    }

    /**
     * Commits `size` items written into the free space after `back`: they join the
     * end of the queue in the order of their slots.
     */
    method RecordGrowth(size: nat)
      requires Valid() && size <= items.Length - Count
      modifies this
      ensures Valid() && front == old(front) && Count == old(Count) + size
      ensures Contents() == old(Contents()) + Slots(old(back), size)
    {
      ghost var was := Contents();
      ghost var oldBack := back;
      ghost var oldCount := Count;
      if size > 0 {
        WrapAdd(front + Count, size, items.Length);
      }
      var next := back + size;
      if next >= items.Length {
        next := next - items.Length;
      }
      Count, back := Count + size, next;
      if size > 0 {
        SlotsSplit(front, oldCount, size);
      }
    }

    /** The oldest item; when the queue is empty, whatever the slot at `front` holds. */
    method Peek() returns (x: T)
      requires Valid() && items.Length > 0
      ensures x == items[Position(0)]
      ensures Count > 0 ==> x == Contents()[0]
    {
      x := items[front];
    }

    /** The item `index` places after the oldest one (`Peek(int index)` in the source). */
    method PeekAt(index: nat) returns (x: T)
      requires Valid() && front + index < items.Length + items.Length
      ensures x == items[Wrap(front + index, items.Length)]
      ensures index < Count ==> x == Contents()[index]
    {
      var position := front + index;
      if position >= items.Length {
        position := position - items.Length;
      }
      x := items[position];
    }

    /** Consumes the `count` oldest items. */
    method Dequeue(count: nat)
      requires Valid() && count <= Count
      modifies this
      ensures Valid() && Count == old(Count) - count
      ensures Contents() == old(Contents())[count..]
    {
      ghost var was := Contents();
      ghost var oldFront := front;
      if items.Length > 0 {
        WrapAdd(front + count, Count - count, items.Length);
      }
      front := front + count;
      if front >= items.Length {
        front := front - items.Length;
      }
      Count := Count - count;
      if items.Length > 0 {
        SlotsSplit(oldFront, count, Count);
      }
    }
  }

  /** The text reader's `Read(buffer, offset, count)` delivering `data`: it lands at `offset` and nothing else changes. */
  method ReadInto<T>(a: array<T>, offset: nat, data: seq<T>)
    requires offset + |data| <= a.Length
    modifies a
    ensures forall k :: 0 <= k < |data| ==> a[offset + k] == data[k]
    ensures forall k :: 0 <= k < a.Length && !(offset <= k < offset + |data|) ==> a[k] == old(a[k])
  {
    for i := 0 to |data|
      invariant forall k :: 0 <= k < i ==> a[offset + k] == data[k]
      invariant forall k :: 0 <= k < a.Length && !(offset <= k < offset + i) ==> a[k] == old(a[k])
    {
      a[offset + i] := data[i];
    }
  }

  /**
   * How the record reader refills the queue: it prepares the free block, lets the
   * text reader write as many items as fit (here the longest prefix of `source` that
   * fits), and commits them. The queue then holds its old contents followed by
   * exactly the items written.
   */
  method Refill<T(0)>(q: CircularQueue<T>, source: seq<T>) returns (written: nat)
    requires q.Valid()
    modifies q, q.items
    ensures q.Valid()
    ensures written == if |source| < q.items.Length - old(q.Count) then |source| else q.items.Length - old(q.Count)
    ensures q.Contents() == old(q.Contents()) + source[..written]
  {
    var offset, size := q.PrepareBlock();
    ghost var before := q.Contents();
    written := if |source| < size then |source| else size;
    ReadInto(q.items, offset, source[..written]);
    assert forall j :: 0 <= j < q.Count ==> q.items[q.Position(j)] == before[j];
    assert q.Contents() == before;
    assert q.Slots(offset, written) == source[..written];
    q.RecordGrowth(written);
  }
}
