/** The log ring buffer of logging/src/ring_buffer.c: a byte array with one slot kept open. */
module RingBuffer {
  import opened Wire

  /** The slot k places after position a, wrapping at the end of the buffer. */
  function Slot(a: nat, k: nat, size: nat): (s: nat)
    requires a < size && k < size
    ensures s < size
  {
    if a + k < size then a + k else a + k - size
  }

  /** The index n places after index, by the modulus. */
  function NextIndex(index: nat, n: nat, size: nat): (i: nat)
    requires 0 < size
    ensures i < size
  {
    (index + n) % size
  }

  /** The ring's data fields. */
  datatype Ring = Ring(buffer: seq<byte>, head: nat, tail: nat) {

    ghost predicate Valid() {
      head < |buffer| && tail < |buffer|
    }

    function UsedSpace(): (n: nat)
      requires Valid()
      ensures n < |buffer|
    {
      if head >= tail then head - tail else |buffer| - tail + head
    }

    function FreeSpace(): (n: nat)
      requires Valid()
      ensures n + UsedSpace() == |buffer| - 1
    {
      if head >= tail then |buffer| - (head - tail) - 1 else tail - head - 1
    }

    /** The queued bytes, oldest first. */
    ghost function Contents(): (c: seq<byte>)
      requires Valid()
      ensures |c| == UsedSpace()
      ensures forall k :: 0 <= k < |c| ==> c[k] == buffer[Slot(tail, k, |buffer|)]
    {
      if head >= tail then buffer[tail..head] else buffer[tail..] + buffer[..head]
    }

    /** What publishing n bytes does to the head index. */
    function Advance(index: nat, n: nat): (i: nat)
      requires 0 < |buffer|
      ensures i < |buffer|
    {
      NextIndex(index, n, |buffer|)
    }
  }

  lemma NextIndexIsSlot(index: nat, n: nat, size: nat)
    requires index < size && n < size
    ensures NextIndex(index, n, size) == Slot(index, n, size)
  {
    if index + n >= size {
      ModOnce(index + n, size);
    }
  }

  lemma AdvanceIsSlot(r: Ring, index: nat, n: nat)
    requires index < |r.buffer| && n < |r.buffer|
    ensures r.Advance(index, n) == Slot(index, n, |r.buffer|)
  {
    NextIndexIsSlot(index, n, |r.buffer|);
  }

  /** Bytes laid into the free slots become visible, in order, when the head passes them. */
  lemma Published(r: Ring, data: seq<byte>, r': Ring)
    requires r.Valid() && |data| <= r.FreeSpace()
    requires forall k :: 0 <= k < |data| ==> r.buffer[Slot(r.head, k, |r.buffer|)] == data[k]
    requires r' == r.(head := r.Advance(r.head, |data|))
    ensures r'.Valid() && r'.Contents() == r.Contents() + data
    ensures r'.UsedSpace() == r.UsedSpace() + |data|
  {
    AdvanceIsSlot(r, r.head, |data|);
    assert r'.UsedSpace() == r.UsedSpace() + |data|;
    forall k | 0 <= k < |r'.Contents()|
      ensures r'.Contents()[k] == (r.Contents() + data)[k]
    {
      if k >= r.UsedSpace() {
        assert Slot(r.tail, k, |r.buffer|) == Slot(r.head, k - r.UsedSpace(), |r.buffer|);
      }
    }
  }

  /** Moving the tail past n queued bytes drops exactly those. */
  lemma Dropped(r: Ring, n: nat, r': Ring)
    requires r.Valid() && n <= r.UsedSpace()
    requires r' == r.(tail := r.Advance(r.tail, n))
    ensures r'.Valid() && r'.Contents() == r.Contents()[n..]
    ensures r'.UsedSpace() == r.UsedSpace() - n
  {
    AdvanceIsSlot(r, r.tail, n);
    assert r'.UsedSpace() == r.UsedSpace() - n;
    forall k | 0 <= k < |r'.Contents()|
      ensures r'.Contents()[k] == r.Contents()[n + k]
    {
      assert Slot(r'.tail, k, |r.buffer|) == Slot(r.tail, n + k, |r.buffer|);
    }
  }

  /** Writing a free slot leaves the queued bytes alone; writing a queued slot is never of this form. */
  lemma FreeSlotIsNotQueued(r: Ring, k: nat, value: byte)
    requires r.Valid() && k < r.FreeSpace()
    ensures var s := Slot(r.head, k, |r.buffer|);
            && (forall j :: 0 <= j < r.UsedSpace() ==> Slot(r.tail, j, |r.buffer|) != s)
            && r.(buffer := r.buffer[s := value]).Contents() == r.Contents()
  {
    var s := Slot(r.head, k, |r.buffer|);
    var r' := r.(buffer := r.buffer[s := value]);
    assert forall j :: 0 <= j < r.UsedSpace() ==> Slot(r.tail, j, |r.buffer|) != s;
    assert forall j :: 0 <= j < r.UsedSpace() ==> r'.Contents()[j] == r.Contents()[j];
  }

  /** The two-chunk copy of data to the free slots behind the head, followed by the move of the head. */
  lemma CopiedAndPublished(r: Ring, data: seq<byte>, laid: Ring)
    requires r.Valid() && |data| <= r.FreeSpace()
    requires laid.head == r.head && laid.tail == r.tail && |laid.buffer| == |r.buffer|
    requires forall s :: 0 <= s < |r.buffer| ==>
               laid.buffer[s] == if r.head <= s < r.head + |data| then data[s - r.head]
                                 else if s + |r.buffer| < r.head + |data| then data[s + |r.buffer| - r.head]
                                 else r.buffer[s]
    ensures var r' := laid.(head := laid.Advance(laid.head, |data|));
            r'.Valid() && r'.Contents() == r.Contents() + data
  {
    assert laid.Contents() == r.Contents();
    Published(laid, data, laid.(head := laid.Advance(laid.head, |data|)));
  }

  /** The two-chunk copy of the n bytes from the tail on. */
  lemma CopiedOut(r: Ring, n: nat, data: seq<byte>)
    requires r.Valid() && n <= r.UsedSpace() && |data| == n
    requires forall k :: 0 <= k < n ==>
               data[k] == if r.tail + k < |r.buffer| then r.buffer[r.tail + k] else r.buffer[r.tail + k - |r.buffer|]
    ensures data == r.Contents()[..n]
  {
  }

  /** memcpy between two distinct buffers. */
  method Memcpy(to: array<byte>, at: nat, from: array<byte>, start: nat, n: nat)
    requires to != from && at + n <= to.Length && start + n <= from.Length
    modifies to
    ensures forall i :: 0 <= i < to.Length ==>
              to[i] == if at <= i < at + n then from[start + i - at] else old(to[i])
  {
    forall i | 0 <= i < n {
      to[at + i] := from[start + i];
    }
  }

  /** One ring_buffer_t as its callers use it from one thread at a time. `lock` is the semaphore's count. */
  class RingBuffer {
    var buffer: array<byte>
    var head: nat
    var tail: nat
    var lock: nat

    ghost function Snapshot(): Ring
      reads this, buffer
    {
      Ring(buffer[..], head, tail)
    }

    ghost predicate Valid()
      reads this, buffer
    {
      Snapshot().Valid() && lock >= 1
    }

    ghost function Contents(): seq<byte>
      reads this, buffer
      requires Valid()
    {
      Snapshot().Contents()
    }

    constructor ()
      ensures buffer.Length == 0
    {
      buffer := new byte[0];
      head, tail, lock := 0, 0, 0;
    }

    method Initialize(storage: array<byte>) returns (rc: int)
      modifies this, storage
      ensures storage.Length == 0 ==> rc == -1 && unchanged(this) && unchanged(storage)
      ensures storage.Length > 0 ==> rc == 0 && buffer == storage && Valid() && lock == 1 && Contents() == []
      ensures storage.Length > 0 ==> forall i :: 0 <= i < storage.Length ==> storage[i] == 0
    {
      if storage.Length == 0 {
        return -1;
      }
      forall i | 0 <= i < storage.Length {
        storage[i] := 0;
      }
      buffer, head, tail, lock := storage, 0, 0, 1;
      rc := 0;
    }

    method FreeSpace() returns (n: nat)
      requires Valid()
      modifies this`lock
      ensures Valid() && lock == old(lock) && Contents() == old(Contents())
      ensures n + |Contents()| == buffer.Length - 1
    {
      lock := lock - 1;
      n := if head >= tail then buffer.Length - (head - tail) - 1 else tail - head - 1;
      lock := lock + 1;
    }

    method UsedSpace() returns (n: nat)
      requires Valid()
      modifies this`lock
      ensures Valid() && lock == old(lock) && Contents() == old(Contents())
      ensures n == |Contents()|
    {
      lock := lock - 1;
      n := if head >= tail then head - tail else buffer.Length - tail + head;
      lock := lock + 1;
    }

    /** The two-chunk copy, entered with the semaphore taken and the space already checked. */
    method WriteInner(data: array<byte>, size: nat) returns (written: nat)
      requires Snapshot().Valid() && data != buffer
      requires size <= data.Length && size <= Snapshot().FreeSpace()
      modifies this`head, buffer
      ensures written == size && Snapshot().Valid()
      ensures Snapshot().Contents() == old(Snapshot().Contents()) + data[..size]
    {
      ghost var before, payload := Snapshot(), data[..size];
      var firstChunk := size;
      if head + size > buffer.Length {
        firstChunk := buffer.Length - head;
      }
      Memcpy(buffer, head, data, 0, firstChunk);
      if firstChunk < size {
        Memcpy(buffer, 0, data, firstChunk, size - firstChunk);
      }
      ghost var laid := Snapshot();
      assert forall s :: 0 <= s < |before.buffer| ==>
               laid.buffer[s] == if head <= s < head + size then payload[s - head]
                                 else if s + |before.buffer| < head + size then payload[s + |before.buffer| - head]
                                 else before.buffer[s];
      CopiedAndPublished(before, payload, laid);
      head := NextIndex(head, size, buffer.Length);
      assert Snapshot() == laid.(head := head);
      written := size;
    }

    /** Stores all of the bytes or none of them. */
    method WriteExactN(data: array<byte>, size: nat) returns (written: nat)
      requires Valid() && data != buffer && size <= data.Length
      modifies this`head, this`lock, buffer
      ensures Valid() && lock == old(lock)
      ensures written == if size <= buffer.Length - 1 - |old(Contents())| then size else 0
      ensures Contents() == old(Contents()) + data[..written]
    {
      if size == 0 {
        return 0;
      }
      lock := lock - 1;
      var freeSpace := if head >= tail then buffer.Length - (head - tail) - 1 else tail - head - 1;
      var bytesToWrite := if size <= freeSpace then size else 0;
      if bytesToWrite == 0 {
        lock := lock + 1;
        return 0;
      }
      written := WriteInner(data, bytesToWrite);
      lock := lock + 1;
    }

    /** Stores as many leading bytes as fit and returns how many that was. */
    method WriteN(data: array<byte>, size: nat) returns (written: nat)
      requires Valid() && data != buffer && size <= data.Length
      modifies this`head, this`lock, buffer
      ensures Valid() && lock == old(lock)
      ensures written == Min(size, buffer.Length - 1 - |old(Contents())|)
      ensures Contents() == old(Contents()) + data[..written]
    {
      if size == 0 {
        return 0;
      }
      lock := lock - 1;
      var freeSpace := if head >= tail then buffer.Length - (head - tail) - 1 else tail - head - 1;
      var bytesToWrite := if size <= freeSpace then size else freeSpace;
      if bytesToWrite == 0 {
        lock := lock + 1;
        return 0;
      }
      written := WriteInner(data, bytesToWrite);
      lock := lock + 1;
    }

    /** The two-chunk copy out, which leaves the ring as it is. */
    method CopyOut(data: array<byte>, n: nat)
      requires Snapshot().Valid() && data != buffer && n <= data.Length && n <= Snapshot().UsedSpace()
      modifies data
      ensures data[..n] == Snapshot().Contents()[..n] && data[n..] == old(data[n..])
    {
      var firstChunk := n;
      if tail + n > buffer.Length {
        firstChunk := buffer.Length - tail;
      }
      Memcpy(data, 0, buffer, tail, firstChunk);
      if firstChunk < n {
        Memcpy(data, firstChunk, buffer, 0, n - firstChunk);
      }
      CopiedOut(Snapshot(), n, data[..n]);
    }

    /** Takes the oldest bytes. The reader never takes the semaphore, yet gives it when it finds nothing. */
    method ReadN(data: array<byte>, size: nat) returns (n: nat)
      requires Valid() && data != buffer && size <= data.Length
      modifies this`tail, this`lock, data
      ensures Valid() && n == Min(size, |old(Contents())|)
      ensures data[..n] == old(Contents())[..n] && data[n..] == old(data[n..])
      ensures Contents() == old(Contents())[n..]
      ensures lock == if size > 0 && old(Contents()) == [] then old(lock) + 1 else old(lock)
    {
      if size == 0 {
        return 0;
      }
      ghost var before := Snapshot();
      var usedSpace := if head >= tail then head - tail else buffer.Length - tail + head;
      n := if size <= usedSpace then size else usedSpace;
      if n == 0 {
        lock := lock + 1;
        return 0;
      }
      CopyOut(data, n);
      assert Snapshot() == before;
      tail := NextIndex(tail, n, buffer.Length);
      Dropped(before, n, before.(tail := tail));
      assert Snapshot() == before.(tail := tail);
    }
  }
}
