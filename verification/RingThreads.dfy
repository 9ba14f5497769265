/**
  The ring buffer shared by any number of producer threads and one consumer thread.

  Every shared access is a step of its own: taking the semaphore, computing the space, copying one byte,
  publishing an index, giving the semaphore. An event that its thread cannot perform now leaves the state
  as it is, so a list of events is a schedule and every list is a legal one.
 */
module RingThreads {
  import opened Wire
  import opened RingBuffer

  /** What a producer thread called. The two queries are the locked space computations. */
  datatype Call = WriteN | WriteExactN | FreeSpace | UsedSpace

  /** Where a producer thread is. All states but Idle lie between lock_take and lock_give. */
  datatype Producer =
    | Idle
    | Locked(call: Call, data: seq<byte>)
    | Copying(call: Call, data: seq<byte>, n: nat, start: nat, copied: nat)
    | Leaving(call: Call, data: seq<byte>, n: nat)

  /** Where the consumer thread is inside ring_buffer_read_n. */
  datatype Consumer =
    | Out
    | Reading(n: nat, start: nat, got: seq<byte>)
    | FoundEmpty

  /** One published write: the first n bytes of what thread `writer` passed to `call`. */
  datatype Record = Record(writer: nat, call: Call, data: seq<byte>, n: nat)

  /**
    The shared memory, the threads, and the history the properties speak of: the writes in the order their
    heads were published, the bytes handed to the consumer's caller, each thread's successful calls
    in the order they returned, and the number of reads that found the ring empty.
   */
  datatype State = State(
    ring: Ring, semaphore: nat, producers: seq<Producer>, consumer: Consumer,
    log: seq<Record>, returned: seq<byte>, done: seq<seq<Record>>, emptyReads: nat)

  datatype Event =
    | Take(p: nat, call: Call, data: seq<byte>)
    | Compute(p: nat)
    | CopyByte(p: nat)
    | PublishHead(p: nat)
    | Give(p: nat)
    | StartRead(size: nat)
    | ReadByte
    | PublishTail
    | GiveOnEmpty

  function Init(size: nat, threads: nat): State
    requires size > 0
  {
    State(Ring(seq(size, i => 0), 0, 0), 1, seq(threads, i => Idle), Out, [], [], seq(threads, i => []), 0)
  }

  /** The two-chunk copy's address for byte k, with the chunk boundary computed from the index `start`. */
  function Address(start: nat, n: nat, k: nat, size: nat): nat
    requires start < size && n < size && k < n
  {
    var firstChunk := if start + n > size then size - start else n;
    if k < firstChunk then start + k else k - firstChunk
  }

  ghost predicate InBounds(s: State) {
    && s.ring.Valid()
    && |s.done| == |s.producers|
    && (forall p :: 0 <= p < |s.producers| ==> ProducerInBounds(s.producers[p], |s.ring.buffer|))
    && (s.consumer.Reading? ==>
          s.consumer.start < |s.ring.buffer| && |s.consumer.got| <= s.consumer.n < |s.ring.buffer|)
  }

  ghost predicate ProducerInBounds(t: Producer, size: nat) {
    && (t.Copying? ==> t.start < size && t.copied <= t.n < size && t.n <= |t.data| && 0 < t.n)
    && (t.Copying? && t.call == WriteExactN ==> t.n == |t.data|)
    && (t.Leaving? ==> t.n <= |t.data|)
  }

  function Step(s: State, e: Event): (s': State)
    requires InBounds(s)
    ensures InBounds(s')
    ensures |s'.producers| == |s.producers| && |s'.ring.buffer| == |s.ring.buffer|
  {
    match e
    case StartRead(size) =>
      if !s.consumer.Out? || size == 0 then s else
      var n := Min(size, s.ring.UsedSpace());
      s.(consumer := if n == 0 then FoundEmpty else Reading(n, s.ring.tail, []))
    case ReadByte =>
      if !s.consumer.Reading? || |s.consumer.got| >= s.consumer.n then s else
      var c := s.consumer;
      var value := s.ring.buffer[Address(c.start, c.n, |c.got|, |s.ring.buffer|)];
      s.(consumer := c.(got := c.got + [value]))
    case PublishTail =>
      if !s.consumer.Reading? || |s.consumer.got| < s.consumer.n then s else
      s.(ring := s.ring.(tail := s.ring.Advance(s.ring.tail, s.consumer.n)),
         consumer := Out, returned := s.returned + s.consumer.got)
    case GiveOnEmpty =>
      if !s.consumer.FoundEmpty? then s else
      s.(consumer := Out, semaphore := s.semaphore + 1, emptyReads := s.emptyReads + 1)
    case _ =>
      if e.p >= |s.producers| then s else StepProducer(s, e.p, e)
  }

  function StepProducer(s: State, p: nat, e: Event): (s': State)
    requires InBounds(s) && p < |s.producers| && (e.Take? || e.Compute? || e.CopyByte? || e.PublishHead? || e.Give?)
    ensures InBounds(s')
    ensures |s'.producers| == |s.producers| && |s'.ring.buffer| == |s.ring.buffer|
  {
    var t := s.producers[p];
    match e
    case Take(_, call, data) =>
      if !t.Idle? || s.semaphore == 0 || ((call.WriteN? || call.WriteExactN?) && data == []) then s else
      s.(producers := s.producers[p := Locked(call, data)], semaphore := s.semaphore - 1)
    case Compute(_) =>
      if !t.Locked? then s else
      var n := if t.call.WriteN? then Min(|t.data|, s.ring.FreeSpace())
               else if t.call.WriteExactN? && |t.data| <= s.ring.FreeSpace() then |t.data|
               else 0;
      s.(producers := s.producers[p := if n == 0 then Leaving(t.call, t.data, 0)
                                       else Copying(t.call, t.data, n, s.ring.head, 0)])
    case CopyByte(_) =>
      if !t.Copying? || t.copied >= t.n then s else
      var at := Address(t.start, t.n, t.copied, |s.ring.buffer|);
      s.(ring := s.ring.(buffer := s.ring.buffer[at := t.data[t.copied]]),
         producers := s.producers[p := t.(copied := t.copied + 1)])
    case PublishHead(_) =>
      if !t.Copying? || t.copied < t.n then s else
      s.(ring := s.ring.(head := s.ring.Advance(s.ring.head, t.n)),
         producers := s.producers[p := Leaving(t.call, t.data, t.n)],
         log := s.log + [Record(p, t.call, t.data, t.n)])
    case Give(_) =>
      if !t.Leaving? then s else
      s.(producers := s.producers[p := Idle], semaphore := s.semaphore + 1,
         done := if t.n == 0 then s.done
                 else s.done[p := s.done[p] + [Record(p, t.call, t.data, t.n)]])
    case _ => s
  }

  function Run(s: State, schedule: seq<Event>): (s': State)
    requires InBounds(s)
    ensures InBounds(s')
    ensures |s'.producers| == |s.producers| && |s'.ring.buffer| == |s.ring.buffer|
    decreases |schedule|
  {
    if schedule == [] then s else Run(Step(s, schedule[0]), schedule[1..])
  }

  // ---- Semaphore accounting ----

  /** The number of threads between lock_take and lock_give. */
  ghost function Inside(ts: seq<Producer>): (n: nat)
    ensures n <= |ts|
  {
    if ts == [] then 0 else (if ts[0].Idle? then 0 else 1) + Inside(ts[1..])
  }

  lemma {:induction false} InsideUpdate(ts: seq<Producer>, p: nat, t: Producer)
    requires p < |ts|
    ensures Inside(ts[p := t]) == Inside(ts) - (if ts[p].Idle? then 0 else 1) + (if t.Idle? then 0 else 1)
  {
    if p == 0 {
      assert ts[p := t][1..] == ts[1..];
    } else {
      assert ts[p := t][1..] == ts[1..][p - 1 := t];
      InsideUpdate(ts[1..], p - 1, t);
    }
  }

  lemma {:induction false} InsideTwo(ts: seq<Producer>, p: nat, q: nat)
    requires p < q < |ts| && !ts[p].Idle? && !ts[q].Idle?
    ensures Inside(ts) >= 2
  {
    if p == 0 {
      InsideOne(ts[1..], q - 1);
    } else {
      InsideTwo(ts[1..], p - 1, q - 1);
    }
  }

  lemma {:induction false} InsideOne(ts: seq<Producer>, q: nat)
    requires q < |ts| && !ts[q].Idle?
    ensures Inside(ts) >= 1
  {
    if q > 0 {
      InsideOne(ts[1..], q - 1);
    }
  }

  lemma {:induction false} InsideNone(ts: seq<Producer>)
    requires forall p :: 0 <= p < |ts| ==> ts[p].Idle?
    ensures Inside(ts) == 0
  {
    if ts != [] {
      InsideNone(ts[1..]);
    }
  }

  ghost predicate Accounted(s: State) {
    s.semaphore + Inside(s.producers) == 1 + s.emptyReads
  }

  lemma AccountingStep(s: State, e: Event)
    requires InBounds(s) && Accounted(s)
    ensures Accounted(Step(s, e)) && Step(s, e).emptyReads >= s.emptyReads
  {
    if !(e.StartRead? || e.ReadByte? || e.PublishTail? || e.GiveOnEmpty?) && e.p < |s.producers| {
      InsideUpdate(s.producers, e.p, Step(s, e).producers[e.p]);
      assert Step(s, e).producers == s.producers[e.p := Step(s, e).producers[e.p]];
    }
  }

  lemma {:induction false} AccountingRun(s: State, schedule: seq<Event>)
    requires InBounds(s) && Accounted(s)
    ensures Accounted(Run(s, schedule)) && Run(s, schedule).emptyReads >= s.emptyReads
    decreases |schedule|
  {
    if schedule != [] {
      AccountingStep(s, schedule[0]);
      AccountingRun(Step(s, schedule[0]), schedule[1..]);
    }
  }

  /** On every schedule: count + threads inside == 1 + empty reads, so no two are inside before the first one. */
  lemma SemaphoreAccounting(size: nat, threads: nat, schedule: seq<Event>)
    requires size > 0
    ensures var s := Run(Init(size, threads), schedule);
            && s.semaphore + Inside(s.producers) == 1 + s.emptyReads
            && (s.emptyReads == 0 || threads <= 1 ==> Exclusive(s))
  {
    InsideNone(Init(size, threads).producers);
    AccountingRun(Init(size, threads), schedule);
    FewInsideIsExclusive(Run(Init(size, threads), schedule));
  }

  /** At most one producer is between lock_take and lock_give. */
  ghost predicate Exclusive(s: State) {
    forall p, q | 0 <= p < |s.producers| && 0 <= q < |s.producers| ::
      !s.producers[p].Idle? && !s.producers[q].Idle? ==> p == q
  }

  lemma FewInsideIsExclusive(s: State)
    ensures Inside(s.producers) <= 1 ==> Exclusive(s)
  {
    forall p, q | 0 <= p < q < |s.producers| && !s.producers[p].Idle? && !s.producers[q].Idle?
      ensures Inside(s.producers) >= 2
    {
      InsideTwo(s.producers, p, q);
    }
  }

  // ---- The queue, seen through every interleaving ----

  ghost function Bytes(log: seq<Record>): seq<byte>
    requires forall r :: r in log ==> r.n <= |r.data|
  {
    if log == [] then [] else Bytes(log[..|log| - 1]) + log[|log| - 1].data[..log[|log| - 1].n]
  }

  /** The records of one thread, in log order. */
  ghost function By(log: seq<Record>, p: nat): seq<Record> {
    if log == [] then []
    else By(log[..|log| - 1], p) + if log[|log| - 1].writer == p then [log[|log| - 1]] else []
  }

  ghost predicate LogOk(log: seq<Record>) {
    forall r :: r in log ==> 0 < r.n <= |r.data| && (r.call == WriteExactN ==> r.n == |r.data|)
  }

  /** What thread p has published but not yet returned from. */
  ghost function Pending(t: Producer, p: nat): seq<Record> {
    if t.Leaving? && t.n > 0 then [Record(p, t.call, t.data, t.n)] else []
  }

  /** A producer's stale estimate still holds and its bytes sit in the free slots behind the head. */
  ghost predicate WriterOk(r: Ring, t: Producer)
    requires r.Valid() && ProducerInBounds(t, |r.buffer|)
  {
    t.Copying? ==>
      && t.start == r.head && t.n <= r.FreeSpace()
      && forall k :: 0 <= k < t.copied ==> r.buffer[Slot(r.head, k, |r.buffer|)] == t.data[k]
  }

  /** The consumer's stale estimate still holds and what it copied is what is queued. */
  ghost predicate ReaderOk(r: Ring, c: Consumer)
    requires r.Valid()
  {
    c.Reading? ==>
      && c.start == r.tail && |c.got| <= c.n <= r.UsedSpace() && c.got == r.Contents()[..|c.got|]
  }

  /** The calls a thread has returned from are its records in the log, but for one it has yet to return from. */
  ghost predicate HistoryOk(log: seq<Record>, t: Producer, done: seq<Record>, p: nat) {
    By(log, p) == done + Pending(t, p)
  }

  ghost predicate Fifo(s: State)
    requires InBounds(s)
  {
    LogOk(s.log) && s.returned + s.ring.Contents() == Bytes(s.log)
  }

  ghost predicate Consistent(s: State) {
    && InBounds(s) && Fifo(s)
    && ReaderOk(s.ring, s.consumer)
    && (forall p :: 0 <= p < |s.producers| ==> WriterOk(s.ring, s.producers[p]))
    && (forall p :: 0 <= p < |s.producers| ==> HistoryOk(s.log, s.producers[p], s.done[p], p))
  }

  lemma AddressIsSlot(start: nat, n: nat, k: nat, size: nat)
    requires start < size && n < size && k < n
    ensures Address(start, n, k, size) == Slot(start, k, size)
  {
  }

  lemma AppendRecord(log: seq<Record>, r: Record)
    requires forall x :: x in log + [r] ==> x.n <= |x.data|
    ensures Bytes(log + [r]) == Bytes(log) + r.data[..r.n]
    ensures forall p :: By(log + [r], p) == By(log, p) + if r.writer == p then [r] else []
  {
    assert (log + [r])[..|log|] == log;
  }

  lemma ByteTaken(r: Ring, c: Consumer)
    requires r.Valid() && c.Reading? && |c.got| < c.n && ReaderOk(r, c)
    ensures c.n < |r.buffer|
    ensures ReaderOk(r, c.(got := c.got + [r.buffer[Address(c.start, c.n, |c.got|, |r.buffer|)]]))
  {
    var k, queued := |c.got|, r.Contents();
    AddressIsSlot(c.start, c.n, k, |r.buffer|);
    assert queued[k] == r.buffer[Slot(r.tail, k, |r.buffer|)];
    assert queued[..k + 1] == queued[..k] + [queued[k]];
  }

  lemma ReadByteStep(s: State)
    requires Consistent(s) && s.consumer.Reading? && |s.consumer.got| < s.consumer.n
    ensures ReaderOk(s.ring, Step(s, ReadByte).consumer)
  {
    ByteTaken(s.ring, s.consumer);
  }

  lemma Consumed(r: Ring, got: seq<byte>, r': Ring, returned: seq<byte>)
    requires r.Valid() && |got| <= r.UsedSpace() && got == r.Contents()[..|got|]
    requires r' == r.(tail := r.Advance(r.tail, |got|))
    ensures r'.Valid() && returned + got + r'.Contents() == returned + r.Contents()
    ensures r'.FreeSpace() >= r.FreeSpace()
  {
    Dropped(r, |got|, r');
    assert r.Contents() == got + r'.Contents();
  }

  lemma WriterKept(r: Ring, r': Ring, t: Producer)
    requires r.Valid() && r'.Valid() && r'.head == r.head && r'.buffer == r.buffer
    requires ProducerInBounds(t, |r.buffer|) && WriterOk(r, t) && r'.FreeSpace() >= r.FreeSpace()
    ensures WriterOk(r', t)
  {
  }

  lemma PublishTailStep(s: State)
    requires Consistent(s) && s.consumer.Reading? && |s.consumer.got| == s.consumer.n
    ensures Consistent(Step(s, PublishTail))
  {
    var s' := Step(s, PublishTail);
    Consumed(s.ring, s.consumer.got, s'.ring, s.returned);
    forall p | 0 <= p < |s.producers| ensures WriterOk(s'.ring, s'.producers[p]) {
      WriterKept(s.ring, s'.ring, s.producers[p]);
    }
  }

  lemma ConsumerStep(s: State, e: Event)
    requires Consistent(s) && (e.StartRead? || e.ReadByte? || e.PublishTail? || e.GiveOnEmpty?)
    ensures Consistent(Step(s, e))
  {
    if e.ReadByte? && s.consumer.Reading? && |s.consumer.got| < s.consumer.n {
      ReadByteStep(s);
    } else if e.PublishTail? && s.consumer.Reading? && |s.consumer.got| == s.consumer.n {
      PublishTailStep(s);
    }
  }

  lemma ByteLaid(r: Ring, t: Producer, r': Ring, c: Consumer)
    requires r.Valid() && ProducerInBounds(t, |r.buffer|) && t.Copying? && t.copied < t.n
    requires WriterOk(r, t) && ReaderOk(r, c)
    requires r' == r.(buffer := r.buffer[Address(t.start, t.n, t.copied, |r.buffer|) := t.data[t.copied]])
    ensures r'.Valid() && r'.Contents() == r.Contents() && ReaderOk(r', c)
    ensures WriterOk(r', t.(copied := t.copied + 1))
  {
    AddressIsSlot(t.start, t.n, t.copied, |r.buffer|);
    FreeSlotIsNotQueued(r, t.copied, t.data[t.copied]);
  }

  lemma CopyStep(s: State, p: nat)
    requires Consistent(s) && Exclusive(s) && p < |s.producers|
    requires s.producers[p].Copying? && s.producers[p].copied < s.producers[p].n
    ensures Consistent(Step(s, CopyByte(p)))
  {
    var s', t := Step(s, CopyByte(p)), s.producers[p];
    ByteLaid(s.ring, t, s'.ring, s.consumer);
    forall q | 0 <= q < |s.producers|
      ensures WriterOk(s'.ring, s'.producers[q]) && HistoryOk(s'.log, s'.producers[q], s'.done[q], q)
    {
      assert q != p ==> s.producers[q].Idle?;
      assert HistoryOk(s.log, s.producers[q], s.done[q], q);
    }
  }

  /** Making a finished copy visible keeps the queue equation and the reader's view. */
  lemma HeadMoved(r: Ring, t: Producer, r': Ring, c: Consumer, returned: seq<byte>)
    requires r.Valid() && ProducerInBounds(t, |r.buffer|) && t.Copying? && t.copied == t.n
    requires WriterOk(r, t) && ReaderOk(r, c)
    requires r' == r.(head := r.Advance(r.head, t.n))
    ensures r'.Valid() && ReaderOk(r', c)
    ensures returned + r'.Contents() == returned + r.Contents() + t.data[..t.n]
  {
    Published(r, t.data[..t.n], r');
    assert c.Reading? ==> r'.Contents()[..|c.got|] == r.Contents()[..|c.got|];
  }

  lemma PublishStep(s: State, p: nat)
    requires Consistent(s) && Exclusive(s) && p < |s.producers|
    requires s.producers[p].Copying? && s.producers[p].copied == s.producers[p].n
    ensures Consistent(Step(s, PublishHead(p)))
  {
    var s', t := Step(s, PublishHead(p)), s.producers[p];
    HeadMoved(s.ring, t, s'.ring, s.consumer, s.returned);
    AppendRecord(s.log, Record(p, t.call, t.data, t.n));
    forall q | 0 <= q < |s.producers|
      ensures WriterOk(s'.ring, s'.producers[q]) && HistoryOk(s'.log, s'.producers[q], s'.done[q], q)
    {
      assert q != p ==> s.producers[q].Idle?;
      assert HistoryOk(s.log, s.producers[q], s.done[q], q);
    }
  }

  /** Taking, computing and giving touch neither the ring nor the log, nor any other thread. */
  lemma QuietShape(s: State, e: Event)
    requires InBounds(s) && (e.Take? || e.Compute? || e.Give?) && e.p < |s.producers|
    ensures var s' := Step(s, e);
            && s'.ring == s.ring && s'.log == s.log && s'.returned == s.returned && s'.consumer == s.consumer
            && forall q :: 0 <= q < |s.producers| && q != e.p ==>
                 s'.producers[q] == s.producers[q] && s'.done[q] == s.done[q]
  {
  }

  lemma QuietStep(s: State, e: Event)
    requires Consistent(s) && (e.Take? || e.Compute? || e.Give?) && e.p < |s.producers|
    ensures Consistent(Step(s, e))
  {
    QuietShape(s, e);
    QuietThread(s, e);
    QuietOthers(s, Step(s, e), e.p);
  }

  lemma QuietOthers(s: State, s': State, p: nat)
    requires Consistent(s) && p < |s.producers| == |s'.producers| && InBounds(s')
    requires s'.ring == s.ring && s'.log == s.log && s'.returned == s.returned && s'.consumer == s.consumer
    requires forall q :: 0 <= q < |s.producers| && q != p ==>
               s'.producers[q] == s.producers[q] && s'.done[q] == s.done[q]
    requires WriterOk(s'.ring, s'.producers[p]) && HistoryOk(s'.log, s'.producers[p], s'.done[p], p)
    ensures Consistent(s')
  {
    forall q | 0 <= q < |s.producers|
      ensures WriterOk(s'.ring, s'.producers[q]) && HistoryOk(s'.log, s'.producers[q], s'.done[q], q)
    {
      assert q != p ==> WriterOk(s.ring, s.producers[q]) && HistoryOk(s.log, s.producers[q], s.done[q], q);
    }
  }

  lemma QuietThread(s: State, e: Event)
    requires InBounds(s) && (e.Take? || e.Compute? || e.Give?) && e.p < |s.producers|
    requires WriterOk(s.ring, s.producers[e.p]) && HistoryOk(s.log, s.producers[e.p], s.done[e.p], e.p)
    ensures var s' := Step(s, e);
            WriterOk(s'.ring, s'.producers[e.p]) && HistoryOk(s'.log, s'.producers[e.p], s'.done[e.p], e.p)
  {
  }

  lemma ConsistentStep(s: State, e: Event)
    requires Consistent(s) && Exclusive(s)
    ensures Consistent(Step(s, e))
  {
    if e.StartRead? || e.ReadByte? || e.PublishTail? || e.GiveOnEmpty? {
      ConsumerStep(s, e);
    } else if e.p < |s.producers| {
      var t := s.producers[e.p];
      if e.CopyByte? && t.Copying? && t.copied < t.n {
        CopyStep(s, e.p);
      } else if e.PublishHead? && t.Copying? && t.copied == t.n {
        PublishStep(s, e.p);
      } else if e.Take? || e.Compute? || e.Give? {
        QuietStep(s, e);
      }
    }
  }

  /** A run whose end has no empty read had none on the way, so exclusion held throughout. */
  lemma {:induction false} ConsistentRun(s: State, schedule: seq<Event>)
    requires Consistent(s) && Accounted(s)
    requires Run(s, schedule).emptyReads == 0 || |s.producers| <= 1
    ensures Consistent(Run(s, schedule))
    decreases |schedule|
  {
    if schedule != [] {
      AccountingRun(s, schedule);
      FewInsideIsExclusive(s);
      ConsistentStep(s, schedule[0]);
      AccountingStep(s, schedule[0]);
      ConsistentRun(Step(s, schedule[0]), schedule[1..]);
    }
  }

  lemma Reachable(size: nat, threads: nat, schedule: seq<Event>)
    requires size > 0
    ensures var s := Run(Init(size, threads), schedule);
            s.emptyReads == 0 || threads <= 1 ==> Consistent(s) && Exclusive(s)
  {
    InsideNone(Init(size, threads).producers);
    var s := Run(Init(size, threads), schedule);
    if s.emptyReads == 0 || threads <= 1 {
      ConsistentRun(Init(size, threads), schedule);
      SemaphoreAccounting(size, threads, schedule);
    }
  }

  /** One producer and the lock-free consumer: what was read, then what is queued, is what was written. */
  lemma OneProducerFifo(size: nat, schedule: seq<Event>)
    requires size > 0
    ensures Fifo(Run(Init(size, 1), schedule))
  {
    Reachable(size, 1, schedule);
  }

  /**
    Any number of producers, until a read finds the ring empty: the output is a prefix of whole records,
    an exact write is logged with all its bytes, and each thread's records come in the order it wrote them.
   */
  lemma ManyProducersFifo(size: nat, threads: nat, schedule: seq<Event>)
    requires size > 0
    ensures var s := Run(Init(size, threads), schedule);
            s.emptyReads == 0 ==>
              && Fifo(s) && s.returned <= Bytes(s.log)
              && (forall r :: r in s.log && r.call == WriteExactN ==> r.n == |r.data|)
              && (forall p :: 0 <= p < threads ==> By(s.log, p) == s.done[p] + Pending(s.producers[p], p))
  {
    Reachable(size, threads, schedule);
  }

  /**
    Estimates made in the past are conservative in the present: the slot a producer is about to write is
    not queued, the slot the consumer is about to read is, so they differ.
   */
  lemma SlotsAreOwned(size: nat, threads: nat, schedule: seq<Event>, p: nat)
    requires size > 0 && p < threads
    ensures var s := Run(Init(size, threads), schedule);
            var t, c := s.producers[p], s.consumer;
            s.emptyReads == 0 || threads <= 1 ==>
              && (t.Copying? ==> t.n <= s.ring.FreeSpace())
              && (c.Reading? ==> c.n <= s.ring.UsedSpace())
              && (t.Copying? && t.copied < t.n ==>
                    forall j :: 0 <= j < s.ring.UsedSpace() ==>
                      Slot(s.ring.tail, j, size) != Address(t.start, t.n, t.copied, size))
              && (t.Copying? && t.copied < t.n && c.Reading? && |c.got| < c.n ==>
                    Address(c.start, c.n, |c.got|, size) != Address(t.start, t.n, t.copied, size))
  {
    Reachable(size, threads, schedule);
    var s := Run(Init(size, threads), schedule);
    var t, c := s.producers[p], s.consumer;
    if (s.emptyReads == 0 || threads <= 1) && t.Copying? && t.copied < t.n {
      AddressIsSlot(t.start, t.n, t.copied, size);
      FreeSlotIsNotQueued(s.ring, t.copied, 0);
      if c.Reading? && |c.got| < c.n {
        AddressIsSlot(c.start, c.n, |c.got|, size);
      }
    }
  }

  // ---- Each call, when nobody comes in between, does what its sequential form does ----

  /** The ReadByte steps of one read. */
  function ReadBytes(s: State, n: nat): (t: State)
    requires InBounds(s)
    ensures InBounds(t)
    ensures |t.producers| == |s.producers| && |t.ring.buffer| == |s.ring.buffer|
    decreases n
  {
    if n == 0 then s else ReadBytes(Step(s, ReadByte), n - 1)
  }

  lemma {:induction false} ReadBytesCollect(s: State, n: nat)
    requires InBounds(s) && s.consumer.Reading? && s.consumer.start == s.ring.tail
    requires n + |s.consumer.got| == s.consumer.n <= s.ring.UsedSpace()
    requires s.consumer.got == s.ring.Contents()[..|s.consumer.got|]
    ensures ReadBytes(s, n) == s.(consumer := s.consumer.(got := s.ring.Contents()[..s.consumer.n]))
    decreases n
  {
    if n > 0 {
      var c, queued := s.consumer, s.ring.Contents();
      AddressIsSlot(c.start, c.n, |c.got|, |s.ring.buffer|);
      assert queued[..|c.got| + 1] == queued[..|c.got|] + [queued[|c.got|]];
      ReadBytesCollect(Step(s, ReadByte), n - 1);
    }
  }

  /** Whether a read of a non-zero size finds the ring empty: exactly when it is. */
  lemma ReadStarts(s: State, size: nat)
    requires InBounds(s) && s.consumer.Out? && size > 0
    ensures Step(s, StartRead(size)).consumer
            == if s.ring.Contents() == [] then FoundEmpty
               else Reading(Min(size, |s.ring.Contents()|), s.ring.tail, [])
  {
  }

  /** Only a read of an empty ring leads to the extra give, and the give is all that such a read does. */
  lemma EmptyReadIsCounted(s: State, e: Event)
    requires InBounds(s) && !s.consumer.FoundEmpty? && Step(s, e).consumer.FoundEmpty?
    ensures s.consumer.Out? && e.StartRead? && e.size > 0 && s.ring.Contents() == []
    ensures Step(Step(s, e), GiveOnEmpty) == s.(semaphore := s.semaphore + 1, emptyReads := s.emptyReads + 1)
  {
  }

  /** A read of a non-empty ring: the oldest bytes, as many as asked for or there are, are returned and dropped. */
  lemma ReadRuns(s: State, size: nat)
    requires InBounds(s) && s.consumer.Out? && size > 0 && s.ring.Contents() != []
    ensures var n := Min(size, |s.ring.Contents()|);
            var t := Step(ReadBytes(Step(s, StartRead(size)), n), PublishTail);
            && t.returned == s.returned + s.ring.Contents()[..n] && t.ring.Contents() == s.ring.Contents()[n..]
            && t == s.(ring := s.ring.(tail := t.ring.tail), returned := t.returned)
  {
    var n := Min(size, |s.ring.Contents()|);
    var r := Step(s, StartRead(size));
    ReadStarts(s, size);
    ReadBytesCollect(r, n);
    var t := Step(ReadBytes(r, n), PublishTail);
    Dropped(s.ring, n, t.ring);
  }

  /** The CopyByte steps of one write. */
  function CopyBytes(s: State, p: nat, n: nat): (t: State)
    requires InBounds(s)
    ensures InBounds(t)
    ensures |t.producers| == |s.producers| && |t.ring.buffer| == |s.ring.buffer|
    decreases n
  {
    if n == 0 then s else CopyBytes(Step(s, CopyByte(p)), p, n - 1)
  }

  lemma {:induction false} CopyBytesLay(s: State, p: nat, n: nat)
    requires InBounds(s) && p < |s.producers| && s.producers[p].Copying?
    requires n + s.producers[p].copied == s.producers[p].n && WriterOk(s.ring, s.producers[p])
    ensures var t, c := CopyBytes(s, p, n), s.producers[p];
            && t == s.(ring := s.ring.(buffer := t.ring.buffer), producers := s.producers[p := c.(copied := c.n)])
            && t.ring.Contents() == s.ring.Contents() && WriterOk(t.ring, t.producers[p])
    decreases n
  {
    if n > 0 {
      var t := Step(s, CopyByte(p));
      ByteLaid(s.ring, s.producers[p], t.ring, Out);
      assert t.producers[p] == s.producers[p].(copied := s.producers[p].copied + 1);
      CopyBytesLay(t, p, n - 1);
    } else {
      assert s.producers[p := s.producers[p]] == s.producers;
    }
  }

  /** How many bytes a call writes: all that fit, or all or none, or none at all. */
  function Fitting(call: Call, data: seq<byte>, free: nat): (n: nat)
    ensures n <= |data| && n <= free
    ensures call.WriteN? ==> n == |data| || n == free
    ensures call.WriteExactN? ==> if |data| <= free then n == |data| else n == 0
    ensures call.FreeSpace? || call.UsedSpace? ==> n == 0
  {
    match call
    case WriteN => if |data| <= free then |data| else free
    case WriteExactN => if |data| <= free then |data| else 0
    case _ => 0
  }

  /** Taking the semaphore and computing the space; the semaphore keeps everybody out who finds it 0. */
  lemma CallBegins(s: State, p: nat, call: Call, data: seq<byte>)
    requires InBounds(s) && p < |s.producers| && s.producers[p].Idle?
    ensures s.semaphore == 0 || ((call.WriteN? || call.WriteExactN?) && data == []) ==>
              Step(s, Take(p, call, data)) == s
    ensures s.semaphore > 0 && (data != [] || call.FreeSpace? || call.UsedSpace?) ==>
              var n := Fitting(call, data, |s.ring.buffer| - 1 - |s.ring.Contents()|);
              Step(Step(s, Take(p, call, data)), Compute(p))
              == s.(semaphore := s.semaphore - 1,
                    producers := s.producers[p := if n == 0 then Leaving(call, data, 0)
                                                  else Copying(call, data, n, s.ring.head, 0)])
  {
    if s.semaphore > 0 && (data != [] || call.FreeSpace? || call.UsedSpace?) {
      var t := Step(s, Take(p, call, data));
      assert t.producers[p] == Locked(call, data);
      assert s.producers[p := Locked(call, data)][p := Leaving(call, data, 0)]
          == s.producers[p := Leaving(call, data, 0)];
      var n := Fitting(call, data, |s.ring.buffer| - 1 - |s.ring.Contents()|);
      assert s.producers[p := Locked(call, data)][p := Copying(call, data, n, s.ring.head, 0)]
          == s.producers[p := Copying(call, data, n, s.ring.head, 0)];
    }
  }

  /** A call that writes nothing, or could not, leaves everything as it was. */
  lemma CallGivesUp(s: State, p: nat, call: Call, data: seq<byte>)
    requires InBounds(s) && p < |s.producers| && s.producers[p].Idle? && s.semaphore > 0
    requires data != [] || call.FreeSpace? || call.UsedSpace?
    requires Fitting(call, data, |s.ring.buffer| - 1 - |s.ring.Contents()|) == 0
    ensures Step(Step(Step(s, Take(p, call, data)), Compute(p)), Give(p)) == s
  {
    CallBegins(s, p, call, data);
    assert s.producers[p := Leaving(call, data, 0)][p := Idle] == s.producers;
  }

  /** A write, as far as its publication. */
  lemma WritePublishes(s: State, p: nat, c: Producer)
    requires InBounds(s) && p < |s.producers| && c == s.producers[p] && c.Copying? && c.copied == 0
    requires c.start == s.ring.head && c.n <= s.ring.FreeSpace()
    ensures var t := Step(CopyBytes(s, p, c.n), PublishHead(p));
            && t.ring.Contents() == s.ring.Contents() + c.data[..c.n] && t.ring.tail == s.ring.tail
            && t == s.(ring := t.ring, producers := s.producers[p := Leaving(c.call, c.data, c.n)],
                       log := s.log + [Record(p, c.call, c.data, c.n)])
  {
    CopyBytesLay(s, p, c.n);
    var u := CopyBytes(s, p, c.n);
    Published(u.ring, c.data[..c.n], Step(u, PublishHead(p)).ring);
    assert s.producers[p := c.(copied := c.n)][p := Leaving(c.call, c.data, c.n)]
        == s.producers[p := Leaving(c.call, c.data, c.n)];
  }

  /**
    A write: the leading bytes that fit, or for an exact write all or none, are appended to the queue, the call is
    recorded with the number written, and the semaphore is as before.
   */
  lemma WriteRuns(s: State, p: nat, call: Call, data: seq<byte>)
    requires InBounds(s) && p < |s.producers| && s.producers[p].Idle? && s.semaphore > 0
    requires (call.WriteN? || call.WriteExactN?) && data != []
    requires Fitting(call, data, |s.ring.buffer| - 1 - |s.ring.Contents()|) > 0
    ensures var n := Fitting(call, data, |s.ring.buffer| - 1 - |s.ring.Contents()|);
            var r := Record(p, call, data, n);
            var u := Step(Step(s, Take(p, call, data)), Compute(p));
            var t := Step(Step(CopyBytes(u, p, n), PublishHead(p)), Give(p));
            && t.ring.Contents() == s.ring.Contents() + data[..n] && t.ring.tail == s.ring.tail
            && t == s.(ring := t.ring, log := s.log + [r], done := s.done[p := s.done[p] + [r]])
  {
    var n := Fitting(call, data, |s.ring.buffer| - 1 - |s.ring.Contents()|);
    var u := Step(Step(s, Take(p, call, data)), Compute(p));
    CallBegins(s, p, call, data);
    assert u.producers[p] == Copying(call, data, n, s.ring.head, 0);
    WritePublishes(u, p, u.producers[p]);
    assert u.producers[p := Leaving(call, data, n)][p := Idle] == s.producers;
  }

  // ---- What one empty read costs ----

  /** Every run with at most k empty reads behaves as a queue. */
  ghost predicate FifoUpTo(size: nat, threads: nat, k: nat)
    requires size > 0
  {
    forall schedule :: Run(Init(size, threads), schedule).emptyReads <= k ==> Fifo(Run(Init(size, threads), schedule))
  }

  /** A read of the empty ring, then two producers that both copy to slot 0 and both publish. */
  const CLASH: seq<Event> := [
    StartRead(1), GiveOnEmpty, Take(0, WriteExactN, [1]), Take(1, WriteExactN, [2]), Compute(0), Compute(1),
    CopyByte(0), CopyByte(1), PublishHead(0), PublishHead(1)
  ]

  /** Two events at a time. */
  function StepTwo(s: State, e: Event, f: Event): (s': State)
    requires InBounds(s)
    ensures InBounds(s')
    ensures |s'.producers| == |s.producers| && |s'.ring.buffer| == |s.ring.buffer|
  {
    Step(Step(s, e), f)
  }

  lemma RunTwo(s: State, schedule: seq<Event>)
    requires InBounds(s) && |schedule| >= 2
    ensures Run(s, schedule) == Run(StepTwo(s, schedule[0], schedule[1]), schedule[2..])
  {
    assert schedule[1..][1..] == schedule[2..];
  }

  /** A schedule of ten events, given the states every second event leads to. */
  lemma RunTen(s0: State, s2: State, s4: State, s6: State, s8: State, schedule: seq<Event>)
    requires |schedule| == 10 && InBounds(s0)
    requires s2 == StepTwo(s0, schedule[0], schedule[1]) && s4 == StepTwo(s2, schedule[2], schedule[3])
    requires s6 == StepTwo(s4, schedule[4], schedule[5]) && s8 == StepTwo(s6, schedule[6], schedule[7])
    ensures Run(s0, schedule) == StepTwo(s8, schedule[8], schedule[9])
  {
    RunTwo(s0, schedule);
    RunTwo(s2, schedule[2..]);
    RunTwo(s4, schedule[2..][2..]);
    RunTwo(s6, schedule[2..][2..][2..]);
    RunTwo(s8, schedule[2..][2..][2..][2..]);
  }

  /** The two states a clash runs through, given the producers' states. */
  ghost function Clashing(s: State, first: Producer, second: Producer): State
    requires |s.producers| >= 2
  {
    s.(producers := s.producers[0 := first][1 := second])
  }

  lemma ClashEnters(s: State)
    requires InBounds(s) && |s.producers| >= 2 && s.semaphore == 1 && s.consumer.Out?
    requires s.ring.UsedSpace() == 0 && s.producers[0].Idle? && s.producers[1].Idle?
    ensures StepTwo(StepTwo(s, StartRead(1), GiveOnEmpty), Take(0, WriteExactN, [1]), Take(1, WriteExactN, [2]))
            == Clashing(s, Locked(WriteExactN, [1]), Locked(WriteExactN, [2]))
               .(semaphore := 0, emptyReads := s.emptyReads + 1)
  {
    assert StepTwo(s, StartRead(1), GiveOnEmpty) == s.(semaphore := 2, emptyReads := s.emptyReads + 1);
  }

  lemma ClashComputes(s: State)
    requires InBounds(s) && |s.producers| >= 2 && s.ring.FreeSpace() >= 1
    requires s.producers[0] == Locked(WriteExactN, [1]) && s.producers[1] == Locked(WriteExactN, [2])
    ensures StepTwo(s, Compute(0), Compute(1))
            == Clashing(s, Copying(WriteExactN, [1], 1, s.ring.head, 0), Copying(WriteExactN, [2], 1, s.ring.head, 0))
  {
  }

  lemma ClashCopies(s: State)
    requires InBounds(s) && |s.producers| >= 2
    requires s.producers[0] == Copying(WriteExactN, [1], 1, 0, 0) && s.producers[1] == Copying(WriteExactN, [2], 1, 0, 0)
    ensures StepTwo(s, CopyByte(0), CopyByte(1))
            == Clashing(s, Copying(WriteExactN, [1], 1, 0, 1), Copying(WriteExactN, [2], 1, 0, 1))
               .(ring := s.ring.(buffer := s.ring.buffer[0 := 2]))
  {
    assert s.ring.buffer[0 := 1][0 := 2] == s.ring.buffer[0 := 2];
  }

  lemma ClashPublishes(s: State)
    requires InBounds(s) && |s.producers| >= 2 && |s.ring.buffer| >= 2 && s.ring.head == 0 && s.log == []
    requires s.producers[0] == Copying(WriteExactN, [1], 1, 0, 1) && s.producers[1] == Copying(WriteExactN, [2], 1, 0, 1)
    ensures StepTwo(s, PublishHead(0), PublishHead(1))
            == Clashing(s, Leaving(WriteExactN, [1], 1), Leaving(WriteExactN, [2], 1))
               .(ring := s.ring.(head := 2 % |s.ring.buffer|),
                 log := [Record(0, WriteExactN, [1], 1), Record(1, WriteExactN, [2], 1)])
  {
    assert Step(s, PublishHead(0)) == s.(producers := s.producers[0 := Leaving(WriteExactN, [1], 1)],
                                         ring := s.ring.(head := 1), log := [Record(0, WriteExactN, [1], 1)]);
  }

  lemma ClashIsNoQueue(s: State)
    requires InBounds(s) && |s.ring.buffer| >= 2 && s.ring.head == 2 % |s.ring.buffer| && s.ring.tail == 0 && s.returned == []
    requires s.ring.buffer[0] == 2
    requires s.log == [Record(0, WriteExactN, [1], 1), Record(1, WriteExactN, [2], 1)]
    ensures !Fifo(s)
  {
    AppendRecord([], s.log[0]);
    AppendRecord([s.log[0]], s.log[1]);
    assert [] + [s.log[0]] == [s.log[0]] && [s.log[0]] + [s.log[1]] == s.log;
    assert Bytes(s.log) == [1, 2];
    if |s.ring.buffer| > 2 {
      assert s.ring.head == 2 && (s.returned + s.ring.Contents())[0] == s.ring.buffer[0];
    } else {
      assert s.ring.head == 0 && |s.returned + s.ring.Contents()| == 0;
    }
  }

  lemma ClashEnds(s: State)
    requires InBounds(s) && |s.producers| >= 2 && |s.ring.buffer| >= 2
    requires s.ring.head == s.ring.tail == 0 && s.ring.buffer[0] == 2 && s.log == [] && s.returned == []
    requires s.producers[0] == Copying(WriteExactN, [1], 1, 0, 1) && s.producers[1] == Copying(WriteExactN, [2], 1, 0, 1)
    ensures var s' := StepTwo(s, PublishHead(0), PublishHead(1));
            s'.emptyReads == s.emptyReads && !Exclusive(s') && !Fifo(s')
  {
    ClashPublishes(s);
    var s' := StepTwo(s, PublishHead(0), PublishHead(1));
    ClashIsNoQueue(s');
    assert !s'.producers[0].Idle? && !s'.producers[1].Idle?;
  }

  lemma ClashContinues(s4: State, s6: State, s8: State)
    requires InBounds(s4) && |s4.producers| >= 2 && |s4.ring.buffer| >= 2
    requires s4.ring.head == s4.ring.tail == 0 && s4.log == [] && s4.returned == []
    requires s4.producers[0] == Locked(WriteExactN, [1]) && s4.producers[1] == Locked(WriteExactN, [2])
    requires s6 == StepTwo(s4, Compute(0), Compute(1))
    requires s8 == StepTwo(s6, CopyByte(0), CopyByte(1))
    ensures var s' := StepTwo(s8, PublishHead(0), PublishHead(1));
            s'.emptyReads == s4.emptyReads && !Exclusive(s') && !Fifo(s')
  {
    ClashComputes(s4);
    ClashCopies(s6);
    ClashEnds(s8);
  }

  lemma ClashBreaksFifo(size: nat, threads: nat)
    requires size >= 2 && threads >= 2
    ensures var s := Run(Init(size, threads), CLASH);
            s.emptyReads == 1 && !Exclusive(s) && !Fifo(s)
  {
    var s0 := Init(size, threads);
    var s2 := StepTwo(s0, CLASH[0], CLASH[1]);
    var s4 := StepTwo(s2, CLASH[2], CLASH[3]);
    var s6 := StepTwo(s4, CLASH[4], CLASH[5]);
    var s8 := StepTwo(s6, CLASH[6], CLASH[7]);
    ClashEnters(s0);
    ClashContinues(s4, s6, s8);
    RunTen(s0, s2, s4, s6, s8, CLASH);
  }

  /** A ring of one byte keeps it open: nothing is ever copied. */
  ghost predicate NeverHolds(s: State) {
    && InBounds(s) && |s.ring.buffer| == 1 && s.log == [] && s.returned == [] && !s.consumer.Reading?
    && forall p :: 0 <= p < |s.producers| ==> !s.producers[p].Copying?
  }

  lemma {:induction false} OneByteRing(s: State, schedule: seq<Event>)
    requires NeverHolds(s)
    ensures NeverHolds(Run(s, schedule))
    decreases |schedule|
  {
    if schedule != [] {
      OneByteStep(s, schedule[0]);
      OneByteRing(Step(s, schedule[0]), schedule[1..]);
    }
  }

  lemma OneByteStep(s: State, e: Event)
    requires NeverHolds(s)
    ensures NeverHolds(Step(s, e))
  {
    assert s.ring.UsedSpace() == 0 && s.ring.FreeSpace() == 0;
  }

  /**
    The exact tolerance, for every size: one producer, or a ring of one byte, stands any number of empty reads;
    two or more producers on any larger ring stand none.
   */
  lemma EmptyReadsTolerated(size: nat, threads: nat, k: nat)
    requires size > 0
    ensures FifoUpTo(size, threads, k) <==> k == 0 || threads <= 1 || size == 1
  {
    if k == 0 || threads <= 1 || size == 1 {
      forall schedule | Run(Init(size, threads), schedule).emptyReads <= k
        ensures Fifo(Run(Init(size, threads), schedule))
      {
        if size == 1 {
          OneByteRing(Init(size, threads), schedule);
        } else {
          Reachable(size, threads, schedule);
        }
      }
    } else {
      ClashBreaksFifo(size, threads);
    }
  }
}
