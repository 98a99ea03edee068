/** The capture engine's run loop and its account of what was lost on the way to the consumer.

    The engine cannot see the delivery pump's buffer.  It mirrors the record counts of the batches
    it believes are still there, and charges an eviction with the oldest of them.  The consumer may
    read between any two attempts of a send. */
module CaptureEngine {
  import opened Common

  const BatchMaxRecords := 256
  const PumpBuffer := 8

  /** A captured frame, or an error frame that says whether the context was cancelled. */
  datatype Frame = Packet(data: seq<bv8>) | Failure(cancelled: bool)

  datatype Record = Record(sequence: nat, data: seq<bv8>)

  datatype StopReason = Unspecified | PacketCount | ByteCount | Duration | Operator | SourceError

  datatype Lifecycle = Running | Completed | Canceled | Failed

  /** A batch with the counters sent along with it. */
  datatype Batch = Batch(first: nat, records: seq<Record>, accepted: nat, dropped: nat, final: bool, reason: StopReason)

  datatype Budget = Budget(maxPackets: Option<nat>, maxBytes: Option<nat>, snapLength: nat)

  /** What reaches the run loop, and what the consumer does in between.  `behind` is what the source
      has queued at that moment. */
  datatype Event =
    | Receive(frame: Frame, behind: seq<Frame>)
    | SourceClosed(cancelled: bool)
    | DurationOver(behind: seq<Frame>)
    | FlushTick
    | ContextDone
    | PumpStopped
    | ConsumerReads
    | ConsumerStops

  // ---------------------------------------------------------------- counting

  function Records(batches: seq<Batch>): nat
  {
    if batches == [] then 0 else Records(batches[..|batches| - 1]) + |batches[|batches| - 1].records|
  }

  function Counts(batches: seq<Batch>): seq<nat>
  {
    seq(|batches|, i requires 0 <= i < |batches| => |batches[i].records|)
  }

  lemma {:induction false} RecordsFirst(batches: seq<Batch>)
    requires batches != []
    ensures Records(batches) == |batches[0].records| + Records(batches[1..])
  {
    if |batches| > 1 {
      var front := batches[..|batches| - 1];
      RecordsFirst(front);
      assert batches[1..][..|batches[1..]| - 1] == front[1..];
    }
  }

  lemma {:induction false} RecordsConcat(a: seq<Batch>, b: seq<Batch>)
    ensures Records(a + b) == Records(a) + Records(b)
  {
    if b == [] {
      assert a + b == a;
    } else {
      assert (a + b)[..|a + b| - 1] == a + b[..|b| - 1];
      RecordsConcat(a, b[..|b| - 1]);
    }
  }

  // ---------------------------------------------------------------- the drop account

  /** The mirror and the pending drops after one send of `sent` records. */
  function Account(fifo: seq<nat>, pending: nat, delivered: bool, dropped: nat, sent: nat): (seq<nat>, nat)
  {
    if delivered && dropped == 0 then
      var more := fifo + [sent];
      (if |more| > PumpBuffer then more[|more| - PumpBuffer..] else more, pending)
    else if delivered && dropped == 1 then
      if fifo == [] then ([sent], pending) else (fifo[1..] + [sent], pending + fifo[0])
    else if !delivered && dropped == 1 then (fifo, pending + sent)
    else if !delivered && dropped == 2 then
      if fifo == [] then (fifo, pending + sent) else (fifo[1..], pending + fifo[0] + sent)
    else (fifo, pending)
  }

  /** The mirror ends with the counts of what is buffered, and is no longer than the buffer can get. */
  ghost predicate Mirrors(fifo: seq<nat>, buffer: seq<Batch>)
  {
    |buffer| <= |fifo| <= PumpBuffer && fifo[|fifo| - |buffer|..] == Counts(buffer)
  }

  lemma MirrorsSend(fifo: seq<nat>, buffer: seq<Batch>, b: Batch, pending: nat)
    requires Mirrors(fifo, buffer) && |buffer| < PumpBuffer
    ensures var (fifo', pending') := Account(fifo, pending, true, 0, |b.records|);
      Mirrors(fifo', buffer + [b]) && pending' == pending
  {
    var more := fifo + [|b.records|];
    assert Counts(buffer + [b]) == Counts(buffer) + [|b.records|];
    assert more[|more| - |buffer| - 1..] == fifo[|fifo| - |buffer|..] + [|b.records|];
    if |more| > PumpBuffer {
      var cut := more[|more| - PumpBuffer..];
      assert cut[|cut| - |buffer| - 1..] == more[|more| - |buffer| - 1..];
    }
  }

  /** A full buffer is mirrored exactly. */
  lemma MirrorsFull(fifo: seq<nat>, buffer: seq<Batch>)
    requires Mirrors(fifo, buffer) && |buffer| == PumpBuffer
    ensures fifo == Counts(buffer)
  {
    assert fifo[0..] == fifo;
  }

  /** A send that found the buffer full and evicted a batch: the mirror drops its oldest entry, whatever
      the consumer left of the buffer. */
  lemma MirrorsEvict(fifo: seq<nat>, buffer: seq<Batch>, b: Batch, pending: nat)
    requires Mirrors(fifo, buffer) && |fifo| == PumpBuffer && |buffer| < PumpBuffer
    ensures var (fifo', pending') := Account(fifo, pending, true, 1, |b.records|);
      Mirrors(fifo', buffer + [b]) && pending' == pending + fifo[0]
  {
    var fifo' := fifo[1..] + [|b.records|];
    var at := |fifo| - |buffer| - 1;
    assert fifo'[at..] == fifo[1..][at..] + [|b.records|];
    assert fifo[1..][at..] == fifo[|fifo| - |buffer|..];
    assert Counts(buffer + [b]) == Counts(buffer) + [|b.records|];
  }

  lemma MirrorsRead(fifo: seq<nat>, buffer: seq<Batch>)
    requires Mirrors(fifo, buffer) && buffer != []
    ensures Mirrors(fifo, buffer[1..])
  {
    var rest := buffer[1..];
    forall i | 0 <= i < |rest| ensures fifo[|fifo| - |rest|..][i] == |rest[i].records| {
      assert fifo[|fifo| - |buffer|..][i + 1] == Counts(buffer)[i + 1];
    }
    assert fifo[|fifo| - |rest|..] == Counts(rest);
  }

  // ---------------------------------------------------------------- batches

  predicate Numbered(first: nat, records: seq<Record>)
  {
    forall i :: 0 <= i < |records| ==> records[i].sequence == first + i
  }

  /** Each batch starts where the one before ended, has its records in sequence, is within the size
      limit and carries the packets accepted so far. */
  ghost predicate Contiguous(sent: seq<Batch>)
  {
    forall i :: 0 <= i < |sent| ==>
      && sent[i].first == Records(sent[..i]) && Numbered(sent[i].first, sent[i].records)
      && |sent[i].records| <= BatchMaxRecords && sent[i].accepted == sent[i].first + |sent[i].records|
  }

  lemma ContiguousSend(sent: seq<Batch>, b: Batch)
    requires Contiguous(sent) && b.first == Records(sent) && Numbered(b.first, b.records)
    requires |b.records| <= BatchMaxRecords && b.accepted == b.first + |b.records|
    ensures Contiguous(sent + [b]) && Records(sent + [b]) == Records(sent) + |b.records|
  {
    var more := sent + [b];
    assert more[..|sent|] == sent;
    forall i | 0 <= i < |more|
      ensures more[i].first == Records(more[..i]) && Numbered(more[i].first, more[i].records)
      ensures |more[i].records| <= BatchMaxRecords && more[i].accepted == more[i].first + |more[i].records|
    {
      if i < |sent| { assert more[..i] == sent[..i]; }
    }
  }

  /** Batches the consumer got: in order, none overlapping the next, all before `end`. */
  ghost predicate InOrder(taken: seq<Batch>, end: nat)
  {
    && (forall i, j :: 0 <= i < j < |taken| ==> taken[i].first + |taken[i].records| <= taken[j].first)
    && (forall i :: 0 <= i < |taken| ==> taken[i].first + |taken[i].records| <= end)
  }

  ghost predicate Among(taken: seq<Batch>, left: seq<Batch>)
  {
    forall i :: 0 <= i < |taken| ==> taken[i] in left
  }

  // ---------------------------------------------------------------- the delivery pump

  /** The pump, its consumer and their history: the batches taken into the buffer, those that left
      it, those the consumer got, and how many records were evicted. */
  datatype Pump = Pump(buffer: seq<Batch>, stopped: bool, sent: seq<Batch>, left: seq<Batch>, taken: seq<Batch>, evicted: nat)

  /** The consumer reads the oldest batch, if there is one. */
  function Read(p: Pump): Pump
  {
    if p.buffer == [] then p
    else p.(buffer := p.buffer[1..], left := p.left + [p.buffer[0]], taken := p.taken + [p.buffer[0]])
  }

  /** The consumer reads up to `k` batches. */
  function Reads(p: Pump, k: nat): Pump
    decreases k
  {
    if k == 0 then p else Reads(Read(p), k - 1)
  }

  function Put(p: Pump, b: Batch): Pump
  {
    p.(buffer := p.buffer + [b], sent := p.sent + [b])
  }

  /** The send itself takes the oldest batch out of the buffer. */
  function Drain(p: Pump): Pump
    requires p.buffer != []
  {
    p.(buffer := p.buffer[1..], left := p.left + [p.buffer[0]], evicted := p.evicted + |p.buffer[0].records|)
  }

  /** How often the consumer reads inside one send: before it drains a batch, and before it retries. */
  datatype Inside = Inside(before: nat, between: nat)

  /** The drop-oldest send of a single producer, attempt by attempt: whether it delivered and what it
      dropped. */
  function TrySendDropOldest(p: Pump, b: Batch, w: Inside): (Pump, bool, nat)
  {
    if p.stopped then (p, false, 0)
    else if |p.buffer| < PumpBuffer then (Put(p, b), true, 0)
    else
      var q := Reads(p, w.before);
      var drained := q.buffer != [];
      var t := Reads(if drained then Drain(q) else q, w.between);
      if |t.buffer| < PumpBuffer then (Put(t, b), true, if drained then 1 else 0)
      else (t, false, if drained then 2 else 1)
  }

  /** How far the charge for one send is off: it is charged with the oldest batch of the full buffer it
      found, and evicts the oldest one the consumer left. */
  function Skew(p: Pump, w: Inside): int
  {
    if p.stopped || |p.buffer| < PumpBuffer || w.before >= |p.buffer| then 0
    else |p.buffer[0].records| - |p.buffer[w.before].records|
  }

  /** What left the buffer and what is in it is what was sent, in order, and the mirror agrees. */
  ghost predicate Delivery(fifo: seq<nat>, p: Pump)
  {
    && p.sent == p.left + p.buffer && Mirrors(fifo, p.buffer) && Contiguous(p.sent)
    && Records(p.left) == Records(p.taken) + p.evicted && InOrder(p.taken, Records(p.left)) && Among(p.taken, p.left)
  }

  ghost predicate Sendable(b: Batch)
  {
    Numbered(b.first, b.records) && |b.records| <= BatchMaxRecords && b.accepted == b.first + |b.records|
  }

  lemma LeaveOne(left: seq<Batch>, b: Batch)
    ensures Records(left + [b]) == Records(left) + |b.records|
  {
    assert (left + [b])[..|left|] == left;
  }

  /** There is room: the batch is taken with nothing dropped. */
  lemma PutKeeps(fifo: seq<nat>, p: Pump, b: Batch, pending: nat)
    requires Delivery(fifo, p) && Sendable(b) && b.first == Records(p.sent) && |p.buffer| < PumpBuffer
    ensures Delivery(Account(fifo, pending, true, 0, |b.records|).0, Put(p, b))
    ensures Account(fifo, pending, true, 0, |b.records|).1 == pending
  {
    hide Mirrors, Contiguous, Records, Account, InOrder, Among, Sendable;
    SendableParts(b);
    ContiguousSend(p.sent, b);
    MirrorsSend(fifo, p.buffer, b, pending);
    TailMoves(p.left, p.buffer, b);
  }

  /** A batch was evicted for it. */
  lemma RetryKeeps(fifo: seq<nat>, p: Pump, b: Batch, pending: nat)
    requires Delivery(fifo, p) && Sendable(b) && b.first == Records(p.sent) && |p.buffer| < PumpBuffer == |fifo|
    ensures Delivery(Account(fifo, pending, true, 1, |b.records|).0, Put(p, b))
    ensures Account(fifo, pending, true, 1, |b.records|).1 == pending + fifo[0]
  {
    hide Mirrors, Contiguous, Records, Account, InOrder, Among, Sendable;
    SendableParts(b);
    ContiguousSend(p.sent, b);
    MirrorsEvict(fifo, p.buffer, b, pending);
    TailMoves(p.left, p.buffer, b);
  }

  lemma DrainKeeps(fifo: seq<nat>, p: Pump)
    requires Delivery(fifo, p) && p.buffer != []
    ensures Delivery(fifo, Drain(p))
  {
    hide Mirrors, Contiguous, Records, InOrder, Among;
    MirrorsRead(fifo, p.buffer);
    LeaveOne(p.left, p.buffer[0]);
    LaterEnd(p.taken, Records(p.left), Records(p.left + [p.buffer[0]]));
    AmongMore(p.taken, p.left, p.buffer[0]);
    HeadMoves(p.left, p.buffer);
  }

  lemma {:induction false} ReadsKeep(fifo: seq<nat>, p: Pump, k: nat)
    requires Delivery(fifo, p)
    ensures Delivery(fifo, Reads(p, k))
    decreases k
  {
    hide Delivery, Read;
    if k > 0 {
      ReadKeeps(fifo, p);
      ReadsKeep(fifo, Read(p), k - 1);
    }
  }

  lemma {:induction false} ReadsAre(p: Pump, k: nat)
    ensures Reads(p, k).buffer == if k <= |p.buffer| then p.buffer[k..] else []
    ensures Reads(p, k).sent == p.sent && Reads(p, k).stopped == p.stopped && Reads(p, k).evicted == p.evicted
    ensures p.taken <= Reads(p, k).taken
    decreases k
  {
    if k > 0 { ReadsAre(Read(p), k - 1); }
  }

  /** What a send does to a live pump, whatever the consumer reads while it runs: it always delivers, the
      mirror stays in step, and the charge exceeds what was evicted by exactly `Skew`. */
  lemma SendOutcome(fifo: seq<nat>, p: Pump, b: Batch, pending: nat, w: Inside)
    requires Delivery(fifo, p) && !p.stopped && Sendable(b) && b.first == Records(p.sent)
    ensures var (p', delivered, dropped) := TrySendDropOldest(p, b, w);
      var (fifo', pending') := Account(fifo, pending, delivered, dropped, |b.records|);
      && delivered && Delivery(fifo', p') && pending' - pending == p'.evicted - p.evicted + Skew(p, w)
      && p'.sent == p.sent + [b] && p.taken <= p'.taken && !p'.stopped
  {
    MirrorsBound(fifo, p.buffer);
    if |p.buffer| < PumpBuffer {
      hide Delivery, Account;
      PutKeeps(fifo, p, b, pending);
    } else {
      SendFull(fifo, p, b, pending, w);
    }
  }

  /** A send the consumer does not disturb: with room it adds its batch to the others, else it takes the
      place of exactly the oldest one and reports one drop. */
  lemma UndisturbedSend(p: Pump, b: Batch, w: Inside)
    requires !p.stopped && |p.buffer| <= PumpBuffer
    ensures var (p', delivered, dropped) := TrySendDropOldest(p, b, w);
      && (|p.buffer| < PumpBuffer ==> delivered && dropped == 0 && p'.buffer == p.buffer + [b] && p'.evicted == p.evicted && p'.taken == p.taken)
      && (|p.buffer| == PumpBuffer && w == Inside(0, 0) ==>
            delivered && dropped == 1 && p'.buffer == p.buffer[1..] + [b] && p'.evicted == p.evicted + |p.buffer[0].records| && p'.taken == p.taken)
  {
  }

  lemma SendFull(fifo: seq<nat>, p: Pump, b: Batch, pending: nat, w: Inside)
    requires Delivery(fifo, p) && !p.stopped && Sendable(b) && b.first == Records(p.sent) && |p.buffer| == PumpBuffer
    ensures var (p', delivered, dropped) := TrySendDropOldest(p, b, w);
      var (fifo', pending') := Account(fifo, pending, delivered, dropped, |b.records|);
      && delivered && Delivery(fifo', p') && pending' - pending == p'.evicted - p.evicted + Skew(p, w)
      && p'.sent == p.sent + [b] && p.taken <= p'.taken && !p'.stopped
  {
    MirrorsFull(fifo, p.buffer);
    ReadsKeep(fifo, p, w.before);
    ReadsAre(p, w.before);
    var q := Reads(p, w.before);
    hide Delivery, Account, Sendable, Records, Reads, Read;
    if q.buffer != [] {
      RetryAfter(fifo, q, b, pending, w.between);
    } else {
      PutAfter(fifo, q, b, pending, w.between);
    }
  }

  /** A batch is drained, the consumer reads on and the retry goes through. */
  lemma RetryAfter(fifo: seq<nat>, q: Pump, b: Batch, pending: nat, between: nat)
    requires Delivery(fifo, q) && !q.stopped && Sendable(b) && b.first == Records(q.sent) && 0 < |q.buffer| <= PumpBuffer == |fifo|
    ensures var t := Reads(Drain(q), between);
      && |t.buffer| < PumpBuffer && t.evicted == q.evicted + |q.buffer[0].records| && q.taken <= t.taken && t.sent == q.sent && !t.stopped
      && Delivery(Account(fifo, pending, true, 1, |b.records|).0, Put(t, b))
      && Account(fifo, pending, true, 1, |b.records|).1 == pending + fifo[0]
  {
    hide Delivery, Account, Sendable, Records, Reads, Read;
    DrainKeeps(fifo, q);
    ReadsAre(Drain(q), between);
    ReadsKeep(fifo, Drain(q), between);
    RetryKeeps(fifo, Reads(Drain(q), between), b, pending);
  }

  /** The consumer emptied the buffer first, and the retry goes through. */
  lemma PutAfter(fifo: seq<nat>, q: Pump, b: Batch, pending: nat, between: nat)
    requires Delivery(fifo, q) && !q.stopped && Sendable(b) && b.first == Records(q.sent) && q.buffer == []
    ensures var t := Reads(q, between);
      && |t.buffer| < PumpBuffer && t.evicted == q.evicted && q.taken <= t.taken && t.sent == q.sent && !t.stopped
      && Delivery(Account(fifo, pending, true, 0, |b.records|).0, Put(t, b))
      && Account(fifo, pending, true, 0, |b.records|).1 == pending
  {
    hide Delivery, Account, Sendable, Records, Reads, Read;
    ReadsAre(q, between);
    ReadsKeep(fifo, q, between);
    PutKeeps(fifo, Reads(q, between), b, pending);
  }

  /** The charge for a send into a full buffer is exact if and only if the consumer emptied the buffer
      inside it, or the batch it left at the front is as large as the one that was there; so it is exact
      when the consumer did not read before the drain. */
  lemma ChargedExactly(fifo: seq<nat>, p: Pump, b: Batch, pending: nat, w: Inside)
    requires Delivery(fifo, p) && !p.stopped && Sendable(b) && b.first == Records(p.sent) && |p.buffer| == PumpBuffer
    ensures var (p', delivered, dropped) := TrySendDropOldest(p, b, w);
      var pending' := Account(fifo, pending, delivered, dropped, |b.records|).1;
      && (pending' - pending == p'.evicted - p.evicted <==>
            w.before >= PumpBuffer || |p.buffer[0].records| == |p.buffer[w.before].records|)
      && (w.before == 0 ==> pending' - pending == p'.evicted - p.evicted)
  {
    hide Delivery, Account, TrySendDropOldest, Sendable, Records;
    SendOutcome(fifo, p, b, pending, w);
  }

  // ---------------------------------------------------------------- how a charge goes wrong

  /** Consecutive batches of the given sizes. */
  function Batches(sizes: seq<nat>): (r: seq<Batch>)
    ensures |r| == |sizes|
  {
    if sizes == [] then []
    else
      var before := Batches(sizes[..|sizes| - 1]);
      var first, size := Records(before), sizes[|sizes| - 1];
      before + [Batch(first, seq(size, i requires 0 <= i < size => Record(first + i, [])), first + size, 0, false, Unspecified)]
  }

  /** The mirror and the pump after some sends none of which the consumer disturbed. */
  function AfterSends(batches: seq<Batch>): (seq<nat>, Pump)
  {
    if batches == [] then ([], EmptyPump())
    else
      var (fifo, p) := AfterSends(batches[..|batches| - 1]);
      var (p', delivered, dropped) := TrySendDropOldest(p, batches[|batches| - 1], Inside(0, 0));
      (Account(fifo, 0, delivered, dropped, |batches[|batches| - 1].records|).0, p')
  }

  lemma {:induction false} BatchesAre(sizes: seq<nat>, i: nat)
    requires i < |sizes|
    ensures |Batches(sizes)[i].records| == sizes[i]
  {
    if i < |sizes| - 1 { BatchesAre(sizes[..|sizes| - 1], i); }
  }

  ghost predicate Filled(fifo: seq<nat>, p: Pump, batches: seq<Batch>)
  {
    Delivery(fifo, p) && !p.stopped && p.buffer == p.sent == batches
  }

  lemma FillOne(batches: seq<Batch>, b: Batch)
    requires Filled(AfterSends(batches).0, AfterSends(batches).1, batches) && |batches| < PumpBuffer
    requires Sendable(b) && b.first == Records(batches)
    ensures Filled(AfterSends(batches + [b]).0, AfterSends(batches + [b]).1, batches + [b])
  {
    hide Delivery, Account, Records, TrySendDropOldest, Sendable, AfterSends;
    NextSend(batches, b);
    PutKeeps(AfterSends(batches).0, AfterSends(batches).1, b, 0);
  }

  lemma FillNone()
    ensures Filled(AfterSends([]).0, AfterSends([]).1, [])
  {
    EmptyDelivery();
    hide Delivery, BatchOk;
  }

  lemma {:induction false} FilledPump(sizes: seq<nat>)
    requires |sizes| <= PumpBuffer && forall i :: 0 <= i < |sizes| ==> sizes[i] <= BatchMaxRecords
    ensures Filled(AfterSends(Batches(sizes)).0, AfterSends(Batches(sizes)).1, Batches(sizes))
  {
    hide Filled, AfterSends, Records, Sendable;
    if sizes == [] {
      FillNone();
    } else {
      FilledPump(sizes[..|sizes| - 1]);
      NextBatch(sizes);
      FillOne(Batches(sizes[..|sizes| - 1]), Batches(sizes)[|sizes| - 1]);
    }
  }

  lemma NextSend(batches: seq<Batch>, b: Batch)
    requires !AfterSends(batches).1.stopped && |AfterSends(batches).1.buffer| < PumpBuffer
    ensures AfterSends(batches + [b]) ==
      (Account(AfterSends(batches).0, 0, true, 0, |b.records|).0, Put(AfterSends(batches).1, b))
  {
    hide Account;
    assert (batches + [b])[..|batches|] == batches;
  }

  lemma NextBatch(sizes: seq<nat>)
    requires sizes != [] && sizes[|sizes| - 1] <= BatchMaxRecords
    ensures var all, front := Batches(sizes), Batches(sizes[..|sizes| - 1]);
      && all == front + [all[|all| - 1]] && all[..|all| - 1] == front
      && Sendable(all[|all| - 1]) && all[|all| - 1].first == Records(front)
  {
  }

  /** Every mischarge happens: a consumer that is still while eight batches of any sizes are sent, and
      then reads `k` of them while the ninth send is under way, makes it charge the size of the first and
      evict the one after the `k` it read. */
  lemma ReadInsideSendMischarges(sizes: seq<nat>, k: nat, between: nat, b: Batch, pending: nat)
    requires |sizes| == PumpBuffer && (forall i :: 0 <= i < |sizes| ==> sizes[i] <= BatchMaxRecords) && k < PumpBuffer
    requires Sendable(b) && b.first == Records(Batches(sizes))
    ensures var (fifo, p) := AfterSends(Batches(sizes));
      var (p', delivered, dropped) := TrySendDropOldest(p, b, Inside(k, between));
      && delivered && p'.evicted - p.evicted == sizes[k]
      && Account(fifo, pending, delivered, dropped, |b.records|).1 == pending + sizes[0]
  {
    hide Delivery, Account, Records, AfterSends, Batches, TrySendDropOldest, Sendable;
    FilledPump(sizes);
    BatchesAre(sizes, 0);
    BatchesAre(sizes, k);
    var (fifo, p) := AfterSends(Batches(sizes));
    EvictsFirstLeft(p, b, Inside(k, between));
    SendOutcome(fifo, p, b, pending, Inside(k, between));
  }

  lemma EvictsFirstLeft(p: Pump, b: Batch, w: Inside)
    requires !p.stopped && |p.buffer| == PumpBuffer && w.before < PumpBuffer
    ensures TrySendDropOldest(p, b, w).0.evicted - p.evicted == |p.buffer[w.before].records|
  {
    ReadsAre(p, w.before);
    ReadsAre(Drain(Reads(p, w.before)), w.between);
    hide Reads;
  }

  lemma SendableParts(b: Batch)
    requires Sendable(b)
    ensures Numbered(b.first, b.records) && |b.records| <= BatchMaxRecords && b.accepted == b.first + |b.records|
  {
  }

  lemma TailMoves(left: seq<Batch>, buffer: seq<Batch>, b: Batch)
    ensures left + (buffer + [b]) == left + buffer + [b]
    ensures buffer != [] ==> (left + [buffer[0]]) + (buffer[1..] + [b]) == left + buffer + [b]
  {
  }

  lemma MirrorsBound(fifo: seq<nat>, buffer: seq<Batch>)
    requires Mirrors(fifo, buffer)
    ensures |buffer| <= PumpBuffer
  {
  }

  lemma LaterEnd(taken: seq<Batch>, end: nat, later: nat)
    requires InOrder(taken, end) && end <= later
    ensures InOrder(taken, later)
  {
  }

  lemma AmongMore(taken: seq<Batch>, left: seq<Batch>, b: Batch)
    requires Among(taken, left)
    ensures Among(taken, left + [b]) && Among(taken + [b], left + [b])
  {
  }

  lemma TakeOne(taken: seq<Batch>, end: nat, b: Batch)
    requires InOrder(taken, end) && b.first == end
    ensures InOrder(taken + [b], end + |b.records|)
  {
  }

  lemma NextToRead(p: Pump)
    requires p.sent == p.left + p.buffer && Contiguous(p.sent) && p.buffer != []
    ensures p.buffer[0].first == Records(p.left)
  {
    assert p.sent[..|p.left|] == p.left;
    assert p.sent[|p.left|] == p.buffer[0];
  }

  lemma ReadKeeps(fifo: seq<nat>, p: Pump)
    requires Delivery(fifo, p)
    ensures Delivery(fifo, Read(p))
  {
    hide Mirrors, Contiguous, Records, InOrder, Among;
    if p.buffer != [] {
      AmongMore(p.taken, p.left, p.buffer[0]);
      MirrorsRead(fifo, p.buffer);
      LeaveOne(p.left, p.buffer[0]);
      LeaveOne(p.taken, p.buffer[0]);
      NextToRead(p);
      TakeOne(p.taken, Records(p.left), p.buffer[0]);
      HeadMoves(p.left, p.buffer);
    }
  }

  lemma HeadMoves(left: seq<Batch>, buffer: seq<Batch>)
    requires buffer != []
    ensures (left + [buffer[0]]) + buffer[1..] == left + buffer
  {
  }

  // ---------------------------------------------------------------- the engine

  function IsPacket(f: Frame): nat
  {
    if f.Packet? then 1 else 0
  }

  function Packets(frames: seq<Frame>): nat
  {
    if frames == [] then 0 else Packets(frames[..|frames| - 1]) + IsPacket(frames[|frames| - 1])
  }

  /** The first octets of a frame, no more than the snap length. */
  function Truncated(data: seq<bv8>, snapLength: nat): (r: seq<bv8>)
    ensures r <= data && |r| <= snapLength && (r == data || |r| == snapLength)
  {
    if |data| > snapLength then data[..snapLength] else data
  }

  /** Why an event other than a packet ends the run; unspecified when it does not. */
  function EndReason(e: Event): StopReason
  {
    match e
    case Receive(Failure(cancelled), _) => if cancelled then Operator else SourceError
    case SourceClosed(cancelled) => if cancelled then Operator else SourceError
    case DurationOver(_) => Duration
    case ContextDone => Operator
    case PumpStopped => Operator
    case _ => Unspecified
  }

  /** The frames a budget bound finds queued. */
  function Behind(e: Event): seq<Frame>
  {
    match e
    case Receive(Packet(_), behind) => behind
    case DurationOver(behind) => behind
    case _ => []
  }

  /** The record an event adds. */
  function Accepted(e: Event, next: nat, snapLength: nat): seq<Record>
  {
    if e.Receive? && e.frame.Packet? then [Record(next, Truncated(e.frame.data, snapLength))] else []
  }

  /** The packets among some events, truncated and numbered. */
  function PacketLog(events: seq<Event>, snapLength: nat): seq<Record>
  {
    if events == [] then []
    else
      var before := PacketLog(events[..|events| - 1], snapLength);
      before + Accepted(events[|events| - 1], |before|, snapLength)
  }

  function Bytes(log: seq<Record>): nat
  {
    if log == [] then 0 else Bytes(log[..|log| - 1]) + |log[|log| - 1].data|
  }

  /** Why an event ends the run, given what was accepted up to and including it; unspecified when it
      does not. */
  function Verdict(budget: Budget, e: Event, log: seq<Record>): StopReason
  {
    if !(e.Receive? && e.frame.Packet?) then EndReason(e)
    else if budget.maxPackets.Some? && |log| >= budget.maxPackets.value then PacketCount
    else if budget.maxBytes.Some? && Bytes(log) >= budget.maxBytes.value then ByteCount
    else Unspecified
  }

  /** The verdict on the `i`-th event, if the run gets that far. */
  function ReasonAt(budget: Budget, events: seq<Event>, i: nat): StopReason
    requires i < |events|
  {
    Verdict(budget, events[i], PacketLog(events[..i + 1], budget.snapLength))
  }

  /** The run handled events up to the first that ends it, for that one's reason, or all of them. */
  ghost predicate EndsAtFirst(budget: Budget, events: seq<Event>, handled: nat, stop: bool, reason: StopReason)
  {
    && handled <= |events|
    && (forall j :: 0 <= j < handled && (j < handled - 1 || !stop) ==> ReasonAt(budget, events, j) == Unspecified)
    && (if stop then handled > 0 && reason == ReasonAt(budget, events, handled - 1) && reason != Unspecified else handled == |events|)
  }

  /** The loop has handled some events, and stopped at the last one or not yet. */
  ghost predicate SoFar(budget: Budget, events: seq<Event>, handled: nat, stop: bool, reason: StopReason, failed: bool, dropped: nat)
  {
    && handled <= |events|
    && (forall j :: 0 <= j < handled && (j < handled - 1 || !stop) ==> ReasonAt(budget, events, j) == Unspecified)
    && (stop ==> handled > 0 && reason == ReasonAt(budget, events, handled - 1) && reason != Unspecified)
    && (failed <==> stop && reason == SourceError)
    && dropped == if stop then Packets(Behind(events[handled - 1])) else 0
  }

  lemma NotYet(budget: Budget, events: seq<Event>, handled: nat, reason: StopReason, failed: bool, dropped: nat)
    requires SoFar(budget, events, handled, false, reason, failed, dropped)
    ensures !failed && dropped == 0
  {
    hide ReasonAt, Packets, Behind;
  }

  lemma NextSoFar(budget: Budget, events: seq<Event>, handled: nat, before: StopReason, stop: bool, reason: StopReason, failed: bool, dropped: nat)
    requires 0 < handled <= |events|
    requires SoFar(budget, events, handled - 1, false, before, false, 0)
    requires stop <==> ReasonAt(budget, events, handled - 1) != Unspecified
    requires stop ==> reason == ReasonAt(budget, events, handled - 1) && (failed <==> reason == SourceError)
    requires !stop ==> !failed
    requires dropped == if stop then Packets(Behind(events[handled - 1])) else 0
    ensures SoFar(budget, events, handled, stop, reason, failed, dropped)
  {
    hide ReasonAt, Packets, Behind;
  }

  lemma EndOfLoop(budget: Budget, events: seq<Event>, handled: nat, stop: bool, reason: StopReason, failed: bool, dropped: nat)
    requires SoFar(budget, events, handled, stop, reason, failed, dropped) && (stop || handled == |events|)
    ensures EndsAtFirst(budget, events, handled, stop, reason) && (failed <==> stop && reason == SourceError)
    ensures dropped == if stop then Packets(Behind(events[handled - 1])) else 0
  {
    hide ReasonAt, Packets, Behind;
  }

  // ---------------------------------------------------------------- the same, event by event

  predicate IsReceived(e: Event)
  {
    e.Receive? && e.frame.Packet?
  }

  /** The packets among the first `n` events. */
  ghost function Arrived(events: seq<Event>, n: nat): set<nat>
    requires n <= |events|
  {
    set j: nat | j < n && IsReceived(events[j])
  }

  ghost function QueuedPackets(frames: seq<Frame>): set<nat>
  {
    set i: nat | i < |frames| && frames[i].Packet?
  }

  /** An event after which the run goes on. */
  ghost predicate GoesOn(budget: Budget, events: seq<Event>, i: nat)
    requires i < |events|
  {
    var e := events[i];
    || e.FlushTick? || e.ConsumerReads? || e.ConsumerStops?
    || (IsReceived(e) && (budget.maxPackets.Some? ==> |Arrived(events, i + 1)| < budget.maxPackets.value)
        && (budget.maxBytes.Some? ==> Bytes(PacketLog(events[..i + 1], budget.snapLength)) < budget.maxBytes.value))
  }

  /** What an event is when the run ends with it for a reason. */
  ghost predicate EndsFor(budget: Budget, events: seq<Event>, i: nat, reason: StopReason)
    requires i < |events|
  {
    var e := events[i];
    match reason
    case PacketCount => IsReceived(e) && budget.maxPackets.Some? && |Arrived(events, i + 1)| >= budget.maxPackets.value
    case ByteCount => IsReceived(e) && budget.maxBytes.Some? && Bytes(PacketLog(events[..i + 1], budget.snapLength)) >= budget.maxBytes.value
                      && (budget.maxPackets.Some? ==> |Arrived(events, i + 1)| < budget.maxPackets.value)
    case Duration => e.DurationOver?
    case Operator => e.ContextDone? || e.PumpStopped? || (e.Receive? && e.frame == Failure(true)) || e == SourceClosed(true)
    case SourceError => (e.Receive? && e.frame == Failure(false)) || e == SourceClosed(false)
    case Unspecified => false
  }

  /** The run handled events that let it go on, up to the one it ended with for its reason, or all of them. */
  ghost predicate EndsForCause(budget: Budget, events: seq<Event>, handled: nat, stop: bool, reason: StopReason)
  {
    && handled <= |events| && (if stop then handled > 0 else handled == |events|)
    && (forall j: nat :: j < handled && (j < handled - 1 || !stop) ==> GoesOn(budget, events, j))
    && (stop ==> EndsFor(budget, events, handled - 1, reason))
  }

  /** Packets still queued count as dropped by the budget exactly when a bound of it was reached. */
  ghost function QueuedBehind(events: seq<Event>, handled: nat, reason: StopReason): nat
    requires 0 < handled <= |events|
  {
    var e := events[handled - 1];
    match reason
    case PacketCount => if e.Receive? then |QueuedPackets(e.behind)| else 0
    case ByteCount => if e.Receive? then |QueuedPackets(e.behind)| else 0
    case Duration => if e.DurationOver? then |QueuedPackets(e.behind)| else 0
    case _ => 0
  }

  lemma {:induction false} PacketsAre(frames: seq<Frame>)
    ensures Packets(frames) == |QueuedPackets(frames)|
  {
    if frames != [] {
      var n := |frames| - 1;
      PacketsAre(frames[..n]);
      assert QueuedPackets(frames) == QueuedPackets(frames[..n]) + if frames[n].Packet? then {n} else {};
    }
  }

  lemma ArrivedOne(events: seq<Event>, n: nat)
    requires n < |events|
    ensures Arrived(events, n + 1) == Arrived(events, n) + if IsReceived(events[n]) then {n} else {}
    ensures |Arrived(events, n + 1)| == |Arrived(events, n)| + if IsReceived(events[n]) then 1 else 0
  {
    assert n !in Arrived(events, n);
  }

  /** The packet that arrived at `i` is in the log under its number, cut to the snap length. */
  ghost predicate IsLogged(events: seq<Event>, i: nat, snapLength: nat, log: seq<Record>)
    requires i < |events| && IsReceived(events[i])
  {
    var k, data := |Arrived(events, i)|, events[i].frame.data;
    k < |log| && log[k] == Record(k, if |data| <= snapLength then data else data[..snapLength])
  }

  lemma StillLogged(events: seq<Event>, i: nat, snapLength: nat, log: seq<Record>, more: seq<Record>)
    requires i < |events| && IsReceived(events[i]) && IsLogged(events, i, snapLength, log)
    ensures IsLogged(events, i, snapLength, log + more)
  {
    hide Arrived;
  }

  /** The log has the packets among the first `n` events and nothing else. */
  ghost predicate LogsExactly(events: seq<Event>, n: nat, snapLength: nat, log: seq<Record>)
  {
    && n <= |events| && |log| == |Arrived(events, n)|
    && forall i: nat :: i < n && IsReceived(events[i]) ==> IsLogged(events, i, snapLength, log)
  }

  lemma NowLogged(events: seq<Event>, n: nat, snapLength: nat, log: seq<Record>)
    requires n < |events| && |log| == |Arrived(events, n)|
    ensures IsReceived(events[n]) ==> IsLogged(events, n, snapLength, log + Accepted(events[n], |log|, snapLength))
    ensures |log + Accepted(events[n], |log|, snapLength)| == |Arrived(events, n + 1)|
  {
    ArrivedOne(events, n);
    hide Arrived;
  }

  lemma LogsOneMore(events: seq<Event>, n: nat, snapLength: nat, log: seq<Record>)
    requires n < |events| && LogsExactly(events, n, snapLength, log)
    ensures LogsExactly(events, n + 1, snapLength, log + Accepted(events[n], |log|, snapLength))
  {
    hide Arrived, IsLogged, Accepted, IsReceived;
    NowLogged(events, n, snapLength, log);
    var more := Accepted(events[n], |log|, snapLength);
    forall i: nat | i < n + 1 && IsReceived(events[i]) ensures IsLogged(events, i, snapLength, log + more) {
      if i < n { StillLogged(events, i, snapLength, log, more); }
    }
  }

  lemma {:induction false} LogIs(events: seq<Event>, n: nat, snapLength: nat)
    requires n <= |events|
    ensures LogsExactly(events, n, snapLength, PacketLog(events[..n], snapLength))
    decreases n
  {
    if n == 0 {
      assert Arrived(events, 0) == {};
    } else {
      hide LogsExactly;
      LogIs(events, n - 1, snapLength);
      LogGrows(events, n - 1, snapLength);
      LogsOneMore(events, n - 1, snapLength, PacketLog(events[..n - 1], snapLength));
    }
  }

  lemma {:induction false} BytesAre(a: seq<Record>, r: Record)
    ensures Bytes([]) == 0 && Bytes(a + [r]) == Bytes(a) + |r.data|
  {
    assert (a + [r])[..|a|] == a;
  }

  lemma LogSize(events: seq<Event>, n: nat, snapLength: nat)
    requires n <= |events|
    ensures |PacketLog(events[..n], snapLength)| == |Arrived(events, n)|
  {
    LogIs(events, n, snapLength);
    hide PacketLog, Arrived, IsLogged;
  }

  lemma ReasonIs(budget: Budget, events: seq<Event>, i: nat)
    requires i < |events|
    ensures var reason := ReasonAt(budget, events, i);
      if reason == Unspecified then GoesOn(budget, events, i) else EndsFor(budget, events, i, reason)
    ensures ReasonAt(budget, events, i) != Unspecified ==>
      Packets(Behind(events[i])) == QueuedBehind(events, i + 1, ReasonAt(budget, events, i))
  {
    LogSize(events, i + 1, budget.snapLength);
    PacketsAre(Behind(events[i]));
    hide Arrived, QueuedPackets, PacketLog, Bytes;
  }

  lemma EndsAtFirstIs(budget: Budget, events: seq<Event>, handled: nat, stop: bool, reason: StopReason)
    requires EndsAtFirst(budget, events, handled, stop, reason)
    ensures EndsForCause(budget, events, handled, stop, reason)
    ensures stop ==> Packets(Behind(events[handled - 1])) == QueuedBehind(events, handled, reason)
  {
    forall j: nat | j < handled && (j < handled - 1 || !stop) ensures GoesOn(budget, events, j) { ReasonIs(budget, events, j); }
    if stop { ReasonIs(budget, events, handled - 1); }
    hide GoesOn, EndsFor, ReasonAt;
  }

  /** The most that may be accepted under a limit when one item weighs at most `item`. */
  function Overshoot(limit: nat, item: nat): nat
  {
    (if limit > 0 then limit - 1 else 0) + item
  }

  ghost predicate NoneFinal(sent: seq<Batch>)
  {
    forall i :: 0 <= i < |sent| ==> !sent[i].final
  }

  /** The last batch sent is the only final one. */
  ghost predicate LastIsFinal(sent: seq<Batch>, reason: StopReason)
  {
    sent != [] && sent[|sent| - 1].final && sent[|sent| - 1].reason == reason && NoneFinal(sent[..|sent| - 1])
  }

  /** The records of some batches, in order. */
  function Flatten(batches: seq<Batch>): seq<Record>
  {
    if batches == [] then [] else Flatten(batches[..|batches| - 1]) + batches[|batches| - 1].records
  }

  lemma FlattenOne(batches: seq<Batch>, b: Batch)
    ensures Flatten(batches + [b]) == Flatten(batches) + b.records
  {
    assert (batches + [b])[..|batches|] == batches;
  }

  /** The open batch holds the packets accepted since the last flush; batches sent and the open one
      together hold every packet accepted, in order. */
  ghost predicate BatchOk(next: nat, batch: seq<Record>, batchFirst: nat, p: Pump, unsent: nat, log: seq<Record>)
  {
    && |log| == next && Flatten(p.sent) <= log && (unsent == 0 ==> log == Flatten(p.sent) + batch)
    && batchFirst + |batch| == next && batchFirst == Records(p.sent) + unsent
    && Numbered(batchFirst, batch) && |batch| <= BatchMaxRecords
    && (unsent > 0 ==> p.stopped)
  }

  lemma BatchGrows(next: nat, batch: seq<Record>, batchFirst: nat, p: Pump, unsent: nat, log: seq<Record>, data: seq<bv8>)
    requires BatchOk(next, batch, batchFirst, p, unsent, log) && |batch| < BatchMaxRecords
    ensures BatchOk(next + 1, batch + [Record(next, data)], batchFirst, p, unsent, log + [Record(next, data)])
  {
    assert (Flatten(p.sent) + batch) + [Record(next, data)] == Flatten(p.sent) + (batch + [Record(next, data)]);
    hide Flatten;
  }

  lemma EmptyDelivery()
    ensures Delivery([], EmptyPump()) && BatchOk(0, [], 0, EmptyPump(), 0, []) && NoneFinal(EmptyPump().sent) && EmptyPump().evicted == 0
  {
    assert Counts([]) == [];
  }

  function EmptyPump(): Pump
  {
    Pump([], false, [], [], [], 0)
  }

  /** After a flush, into a live pump or a stopped one. */
  lemma BatchFlushed(next: nat, batch: seq<Record>, batchFirst: nat, p: Pump, unsent: nat, log: seq<Record>, b: Batch, p': Pump, unsent': nat)
    requires BatchOk(next, batch, batchFirst, p, unsent, log) && p'.stopped == p.stopped && b.records == batch
    requires if p.stopped then p' == p && unsent' == unsent + |batch| else p'.sent == p.sent + [b] && unsent' == unsent
    ensures BatchOk(next, [], next, p', unsent', log)
  {
    LeaveOne(p.sent, b);
    FlattenOne(p.sent, b);
    hide Records, Flatten;
  }

  lemma SendableBatch(next: nat, batch: seq<Record>, batchFirst: nat, p: Pump, unsent: nat, log: seq<Record>, dropped: nat, final: bool, reason: StopReason)
    requires BatchOk(next, batch, batchFirst, p, unsent, log)
    ensures Sendable(Batch(batchFirst, batch, next, dropped, final, reason)) && (!p.stopped ==> batchFirst == Records(p.sent))
    ensures |batch| == 0 ==> batchFirst == next
  {
  }

  class Engine {
    const budget: Budget
    const inside: nat -> Inside   // what the consumer reads inside each send
    var next: nat                 // packets accepted, and the next sequence number
    var acceptedBytes: nat
    var droppedByBudget: nat
    var totalDropped: nat
    var pendingDrops: nat
    var fifo: seq<nat>
    var batch: seq<Record>
    var batchFirst: nat
    var reason: StopReason
    var failed: bool
    var lifecycle: Lifecycle
    var pump: Pump
    ghost var unsent: nat         // records offered after the consumer stopped the pump
    var sends: nat                // batches offered to the pump
    ghost var skew: int           // how far the charges of all sends together are off
    ghost var log: seq<Record>    // history: every packet accepted

    constructor (budget: Budget, inside: nat -> Inside)
      ensures this.budget == budget && this.inside == inside && Fresh()
    {
      this.budget, this.inside, sends, skew := budget, inside, 0, 0;
      next, acceptedBytes, droppedByBudget, totalDropped, pendingDrops := 0, 0, 0, 0, 0;
      fifo, batch, batchFirst, reason, failed, lifecycle := [], [], 0, Unspecified, false, Running;
      pump, unsent, log := EmptyPump(), 0, [];
    }

    /** Nothing has been captured yet. */
    ghost predicate Fresh()
      reads this
    {
      && next == acceptedBytes == 0 && fifo == [] && batch == [] && batchFirst == 0 && !failed && lifecycle == Running
      && totalDropped == pendingDrops == droppedByBudget == 0 && pump == EmptyPump() && unsent == 0 && log == []
      && sends == 0 && skew == 0
    }

    lemma FreshIsValid()
      requires Fresh()
      ensures Valid() && Open() && WithinBudget() && NoneFinal(pump.sent)
    {
      EmptyDelivery();
      hide Delivery, BatchOk, NoneFinal, EmptyPump;
    }

    ghost predicate Valid()
      reads this
    {
      && Delivery(fifo, pump) && totalDropped + pendingDrops == pump.evicted + skew
      && BatchOk(next, batch, batchFirst, pump, unsent, log) && (Undisturbed() ==> skew == 0)
    }

    /** The consumer never reads between an attempt that found the buffer full and the drain. */
    ghost predicate Undisturbed()
    {
      forall n :: inside(n).before == 0
    }

    lemma UndisturbedIsExact()
      ensures Undisturbed() ==> Skew(pump, inside(sends)) == 0
    {
    }

    predicate PacketsReached()
      reads this
    {
      budget.maxPackets.Some? && next >= budget.maxPackets.value
    }

    predicate BytesReached()
      reads this
    {
      budget.maxBytes.Some? && acceptedBytes >= budget.maxBytes.value
    }

    /** No budget bound has been reached. */
    ghost predicate Open()
      reads this
    {
      && (budget.maxPackets.Some? ==> next < budget.maxPackets.value || next == 0)
      && (budget.maxBytes.Some? ==> acceptedBytes < budget.maxBytes.value || acceptedBytes == 0)
    }

    ghost predicate WithinBudget()
      reads this
    {
      && (budget.maxPackets.Some? ==> next <= Overshoot(budget.maxPackets.value, 1))
      && (budget.maxBytes.Some? ==> acceptedBytes <= Overshoot(budget.maxBytes.value, budget.snapLength))
    }

    /** Every accepted packet is with the consumer, in the pump, in the open batch, counted as dropped
        by transport, or was offered after the consumer stopped the pump; what is counted as dropped is
        off by `skew`, which is zero when the consumer disturbs no send. */
    lemma Conserved()
      requires Valid()
      ensures next == Records(pump.taken) + Records(pump.buffer) + |batch| + totalDropped + pendingDrops - skew + unsent
      ensures Undisturbed() ==> skew == 0
      ensures !pump.stopped ==> unsent == 0
      ensures |log| == next && (unsent == 0 ==> log == Flatten(pump.sent) + batch)
    {
      RecordsConcat(pump.left, pump.buffer);
    }

    /** The consumer got stretches of the capture, in order. */
    lemma ConsumerIsInOrder()
      requires Valid()
      ensures ConsumerSees(pump.taken, log)
    {
      TakenAreStretches(fifo, pump, log);
    }

    method ApplyDropAccounting(delivered: bool, dropped: nat, sentCount: nat)
      modifies this`fifo, this`pendingDrops
      ensures (fifo, pendingDrops) == Account(old(fifo), old(pendingDrops), delivered, dropped, sentCount)
    {
      if delivered && dropped == 0 {
        fifo := fifo + [sentCount];
        if |fifo| > PumpBuffer { fifo := fifo[|fifo| - PumpBuffer..]; }
      } else if delivered && dropped == 1 {
        if |fifo| > 0 {
          pendingDrops := pendingDrops + fifo[0];
          fifo := fifo[1..];
          fifo := fifo + [sentCount];
        } else {
          fifo := [sentCount];
        }
      } else if !delivered && dropped == 1 {
        pendingDrops := pendingDrops + sentCount;
      } else if !delivered && dropped == 2 {
        if |fifo| > 0 {
          pendingDrops := pendingDrops + fifo[0];
          fifo := fifo[1..];
        }
        pendingDrops := pendingDrops + sentCount;
      }
    }

    /** Sends the open batch; drops an earlier send caused are counted with this one. */
    method Flush(final: bool)
      requires Valid()
      modifies this`pump, this`fifo, this`pendingDrops, this`totalDropped, this`batch, this`batchFirst, this`unsent, this`sends, this`skew
      ensures Valid() && batch == [] && pump.stopped == old(pump.stopped) && old(pump.taken) <= pump.taken
      ensures |old(batch)| == 0 && !final ==>
        pump == old(pump) && unsent == old(unsent) && totalDropped == old(totalDropped) && skew == old(skew) && sends == old(sends)
      ensures |old(batch)| > 0 || final ==>
        var b := Batch(old(batchFirst), old(batch), next, totalDropped, final, if final then reason else Unspecified);
        && totalDropped == old(totalDropped) + old(pendingDrops)
        && sends == old(sends) + 1 && skew == old(skew) + Skew(old(pump), inside(old(sends)))
        && (pump.stopped ==> pump == old(pump) && unsent == old(unsent) + |old(batch)|)
        && (!pump.stopped ==> pump.sent == old(pump.sent) + [b] && unsent == old(unsent))
    {
      hide Delivery, Account, BatchOk, Records, Sendable, TrySendDropOldest, Skew, Undisturbed, Flatten, ConsumerSees;
      SendableBatch(next, batch, batchFirst, pump, unsent, log, totalDropped + pendingDrops, final, if final then reason else Unspecified);
      if |batch| == 0 && !final { return; }
      ghost var before := pump;
      ghost var unsent0 := unsent;
      totalDropped, pendingDrops := totalDropped + pendingDrops, 0;
      var b := Batch(batchFirst, batch, next, totalDropped, final, if final then reason else Unspecified);
      var w := inside(sends);
      if !pump.stopped { SendOutcome(fifo, pump, b, 0, w); }
      var (p, delivered, dropped) := TrySendDropOldest(pump, b, w);
      StoppedSend(pump, b, fifo, 0, w);
      UndisturbedIsExact();
      sends, skew := sends + 1, skew + Skew(pump, w);
      if pump.stopped { unsent := unsent + |batch|; }
      BatchFlushed(next, batch, batchFirst, pump, unsent0, log, b, p, unsent);
      pump := p;
      ApplyDropAccounting(delivered, dropped, |batch|);
      batch, batchFirst := [], next;
    }

    /** The frames already queued when a bound is reached; error frames name no packet. */
    method DrainNonBlocking(frames: seq<Frame>) returns (n: nat)
      ensures n == Packets(frames)
    {
      n := 0;
      for i := 0 to |frames|
        invariant n == Packets(frames[..i])
      {
        assert frames[..i + 1][..i] == frames[..i];
        if frames[i].Packet? { n := n + 1; }
      }
      assert frames[..|frames|] == frames;
    }

    /** A full batch goes out. */
    method FlushFull()
      requires Valid() && NoneFinal(pump.sent)
      modifies this`pump, this`fifo, this`pendingDrops, this`totalDropped, this`batch, this`batchFirst, this`unsent, this`sends, this`skew
      ensures Valid() && NoneFinal(pump.sent) && pump.stopped == old(pump.stopped) && old(pump.taken) <= pump.taken
      ensures batch == if |old(batch)| >= BatchMaxRecords then [] else old(batch)
    {
      hide Delivery, BatchOk, NoneFinal, Undisturbed, Skew, Flatten, Records;
      ghost var before := pump.sent;
      if |batch| >= BatchMaxRecords {
        Flush(false);
        StillNoneFinal(before, pump.sent);
      }
    }

    method Accept(data: seq<bv8>, behind: seq<Frame>) returns (stop: bool)
      requires Valid() && Open() && |batch| < BatchMaxRecords && NoneFinal(pump.sent)
      modifies this`next, this`acceptedBytes, this`droppedByBudget, this`reason, this`log
      modifies this`pump, this`fifo, this`pendingDrops, this`totalDropped, this`batch, this`batchFirst, this`unsent, this`sends, this`skew
      ensures Valid() && WithinBudget() && NoneFinal(pump.sent)
      ensures next == old(next) + 1 && pump.stopped == old(pump.stopped) && old(pump.taken) <= pump.taken
      ensures log == old(log) + [Record(old(next), Truncated(data, budget.snapLength))]
      ensures acceptedBytes == old(acceptedBytes) + |Truncated(data, budget.snapLength)|
      ensures stop <==> PacketsReached() || BytesReached()
      ensures stop ==> reason == if PacketsReached() then PacketCount else ByteCount
      ensures droppedByBudget == old(droppedByBudget) + if stop then Packets(behind) else 0
      ensures !stop ==> Open() && |batch| < BatchMaxRecords && reason == old(reason)
      ensures var rec := Record(old(next), Truncated(data, budget.snapLength));
        batch == if !stop && |old(batch)| + 1 == BatchMaxRecords then [] else old(batch) + [rec]
    {
      hide Delivery, BatchOk, NoneFinal, Undisturbed, Skew, Flatten, ConsumerSees, Records, Packets, EmptyPump, Truncated;
      BatchGrows(next, batch, batchFirst, pump, unsent, log, Truncated(data, budget.snapLength));
      BatchBounds(next, batch, batchFirst, pump, unsent, log);
      SnapLength(data, budget.snapLength);
      var rec := Record(next, Truncated(data, budget.snapLength));
      next := next + 1;
      acceptedBytes := acceptedBytes + |rec.data|;
      batch := batch + [rec];
      log := log + [rec];
      if budget.maxPackets.Some? && next >= budget.maxPackets.value {
        reason := PacketCount;
      } else if budget.maxBytes.Some? && acceptedBytes >= budget.maxBytes.value {
        reason := ByteCount;
      } else {
        FlushFull();
        return false;
      }
      var n := DrainNonBlocking(behind);
      droppedByBudget := droppedByBudget + n;
      return true;
    }

    /** One turn of the loop, or of the consumer. */
    method Step(e: Event) returns (stop: bool)
      requires Valid() && Open() && WithinBudget() && |batch| < BatchMaxRecords && !failed && NoneFinal(pump.sent)
      modifies this`next, this`acceptedBytes, this`droppedByBudget, this`reason, this`failed, this`log
      modifies this`pump, this`fifo, this`pendingDrops, this`totalDropped, this`batch, this`batchFirst, this`unsent, this`sends, this`skew
      ensures Valid() && WithinBudget() && NoneFinal(pump.sent)
      ensures !stop ==> Open() && |batch| < BatchMaxRecords && !failed
      ensures stop ==> (failed <==> reason == SourceError) && reason != Unspecified
      ensures next == old(next) + |Accepted(e, old(next), budget.snapLength)| && log == old(log) + Accepted(e, old(next), budget.snapLength)
      ensures acceptedBytes == old(acceptedBytes) + Bytes(Accepted(e, old(next), budget.snapLength))
      ensures stop <==> if e.Receive? && e.frame.Packet? then PacketsReached() || BytesReached() else EndReason(e) != Unspecified
      ensures stop ==> reason == if e.Receive? && e.frame.Packet? then (if PacketsReached() then PacketCount else ByteCount) else EndReason(e)
      ensures droppedByBudget == old(droppedByBudget) + if stop then Packets(Behind(e)) else 0
      ensures pump.stopped == (old(pump.stopped) || e.ConsumerStops?)
      ensures old(pump.taken) <= pump.taken && (e.ConsumerReads? ==> pump == Read(old(pump)))
      ensures e.FlushTick? ==> batch == []
    {
      hide Delivery, NoneFinal, BatchOk, Read, Undisturbed, Skew, Flatten, ConsumerSees;
      stop := true;
      match e
      case Receive(Packet(data), behind) =>
        stop := Accept(data, behind);
      case Receive(Failure(cancelled), _) =>
        failed, reason := !cancelled, if cancelled then Operator else SourceError;
      case SourceClosed(cancelled) =>
        failed, reason := !cancelled, if cancelled then Operator else SourceError;
      case DurationOver(behind) =>
        reason := Duration;
        var n := DrainNonBlocking(behind);
        droppedByBudget := droppedByBudget + n;
      case FlushTick =>
        ghost var before := pump.sent;
        Flush(false);
        StillNoneFinal(before, pump.sent);
        stop := false;
      case ContextDone =>
        reason := Operator;
      case PumpStopped =>
        reason := Operator;
      case ConsumerReads =>
        ReadKeeps(fifo, pump);
        ReadLeaves(next, batch, batchFirst, pump, unsent, log);
        pump := Read(pump);
        stop := false;
      case ConsumerStops =>
        StopKeeps(fifo, pump);
        StopLeaves(next, batch, batchFirst, pump, unsent, log);
        pump := pump.(stopped := true);
        stop := false;
    }

    /** The trailing batch, final unless the run failed, and the state left to read. */
    method Finish()
      requires Valid() && NoneFinal(pump.sent)
      modifies this`lifecycle
      modifies this`pump, this`fifo, this`pendingDrops, this`totalDropped, this`batch, this`batchFirst, this`unsent, this`sends, this`skew
      ensures Valid() && batch == [] && pendingDrops == 0 && pump.stopped == old(pump.stopped)
      ensures lifecycle == if failed then Failed else if reason == Operator then Canceled else Completed
      ensures if failed || pump.stopped then NoneFinal(pump.sent) else LastIsFinal(pump.sent, reason)
    {
      hide Delivery, BatchOk, NoneFinal, LastIsFinal, Skew, Undisturbed, Flatten, ConsumerSees;
      ghost var last := Batch(batchFirst, batch, next, totalDropped + pendingDrops, !failed, if failed then Unspecified else reason);
      FinalSent(pump.sent, last);
      Flush(!failed);
      totalDropped, pendingDrops := totalDropped + pendingDrops, 0;
      lifecycle := if failed then Failed else if reason == Operator then Canceled else Completed;
    }

    /** The log holds the packets among the first `i` events. */
    ghost predicate Logged(events: seq<Event>, i: nat)
      reads this
    {
      i <= |events| && log == PacketLog(events[..i], budget.snapLength) && acceptedBytes == Bytes(log)
    }

    /** One turn, and what it means for the log. */
    method Turn(events: seq<Event>, i: nat) returns (stop: bool)
      requires Valid() && Open() && WithinBudget() && |batch| < BatchMaxRecords && !failed && NoneFinal(pump.sent)
      requires i < |events| && Logged(events, i) && |log| == next
      modifies this`next, this`acceptedBytes, this`droppedByBudget, this`reason, this`failed, this`log
      modifies this`pump, this`fifo, this`pendingDrops, this`totalDropped, this`batch, this`batchFirst, this`unsent, this`sends, this`skew
      ensures Valid() && WithinBudget() && NoneFinal(pump.sent)
      ensures !stop ==> Open() && |batch| < BatchMaxRecords && !failed
      ensures Logged(events, i + 1) && |log| == next
      ensures stop <==> ReasonAt(budget, events, i) != Unspecified
      ensures stop ==> reason == ReasonAt(budget, events, i) && (failed <==> reason == SourceError)
      ensures droppedByBudget == old(droppedByBudget) + if stop then Packets(Behind(events[i])) else 0
    {
      hide Delivery, BatchOk, NoneFinal, PacketLog, Packets, Behind, EndReason, Undisturbed, Skew, Flatten, ConsumerSees, Bytes;
      LogGrows(events, i, budget.snapLength);
      BytesConcat(log, Accepted(events[i], next, budget.snapLength));
      stop := Step(events[i]);
    }

    /** The loop, up to the first thing that stops it. */
    method Loop(events: seq<Event>) returns (stop: bool, handled: nat)
      requires Fresh()
      modifies this`next, this`acceptedBytes, this`droppedByBudget, this`reason, this`failed, this`log
      modifies this`pump, this`fifo, this`pendingDrops, this`totalDropped, this`batch, this`batchFirst, this`unsent, this`sends, this`skew
      ensures Valid() && WithinBudget() && NoneFinal(pump.sent)
      ensures Logged(events, handled) && EndsAtFirst(budget, events, handled, stop, reason)
      ensures failed <==> stop && reason == SourceError
      ensures droppedByBudget == if stop then Packets(Behind(events[handled - 1])) else 0
    {
      FreshIsValid();
      NoLog(events, budget.snapLength);
      assert Logged(events, 0);
      hide Delivery, BatchOk, NoneFinal, EmptyPump, Logged, Undisturbed, Skew, Flatten, ConsumerSees, ReasonAt, Packets, Behind;
      assert SoFar(budget, events, 0, false, reason, failed, droppedByBudget);
      hide SoFar, EndsAtFirst;
      stop, handled := false, 0;
      while handled < |events| && !stop
        invariant Valid() && WithinBudget() && NoneFinal(pump.sent) && handled <= |events|
        invariant !stop ==> Open() && |batch| < BatchMaxRecords && !failed
        invariant Logged(events, handled) && |log| == next
        invariant SoFar(budget, events, handled, stop, reason, failed, droppedByBudget)
      {
        ghost var before := reason;
        NotYet(budget, events, handled, before, failed, droppedByBudget);
        stop := Turn(events, handled);
        handled := handled + 1;
        NextSoFar(budget, events, handled, before, stop, reason, failed, droppedByBudget);
      }
      EndOfLoop(budget, events, handled, stop, reason, failed, droppedByBudget);
    }

    /** A run over whatever arrives. */
    method Run(events: seq<Event>) returns (ghost handled: nat)
      requires Fresh()
      modifies this
      ensures Valid() && WithinBudget()
      ensures Logged(events, handled) && EndsForCause(budget, events, handled, lifecycle != Running, reason)
      ensures next == |log| && LogsExactly(events, handled, budget.snapLength, log)
      ensures lifecycle != Running ==> lifecycle == if reason == SourceError then Failed else if reason == Operator then Canceled else Completed
      ensures droppedByBudget == if lifecycle != Running then QueuedBehind(events, handled, reason) else 0
      ensures budget.maxPackets.Some? && budget.maxPackets.value > 0 ==> next <= budget.maxPackets.value
      ensures budget.maxBytes.Some? && budget.maxBytes.value > 0 ==> acceptedBytes < budget.maxBytes.value + budget.snapLength
      ensures next == |log| == Records(pump.taken) + Records(pump.buffer) + |batch| + totalDropped + pendingDrops - skew + unsent
      ensures Undisturbed() ==> skew == 0
      ensures ConsumerSees(pump.taken, log)
      ensures unsent == 0 ==> log == Flatten(pump.sent) + batch
      ensures !pump.stopped ==> unsent == 0
      ensures lifecycle != Running ==> batch == [] && pendingDrops == 0 && (lifecycle == Failed <==> failed)
      ensures if lifecycle == Running || failed || pump.stopped then NoneFinal(pump.sent) else LastIsFinal(pump.sent, reason)
    {
      hide Delivery, BatchOk, NoneFinal, EmptyPump, LastIsFinal, PacketLog, Records, Flatten, Undisturbed, Skew, ConsumerSees, ReasonAt, Packets,
        Behind, Bytes;
      var stop, count := Loop(events);
      handled := count;
      EndsAtFirstIs(budget, events, handled, stop, reason);
      LogIs(events, handled, budget.snapLength);
      hide EndsForCause, LogsExactly, QueuedBehind, EndsAtFirst;
      if stop { Finish(); }
      ConsumerIsInOrder();
      Conserved();
    }
  }

  lemma StoppedSend(p: Pump, b: Batch, fifo: seq<nat>, pending: nat, w: Inside)
    ensures p.stopped ==>
      TrySendDropOldest(p, b, w) == (p, false, 0) && Skew(p, w) == 0 && Account(fifo, pending, false, 0, |b.records|) == (fifo, pending)
  {
  }

  lemma {:induction false} BytesConcat(a: seq<Record>, b: seq<Record>)
    ensures Bytes(a + b) == Bytes(a) + Bytes(b)
  {
    if b == [] {
      assert a + b == a;
    } else {
      assert (a + b)[..|a + b| - 1] == a + b[..|b| - 1];
      BytesConcat(a, b[..|b| - 1]);
    }
  }

  lemma NoLog(events: seq<Event>, snapLength: nat)
    ensures PacketLog(events[..0], snapLength) == []
  {
  }

  lemma LogGrows(events: seq<Event>, i: nat, snapLength: nat)
    requires i < |events|
    ensures PacketLog(events[..i + 1], snapLength) ==
      PacketLog(events[..i], snapLength) + Accepted(events[i], |PacketLog(events[..i], snapLength)|, snapLength)
  {
    assert events[..i + 1][..i] == events[..i];
  }

  lemma SnapLength(data: seq<bv8>, snapLength: nat)
    ensures |Truncated(data, snapLength)| <= snapLength
  {
  }

  lemma BatchBounds(next: nat, batch: seq<Record>, batchFirst: nat, p: Pump, unsent: nat, log: seq<Record>)
    requires BatchOk(next, batch, batchFirst, p, unsent, log)
    ensures |batch| <= BatchMaxRecords
  {
  }

  lemma StillNoneFinal(before: seq<Batch>, after: seq<Batch>)
    requires NoneFinal(before) && (after == before || (after != [] && after[..|after| - 1] == before && !after[|after| - 1].final))
    ensures NoneFinal(after)
  {
  }

  lemma FinalSent(before: seq<Batch>, b: Batch)
    requires NoneFinal(before)
    ensures if b.final then LastIsFinal(before + [b], b.reason) else NoneFinal(before + [b])
  {
    assert (before + [b])[..|before|] == before;
  }

  lemma ReadLeaves(next: nat, batch: seq<Record>, batchFirst: nat, p: Pump, unsent: nat, log: seq<Record>)
    ensures p.taken <= Read(p).taken && Read(p).sent == p.sent && Read(p).stopped == p.stopped && Read(p).evicted == p.evicted
    ensures BatchOk(next, batch, batchFirst, p, unsent, log) ==> BatchOk(next, batch, batchFirst, Read(p), unsent, log)
  {
  }

  lemma StopLeaves(next: nat, batch: seq<Record>, batchFirst: nat, p: Pump, unsent: nat, log: seq<Record>)
    ensures BatchOk(next, batch, batchFirst, p, unsent, log) ==> BatchOk(next, batch, batchFirst, p.(stopped := true), unsent, log)
  {
  }

  lemma StopKeeps(fifo: seq<nat>, p: Pump)
    requires Delivery(fifo, p)
    ensures Delivery(fifo, p.(stopped := true))
  {
    hide Mirrors, Contiguous, Records, InOrder;
  }

  lemma {:induction false} FlattenPrefix(batches: seq<Batch>, i: nat)
    requires i <= |batches|
    ensures Flatten(batches[..i]) <= Flatten(batches) && |Flatten(batches[..i])| == Records(batches[..i])
    decreases |batches|
  {
    if i < |batches| {
      FlattenPrefix(batches[..|batches| - 1], i);
      assert batches[..|batches| - 1][..i] == batches[..i];
    } else if i > 0 {
      FlattenPrefix(batches[..i - 1], i - 1);
      assert batches[..i - 1][..i - 1] == batches[..i - 1] && batches[..i] == batches;
    } else {
      assert batches[..0] == batches;
    }
  }

  /** What the consumer got: each batch is a stretch of at most 256 packets of the capture, starting where
      it says, and no stretch begins before the one before it ended. */
  ghost predicate ConsumerSees(taken: seq<Batch>, log: seq<Record>)
  {
    && (forall i :: 0 <= i < |taken| ==>
          && taken[i].first + |taken[i].records| <= |log| && |taken[i].records| <= BatchMaxRecords
          && taken[i].records == log[taken[i].first..taken[i].first + |taken[i].records|])
    && (forall i, j :: 0 <= i < j < |taken| ==> taken[i].first + |taken[i].records| <= taken[j].first)
  }

  lemma SentIsStretch(sent: seq<Batch>, log: seq<Record>, m: nat)
    requires Contiguous(sent) && Flatten(sent) <= log && m < |sent|
    ensures sent[m].first + |sent[m].records| <= |log|
    ensures sent[m].records == log[sent[m].first..sent[m].first + |sent[m].records|]
  {
    FlattenPrefix(sent, m);
    FlattenPrefix(sent, m + 1);
    assert sent[..m + 1][..m] == sent[..m];
    InsidePrefix(Flatten(sent[..m]), sent[m].records, log);
  }

  lemma InsidePrefix(before: seq<Record>, middle: seq<Record>, all: seq<Record>)
    requires before + middle <= all
    ensures all[|before|..|before| + |middle|] == middle
  {
    assert (before + middle)[|before|..] == middle;
  }

  lemma TakenAreStretches(fifo: seq<nat>, p: Pump, log: seq<Record>)
    requires Delivery(fifo, p) && Flatten(p.sent) <= log
    ensures ConsumerSees(p.taken, log)
  {
    hide Mirrors, Records, Flatten;
    forall i | 0 <= i < |p.taken|
      ensures p.taken[i].first + |p.taken[i].records| <= |log| && |p.taken[i].records| <= BatchMaxRecords
      ensures p.taken[i].records == log[p.taken[i].first..p.taken[i].first + |p.taken[i].records|]
    {
      assert p.taken[i] in p.left;
      var m :| 0 <= m < |p.left| && p.left[m] == p.taken[i];
      assert p.sent[m] == p.left[m];
      SentIsStretch(p.sent, log, m);
    }
  }
}
