/**
 What holds over every run of buffer operations: writes, reads with any limits, readers
 coming and going, compactions and the final close.
 */
module BufferRuns {
  import opened Lines
  import opened OutputBuffer

  // ---------------------------------------------------------------- histories

  /**
   A buffer together with what its callers have seen of it. The record is kept from the
   replies alone: the accepted bytes, the cursor each reader was given when it joined,
   and everything each reader was handed.
   */
  datatype History = History(buf: Buf, stream: seq<byte>, joined: map<int, int>, got: map<int, seq<byte>>)
  {
    function Got(id: int): seq<byte> { if id in got then got[id] else [] }
  }

  ghost function Record(h: History, op: Op): History {
    var (b, reply) := Step(h.buf, op);
    History(
      b,
      if op.Write? && reply == Done then h.stream + op.data else h.stream,
      if reply.Id? then h.joined[reply.id := b.Cursor(reply.id)] else h.joined,
      if op.Read? && reply.Data? then h.got[op.id := h.Got(op.id) + reply.bytes] else h.got)
  }

  /** A whole run on an empty buffer, with any compaction limits. */
  ghost function Run(t: nat, a: nat, ops: seq<Op>): History {
    if ops == [] then History(Fresh(t, a), [], map[], map[])
    else Record(Run(t, a, ops[..|ops| - 1]), ops[|ops| - 1])
  }

  // ---------------------------------------------------------------- the invariant

  /** The retained bytes are the tail of the stream, numbered as in the stream. */
  ghost predicate CacheIsTail(h: History) {
    && h.buf.Valid()
    && h.buf.Len() == |h.stream|
    && h.buf.master == h.stream[h.buf.base..]
  }

  ghost predicate ReaderInOrder(h: History, id: int) {
    if id !in h.joined then h.Got(id) == [] && id !in h.buf.readers
    else
      var start := h.joined[id];
      && 0 <= id < h.buf.nextID
      && 0 <= start && start + |h.Got(id)| <= |h.stream|
      && h.Got(id) == h.stream[start..start + |h.Got(id)|]
      && (id in h.buf.readers ==> h.buf.Cursor(id) == start + |h.Got(id)|)
  }

  ghost predicate Inv(h: History) {
    CacheIsTail(h) && forall id: int :: ReaderInOrder(h, id)
  }

  lemma CacheStep(h: History, op: Op)
    requires CacheIsTail(h)
    ensures CacheIsTail(Record(h, op))
  {
    StepKeepsValid(h.buf, op);
    if op.Write? && op.data != [] && !h.buf.closed {
      AppendMirrors(h.buf, h.stream + op.data, op.data);
    }
  }

  /** A read that returns data continues exactly where the reader's previous read stopped. */
  lemma ReadContinues(h: History, op: Op)
    requires Inv(h) && op.Read? && Step(h.buf, op).1.Data?
    ensures ReaderInOrder(Record(h, op), op.id)
  {
    assert ReaderInOrder(h, op.id);
    var start, at := h.joined[op.id], h.buf.Cursor(op.id);
    var unread := h.buf.master[h.buf.readers[op.id]..];
    var n := DrainLength(unread, op.maxBytes, op.maxLines);
    assert unread == h.stream[at..];
    assert unread[..n] == h.stream[at..at + n];
    assert h.stream[start..at] + h.stream[at..at + n] == h.stream[start..at + n];
  }

  /** A longer stream and an unmoved cursor leave a reader's record in order. */
  lemma GrowthKeepsReader(h: History, c: History, id: int)
    requires ReaderInOrder(h, id)
    requires h.stream <= c.stream && c.joined == h.joined && c.got == h.got
    requires c.buf.nextID == h.buf.nextID && c.buf.readers.Keys == h.buf.readers.Keys
    requires c.buf.Cursor(id) == h.buf.Cursor(id)
    ensures ReaderInOrder(c, id)
  {
    assert c.Got(id) == h.Got(id);
    assert id in c.buf.readers <==> id in h.buf.readers;
    if id in h.joined {
      var i := h.joined[id];
      var j := i + |h.Got(id)|;
      assert c.stream[i..j] == h.stream[i..j];
    }
  }

  lemma WriteKeepsReader(h: History, data: seq<byte>, id: int)
    requires Inv(h) && data != [] && !h.buf.closed
    ensures ReaderInOrder(Record(h, Write(data)), id)
  {
    var grown, c := h.buf.(master := h.buf.master + data), Record(h, Write(data));
    assert c == History(Compacted(grown), h.stream + data, h.joined, h.got);
    CompactionMovesNothing(grown);
    assert Compacted(grown).Cursor(id) == grown.Cursor(id);
    GrowthKeepsReader(h, c, id);
  }

  lemma RegistrationKeepsReader(h: History, op: Op, id: int)
    requires Inv(h) && Step(h.buf, op).1.Id?
    ensures ReaderInOrder(Record(h, op), id)
  {
    assert ReaderInOrder(h, id);
    if op.NewReaderSeededFrom? {
      assert ReaderInOrder(h, op.src);
    }
  }

  lemma ReaderStep(h: History, op: Op, id: int)
    requires Inv(h)
    ensures ReaderInOrder(Record(h, op), id)
  {
    assert ReaderInOrder(h, id);
    if op.Write? && op.data != [] && !h.buf.closed {
      WriteKeepsReader(h, op.data, id);
    } else if Step(h.buf, op).1.Id? {
      RegistrationKeepsReader(h, op, id);
    } else if op.Read? && op.id == id && Step(h.buf, op).1.Data? {
      ReadContinues(h, op);
    } else {
      OtherStep(h, op, id);
    }
  }

  /** Nothing else touches what `id` has been handed or where it stands. */
  lemma OtherStep(h: History, op: Op, id: int)
    requires ReaderInOrder(h, id)
    requires !(op.Write? && op.data != [] && !h.buf.closed) && !Step(h.buf, op).1.Id?
    requires !(op.Read? && op.id == id && Step(h.buf, op).1.Data?)
    ensures ReaderInOrder(Record(h, op), id)
  {
    var c := Record(h, op);
    assert c.stream == h.stream && c.joined == h.joined && c.Got(id) == h.Got(id);
    assert c.buf.base == h.buf.base && c.buf.nextID == h.buf.nextID;
    assert id in c.buf.readers ==> id in h.buf.readers && c.buf.readers[id] == h.buf.readers[id];
  }

  lemma {:induction false} RunKeepsInv(t: nat, a: nat, ops: seq<Op>)
    ensures Inv(Run(t, a, ops))
  {
    if ops != [] {
      var h, op := Run(t, a, ops[..|ops| - 1]), ops[|ops| - 1];
      RunKeepsInv(t, a, ops[..|ops| - 1]);
      CacheStep(h, op);
      forall id: int ensures ReaderInOrder(Record(h, op), id) {
        ReaderStep(h, op, id);
      }
    }
  }

  // ---------------------------------------------------------------- main results

  /**
   Exactly once and in order: what a registered reader has been handed is the stream from
   where it joined to where its cursor stands, and every byte it still needs is retained.
   */
  lemma ReaderGetsEveryByteOnce(t: nat, a: nat, ops: seq<Op>, id: int)
    requires id in Run(t, a, ops).buf.readers
    ensures var h := Run(t, a, ops); var at := h.buf.Cursor(id);
            && id in h.joined
            && 0 <= h.joined[id] <= at <= |h.stream|
            && h.Got(id) == h.stream[h.joined[id]..at]
            && h.buf.base <= at
            && |h.buf.master| >= at - h.buf.base
            && h.buf.master[at - h.buf.base..] == h.stream[at..]
  {
    RunKeepsInv(t, a, ops);
    assert ReaderInOrder(Run(t, a, ops), id);
  }

  /** A reader that left was handed one contiguous piece of the stream, with no gap and no repeat. */
  lemma DepartedReaderSawOnePiece(t: nat, a: nat, ops: seq<Op>, id: int)
    requires id in Run(t, a, ops).joined
    ensures var h := Run(t, a, ops); var start := h.joined[id];
            0 <= start && start + |h.Got(id)| <= |h.stream| && h.Got(id) == h.stream[start..start + |h.Got(id)|]
  {
    RunKeepsInv(t, a, ops);
    assert ReaderInOrder(Run(t, a, ops), id);
  }

  /** Every registration mints a new id and starts the reader where its kind says. */
  lemma ReadersStartWhereTheyShould(t: nat, a: nat, ops: seq<Op>, op: Op)
    requires Step(Run(t, a, ops).buf, op).1.Id?
    ensures var h, id := Run(t, a, ops), Step(Run(t, a, ops).buf, op).1.id;
            && id !in h.joined && h.Got(id) == []
            && match op {
                 case NewReader => Record(h, op).joined[id] == |h.stream|
                 case NewReaderFromStart => Record(h, op).joined[id] == h.buf.base
                 case NewReaderSeededFrom(src) => src in h.buf.readers && Record(h, op).joined[id] == h.buf.Cursor(src)
                 case _ => false
               }
  {
    RunKeepsInv(t, a, ops);
    assert ReaderInOrder(Run(t, a, ops), Run(t, a, ops).buf.nextID);
  }

  /** End of stream is reported only after the reader has everything, and then nothing ever follows. */
  lemma EofMeansEverythingDelivered(t: nat, a: nat, ops: seq<Op>, op: Op, more: seq<Op>)
    requires op.Read? && Step(Run(t, a, ops).buf, op).1 == EOF
    ensures var h := Run(t, a, ops);
            && op.id in h.joined
            && 0 <= h.joined[op.id] <= |h.stream|
            && h.Got(op.id) == h.stream[h.joined[op.id]..]
            && Run(t, a, ops + more).stream == h.stream
  {
    ReaderGetsEveryByteOnce(t, a, ops, op.id);
    ClosedStreamIsFinal(t, a, ops, more);
  }

  lemma {:induction false} ClosedStreamIsFinal(t: nat, a: nat, ops: seq<Op>, more: seq<Op>)
    requires Run(t, a, ops).buf.closed
    ensures Run(t, a, ops + more).buf.closed && Run(t, a, ops + more).stream == Run(t, a, ops).stream
    decreases |more|
  {
    if more == [] {
      assert ops + more == ops;
    } else {
      var init := more[..|more| - 1];
      ClosedStreamIsFinal(t, a, ops, init);
      assert (ops + more)[..|ops + more| - 1] == ops + init;
    }
  }

  // ---------------------------------------------------------------- what callers are told

  /** The buffer is closed exactly when the run contains a close. */
  lemma {:induction false} ClosedIffCloseRan(t: nat, a: nat, ops: seq<Op>)
    ensures Run(t, a, ops).buf.closed <==> Close in ops
  {
    if ops != [] {
      var init := ops[..|ops| - 1];
      ClosedIffCloseRan(t, a, init);
      assert ops == init + [ops[|ops| - 1]];
      ClosedByClose(Run(t, a, init), ops[|ops| - 1]);
    }
  }

  lemma ClosedByClose(h: History, op: Op)
    ensures Record(h, op).buf.closed <==> h.buf.closed || op == Close
  {
  }

  predicate Registers(op: Op) { op.NewReader? || op.NewReaderFromStart? || op.NewReaderSeededFrom? }

  /**
   A write or a registration is refused exactly when the run contains a close, and a refused
   one changes nothing; an accepted write extends the stream by exactly its bytes, and a reader
   can always be seeded from a registered one.
   */
  lemma WritesAndRegistrationsAreAnswered(t: nat, a: nat, ops: seq<Op>, op: Op)
    requires op.Write? || Registers(op)
    ensures var h, n, reply := Run(t, a, ops), Record(Run(t, a, ops), op), Step(Run(t, a, ops).buf, op).1;
            && (reply == ErrClosed <==> Close in ops && op != Write([]))
            && (reply == ErrClosed ==> n == h)
            && (op.Write? ==> (reply == Done <==> op.data == [] || Close !in ops))
            && (op.Write? && Close !in ops ==> n.stream == h.stream + op.data)
            && (Registers(op) ==>
                  (reply.Id? <==> Close !in ops && (op.NewReaderSeededFrom? ==> op.src in h.buf.readers)))
  {
    ClosedIffCloseRan(t, a, ops);
    var h := Run(t, a, ops);
    if op == Write([]) {
      assert h.stream + [] == h.stream;
    }
  }

  /** Who is registered: a registration adds its new id, leaving takes one away, nothing else does either. */
  lemma RegisteredReaders(t: nat, a: nat, ops: seq<Op>, op: Op)
    ensures var h, n, reply := Run(t, a, ops), Record(Run(t, a, ops), op), Step(Run(t, a, ops).buf, op).1;
            n.buf.readers.Keys ==
            if reply.Id? then h.buf.readers.Keys + {reply.id}
            else if op.Unregister? then h.buf.readers.Keys - {op.id}
            else h.buf.readers.Keys
  {
    var h := Run(t, a, ops);
    RunKeepsInv(t, a, ops);
    if op.Write? && op.data != [] && !h.buf.closed {
      var grown := h.buf.(master := h.buf.master + op.data);
      assert grown.Valid();
      CompactionMovesNothing(grown);
    }
  }

  /**
   What a read is answered, in terms of the run alone: end of stream exactly for a reader that
   has everything after a close, nothing yet exactly for one that has everything before it, and
   otherwise the next bytes of the stream, as many as the two limits allow.
   */
  lemma ReadsAreAnswered(t: nat, a: nat, ops: seq<Op>, id: int, maxBytes: int, maxLines: int)
    ensures var h, op := Run(t, a, ops), Read(id, maxBytes, maxLines);
            var reply, at := Step(h.buf, op).1, h.buf.Cursor(id);
            && (reply == ErrReader <==> id !in h.buf.readers)
            && (at == -1 <==> id !in h.buf.readers)
            && (reply == EOF <==> id in h.buf.readers && Close in ops && at == |h.stream|)
            && (reply == Nothing <==> id in h.buf.readers && Close !in ops && at == |h.stream|)
            && (reply.Data? <==> id in h.buf.readers && at < |h.stream|)
            && (reply.Data? ==>
                  && 0 <= at <= at + |reply.bytes| <= |h.stream|
                  && reply.bytes == h.stream[at..at + |reply.bytes|]
                  && IsDrain(h.stream[at..], maxBytes, maxLines, |reply.bytes|)
                  && Record(h, op).buf.Cursor(id) == at + |reply.bytes|)
  {
    ClosedIffCloseRan(t, a, ops);
    RunKeepsInv(t, a, ops);
    var h := Run(t, a, ops);
    if id in h.buf.readers && h.buf.readers[id] < |h.buf.master| {
      ReadIsDrained(h.buf, h.stream, id, maxBytes, maxLines);
    }
  }

  lemma ReadIsDrained(b: Buf, stream: seq<byte>, id: int, maxBytes: int, maxLines: int)
    requires b.Len() == |stream| && b.master == stream[b.base..] && id in b.readers && b.readers[id] < |b.master|
    ensures var (n, reply) := Step(b, Read(id, maxBytes, maxLines));
            var at := b.Cursor(id);
            && reply.Data? && at + |reply.bytes| <= |stream| && reply.bytes == stream[at..at + |reply.bytes|]
            && IsDrain(stream[at..], maxBytes, maxLines, |reply.bytes|)
            && n.Cursor(id) == at + |reply.bytes|
  {
    assert b.master[b.readers[id]..] == stream[b.Cursor(id)..];
    DrainMeetsLimits(stream[b.Cursor(id)..], maxBytes, maxLines);
  }

  /** A history that goes on from any point. */
  ghost function RecordAll(h: History, ops: seq<Op>): History
    decreases |ops|
  {
    if ops == [] then h else RecordAll(Record(h, ops[0]), ops[1..])
  }

  lemma {:induction false} RecordAllKeepsCache(h: History, ops: seq<Op>)
    requires CacheIsTail(h)
    ensures CacheIsTail(RecordAll(h, ops)) && h.stream <= RecordAll(h, ops).stream
    decreases |ops|
  {
    if ops != [] {
      CacheStep(h, ops[0]);
      RecordAllKeepsCache(Record(h, ops[0]), ops[1..]);
    }
  }

  // ---------------------------------------------------------------- live cache against the log

  /** A positional read of the durable log (OutputByteRange over ReadLog). */
  function LogRange(log: seq<byte>, start: int, max: int): seq<byte> {
    var from := Max(start, 0);
    if from >= |log| || max <= 0 then []
    else if from + max > |log| then log[from..] else log[from..from + max]
  }

  /** When the live read and the persisted read agree; checkable from the buffer's public numbers. */
  predicate RangeIsServable(base: nat, total: nat, start: int, max: int) {
    max <= 0 || base == 0 || Max(start, base) + max <= total || start - base >= total
  }

  /**
   After any history the live read of a range returns what the log holds there if and only
   if the range is servable. A start below the retained bytes is clamped forward to them.
   */
  lemma LiveReadAgreesWithLog(t: nat, a: nat, ops: seq<Op>, start: int, max: int)
    ensures var h := Run(t, a, ops);
            RangeIsServable(h.buf.base, h.buf.Len(), start, max) <==>
            ByteRange(h.buf, start, max) == Bytes(LogRange(h.stream, Max(start, h.buf.base), max), |h.stream|)
  {
    RunKeepsInv(t, a, ops);
    LiveReadOfTail(Run(t, a, ops).buf, Run(t, a, ops).stream, start, max);
  }

  lemma LiveReadOfTail(b: Buf, log: seq<byte>, start: int, max: int)
    requires b.Len() == |log| && b.master == log[b.base..]
    ensures RangeIsServable(b.base, b.Len(), start, max) <==>
            ByteRange(b, start, max) == Bytes(LogRange(log, Max(start, b.base), max), |log|)
  {
    var at := Max(start, b.base);
    var rel := at - b.base;
    assert rel == Max(Max(start, 0) - b.base, 0);
    if max > 0 && rel < b.Len() {
      if rel + max > b.Len() {
        assert b.base == 0 ==> b.master == log && rel == at;
      } else if rel + max <= |b.master| {
        assert b.master[rel..rel + max] == log[at..at + max];
      }
    }
  }

  /**
   Such ranges are reachable from every history that leaves the buffer open without readers:
   once a large write has been compacted away, the page-sized read of the last byte slices
   past the retained bytes while the log still serves it.
   */
  lemma CompactedLastPageOverruns(h: History, data: seq<byte>, more: seq<byte>)
    requires CacheIsTail(h) && !h.buf.closed && h.buf.readers == map[]
    requires |data| > h.buf.threshold && |data| >= h.buf.minAdvance > 0 && more != []
    ensures var n := Record(Record(Record(h, Write(data)), NewReader), Write(more));
            && n.stream == h.stream + data + more
            && n.buf.master == more && n.buf.base > 0
            && ByteRange(n.buf, |n.stream| - 1, 2) == Overrun(|n.stream|)
            && LogRange(n.stream, |n.stream| - 1, 2) == [more[|more| - 1]]
  {
    WriteIsDropped(h.buf, data);
    var c := Record(h, Write(data)).buf;
    var b := Register(c, |c.master|).0;
    assert Record(Record(h, Write(data)), NewReader).buf == b;
    WriteIsKept(b, c.nextID, more);
    LastPage(b.(master := more), h.stream + data + more);
  }

  lemma WriteIsDropped(b: Buf, data: seq<byte>)
    requires b.readers == map[] && |data| > b.threshold && |data| >= b.minAdvance
    ensures var c := Compacted(b.(master := b.master + data));
            c == b.(master := [], base := b.Len() + |data|, readers := c.readers)
  {
  }

  lemma WriteIsKept(b: Buf, id: int, data: seq<byte>)
    requires b.master == [] && id in b.readers && b.readers[id] == 0 && b.minAdvance > 0
    ensures Compacted(b.(master := b.master + data)) == b.(master := data)
  {
    assert b.master + data == data;
    assert MinPos(b.readers, |data|) == 0;
  }

  lemma LastPage(b: Buf, stream: seq<byte>)
    requires b.base > 0 && b.master != [] && b.Len() == |stream| && b.master == stream[b.base..]
    ensures ByteRange(b, |stream| - 1, 2) == Overrun(|stream|)
    ensures LogRange(stream, |stream| - 1, 2) == [b.master[|b.master| - 1]]
  {
  }
}
