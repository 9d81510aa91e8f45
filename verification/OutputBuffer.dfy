/**
 The in-memory multi-reader output buffer (internal/buffer/buffer.go).

 `Buf` is the value a `Buffer` object holds between two lock holds. Each operation
 is a function on `Buf`, the class below performs it in place, and the lemmas speak
 of every run of operations.
 */
module OutputBuffer {
  import opened Basics
  import opened Lines

  // ---------------------------------------------------------------- state

  /** `readers` maps a reader id to its position relative to master[0]. */
  datatype Buf = Buf(
    master: seq<byte>,
    base: nat,
    readers: map<int, nat>,
    nextID: nat,
    closed: bool,
    threshold: nat,
    minAdvance: nat)
  {
    /** The absolute length of everything ever written. */
    function Len(): nat { base + |master| }

    ghost predicate Valid() {
      forall id :: id in readers ==> 0 <= id < nextID && readers[id] <= |master|
    }

    /** The absolute stream position of a reader, -1 when it is unknown. */
    function Cursor(id: int): int {
      if id in readers then base + readers[id] else -1
    }
  }

  const COMPACT_THRESHOLD: nat := 8 * 1024 * 1024
  const COMPACT_MIN_ADVANCE: nat := 1024 * 1024

  function Fresh(threshold: nat, minAdvance: nat): Buf {
    Buf([], 0, map[], 0, false, threshold, minAdvance)
  }

  // ---------------------------------------------------------------- compaction

  /** `m` is the least of `len` and every reader position. */
  ghost predicate IsMinPos(readers: map<int, nat>, len: nat, m: nat) {
    && m <= len
    && (forall id :: id in readers ==> m <= readers[id])
    && (m == len || exists id :: id in readers && m == readers[id])
  }

  lemma MinPosExists(readers: map<int, nat>, len: nat)
    ensures exists m: nat :: IsMinPos(readers, len, m)
    decreases |readers|
  {
    if forall id :: id !in readers {
      assert IsMinPos(readers, len, len);
    } else {
      var id :| id in readers;
      var rest := readers - {id};
      assert rest.Keys == readers.Keys - {id};
      MinPosExists(rest, len);
      var m: nat :| IsMinPos(rest, len, m);
      var least := if readers[id] < m then readers[id] else m;
      forall k | k in readers ensures least <= readers[k] {
        assert k == id || k in rest;
      }
      assert IsMinPos(readers, len, least);
    }
  }

  ghost function MinPos(readers: map<int, nat>, len: nat): (m: nat)
    ensures IsMinPos(readers, len, m)
  {
    MinPosExists(readers, len);
    var m: nat :| IsMinPos(readers, len, m);
    m
  }

  /**
   Every position moved back by `m`. A recursion rather than a map comprehension: Dafny 4.11 lets
   a comprehension over a map's own values contradict the equality of empty maps.
   */
  ghost function Shifted(readers: map<int, nat>, m: nat): (r: map<int, nat>)
    requires forall id :: id in readers ==> m <= readers[id]
    ensures r.Keys == readers.Keys
    ensures forall id :: id in readers ==> r[id] == readers[id] - m
    decreases |readers|
  {
    if readers.Keys == {} then map[]
    else
      var id := Any(readers.Keys);
      Shifted(readers - {id}, m)[id := readers[id] - m]
  }

  /** Drops the prefix every reader has passed, when the buffer is large enough to care. */
  ghost function Compacted(b: Buf): Buf {
    if |b.master| <= b.threshold then b
    else
      var m := MinPos(b.readers, |b.master|);
      if m < b.minAdvance then b
      else b.(master := b.master[m..],
              base := b.base + m,
              readers := Shifted(b.readers, m))
  }

  /**
   Compaction moves nothing: the absolute length, every cursor and the absolute
   offset of every retained byte stay the same, and no unread byte is dropped.
   */
  lemma CompactionMovesNothing(b: Buf)
    requires b.Valid()
    ensures var c := Compacted(b);
            && c.Valid()
            && c.Len() == b.Len()
            && c.readers.Keys == b.readers.Keys
            && (forall id: int :: c.Cursor(id) == b.Cursor(id))
            && b.base <= c.base
            && c.master == b.master[c.base - b.base..]
            && (forall id :: id in b.readers ==> c.base <= b.Cursor(id))
            && c == b.(master := c.master, base := c.base, readers := c.readers)
            && (c != b ==> |b.master| > b.threshold && c.base - b.base >= b.minAdvance)
  {
    var c := Compacted(b);
    assert c.readers.Keys == b.readers.Keys;
  }

  /** The bytes no reader needs any more are worth dropping. */
  ghost predicate WorthCompacting(b: Buf) {
    && |b.master| > b.threshold && |b.master| >= b.minAdvance
    && forall id :: id in b.readers ==> b.readers[id] >= b.minAdvance
  }

  /**
   Compaction happens exactly when it is worth it, and then it keeps nothing that everyone
   has read: the first retained byte is the next one of some reader, or nothing is retained.
   */
  lemma CompactionIsExact(b: Buf)
    ensures !WorthCompacting(b) ==> Compacted(b) == b
    ensures WorthCompacting(b) ==>
              var c := Compacted(b);
              c.master == [] || exists id :: id in b.readers && b.Cursor(id) == c.base
    ensures Compacted(b).base == b.base + (|b.master| - |Compacted(b).master|)
  {
  }

  /** A buffer that mirrors the bytes of `log` up to its length still does so after taking the next ones. */
  lemma AppendMirrors(b: Buf, log: seq<byte>, data: seq<byte>)
    requires b.Valid() && b.Len() + |data| <= |log|
    requires b.master == log[b.base..b.Len()] && data == log[b.Len()..b.Len() + |data|]
    ensures var c := Compacted(b.(master := b.master + data));
            && c.Valid() && c.Len() == b.Len() + |data| && c.master == log[c.base..c.Len()]
            && c.nextID == b.nextID && c.closed == b.closed
  {
    var grown := b.(master := b.master + data);
    var c := Compacted(grown);
    assert grown.Valid();
    CompactionMovesNothing(grown);
    assert grown.master == log[b.base..grown.Len()];
    assert c.master == log[c.base..c.Len()];
  }

  // ---------------------------------------------------------------- operations

  datatype Reply = Id(id: int) | Done | Data(bytes: seq<byte>) | Nothing | EOF | ErrClosed | ErrReader

  datatype Op =
    | NewReader
    | NewReaderFromStart
    | NewReaderSeededFrom(src: int)
    | Unregister(id: int)
    | Write(data: seq<byte>)
    | Read(id: int, maxBytes: int, maxLines: int)
    | Close

  function Register(b: Buf, pos: nat): (Buf, Reply) {
    (b.(readers := b.readers[b.nextID := pos], nextID := b.nextID + 1), Id(b.nextID))
  }

  /**
   How far a read may go. `n` bytes of `unread` are handed out: at most `maxBytes`
   when that is positive, nothing past the `maxLines`-th newline when that is positive,
   and as many bytes as those two limits allow.
   */
  ghost predicate IsDrain(unread: seq<byte>, maxBytes: int, maxLines: int, n: nat) {
    && n <= |unread|
    && (maxBytes > 0 ==> n <= maxBytes)
    && (maxLines > 0 && n > 0 ==> Newlines(unread[..n - 1]) < maxLines)
    && (|| n == |unread|
        || (maxBytes > 0 && n == maxBytes)
        || (maxLines > 0 && n > 0 && unread[n - 1] == NL && Newlines(unread[..n]) == maxLines))
  }

  /** The bytes a read returns, computed newline by newline. */
  function DrainEnd(unread: seq<byte>, limit: nat, maxLines: int, i: nat, lines: nat): (n: nat)
    requires i <= limit <= |unread|
    ensures i <= n <= limit
    decreases limit - i
  {
    if i == limit then limit
    else if unread[i] == NL && lines + 1 >= maxLines then i + 1
    else DrainEnd(unread, limit, maxLines, i + 1, lines + if unread[i] == NL then 1 else 0)
  }

  function DrainLength(unread: seq<byte>, maxBytes: int, maxLines: int): (n: nat)
    ensures n <= |unread|
  {
    var limit := if 0 < maxBytes < |unread| then maxBytes else |unread|;
    if maxLines > 0 then DrainEnd(unread, limit, maxLines, 0, 0) else limit
  }

  lemma {:induction false} DrainEndLines(unread: seq<byte>, limit: nat, maxLines: int, i: nat, lines: nat)
    requires i <= limit <= |unread| && maxLines > 0
    requires lines == Newlines(unread[..i]) && lines < maxLines
    ensures var n := DrainEnd(unread, limit, maxLines, i, lines);
            && (n > i ==> Newlines(unread[..n - 1]) < maxLines)
            && (n == limit || (n > i && unread[n - 1] == NL && Newlines(unread[..n]) == maxLines))
    decreases limit - i
  {
    if i < limit {
      assert unread[..i + 1] == unread[..i] + [unread[i]];
      NewlinesAppend(unread[..i], unread[i]);
      if !(unread[i] == NL && lines + 1 >= maxLines) {
        DrainEndLines(unread, limit, maxLines, i + 1, lines + if unread[i] == NL then 1 else 0);
      }
    }
  }

  /** A read hands out exactly what its two limits allow, and something whenever there is something. */
  lemma DrainMeetsLimits(unread: seq<byte>, maxBytes: int, maxLines: int)
    ensures IsDrain(unread, maxBytes, maxLines, DrainLength(unread, maxBytes, maxLines))
    ensures unread != [] ==> DrainLength(unread, maxBytes, maxLines) > 0
  {
    var limit := if 0 < maxBytes < |unread| then maxBytes else |unread|;
    if maxLines > 0 {
      assert unread[..0] == [];
      DrainEndLines(unread, limit, maxLines, 0, 0);
    }
  }

  /** Those limits leave no freedom: two lengths that both meet them are equal. */
  lemma DrainIsUnique(unread: seq<byte>, maxBytes: int, maxLines: int, m: nat, n: nat)
    requires IsDrain(unread, maxBytes, maxLines, m) && IsDrain(unread, maxBytes, maxLines, n)
    ensures m == n
  {
    DrainNotLonger(unread, maxBytes, maxLines, m, n);
    DrainNotLonger(unread, maxBytes, maxLines, n, m);
  }

  lemma DrainNotLonger(unread: seq<byte>, maxBytes: int, maxLines: int, m: nat, n: nat)
    requires IsDrain(unread, maxBytes, maxLines, m) && IsDrain(unread, maxBytes, maxLines, n)
    ensures n <= m
  {
    if m < n {
      // `m` stopped at its last permitted newline, which lies before the end of the longer `n`
      assert unread[..n - 1][..m] == unread[..m];
      NewlinesSplit(unread[..n - 1], m);
    }
  }

  /** One lock hold: the new contents and what the caller is told. */
  ghost function Step(b: Buf, op: Op): (Buf, Reply) {
    match op
    case NewReader => if b.closed then (b, ErrClosed) else Register(b, |b.master|)
    case NewReaderFromStart => if b.closed then (b, ErrClosed) else Register(b, 0)
    case NewReaderSeededFrom(src) =>
      if b.closed then (b, ErrClosed)
      else if src !in b.readers then (b, ErrReader)
      else Register(b, b.readers[src])
    case Unregister(id) => (b.(readers := b.readers - {id}), Done)
    case Write(data) =>
      if data == [] then (b, Done)
      else if b.closed then (b, ErrClosed)
      else (Compacted(b.(master := b.master + data)), Done)
    case Read(id, maxBytes, maxLines) =>
      if id !in b.readers then (b, ErrReader)
      else if b.readers[id] >= |b.master| then (b, if b.closed then EOF else Nothing)
      else
        var unread := b.master[b.readers[id]..];
        var n := DrainLength(unread, maxBytes, maxLines);
        (b.(readers := b.readers[id := b.readers[id] + n]), Data(unread[..n]))
    case Close => (b.(closed := true), Done)
  }

  lemma StepKeepsValid(b: Buf, op: Op)
    requires b.Valid()
    ensures Step(b, op).0.Valid()
  {
    if op.Write? && op.data != [] && !b.closed {
      CompactionMovesNothing(b.(master := b.master + op.data));
    }
  }

  // ---------------------------------------------------------------- positional reads

  /** `Overrun` stands for a slice taken past the end of the retained bytes. */
  datatype RangeRead = Bytes(data: seq<byte>, total: nat) | Overrun(total: nat)

  function Max(a: int, b: int): int { if a < b then b else a }

  /** The live positional read, with its clamp of a relative start against the absolute total. */
  function ByteRange(b: Buf, start: int, max: int): RangeRead {
    var total := b.Len();
    var rel := Max(Max(start, 0) - b.base, 0);
    if rel >= total || max <= 0 then Bytes([], total)
    else
      var n := if rel + max > total then total - rel else max;
      if rel + n <= |b.master| then Bytes(b.master[rel..rel + n], total) else Overrun(total)
  }

  // ---------------------------------------------------------------- the object

  class Buffer {
    var master: seq<byte>
    var base: nat
    var readers: map<int, nat>
    var nextID: nat
    var closed: bool
    const threshold: nat
    const minAdvance: nat

    ghost function View(): Buf
      reads this
    {
      Buf(master, base, readers, nextID, closed, threshold, minAdvance)
    }

    constructor ()
      ensures View() == Buf([], 0, map[], 0, false, 8 * 1024 * 1024, 1024 * 1024)
    {
      master, base, readers, nextID, closed := [], 0, map[], 0, false;
      threshold, minAdvance := COMPACT_THRESHOLD, COMPACT_MIN_ADVANCE;
    }

    method AddReader() returns (reply: Reply)
      modifies this
      ensures (View(), reply) == Step(old(View()), NewReader)
    {
      if closed {
        return ErrClosed;
      }
      readers := readers[nextID := |master|];
      reply := Id(nextID);
      nextID := nextID + 1;
    }

    method AddReaderFromStart() returns (reply: Reply)
      modifies this
      ensures (View(), reply) == Step(old(View()), NewReaderFromStart)
    {
      if closed {
        return ErrClosed;
      }
      readers := readers[nextID := 0];
      reply := Id(nextID);
      nextID := nextID + 1;
    }

    method AddReaderSeededFrom(src: int) returns (reply: Reply)
      modifies this
      ensures (View(), reply) == Step(old(View()), NewReaderSeededFrom(src))
    {
      if closed {
        return ErrClosed;
      }
      if src !in readers {
        return ErrReader;
      }
      readers := readers[nextID := readers[src]];
      reply := Id(nextID);
      nextID := nextID + 1;
    }

    method RemoveReader(id: int)
      modifies this
      ensures View() == Step(old(View()), Unregister(id)).0
    {
      readers := readers - {id};
    }

    method Append(data: seq<byte>) returns (reply: Reply)
      modifies this
      ensures (View(), reply) == Step(old(View()), Write(data))
    {
      if data == [] {
        return Done;
      }
      if closed {
        return ErrClosed;
      }
      master := master + data;
      MaybeCompact();
      reply := Done;
    }

    /** The least position any reader still needs, found by scanning the readers in any order. */
    method LeastPosition() returns (m: nat)
      ensures IsMinPos(readers, |master|, m)
    {
      m := |master|;
      var todo := readers.Keys;
      while todo != {}
        invariant todo <= readers.Keys
        invariant m <= |master|
        invariant forall id :: id in readers && id !in todo ==> m <= readers[id]
        invariant m == |master| || exists id :: id in readers && m == readers[id]
      {
        var id := Pick(todo);
        if readers[id] < m {
          m := readers[id];
        }
        todo := todo - {id};
      }
    }

    method MaybeCompact()
      modifies this
      ensures View() == Compacted(old(View()))
    {
      if |master| <= threshold {
        return;
      }
      var minPos := LeastPosition();
      assert minPos == MinPos(readers, |master|);
      if minPos < minAdvance {
        return;
      }
      master := master[minPos..];
      base := base + minPos;
      var shifted: map<int, nat> := map[];
      var todo := readers.Keys;
      while todo != {}
        invariant todo <= readers.Keys
        invariant shifted.Keys == readers.Keys - todo
        invariant forall id :: id in shifted ==> shifted[id] == readers[id] - minPos
        invariant readers == old(readers) && master == old(master)[minPos..] && base == old(base) + minPos
        invariant closed == old(closed) && nextID == old(nextID)
      {
        var id := Pick(todo);
        shifted := shifted[id := readers[id] - minPos];
        todo := todo - {id};
      }
      ghost var target := Compacted(old(View())).readers;
      assert shifted.Keys == target.Keys;
      assert forall id :: id in target ==> target[id] == shifted[id];
      assert shifted == target;
      readers := shifted;
    }

    /** One attempt of a read: the first try, or what a woken waiter does. */
    method TryRead(id: int, maxBytes: int, maxLines: int) returns (reply: Reply)
      requires View().Valid()
      modifies this
      ensures (View(), reply) == Step(old(View()), Read(id, maxBytes, maxLines))
    {
      if id !in readers {
        return ErrReader;
      }
      var pos := readers[id];
      if pos >= |master| {
        return if closed then EOF else Nothing;
      }
      var end := |master|;
      if maxBytes > 0 && pos + maxBytes < end {
        end := pos + maxBytes;
      }
      ghost var unread := master[pos..];
      ghost var limit := end - pos;
      assert limit == if 0 < maxBytes < |unread| then maxBytes else |unread|;
      if maxLines > 0 {
        var lines, i := 0, pos;
        while i < end
          invariant pos <= i <= end <= |master|
          invariant limit <= |unread|
          invariant i - pos <= limit
          invariant DrainEnd(unread, limit, maxLines, 0, 0) ==
                    if end == pos + limit then DrainEnd(unread, limit, maxLines, i - pos, lines) else end - pos
          invariant end == pos + limit || i == end
          decreases end - i
        {
          if master[i] == NL {
            lines := lines + 1;
            if lines >= maxLines {
              end := i + 1;
              i := end;
              break;
            }
          }
          i := i + 1;
        }
      }
      reply := Data(master[pos..end]);
      readers := readers[id := end];
      assert unread[..end - pos] == old(master)[pos..end];
    }

    /** First lock hold of WriteAt: does the buffer count the same bytes as the caller? */
    method OffsetMatches(offset: nat) returns (ok: bool)
      ensures ok == (View().Len() == offset)
    {
      ok := base + |master| == offset;
    }

    method ReadRange(start: int, max: int) returns (r: RangeRead)
      ensures r == ByteRange(View(), start, max)
    {
      var total := base + |master|;
      var from := if start < 0 then 0 else start;
      from := from - base;
      if from < 0 {
        from := 0;
      }
      if from >= total || max <= 0 {
        return Bytes([], total);
      }
      var n := max;
      if from + n > total {
        n := total - from;
      }
      if from + n > |master| {
        return Overrun(total);
      }
      r := Bytes(master[from..from + n], total);
    }

    method Seal()
      modifies this
      ensures View() == Step(old(View()), Close).0
    {
      closed := true;
    }
  }
}
