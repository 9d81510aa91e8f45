/**
 The in-memory connection between the embedded SSH server and its client
 (duplexConn in internal/sshserver/server.go), one direction of it: any number of writers
 and one closer on the sending end, one reader on the other. The lock, the send, the two
 channel closes and the read are separate steps that may interleave in any order.
 */
module DuplexConn {
  import opened Basics
  import opened Lines

  type Bytes = seq<byte>

  const BUF_CAP: nat := 16

  // ---------------------------------------------------------------- the reading end

  datatype Reply = Data(bytes: Bytes) | EOF | ErrClosed | Blocked

  datatype Reading = Reading(reply: Reply, readBuf: Bytes, queue: seq<Bytes>)

  /**
   One read into `size` bytes: leftovers first, then the next chunk. When a chunk (or the end)
   and the reader's own close are both ready, `preferClosed` says which one select picks.
   */
  function ReadFrom(readBuf: Bytes, queue: seq<Bytes>, sealed: bool, closed: bool, size: nat, preferClosed: bool): Reading {
    if readBuf != [] then
      var n := if size < |readBuf| then size else |readBuf|;
      Reading(Data(readBuf[..n]), readBuf[n..], queue)
    else if closed && (preferClosed || (queue == [] && !sealed)) then Reading(ErrClosed, readBuf, queue)
    else if queue == [] then Reading(if sealed then EOF else Blocked, readBuf, queue)
    else
      var n := if size < |queue[0]| then size else |queue[0]|;
      Reading(Data(queue[0][..n]), queue[0][n..], queue[1..])
  }

  function Flatten(chunks: seq<Bytes>): Bytes {
    if chunks == [] then [] else chunks[0] + Flatten(chunks[1..])
  }

  function Got(r: Reply): Bytes { if r.Data? then r.bytes else [] }

  /** A read moves bytes to the reader in order and loses none, whatever its size. */
  lemma ReadTakesTheNextBytes(readBuf: Bytes, queue: seq<Bytes>, sealed: bool, closed: bool, size: nat, preferClosed: bool)
    ensures var r := ReadFrom(readBuf, queue, sealed, closed, size, preferClosed);
            && Got(r.reply) + r.readBuf + Flatten(r.queue) == readBuf + Flatten(queue)
            && |Got(r.reply)| <= size && |r.queue| <= |queue|
            && (r.reply == EOF ==> sealed && readBuf + Flatten(queue) == [])
  {
    if readBuf != [] {
      var n := if size < |readBuf| then size else |readBuf|;
      assert readBuf == readBuf[..n] + readBuf[n..];
    } else if queue != [] {
      var n := if size < |queue[0]| then size else |queue[0]|;
      assert queue[0] == queue[0][..n] + queue[0][n..];
    }
  }

  /** The bytes a read takes from: what is left over, or else the oldest chunk. */
  function NextPiece(readBuf: Bytes, queue: seq<Bytes>): Bytes {
    if readBuf != [] then readBuf else if queue != [] then queue[0] else []
  }

  /**
   How a read is answered. It waits exactly when nothing is left over or queued and neither end
   is closed; it ends exactly on a sealed empty channel, and reports its own close only when
   nothing is left over; otherwise it hands out the beginning of the next piece, as much of it
   as fits.
   */
  lemma ReadIsAnswered(readBuf: Bytes, queue: seq<Bytes>, sealed: bool, closed: bool, size: nat, preferClosed: bool)
    ensures var r, piece := ReadFrom(readBuf, queue, sealed, closed, size, preferClosed), NextPiece(readBuf, queue);
            && (r.reply == Blocked <==> readBuf == [] && queue == [] && !sealed && !closed)
            && (r.reply == EOF <==> readBuf == [] && queue == [] && sealed && !(closed && preferClosed))
            && (r.reply == ErrClosed <==> readBuf == [] && closed && (preferClosed || (queue == [] && !sealed)))
            && (r.reply.Data? ==>
                  && |r.reply.bytes| == (if size < |piece| then size else |piece|)
                  && r.reply.bytes == piece[..|r.reply.bytes|] && r.readBuf == piece[|r.reply.bytes|..]
                  && r.queue == (if readBuf != [] then queue else queue[1..]))
            && (!r.reply.Data? ==> r.readBuf == readBuf && r.queue == queue)
  {
  }

  class Reader {
    var readBuf: Bytes
    var queue: seq<Bytes>
    var sealed: bool
    var closed: bool

    /** Copies into the caller's buffer and keeps what did not fit; `Blocked` means the call is still waiting. */
    method Read(b: array<byte>, preferClosed: bool) returns (n: nat, reply: Reply)
      modifies this`readBuf, this`queue, b
      ensures Reading(reply, readBuf, queue) ==
              ReadFrom(old(readBuf), old(queue), sealed, closed, b.Length, preferClosed)
      ensures n == |Got(reply)| <= b.Length && b[..n] == Got(reply) && b[n..] == old(b[n..])
    {
      if |readBuf| > 0 {
        n := CopyInto(b, readBuf);
        reply := Data(readBuf[..n]);
        readBuf := readBuf[n..];
        return;
      }
      if closed && (preferClosed || (queue == [] && !sealed)) {
        return 0, ErrClosed;
      }
      if queue == [] {
        return 0, if sealed then EOF else Blocked;
      }
      var data := queue[0];
      queue := queue[1..];
      n := CopyInto(b, data);
      reply := Data(data[..n]);
      if n < |data| {
        readBuf := data[n..];
      }
    }
  }

  /** Go's copy: as many bytes as fit. */
  method CopyInto(b: array<byte>, data: Bytes) returns (n: nat)
    modifies b
    ensures n == (if b.Length < |data| then b.Length else |data|)
    ensures b[..n] == data[..n] && b[n..] == old(b[n..])
  {
    n := if b.Length < |data| then b.Length else |data|;
    for i := 0 to n
      invariant b[..i] == data[..i]
      invariant forall j :: i <= j < b.Length ==> b[j] == old(b[j])
    {
      b[i] := data[i];
      assert data[..i + 1] == data[..i] + [data[i]];
    }
  }

  // ---------------------------------------------------------------- the whole direction

  /** A writer has the lock from `Entered` on; `Sending` has seen a channel that is not nil. */
  datatype Writer = Entered(data: Bytes) | Sending(data: Bytes)

  datatype Closing = Open | Signalled | Locked | Shut | Done

  datatype Holder = Nobody | ByWriter(w: Writer) | ByCloser

  /** `sent` and `got` record the bytes of every write that succeeded and of every read. */
  datatype Link = Link(
    queue: seq<Bytes>, sealed: bool, isNil: bool, closing: Closing, lock: Holder,
    readBuf: Bytes, readerClosed: bool, sent: Bytes, got: Bytes, panicked: bool)

  const FRESH: Link := Link([], false, false, Open, Nobody, [], false, [], [], false)

  datatype Event =
    | Enter(data: Bytes)   // a Write call takes the lock
    | Look                 // it reads writeCh, giving up when that is nil
    | Send                 // its send goes through
    | GiveUp               // its select takes closeCh instead
    | Signal               // Close closes closeCh, once
    | CloseLock
    | CloseChannel
    | CloseDone            // writeCh := nil and unlock
    | Read(size: nat, preferClosed: bool)
    | CloseReader

  predicate CanHappen(s: Link, e: Event) {
    match e
    case Enter(_) => s.lock == Nobody
    case Look => s.lock.ByWriter? && s.lock.w.Entered?
    case Send => s.lock.ByWriter? && s.lock.w.Sending? && (s.sealed || |s.queue| < BUF_CAP)
    case GiveUp => s.lock.ByWriter? && s.lock.w.Sending? && s.closing != Open
    case Signal => s.closing == Open
    case CloseLock => s.closing == Signalled && s.lock == Nobody
    case CloseChannel => s.closing == Locked
    case CloseDone => s.closing == Shut
    case Read(_, _) => true
    case CloseReader => true
  }

  function Step(s: Link, e: Event): Link
    requires CanHappen(s, e)
  {
    match e
    case Enter(data) => s.(lock := ByWriter(Entered(data)))
    case Look => s.(lock := if s.isNil then Nobody else ByWriter(Sending(s.lock.w.data)))
    case Send =>
      if s.sealed then s.(panicked := true)
      else s.(queue := s.queue + [s.lock.w.data], sent := s.sent + s.lock.w.data, lock := Nobody)
    case GiveUp => s.(lock := Nobody)
    case Signal => s.(closing := Signalled)
    case CloseLock => s.(closing := Locked, lock := ByCloser)
    case CloseChannel => if s.sealed then s.(panicked := true) else s.(closing := Shut, sealed := true)
    case CloseDone => s.(closing := Done, isNil := true, lock := Nobody)
    case Read(size, preferClosed) =>
      var r := ReadFrom(s.readBuf, s.queue, s.sealed, s.readerClosed, size, preferClosed);
      s.(readBuf := r.readBuf, queue := r.queue, got := s.got + Got(r.reply))
    case CloseReader => s.(readerClosed := true)
  }

  function Next(s: Link, e: Event): Link { if CanHappen(s, e) then Step(s, e) else s }

  function Run(s: Link, es: seq<Event>): Link
    decreases |es|
  {
    if es == [] then s else Run(Next(s, es[0]), es[1..])
  }

  // ---------------------------------------------------------------- what every interleaving keeps

  /** Nothing is lost, repeated or reordered between the writers and the reader. */
  ghost predicate Conserves(s: Link) {
    s.sent == s.got + s.readBuf + Flatten(s.queue)
  }

  /** The channel is closed, and writeCh nil, only from the closer's turn with the lock on. */
  ghost predicate Guarded(s: Link) {
    && (s.sealed <==> s.closing == Shut || s.closing == Done)
    && (s.isNil <==> s.closing == Done)
    && (s.lock == ByCloser <==> s.closing == Locked || s.closing == Shut)
    && (s.lock.ByWriter? && s.lock.w.Sending? ==> !s.sealed)
  }

  ghost predicate Inv(s: Link) {
    Conserves(s) && Guarded(s) && |s.queue| <= BUF_CAP && !s.panicked
  }

  lemma {:induction false} FlattenAppend(chunks: seq<Bytes>, c: Bytes)
    ensures Flatten(chunks + [c]) == Flatten(chunks) + c
  {
    if chunks == [] {
      assert Flatten([c]) == c;
    } else {
      assert (chunks + [c])[1..] == chunks[1..] + [c];
      FlattenAppend(chunks[1..], c);
    }
  }

  lemma ReadConserves(s: Link, size: nat, preferClosed: bool)
    requires Conserves(s)
    ensures Conserves(Step(s, Read(size, preferClosed)))
  {
    var r := ReadFrom(s.readBuf, s.queue, s.sealed, s.readerClosed, size, preferClosed);
    ReadTakesTheNextBytes(s.readBuf, s.queue, s.sealed, s.readerClosed, size, preferClosed);
    calc {
      s.sent;
      s.got + s.readBuf + Flatten(s.queue);
      { Associate(s.got, s.readBuf, Flatten(s.queue)); }
      s.got + (s.readBuf + Flatten(s.queue));
      s.got + (Got(r.reply) + r.readBuf + Flatten(r.queue));
      { Associate(s.got, Got(r.reply) + r.readBuf, Flatten(r.queue)); Associate(s.got, Got(r.reply), r.readBuf); }
      s.got + Got(r.reply) + r.readBuf + Flatten(r.queue);
    }
  }

  lemma SendConserves(s: Link)
    requires Conserves(s) && CanHappen(s, Send) && !s.sealed
    ensures Conserves(Step(s, Send))
  {
    FlattenAppend(s.queue, s.lock.w.data);
    Associate(s.got + s.readBuf, Flatten(s.queue), s.lock.w.data);
  }

  lemma StepStaysGuarded(s: Link, e: Event)
    requires Guarded(s) && !s.panicked && |s.queue| <= BUF_CAP
    ensures Guarded(Next(s, e)) && !Next(s, e).panicked && |Next(s, e).queue| <= BUF_CAP
  {
  }

  lemma StepKeepsInv(s: Link, e: Event)
    requires Inv(s)
    ensures Inv(Next(s, e))
  {
    StepStaysGuarded(s, e);
    if CanHappen(s, e) {
      if e.Send? {
        SendConserves(s);
      } else if e.Read? {
        ReadConserves(s, e.size, e.preferClosed);
      }
    }
  }

  lemma {:induction false} RunKeepsInv(s: Link, es: seq<Event>)
    requires Inv(s)
    ensures Inv(Run(s, es))
    decreases |es|
  {
    if es != [] {
      StepKeepsInv(s, es[0]);
      RunKeepsInv(Next(s, es[0]), es[1..]);
    }
  }

  /**
   In every interleaving the bytes read, the leftover and the queued chunks are together
   exactly the bytes of the successful writes in order; at most 16 chunks are queued; and
   no send hits a closed channel, which is closed at most once.
   */
  lemma FaithfulByteQueue(es: seq<Event>)
    ensures var s := Run(FRESH, es);
            && s.sent == s.got + s.readBuf + Flatten(s.queue)
            && |s.queue| <= 16 && !s.panicked
  {
    RunKeepsInv(FRESH, es);
  }

  /** A write that finds the connection open and room in the channel goes through: its bytes are next to be read. */
  lemma OpenWriteGoesThrough(es: seq<Event>, data: Bytes)
    requires var s := Run(FRESH, es); s.lock == Nobody && s.closing == Open && |s.queue| < BUF_CAP
    ensures var s := Run(FRESH, es); var n := Run(s, [Enter(data), Look, Send]);
            n == s.(queue := s.queue + [data], sent := s.sent + data)
  {
    var s := Run(FRESH, es);
    RunKeepsInv(FRESH, es);
    RunThree(s, Enter(data), Look, Send);
  }

  /** While the connection is open a write is never given up, and on a full channel it waits. */
  lemma OpenWriteWaits(s: Link)
    ensures s.closing == Open ==> Next(s, GiveUp) == s
    ensures |s.queue| == 16 && !s.sealed ==> Next(s, Send) == s
  {
  }

  /** A write after the close has finished is refused, and nothing is sent. */
  lemma ClosedWriteIsRefused(es: seq<Event>, data: Bytes)
    requires var s := Run(FRESH, es); s.lock == Nobody && s.closing == Done
    ensures var s := Run(FRESH, es); Run(s, [Enter(data), Look, Send]) == s
  {
    var s := Run(FRESH, es);
    RunKeepsInv(FRESH, es);
    RunThree(s, Enter(data), Look, Send);
  }

  lemma RunThree(s: Link, a: Event, b: Event, c: Event)
    ensures Run(s, [a, b, c]) == Next(Next(Next(s, a), b), c)
  {
    assert [a, b, c][1..] == [b, c] && [b, c][1..] == [c] && [c][1..] == [];
    assert Run(Next(s, a), [b, c]) == Run(Next(Next(s, a), b), [c]);
    assert Run(Next(Next(s, a), b), [c]) == Run(Next(Next(Next(s, a), b), c), []);
  }

  /** Each end is closed exactly by its own close call. */
  lemma {:induction false} ClosedByItsOwnCall(s: Link, es: seq<Event>)
    ensures Run(s, es).readerClosed <==> s.readerClosed || CloseReader in es
    ensures Run(s, es).closing != Open <==> s.closing != Open || Signal in es
    decreases |es|
  {
    if es != [] {
      OwnCall(s, es[0]);
      ClosedByItsOwnCall(Next(s, es[0]), es[1..]);
      assert forall e :: e in es <==> e == es[0] || e in es[1..];
    }
  }

  lemma OwnCall(s: Link, e: Event)
    ensures Next(s, e).readerClosed <==> s.readerClosed || e == CloseReader
    ensures Next(s, e).closing != Open <==> s.closing != Open || e == Signal
  {
  }

  /** A reader whose own end was closed never waits. */
  lemma ClosedReaderNeverWaits(es: seq<Event>, size: nat, preferClosed: bool)
    requires CloseReader in es
    ensures var s := Run(FRESH, es);
            ReadFrom(s.readBuf, s.queue, s.sealed, s.readerClosed, size, preferClosed).reply != Blocked
  {
    ClosedByItsOwnCall(FRESH, es);
  }

  /** The reader is told of the end only after it has read everything, and nothing is ever sent after that. */
  lemma EndMeansEverythingRead(es: seq<Event>, size: nat, preferClosed: bool, more: seq<Event>)
    requires var s := Run(FRESH, es);
             ReadFrom(s.readBuf, s.queue, s.sealed, s.readerClosed, size, preferClosed).reply == EOF
    ensures var s := Run(FRESH, es);
            s.got == s.sent && Run(s, more).sent == s.sent && Run(s, more).got == s.sent
  {
    var s := Run(FRESH, es);
    RunKeepsInv(FRESH, es);
    ReadTakesTheNextBytes(s.readBuf, s.queue, s.sealed, s.readerClosed, size, preferClosed);
    assert s.got + s.readBuf + Flatten(s.queue) == s.got + (s.readBuf + Flatten(s.queue));
    SealedSendsNothing(s, more);
    RunKeepsInv(s, more);
  }

  lemma {:induction false} SealedSendsNothing(s: Link, es: seq<Event>)
    requires Inv(s) && s.sealed
    ensures Run(s, es).sent == s.sent && s.got <= Run(s, es).got
    decreases |es|
  {
    if es != [] {
      StepKeepsInv(s, es[0]);
      SealedSendsNothing(Next(s, es[0]), es[1..]);
    }
  }

  /**
   A close that has begun is never stuck behind a writer: whoever holds the lock, at most one
   step of that writer lets the closer finish, even when the channel is full.
   */
  lemma CloseAlwaysFinishes(es: seq<Event>) returns (way: seq<Event>)
    requires Run(FRESH, es).closing == Signalled
    ensures |way| <= 5 && OnlyLeaves(way) && Run(Run(FRESH, es), way).closing == Done
  {
    var s := Run(FRESH, es);
    RunKeepsInv(FRESH, es);
    var leave := LeavingFreesTheLock(s);
    ClosingRuns(s.(lock := Nobody));
    RunAppend(s, leave, [CloseLock, CloseChannel, CloseDone]);
    way := leave + [CloseLock, CloseChannel, CloseDone];
  }

  /** No write goes through and nobody reads: the closer needs no help from the peer. */
  ghost predicate OnlyLeaves(way: seq<Event>) {
    forall i :: 0 <= i < |way| ==> !way[i].Enter? && !way[i].Send? && !way[i].Read?
  }

  lemma LeavingFreesTheLock(s: Link) returns (leave: seq<Event>)
    requires Inv(s) && s.closing == Signalled
    ensures |leave| <= 2 && OnlyLeaves(leave) && Run(s, leave) == s.(lock := Nobody)
  {
    if s.lock == Nobody {
      leave := [];
    } else if s.lock.w.Entered? {
      leave := [Look, GiveUp];
      var n := Next(s, Look);
      assert leave[1..] == [GiveUp] && [GiveUp][1..] == [];
      assert Run(n, [GiveUp]) == Run(Next(n, GiveUp), []);
    } else {
      leave := [GiveUp];
      assert leave[1..] == [];
    }
  }

  lemma ClosingRuns(s: Link)
    requires s.closing == Signalled && s.lock == Nobody && !s.sealed
    ensures Run(s, [CloseLock, CloseChannel, CloseDone]).closing == Done
  {
    var es := [CloseLock, CloseChannel, CloseDone];
    assert es[1..] == [CloseChannel, CloseDone] && es[1..][1..] == [CloseDone];
    var a := Next(s, CloseLock);
    var b := Next(a, CloseChannel);
    assert Run(b, [CloseDone]) == Next(b, CloseDone);
  }

  lemma {:induction false} RunAppend(s: Link, a: seq<Event>, b: seq<Event>)
    ensures Run(s, a + b) == Run(Run(s, a), b)
    decreases |a|
  {
    if a == [] {
      assert a + b == b;
    } else {
      assert (a + b)[1..] == a[1..] + b;
      RunAppend(Next(s, a[0]), a[1..], b);
    }
  }
}
