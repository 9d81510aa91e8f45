/**
 The pipe goroutines that feed one shell's output (pipeToBuffer in
 internal/session/session.go). Each takes a chunk from its own stream, appends it to the
 durable log, compares the offset it was given with the buffer's length, and only then
 appends to the buffer. The three happen under three separate lock holds, so another
 goroutine, a reader or the sealing of the buffer can come in between any two of them.
 */
module OutputPipeline {
  import opened Basics
  import opened Lines
  import opened OutputBuffer

  // ---------------------------------------------------------------- state

  /** Where one goroutine stands with the chunk in its hands. */
  datatype Stage =
    | Idle
    | Logged(off: nat, chunk: seq<byte>)   // in the log at `off`
    | Checked(off: nat, chunk: seq<byte>)  // and the offset check has passed
    | Stopped

  /** A run of log bytes the buffer has not taken (yet, or ever). */
  datatype Claim = Claim(writer: int, off: nat, chunk: seq<byte>)

  /** `claims` is a record for the proofs: no step looks at it. */
  datatype Pipe = Pipe(log: seq<byte>, buf: Buf, stage: map<int, Stage>, claims: seq<Claim>)

  datatype Event =
    | Append(w: int, chunk: seq<byte>)
    | AppendFails(w: int, chunk: seq<byte>, taken: nat)
    | Check(w: int)
    | Commit(w: int)
    | Finish(w: int)
    | Other(op: Op)  // readers coming, reading and going, and the sealing of the buffer

  predicate Enabled(p: Pipe, e: Event) {
    match e
    case Append(w, chunk) => w in p.stage && p.stage[w] == Idle && chunk != []
    case AppendFails(w, chunk, taken) => w in p.stage && p.stage[w] == Idle && taken <= |chunk|
    case Check(w) => w in p.stage && p.stage[w].Logged?
    case Commit(w) => w in p.stage && p.stage[w].Checked?
    case Finish(w) => w in p.stage && p.stage[w] == Idle
    case Other(op) => !op.Write?
  }

  /** One atomic step. An event that is not enabled changes nothing. */
  ghost function Next(p: Pipe, e: Event): Pipe {
    if !Enabled(p, e) then p else
      match e
      case Append(w, chunk) =>
        p.(log := p.log + chunk,
           stage := p.stage[w := Logged(|p.log|, chunk)],
           claims := p.claims + [Claim(w, |p.log|, chunk)])
      case AppendFails(w, chunk, taken) =>
        p.(log := p.log + chunk[..taken],
           stage := p.stage[w := Stopped],
           claims := if taken == 0 then p.claims else p.claims + [Claim(w, |p.log|, chunk[..taken])])
      case Check(w) =>
        var s := p.stage[w];
        p.(stage := p.stage[w := if p.buf.Len() == s.off then Checked(s.off, s.chunk) else Stopped])
      case Commit(w) =>
        var (b, reply) := Step(p.buf, Write(p.stage[w].chunk));
        if reply == Done
        then p.(buf := b, stage := p.stage[w := Idle], claims := if p.claims == [] then [] else p.claims[1..])
        else p.(stage := p.stage[w := Stopped])
      case Finish(w) => p.(stage := p.stage[w := Stopped])
      case Other(op) => p.(buf := Step(p.buf, op).0)
  }

  ghost function Run(p: Pipe, es: seq<Event>): Pipe
    decreases |es|
  {
    if es == [] then p else Run(Next(p, es[0]), es[1..])
  }

  /** Any number of goroutines on a fresh shell. */
  ghost predicate Init(p: Pipe) {
    && p.log == [] && p.claims == []
    && p.buf == Fresh(p.buf.threshold, p.buf.minAdvance)
    && forall w :: w in p.stage ==> p.stage[w] == Idle
  }

  // ---------------------------------------------------------------- the invariant

  /** The claims are, in order and without a gap, the log from `from` to its end. */
  ghost predicate Tiles(claims: seq<Claim>, log: seq<byte>, from: nat) {
    if claims == [] then from == |log|
    else
      var c := claims[0];
      && c.off == from && c.chunk != []
      && from + |c.chunk| <= |log| && log[from..from + |c.chunk|] == c.chunk
      && Tiles(claims[1..], log, from + |c.chunk|)
  }

  ghost predicate CacheOfLog(p: Pipe) {
    && p.buf.Valid()
    && p.buf.Len() <= |p.log|
    && p.buf.master == p.log[p.buf.base..p.buf.Len()]
  }

  /** A goroutine with a chunk in its hands holds a claim; one past its check holds the oldest. */
  ghost predicate StageBacked(p: Pipe, w: int) {
    w in p.stage ==>
      match p.stage[w]
      case Logged(off, chunk) => Claim(w, off, chunk) in p.claims
      case Checked(off, chunk) => p.claims != [] && p.claims[0] == Claim(w, off, chunk)
      case _ => true
  }

  ghost predicate Inv(p: Pipe) {
    && CacheOfLog(p)
    && Tiles(p.claims, p.log, p.buf.Len())
    && forall w: int :: StageBacked(p, w)
  }

  lemma {:induction false} TilesAppend(claims: seq<Claim>, log: seq<byte>, from: nat, w: int, chunk: seq<byte>)
    requires Tiles(claims, log, from) && chunk != []
    ensures Tiles(claims + [Claim(w, |log|, chunk)], log + chunk, from)
    decreases |claims|
  {
    var grown := claims + [Claim(w, |log|, chunk)];
    if claims == [] {
      assert grown[1..] == [];
      assert (log + chunk)[from..from + |chunk|] == chunk;
    } else {
      var c := claims[0];
      TilesAppend(claims[1..], log, from + |c.chunk|, w, chunk);
      assert grown[1..] == claims[1..] + [Claim(w, |log|, chunk)];
      assert (log + chunk)[from..from + |c.chunk|] == c.chunk;
    }
  }

  /** Every claim starts at or after `from`, and only the first one at it. */
  lemma {:induction false} TilesOrdered(claims: seq<Claim>, log: seq<byte>, from: nat, i: nat)
    requires Tiles(claims, log, from) && i < |claims|
    ensures from <= claims[i].off && (claims[i].off == from <==> i == 0)
    ensures claims[i].chunk != [] && claims[i].off + |claims[i].chunk| <= |log|
    ensures log[claims[i].off..claims[i].off + |claims[i].chunk|] == claims[i].chunk
    decreases i
  {
    if i > 0 {
      TilesOrdered(claims[1..], log, from + |claims[0].chunk|, i - 1);
    }
  }

  lemma AppendKeepsInv(p: Pipe, w: int, chunk: seq<byte>, s: Stage)
    requires Inv(p) && chunk != [] && w in p.stage && p.stage[w] == Idle
    requires s == Logged(|p.log|, chunk) || s == Stopped
    ensures Inv(p.(log := p.log + chunk, stage := p.stage[w := s], claims := p.claims + [Claim(w, |p.log|, chunk)]))
  {
    var q := p.(log := p.log + chunk, stage := p.stage[w := s], claims := p.claims + [Claim(w, |p.log|, chunk)]);
    TilesAppend(p.claims, p.log, p.buf.Len(), w, chunk);
    assert q.log[p.buf.base..p.buf.Len()] == p.log[p.buf.base..p.buf.Len()];
    forall v: int ensures StageBacked(q, v) {
      assert StageBacked(p, v);
    }
  }

  lemma CheckKeepsInv(p: Pipe, w: int)
    requires Inv(p) && Enabled(p, Check(w))
    ensures Inv(Next(p, Check(w)))
  {
    var q, s := Next(p, Check(w)), p.stage[w];
    assert StageBacked(p, w);
    var i :| 0 <= i < |p.claims| && p.claims[i] == Claim(w, s.off, s.chunk);
    TilesOrdered(p.claims, p.log, p.buf.Len(), i);
    forall v: int ensures StageBacked(q, v) {
      assert StageBacked(p, v);
    }
  }

  /** An accepted chunk is the oldest claim, so the buffer grows by exactly the next log bytes. */
  lemma CommitKeepsInv(p: Pipe, w: int)
    requires Inv(p) && Enabled(p, Commit(w))
    ensures Inv(Next(p, Commit(w)))
  {
    var q, chunk := Next(p, Commit(w)), p.stage[w].chunk;
    assert StageBacked(p, w);
    TilesOrdered(p.claims, p.log, p.buf.Len(), 0);
    if !p.buf.closed {
      AppendMirrors(p.buf, p.log, chunk);
    }
    forall v: int ensures StageBacked(q, v) {
      StagesSurviveCommit(p, w, v);
    }
  }

  lemma StagesSurviveCommit(p: Pipe, w: int, v: int)
    requires Inv(p) && Enabled(p, Commit(w))
    ensures StageBacked(Next(p, Commit(w)), v)
  {
    assert StageBacked(p, w) && StageBacked(p, v);
    if v != w && v in p.stage && p.stage[v].Logged? && !p.buf.closed {
      var c := Claim(v, p.stage[v].off, p.stage[v].chunk);
      assert c in p.claims && c != p.claims[0];
      var i :| 0 <= i < |p.claims| && p.claims[i] == c;
      assert p.claims[1..][i - 1] == c;
    }
  }

  lemma OtherKeepsInv(p: Pipe, op: Op)
    requires Inv(p) && !op.Write?
    ensures Inv(Next(p, Other(op)))
  {
    var q := Next(p, Other(op));
    StepKeepsValid(p.buf, op);
    assert q.buf.master == p.buf.master && q.buf.base == p.buf.base;
    forall v: int ensures StageBacked(q, v) {
      assert StageBacked(p, v);
    }
  }

  lemma StepKeepsInv(p: Pipe, e: Event)
    requires Inv(p)
    ensures Inv(Next(p, e))
  {
    if Enabled(p, e) {
      match e
      case Append(w, chunk) => AppendKeepsInv(p, w, chunk, Logged(|p.log|, chunk));
      case AppendFails(w, chunk, taken) =>
        if taken > 0 {
          AppendKeepsInv(p, w, chunk[..taken], Stopped);
        } else {
          StoppingKeepsInv(p, w);
          assert p.log + chunk[..taken] == p.log;
        }
      case Check(w) => CheckKeepsInv(p, w);
      case Commit(w) => CommitKeepsInv(p, w);
      case Finish(w) => StoppingKeepsInv(p, w);
      case Other(op) => OtherKeepsInv(p, op);
    }
  }

  lemma StoppingKeepsInv(p: Pipe, w: int)
    requires Inv(p)
    ensures Inv(p.(stage := p.stage[w := Stopped]))
  {
    var q := p.(stage := p.stage[w := Stopped]);
    forall v: int ensures StageBacked(q, v) {
      assert StageBacked(p, v);
    }
  }

  lemma {:induction false} RunKeepsInv(p: Pipe, es: seq<Event>)
    requires Inv(p)
    ensures Inv(Run(p, es))
    decreases |es|
  {
    if es != [] {
      StepKeepsInv(p, es[0]);
      RunKeepsInv(Next(p, es[0]), es[1..]);
    }
  }

  // ---------------------------------------------------------------- main results

  /** Under every interleaving the buffer holds a gap-free prefix of the log, at the log's own offsets. */
  lemma BufferIsPrefixOfLog(p: Pipe, es: seq<Event>)
    requires Init(p)
    ensures var q := Run(p, es);
            && q.buf.Len() <= |q.log|
            && q.buf.master == q.log[q.buf.base..q.buf.Len()]
  {
    assert Inv(p);
    RunKeepsInv(p, es);
  }

  /** At most one goroutine is ever past its offset check, and its chunk is the log's next piece. */
  lemma OnePassedCheckAtATime(p: Pipe, es: seq<Event>, v: int, w: int)
    requires Init(p)
    requires var q := Run(p, es); v in q.stage && w in q.stage && q.stage[v].Checked? && q.stage[w].Checked?
    ensures v == w
    ensures var q := Run(p, es); var s := q.stage[w];
            && s.off == q.buf.Len() && s.off + |s.chunk| <= |q.log|
            && q.log[s.off..s.off + |s.chunk|] == s.chunk
  {
    assert Inv(p);
    RunKeepsInv(p, es);
    var q := Run(p, es);
    assert StageBacked(q, v) && StageBacked(q, w);
    TilesOrdered(q.claims, q.log, q.buf.Len(), 0);
  }

  /** The check passes exactly when no earlier log bytes are still outside the buffer. */
  lemma CheckPassesIffOldest(p: Pipe, es: seq<Event>, w: int)
    requires Init(p)
    requires var q := Run(p, es); w in q.stage && q.stage[w].Logged?
    ensures var q := Run(p, es);
            Next(q, Check(w)).stage[w].Checked? <==> forall c :: c in q.claims ==> q.stage[w].off <= c.off
  {
    assert Inv(p);
    RunKeepsInv(p, es);
    var q := Run(p, es);
    var s := q.stage[w];
    assert StageBacked(q, w);
    var i :| 0 <= i < |q.claims| && q.claims[i] == Claim(w, s.off, s.chunk);
    TilesOrdered(q.claims, q.log, q.buf.Len(), i);
    forall c | c in q.claims ensures q.buf.Len() <= c.off {
      var j :| 0 <= j < |q.claims| && q.claims[j] == c;
      TilesOrdered(q.claims, q.log, q.buf.Len(), j);
    }
    TilesOrdered(q.claims, q.log, q.buf.Len(), 0);
    assert q.claims[0] in q.claims;
  }

  /** A stopped goroutine's claim is never taken back. */
  lemma {:induction false} LostClaimStays(p: Pipe, es: seq<Event>, c: Claim)
    requires Inv(p) && c in p.claims && c.writer in p.stage && p.stage[c.writer] == Stopped
    ensures Inv(Run(p, es)) && c in Run(p, es).claims
    ensures c.writer in Run(p, es).stage && Run(p, es).stage[c.writer] == Stopped
    decreases |es|
  {
    if es != [] {
      var e := es[0];
      StepKeepsInv(p, e);
      if Enabled(p, e) && e.Commit? && !p.buf.closed {
        assert StageBacked(p, e.w);
        assert c != p.claims[0];
        var i :| 0 <= i < |p.claims| && p.claims[i] == c;
        assert p.claims[1..][i - 1] == c;
      }
      LostClaimStays(Next(p, e), es[1..], c);
    }
  }

  /**
   Once a chunk is dropped, by a failed offset check or by a write to a sealed buffer, the
   buffer never grows past that chunk's offset, whatever happens later: the two never drift.
   */
  lemma BufferNeverPassesADroppedChunk(p: Pipe, es: seq<Event>, e: Event, later: seq<Event>)
    requires Init(p)
    requires e.Check? || e.Commit?
    requires var q := Run(p, es);
             e.w in q.stage && (q.stage[e.w].Logged? || q.stage[e.w].Checked?) && Next(q, e).stage[e.w] == Stopped
    ensures var q := Run(p, es);
            Run(Next(q, e), later).buf.Len() <= q.stage[e.w].off
  {
    assert Inv(p);
    RunKeepsInv(p, es);
    var q := Run(p, es);
    var c := Claim(e.w, q.stage[e.w].off, q.stage[e.w].chunk);
    assert StageBacked(q, e.w);
    assert c in q.claims;
    StepKeepsInv(q, e);
    LostClaimStays(Next(q, e), later, c);
    var end := Run(Next(q, e), later);
    var i :| 0 <= i < |end.claims| && end.claims[i] == c;
    TilesOrdered(end.claims, end.log, end.buf.Len(), i);
  }

  // ---------------------------------------------------------------- when a goroutine stops

  lemma {:induction false} StoppedStays(p: Pipe, es: seq<Event>, w: int)
    requires w in p.stage && p.stage[w] == Stopped
    ensures w in Run(p, es).stage && Run(p, es).stage[w] == Stopped
    decreases |es|
  {
    if es != [] {
      StoppedStays(Next(p, es[0]), es[1..], w);
    }
  }

  /** The end of its stream or a failed append stops a goroutine for good: it never appends again. */
  lemma EndAndFailureStop(p: Pipe, e: Event, es: seq<Event>, chunk: seq<byte>)
    requires (e.Finish? || e.AppendFails?) && Enabled(p, e)
    ensures !Enabled(Run(Next(p, e), es), Append(e.w, chunk))
  {
    StoppedStays(Next(p, e), es, e.w);
  }

  // ---------------------------------------------------------------- what reaches log and buffer

  /** The bytes an event appends to the log. */
  function Logs(p: Pipe, e: Event): seq<byte> {
    if !Enabled(p, e) then []
    else
      match e
      case Append(_, chunk) => chunk
      case AppendFails(_, chunk, taken) => chunk[..taken]
      case _ => []
  }

  /** What an event does to the buffer. */
  function BufferOps(p: Pipe, e: Event): seq<Op> {
    if !Enabled(p, e) then []
    else
      match e
      case Commit(w) => [Write(p.stage[w].chunk)]
      case Other(op) => [op]
      case _ => []
  }

  ghost function LoggedBy(p: Pipe, es: seq<Event>): seq<byte>
    decreases |es|
  {
    if es == [] then [] else Logs(p, es[0]) + LoggedBy(Next(p, es[0]), es[1..])
  }

  ghost function OpsOf(p: Pipe, es: seq<Event>): seq<Op>
    decreases |es|
  {
    if es == [] then [] else BufferOps(p, es[0]) + OpsOf(Next(p, es[0]), es[1..])
  }

  ghost function StepAll(b: Buf, ops: seq<Op>): Buf
    decreases |ops|
  {
    if ops == [] then b else StepAll(Step(b, ops[0]).0, ops[1..])
  }

  lemma OneEventReaches(p: Pipe, e: Event)
    ensures Next(p, e).log == p.log + Logs(p, e)
    ensures Next(p, e).buf == StepAll(p.buf, BufferOps(p, e))
  {
    var ops := BufferOps(p, e);
    if ops != [] {
      assert ops[1..] == [];
      assert StepAll(p.buf, ops) == StepAll(Step(p.buf, ops[0]).0, []);
    }
  }

  lemma {:induction false} StepAllAppend(b: Buf, x: seq<Op>, y: seq<Op>)
    ensures StepAll(b, x + y) == StepAll(StepAll(b, x), y)
    decreases |x|
  {
    if x == [] {
      assert x + y == y;
    } else {
      assert (x + y)[1..] == x[1..] + y;
      StepAllAppend(Step(b, x[0]).0, x[1..], y);
    }
  }

  /** Over every run the log is exactly what was appended to it, in order. */
  lemma {:induction false} LogHoldsEveryAppend(p: Pipe, es: seq<Event>)
    ensures Run(p, es).log == p.log + LoggedBy(p, es)
    decreases |es|
  {
    if es == [] {
      assert p.log + [] == p.log;
    } else {
      var n := Next(p, es[0]);
      OneEventReaches(p, es[0]);
      LogHoldsEveryAppend(n, es[1..]);
      Associate(p.log, Logs(p, es[0]), LoggedBy(n, es[1..]));
    }
  }

  /** And the buffer is exactly what its readers, its close and the accepted writes have made of it, in order. */
  lemma {:induction false} BufferTakesEveryOp(p: Pipe, es: seq<Event>)
    ensures Run(p, es).buf == StepAll(p.buf, OpsOf(p, es))
    decreases |es|
  {
    if es != [] {
      var n := Next(p, es[0]);
      OneEventReaches(p, es[0]);
      BufferTakesEveryOp(n, es[1..]);
      StepAllAppend(p.buf, BufferOps(p, es[0]), OpsOf(n, es[1..]));
    }
  }

  // ---------------------------------------------------------------- when nothing is lost

  /** Everything in the log is in the buffer, and the buffer is open. */
  ghost predicate InSync(p: Pipe) {
    Inv(p) && p.claims == [] && !p.buf.closed
  }

  /** Goroutines that take turns: each chunk goes all the way before the next one starts. */
  ghost predicate TakesTurns(es: seq<Event>) {
    if es == [] then true
    else if es[0].Other? then es[0].op != Close && TakesTurns(es[1..])
    else
      && |es| >= 3 && es[0].Append?
      && es[1] == Check(es[0].w) && es[2] == Commit(es[0].w)
      && TakesTurns(es[3..])
  }

  /** A goroutine that is let through has logged and buffered its chunk and is ready for the next one. */
  lemma OneChunkIsTaken(p: Pipe, w: int, chunk: seq<byte>)
    requires InSync(p) && Enabled(p, Append(w, chunk))
    ensures var n := Next(Next(Next(p, Append(w, chunk)), Check(w)), Commit(w));
            && n.log == p.log + chunk && n.stage[w] == Idle && n.buf == Step(p.buf, Write(chunk)).0
            && n.claims == [] && !n.buf.closed
  {
    var a := Next(p, Append(w, chunk));
    assert a.buf == p.buf && a.stage[w] == Logged(|p.log|, chunk) && p.buf.Len() == |p.log|;
    var b := Next(a, Check(w));
    assert b.buf == p.buf && b.stage[w] == Checked(|p.log|, chunk);
    assert b.claims == [Claim(w, |p.log|, chunk)];
  }

  lemma OneChunkAllTheWay(p: Pipe, w: int, chunk: seq<byte>)
    requires InSync(p)
    ensures InSync(Next(Next(Next(p, Append(w, chunk)), Check(w)), Commit(w)))
  {
    var a := Next(p, Append(w, chunk));
    var b := Next(a, Check(w));
    StepKeepsInv(p, Append(w, chunk));
    StepKeepsInv(a, Check(w));
    StepKeepsInv(b, Commit(w));
    if Enabled(p, Append(w, chunk)) {
      OneChunkIsTaken(p, w, chunk);
    } else {
      assert StageBacked(p, w);
      assert b == p && Next(b, Commit(w)) == p;
    }
  }

  /** Then the buffer holds everything the log holds from its first retained byte on. */
  lemma {:induction false} TurnTakingLosesNothing(p: Pipe, es: seq<Event>)
    requires InSync(p) && TakesTurns(es)
    ensures InSync(Run(p, es))
    ensures Run(p, es).buf.master == Run(p, es).log[Run(p, es).buf.base..]
    decreases |es|
  {
    if es != [] {
      if es[0].Other? {
        StepKeepsInv(p, es[0]);
        TurnTakingLosesNothing(Next(p, es[0]), es[1..]);
      } else {
        OneChunkAllTheWay(p, es[0].w, es[0].chunk);
        var a := Next(p, es[0]);
        var q := Next(Next(a, es[1]), es[2]);
        TurnTakingLosesNothing(q, es[3..]);
        assert es[1..][1..] == es[2..] && es[2..][1..] == es[3..];
        assert Run(p, es) == Run(a, es[1..]) == Run(Next(a, es[1]), es[2..]) == Run(q, es[3..]);
      }
    }
  }

  /**
   Overlap can lose data. Two healthy goroutines, nothing closed and nothing failing: the
   second chunk reaches its check before the first is in the buffer, is dropped for good, and
   the buffer stays short of the log whatever follows.
   */
  lemma OverlappingChunksLoseOne(p: Pipe, v: int, w: int, first: seq<byte>, second: seq<byte>, later: seq<Event>)
    requires InSync(p) && v != w && first != [] && second != []
    requires v in p.stage && w in p.stage && p.stage[v] == Idle && p.stage[w] == Idle
    ensures var q := Next(Next(Next(p, Append(v, first)), Append(w, second)), Check(w));
            && q.stage[w] == Stopped
            && Run(q, later).buf.Len() <= |p.log| + |first| < |q.log|
  {
    var a := Next(p, Append(v, first));
    var b := Next(a, Append(w, second));
    var q := Next(b, Check(w));
    StepKeepsInv(p, Append(v, first));
    StepKeepsInv(a, Append(w, second));
    StepKeepsInv(b, Check(w));
    var c := Claim(w, |p.log| + |first|, second);
    assert q.claims == [Claim(v, |p.log|, first), c];
    assert q.claims[1] == c;
    LostClaimStays(q, later, c);
    var end := Run(q, later);
    var i :| 0 <= i < |end.claims| && end.claims[i] == c;
    TilesOrdered(end.claims, end.log, end.buf.Len(), i);
  }

  // ---------------------------------------------------------------- exactly when nothing is lost

  predicate HasChunk(s: Stage) { s.Logged? || s.Checked? }

  /** No other goroutine holds an earlier chunk. */
  ghost predicate Oldest(p: Pipe, w: int)
    requires w in p.stage && HasChunk(p.stage[w])
  {
    forall v :: v in p.stage && HasChunk(p.stage[v]) ==> p.stage[w].off <= p.stage[v].off
  }

  /** A check made with no earlier chunk under way, a write to an open buffer, no torn append. */
  ghost predicate Smooth(p: Pipe, e: Event) {
    Enabled(p, e) ==>
      match e
      case Check(w) => Oldest(p, w)
      case Commit(w) => !p.buf.closed
      case AppendFails(w, chunk, taken) => taken == 0
      case _ => true
  }

  ghost predicate AllSmooth(p: Pipe, es: seq<Event>)
    decreases |es|
  {
    es == [] || (Smooth(p, es[0]) && AllSmooth(Next(p, es[0]), es[1..]))
  }

  ghost predicate InFlight(p: Pipe, c: Claim) {
    c.writer in p.stage && (p.stage[c.writer] == Logged(c.off, c.chunk) || p.stage[c.writer] == Checked(c.off, c.chunk))
  }

  /** Every log piece that is not in the buffer yet is in some goroutine's hands. */
  ghost predicate Lossless(p: Pipe) {
    Inv(p) && forall c :: c in p.claims ==> InFlight(p, c)
  }

  ghost predicate Lost(p: Pipe, c: Claim) {
    Inv(p) && c in p.claims && c.writer in p.stage && p.stage[c.writer] == Stopped
  }

  lemma HeldChunkIsClaimed(p: Pipe, w: int) returns (i: nat)
    requires Inv(p) && w in p.stage && HasChunk(p.stage[w])
    ensures i < |p.claims| && p.claims[i] == Claim(w, p.stage[w].off, p.stage[w].chunk)
    ensures p.buf.Len() <= p.stage[w].off && (p.stage[w].off == p.buf.Len() <==> i == 0)
  {
    assert StageBacked(p, w);
    var c := Claim(w, p.stage[w].off, p.stage[w].chunk);
    assert c in p.claims by {
      if p.stage[w].Checked? {
        assert p.claims[0] == c;
      }
    }
    i :| 0 <= i < |p.claims| && p.claims[i] == c;
    TilesOrdered(p.claims, p.log, p.buf.Len(), i);
  }

  lemma OldestIsNext(p: Pipe, w: int)
    requires Lossless(p) && w in p.stage && HasChunk(p.stage[w])
    ensures Oldest(p, w) <==> p.stage[w].off == p.buf.Len()
  {
    var i := HeldChunkIsClaimed(p, w);
    var first := p.claims[0];
    assert first in p.claims && InFlight(p, first);
    TilesOrdered(p.claims, p.log, p.buf.Len(), 0);
    if p.stage[w].off == p.buf.Len() {
      forall v | v in p.stage && HasChunk(p.stage[v]) ensures p.stage[w].off <= p.stage[v].off {
        var j := HeldChunkIsClaimed(p, v);
      }
    } else {
      assert p.stage[first.writer].off < p.stage[w].off;
    }
  }

  lemma SmoothStaysLossless(p: Pipe, e: Event)
    requires Lossless(p) && Smooth(p, e)
    ensures Lossless(Next(p, e))
  {
    var n := Next(p, e);
    StepKeepsInv(p, e);
    if Enabled(p, e) {
      if e.Check? {
        OldestIsNext(p, e.w);
      } else if e.Commit? {
        assert StageBacked(p, e.w);
      }
      forall c | c in n.claims ensures InFlight(n, c) {
        if e.Commit? {
          CommittedIsGone(p, e.w, c);
        } else {
          assert c in p.claims || (e.Append? && c == Claim(e.w, |p.log|, e.chunk));
        }
      }
    }
  }

  /** After a chunk has been accepted, its writer holds no other claim. */
  lemma CommittedIsGone(p: Pipe, w: int, c: Claim)
    requires Lossless(p) && Enabled(p, Commit(w)) && !p.buf.closed && p.claims != [] && c in p.claims[1..]
    ensures c in p.claims && c.writer != w
  {
    assert StageBacked(p, w);
    var i :| 0 <= i < |p.claims[1..]| && p.claims[1..][i] == c;
    assert p.claims[i + 1] == c;
    TilesOrdered(p.claims, p.log, p.buf.Len(), 0);
    TilesOrdered(p.claims, p.log, p.buf.Len(), i + 1);
    assert InFlight(p, c);
  }

  lemma RoughLosesAChunk(p: Pipe, e: Event) returns (c: Claim)
    requires Lossless(p) && !Smooth(p, e)
    ensures Lost(Next(p, e), c)
  {
    StepKeepsInv(p, e);
    if e.AppendFails? {
      c := Claim(e.w, |p.log|, e.chunk[..e.taken]);
      assert Next(p, e).claims[|p.claims|] == c;
    } else {
      if e.Check? {
        OldestIsNext(p, e.w);
      }
      var i := HeldChunkIsClaimed(p, e.w);
      TilesOrdered(p.claims, p.log, p.buf.Len(), i);
      c := p.claims[i];
      assert Next(p, e).claims == p.claims;
    }
  }

  /** Over every run: nothing has been lost if and only if every single step was smooth. */
  lemma {:induction false} LosslessIffSmooth(p: Pipe, es: seq<Event>)
    requires Lossless(p)
    ensures Lossless(Run(p, es)) <==> AllSmooth(p, es)
    decreases |es|
  {
    if es != [] {
      if Smooth(p, es[0]) {
        SmoothStaysLossless(p, es[0]);
        LosslessIffSmooth(Next(p, es[0]), es[1..]);
      } else {
        var c := RoughLosesAChunk(p, es[0]);
        LostClaimStays(Next(p, es[0]), es[1..], c);
        assert !InFlight(Run(p, es), c);
      }
    }
  }

  /**
   On a fresh shell, once no goroutine holds a chunk any more, the buffer has taken the whole
   log if and only if every check was made with no earlier chunk under way, every write found
   the buffer open, and no append was torn.
   */
  lemma NothingIsLostIff(p: Pipe, es: seq<Event>)
    requires Init(p) && forall w :: w in Run(p, es).stage ==> !HasChunk(Run(p, es).stage[w])
    ensures Run(p, es).buf.Len() == |Run(p, es).log| <==> AllSmooth(p, es)
  {
    assert Lossless(p);
    LosslessIffSmooth(p, es);
    RunKeepsInv(p, es);
    var q := Run(p, es);
    if q.claims != [] {
      TilesOrdered(q.claims, q.log, q.buf.Len(), 0);
      assert q.claims[0] in q.claims && !InFlight(q, q.claims[0]);
    }
  }
}
