/**
 Deciding and executing reviewed requests (handleApprovalDecision and executeApproved in
 internal/webui/approval.go). Any number of handlers run at once: each asks the queue to
 approve, and only a handler whose own approval went through writes the request's text and
 keys to the shell, one write at a time, possibly giving up on an error. Every other queue
 operation may come in between any two of these steps.
 */
module ReviewExecution {
  import opened Lines
  import opened ApprovalQueue
  import Keys = TerminalKeys

  // ---------------------------------------------------------------- state

  datatype Chunk = Text(text: string) | Key(name: string)

  datatype Write = Write(id: string, shell: string, chunk: Chunk)

  /** `req` is the snapshot the approval returned, `rest` what is still to be written of it. */
  datatype Handler = Ready | Executing(req: Request, rest: seq<Chunk>)

  datatype Desk = Desk(q: Queue, handlers: map<int, Handler>, written: seq<Write>)

  function KeyChunks(keys: seq<string>): seq<Chunk> {
    if keys == [] then [] else [Key(keys[0])] + KeyChunks(keys[1..])
  }

  /** What executing a request writes to its shell: the text, if any, and then each key. */
  function Chunks(r: Request): seq<Chunk> {
    if r.kind != "" && r.kind != SHELL_INPUT then []
    else (if r.text == "" then [] else [Text(r.text)]) + KeyChunks(r.keys)
  }

  datatype Event =
    | Queued(op: Op)                        // any queue operation by anyone
    | Approval(h: int, id: string, now: int) // a handler asks the queue to approve
    | WriteNext(h: int)
    | GiveUp(h: int)                        // the shell is gone, or a write failed

  predicate Busy(d: Desk, h: int) { h in d.handlers && d.handlers[h].Executing? }

  ghost function Step(d: Desk, e: Event): Desk {
    match e
    case Queued(op) => d.(q := ApprovalQueue.Next(d.q, op))
    case Approval(h, id, now) =>
      if Busy(d, h) then d
      else
        var (q, reply) := ApprovalQueue.Step(d.q, Approve(id, now));
        d.(q := q,
           handlers := d.handlers[h := if reply.Snap? && reply.req.state == Approved
                                       then Executing(reply.req, Chunks(reply.req)) else Ready])
    case WriteNext(h) =>
      if !Busy(d, h) || d.handlers[h].rest == [] then d
      else
        var x := d.handlers[h];
        d.(handlers := d.handlers[h := Executing(x.req, x.rest[1..])],
           written := d.written + [Write(x.req.id, x.req.shell, x.rest[0])])
    case GiveUp(h) => if h in d.handlers then d.(handlers := d.handlers[h := Ready]) else d
  }

  ghost function Run(d: Desk, es: seq<Event>): Desk
    decreases |es|
  {
    if es == [] then d else Run(Step(d, es[0]), es[1..])
  }

  /** Everything written for one request, in order. */
  function Of(written: seq<Write>, id: string): seq<Chunk> {
    if written == [] then []
    else
      var w := written[|written| - 1];
      Of(written[..|written| - 1], id) + if w.id == id then [w.chunk] else []
  }

  // ---------------------------------------------------------------- the invariant

  /** What was written for `id` is a beginning of an approved request, and nothing else. */
  ghost predicate WrittenWell(d: Desk, id: string) {
    if id in d.q.byID && d.q.byID[id].state == Approved
    then Of(d.written, id) <= Chunks(d.q.byID[id])
    else Of(d.written, id) == []
  }

  /** A busy handler holds an approved request and exactly what is left of it. */
  ghost predicate HandlerWell(d: Desk, h: int) {
    h in d.handlers && d.handlers[h].Executing? ==>
      var x := d.handlers[h];
      && x.req.id in d.q.byID && d.q.byID[x.req.id].state == Approved
      && x.req == d.q.byID[x.req.id].Clone()
      && Of(d.written, x.req.id) + x.rest == Chunks(d.q.byID[x.req.id])
  }

  ghost predicate OneEach(d: Desk) {
    forall g, h :: Busy(d, g) && Busy(d, h) && d.handlers[g].req.id == d.handlers[h].req.id ==> g == h
  }

  ghost predicate ShellWell(d: Desk) {
    forall i :: 0 <= i < |d.written| ==> d.written[i].id in d.q.byID && d.written[i].shell == d.q.byID[d.written[i].id].shell
  }

  ghost predicate Inv(d: Desk) {
    && AllSound(d.q) && OneEach(d) && ShellWell(d)
    && (forall id: string :: WrittenWell(d, id))
    && (forall h: int :: HandlerWell(d, h))
  }

  /** A queue step leaves written and running requests alone: they are resolved. */
  lemma QueueStepKeepsInv(d: Desk, q: Queue)
    requires Inv(d) && AllSound(q) && NoneRewritten(d.q, q)
    ensures Inv(d.(q := q))
  {
    var n := d.(q := q);
    assert forall id :: id in d.q.byID ==> Follows(d.q.byID[id], q.byID[id]);
    forall id: string ensures WrittenWell(n, id) {
      assert WrittenWell(d, id);
    }
    forall h: int ensures HandlerWell(n, h) {
      assert HandlerWell(d, h);
    }
  }

  lemma ReadyKeepsInv(d: Desk, h: int)
    requires Inv(d)
    ensures Inv(d.(handlers := d.handlers[h := Ready]))
  {
    var n := d.(handlers := d.handlers[h := Ready]);
    forall id: string ensures WrittenWell(n, id) {
      assert WrittenWell(d, id);
    }
    forall g: int ensures HandlerWell(n, g) {
      assert HandlerWell(d, g);
    }
    assert forall g :: Busy(n, g) ==> Busy(d, g) && n.handlers[g] == d.handlers[g];
  }

  /** A handler starts on a request nobody has written anything of and nobody else is executing. */
  lemma StartKeepsInv(d: Desk, h: int, req: Request)
    requires Inv(d) && !Busy(d, h)
    requires req.id in d.q.byID && d.q.byID[req.id].state == Approved && req == d.q.byID[req.id].Clone()
    requires Of(d.written, req.id) == [] && forall g :: Busy(d, g) ==> d.handlers[g].req.id != req.id
    ensures Inv(d.(handlers := d.handlers[h := Executing(req, Chunks(req))]))
  {
    var n := d.(handlers := d.handlers[h := Executing(req, Chunks(req))]);
    forall id: string ensures WrittenWell(n, id) {
      assert WrittenWell(d, id);
    }
    forall g: int ensures HandlerWell(n, g) {
      assert HandlerWell(d, g);
    }
    assert forall g :: Busy(n, g) && g != h ==> Busy(d, g) && n.handlers[g] == d.handlers[g];
  }

  lemma ApprovalKeepsInv(d: Desk, e: Event)
    requires Inv(d) && e.Approval? && !Busy(d, e.h)
    ensures Inv(Step(d, e))
  {
    var op := Approve(e.id, e.now);
    var q, reply := ApprovalQueue.Step(d.q, op).0, ApprovalQueue.Step(d.q, op).1;
    assert q == ApprovalQueue.Next(d.q, op);
    StepKeepsSound(d.q, op);
    ApproveSucceedsIffPending(d.q, op, e.id);
    QueueStepKeepsInv(d, q);
    if reply.Snap? {
      assert WrittenWell(d, e.id);
      forall g | Busy(d, g) ensures d.handlers[g].req.id != e.id {
        assert HandlerWell(d, g);
      }
      StartKeepsInv(d.(q := q), e.h, reply.req);
    } else {
      ReadyKeepsInv(d.(q := q), e.h);
    }
  }

  lemma OfAppend(written: seq<Write>, w: Write, id: string)
    ensures Of(written + [w], id) == Of(written, id) + if w.id == id then [w.chunk] else []
  {
    assert (written + [w])[..|written|] == written;
  }

  lemma MoveOne<T>(done: seq<T>, rest: seq<T>)
    requires rest != []
    ensures done + [rest[0]] + rest[1..] == done + rest && done + [rest[0]] <= done + rest
  {
  }

  lemma WriteKeepsHandler(d: Desk, h: int, g: int)
    requires Busy(d, h) && d.handlers[h].rest != []
    requires HandlerWell(d, h) && HandlerWell(d, g)
    requires g != h && Busy(d, g) ==> d.handlers[g].req.id != d.handlers[h].req.id
    ensures HandlerWell(Step(d, WriteNext(h)), g)
  {
    var n, x := Step(d, WriteNext(h)), d.handlers[h];
    var w := Write(x.req.id, x.req.shell, x.rest[0]);
    if g == h {
      OfAppend(d.written, w, w.id);
      MoveOne(Of(d.written, w.id), x.rest);
    } else if Busy(d, g) {
      OfAppend(d.written, w, d.handlers[g].req.id);
    }
  }

  lemma WriteKeepsWritten(d: Desk, h: int, id: string)
    requires Inv(d) && Busy(d, h) && d.handlers[h].rest != []
    ensures WrittenWell(Step(d, WriteNext(h)), id)
  {
    var x := d.handlers[h];
    assert HandlerWell(d, h) && WrittenWell(d, id);
    OfAppend(d.written, Write(x.req.id, x.req.shell, x.rest[0]), id);
    if id == x.req.id {
      MoveOne(Of(d.written, id), x.rest);
    }
  }

  lemma WriteKeepsInv(d: Desk, h: int)
    requires Inv(d) && Busy(d, h) && d.handlers[h].rest != []
    ensures Inv(Step(d, WriteNext(h)))
  {
    var n := Step(d, WriteNext(h));
    forall id: string ensures WrittenWell(n, id) {
      WriteKeepsWritten(d, h, id);
    }
    forall g: int ensures HandlerWell(n, g) {
      assert HandlerWell(d, h) && HandlerWell(d, g);
      WriteKeepsHandler(d, h, g);
    }
    assert HandlerWell(d, h);
    assert forall g :: Busy(n, g) ==> Busy(d, g) && n.handlers[g].req == d.handlers[g].req;
  }

  lemma StepKeepsInv(d: Desk, e: Event)
    requires Inv(d)
    ensures Inv(Step(d, e))
  {
    match e
    case Queued(op) =>
      StepKeepsSound(d.q, op);
      QueueStepKeepsInv(d, ApprovalQueue.Next(d.q, op));
    case Approval(h, _, _) =>
      if !Busy(d, h) {
        ApprovalKeepsInv(d, e);
      }
    case WriteNext(h) =>
      if Busy(d, h) && d.handlers[h].rest != [] {
        WriteKeepsInv(d, h);
      }
    case GiveUp(h) =>
      if h in d.handlers {
        ReadyKeepsInv(d, h);
      }
  }

  lemma {:induction false} RunKeepsInv(d: Desk, es: seq<Event>)
    requires Inv(d)
    ensures Inv(Run(d, es))
    decreases |es|
  {
    if es != [] {
      StepKeepsInv(d, es[0]);
      RunKeepsInv(Step(d, es[0]), es[1..]);
    }
  }

  // ---------------------------------------------------------------- main results

  /**
   Fail-closed and at most once, in every run of any number of handlers and queue operations:
   a request that is not approved has had nothing written; one that is approved has had a
   beginning of its own text and keys written, in order, each at most once, to its own shell;
   and no two handlers are ever executing the same request.
   */
  lemma ExecutedAtMostOnceAndOnlyIfApproved(session: string, timeout: int, es: seq<Event>, id: string)
    ensures var d := Run(Desk(NewQueue(session, timeout), map[], []), es);
            && (id !in d.q.byID || d.q.byID[id].state != Approved ==> Of(d.written, id) == [])
            && (id in d.q.byID ==> Of(d.written, id) <= Chunks(d.q.byID[id]))
            && ShellWell(d) && OneEach(d)
  {
    var start := Desk(NewQueue(session, timeout), map[], []);
    assert Inv(start);
    RunKeepsInv(start, es);
    assert WrittenWell(Run(start, es), id);
  }

  /** What a shell receives of some chunks: text as it is, keys as their bytes, up to an unknown key. */
  function ChunkBytes(mode: Keys.Mode, chunks: seq<Chunk>): string {
    if chunks == [] then ""
    else
      match chunks[0]
      case Text(text) => text + ChunkBytes(mode, chunks[1..])
      case Key(name) =>
        match Keys.KeyBytes(name, mode)
        case None => ""
        case Some(bytes) => bytes + ChunkBytes(mode, chunks[1..])
  }

  lemma {:induction false} KeyChunksAreTheKeys(mode: Keys.Mode, keys: seq<string>)
    ensures ChunkBytes(mode, KeyChunks(keys)) == Keys.KeysPressed(mode, keys)
  {
    if keys != [] {
      var chunks := KeyChunks(keys);
      assert chunks[0] == Key(keys[0]) && chunks[1..] == KeyChunks(keys[1..]);
      KeyChunksAreTheKeys(mode, keys[1..]);
      if Keys.KeyBytes(keys[0], mode).Some? {
        var bytes := Keys.KeyBytes(keys[0], mode).value;
        assert Keys.Repeat(bytes, 1) == bytes + Keys.Repeat(bytes, 0) == bytes;
      }
    }
  }

  /** A command line is executed as its text and then its keys; an operation writes nothing to a shell. */
  lemma ChunksAreTheLine(mode: Keys.Mode, r: Request)
    ensures r.kind == "" || r.kind == SHELL_INPUT ==>
              ChunkBytes(mode, Chunks(r)) == r.text + Keys.KeysPressed(mode, r.keys)
    ensures r.kind != "" && r.kind != SHELL_INPUT ==> Chunks(r) == []
  {
    KeyChunksAreTheKeys(mode, r.keys);
    if r.kind == "" || r.kind == SHELL_INPUT {
      if r.text == "" {
        assert Chunks(r) == KeyChunks(r.keys);
      } else {
        assert Chunks(r)[0] == Text(r.text) && Chunks(r)[1..] == KeyChunks(r.keys);
      }
    }
  }

  /** The shell received the whole request and nothing else: a command line's text, then the bytes of its keys. */
  ghost predicate WroteItAll(d: Desk, id: string, mode: Keys.Mode) {
    && id in d.q.byID && d.q.byID[id].state == Approved
    && var r := d.q.byID[id];
       if r.kind == "" || r.kind == SHELL_INPUT
       then ChunkBytes(mode, Of(d.written, id)) == r.text + Keys.KeysPressed(mode, r.keys)
       else Of(d.written, id) == []
  }

  lemma DoneMeansAll(d: Desk, h: int, mode: Keys.Mode)
    requires HandlerWell(d, h) && Busy(d, h) && d.handlers[h].rest == []
    ensures WroteItAll(d, d.handlers[h].req.id, mode)
  {
    var id := d.handlers[h].req.id;
    ChunksAreTheLine(mode, d.q.byID[id]);
    assert Of(d.written, id) + [] == Of(d.written, id);
  }

  /** A handler that reaches its end has written the whole request. */
  lemma FinishedHandlerWroteEverything(d: Desk, es: seq<Event>, h: int, mode: Keys.Mode)
    requires Inv(d) && Busy(Run(d, es), h) && Run(d, es).handlers[h].rest == []
    ensures WroteItAll(Run(d, es), Run(d, es).handlers[h].req.id, mode)
  {
    RunKeepsInv(d, es);
    assert HandlerWell(Run(d, es), h);
    DoneMeansAll(Run(d, es), h, mode);
  }

  /** A handler that gives up writes no more of its request. */
  lemma GivingUpStops(d: Desk, h: int)
    requires Busy(d, h)
    ensures var n := Step(d, GiveUp(h));
            !Busy(n, h) && n.written == d.written && n.q == d.q && Step(n, WriteNext(h)) == n
  {
  }

  /** A request that was once decided otherwise, or has run out, is never written to, whatever follows. */
  lemma RefusedIsNeverExecuted(d: Desk, es: seq<Event>, id: string)
    requires Inv(d) && id in d.q.byID && d.q.byID[id].state in {Rejected, Expired, Cancelled}
    ensures Of(Run(d, es).written, id) == []
    decreases |es|
  {
    RunKeepsInv(d, es);
    RefusedStays(d, es, id);
    assert WrittenWell(Run(d, es), id);
  }

  lemma {:induction false} RefusedStays(d: Desk, es: seq<Event>, id: string)
    requires Inv(d) && id in d.q.byID && d.q.byID[id].state in {Rejected, Expired, Cancelled}
    ensures id in Run(d, es).q.byID && Run(d, es).q.byID[id] == d.q.byID[id]
    decreases |es|
  {
    if es != [] {
      var n := Step(d, es[0]);
      StepKeepsInv(d, es[0]);
      if es[0].Queued? {
        StepKeepsSound(d.q, es[0].op);
      } else if es[0].Approval? {
        StepKeepsSound(d.q, Approve(es[0].id, es[0].now));
      }
      assert Follows(d.q.byID[id], n.q.byID[id]);
      RefusedStays(n, es[1..], id);
    }
  }
}
