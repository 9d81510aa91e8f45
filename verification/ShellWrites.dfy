/**
 What reaches one shell when several decision handlers execute approved lines at once
 (executeApproved in internal/webui/approval.go): each text and each key is a write of its own,
 so lines stay whole only while their handlers do not overlap on the shell.
 */
module ShellWrites {
  import opened Basics
  import AQ = ApprovalQueue
  import opened ReviewExecution

  // ---------------------------------------------------------------- writes by shell and by line

  function OnShell(written: seq<Write>, shell: string): seq<Write> {
    if written == [] then []
    else
      var w := written[|written| - 1];
      OnShell(written[..|written| - 1], shell) + if w.shell == shell then [w] else []
  }

  function ForLine(written: seq<Write>, id: string): seq<Write> {
    if written == [] then []
    else
      var w := written[|written| - 1];
      ForLine(written[..|written| - 1], id) + if w.id == id then [w] else []
  }

  /** The writes of these lines, one whole line after the other. */
  function LineByLine(written: seq<Write>, order: seq<string>): seq<Write> {
    if order == [] then [] else ForLine(written, order[0]) + LineByLine(written, order[1..])
  }

  lemma OnShellAppend(written: seq<Write>, w: Write, shell: string)
    ensures OnShell(written + [w], shell) == OnShell(written, shell) + if w.shell == shell then [w] else []
  {
    assert (written + [w])[..|written|] == written;
  }

  lemma ForLineAppend(written: seq<Write>, w: Write, id: string)
    ensures ForLine(written + [w], id) == ForLine(written, id) + if w.id == id then [w] else []
  {
    assert (written + [w])[..|written|] == written;
  }

  lemma {:induction false} ForLineIds(written: seq<Write>, id: string)
    ensures forall i :: 0 <= i < |ForLine(written, id)| ==> ForLine(written, id)[i].id == id
    ensures Of(written, id) == [] ==> ForLine(written, id) == []
  {
    if written != [] {
      ForLineIds(written[..|written| - 1], id);
    }
  }

  lemma {:induction false} OtherLinesStand(written: seq<Write>, w: Write, order: seq<string>)
    requires w.id !in order
    ensures LineByLine(written + [w], order) == LineByLine(written, order)
  {
    if order != [] {
      ForLineAppend(written, w, order[0]);
      OtherLinesStand(written, w, order[1..]);
    }
  }

  lemma {:induction false} LineByLineIds(written: seq<Write>, order: seq<string>)
    ensures forall i :: 0 <= i < |LineByLine(written, order)| ==> LineByLine(written, order)[i].id in order
  {
    if order != [] {
      ForLineIds(written, order[0]);
      LineByLineIds(written, order[1..]);
    }
  }

  lemma {:induction false} LineByLineSplit(written: seq<Write>, a: seq<string>, b: seq<string>)
    ensures LineByLine(written, a + b) == LineByLine(written, a) + LineByLine(written, b)
  {
    if a == [] {
      assert a + b == b;
    } else {
      assert (a + b)[1..] == a[1..] + b;
      LineByLineSplit(written, a[1..], b);
    }
  }

  ghost predicate Distinct(order: seq<string>) {
    forall i, j :: 0 <= i < j < |order| ==> order[i] != order[j]
  }

  /** What a new write of the i-th line does to the line-by-line reading. */
  lemma NewWriteReadsInPlace(written: seq<Write>, w: Write, order: seq<string>, i: nat)
    requires Distinct(order) && i < |order| && order[i] == w.id
    ensures LineByLine(written, order) ==
            LineByLine(written, order[..i + 1]) + LineByLine(written, order[i + 1..])
    ensures LineByLine(written + [w], order) ==
            LineByLine(written, order[..i + 1]) + [w] + LineByLine(written, order[i + 1..])
  {
    var all := written + [w];
    var a, b := order[..i], order[i + 1..];
    assert order == order[..i + 1] + b && order[..i + 1] == a + [w.id];
    LineByLineSplit(written, order[..i + 1], b);
    LineByLineSplit(all, order[..i + 1], b);
    LineByLineSplit(written, a, [w.id]);
    LineByLineSplit(all, a, [w.id]);
    OtherLinesStand(written, w, a);
    OtherLinesStand(written, w, b);
    ForLineAppend(written, w, w.id);
    OneLine(written, w.id);
    OneLine(all, w.id);
    assert LineByLine(written, a) + (ForLine(written, w.id) + [w]) == LineByLine(written, a) + ForLine(written, w.id) + [w];
  }

  lemma OneLine(written: seq<Write>, id: string)
    ensures LineByLine(written, [id]) == ForLine(written, id)
  {
    assert [id][1..] == [];
  }

  // ---------------------------------------------------------------- whole lines, in approval order

  /** The shell received the lines of `order` one after the other, none mixed into another. */
  ghost predicate WholeLines(d: Desk, order: seq<string>, shell: string) {
    OnShell(d.written, shell) == LineByLine(d.written, order)
  }

  /**
   A write keeps the lines whole and in order if and only if no line approved later has been
   written to the shell yet.
   */
  lemma WriteStaysWholeIff(d: Desk, h: int, order: seq<string>, i: nat, shell: string)
    requires Busy(d, h) && d.handlers[h].rest != [] && d.handlers[h].req.shell == shell
    requires Distinct(order) && i < |order| && order[i] == d.handlers[h].req.id && WholeLines(d, order, shell)
    ensures WholeLines(Step(d, WriteNext(h)), order, shell) <==> LineByLine(d.written, order[i + 1..]) == []
  {
    var x := d.handlers[h];
    var w := Write(x.req.id, shell, x.rest[0]);
    NewWriteReadsInPlace(d.written, w, order, i);
    OnShellAppend(d.written, w, shell);
    var a, b := LineByLine(d.written, order[..i + 1]), LineByLine(d.written, order[i + 1..]);
    if b != [] {
      LineByLineIds(d.written, order[i + 1..]);
      assert b[0].id in order[i + 1..];
      assert (a + b + [w])[|a|] == b[0] && (a + [w] + b)[|a|] == w;
    } else {
      assert a + b + [w] == a + [w] + b;
    }
  }

  /** The event makes a handler start on a line of this shell. */
  ghost predicate Starts(d: Desk, e: Event, shell: string) {
    && e.Approval? && !Busy(d, e.h)
    && e.id in d.q.byID && d.q.byID[e.id].state == AQ.Pending && d.q.byID[e.id].shell == shell
  }

  ghost predicate MidLine(d: Desk, g: int, shell: string) {
    Busy(d, g) && d.handlers[g].rest != [] && d.handlers[g].req.shell == shell
  }

  /** No handler starts on the shell while another is in the middle of a line there. */
  ghost predicate NoOverlap(d: Desk, es: seq<Event>, shell: string)
    decreases |es|
  {
    es == [] ||
    (&& (Starts(d, es[0], shell) ==> forall g: int :: !MidLine(d, g, shell))
     && NoOverlap(Step(d, es[0]), es[1..], shell))
  }

  ghost function StartedNow(d: Desk, e: Event, shell: string): seq<string> {
    if Starts(d, e, shell) then [e.id] else []
  }

  /** The lines of the shell that handlers started on, in the order they were approved. */
  ghost function Started(d: Desk, es: seq<Event>, shell: string): seq<string>
    decreases |es|
  {
    if es == [] then []
    else StartedNow(d, es[0], shell) + Started(Step(d, es[0]), es[1..], shell)
  }

  ghost predicate LineKnown(d: Desk, id: string, shell: string) {
    id in d.q.byID && d.q.byID[id].state == AQ.Approved && d.q.byID[id].shell == shell
  }

  /** A handler in the middle of a line is on the line approved last. */
  ghost predicate OnLastLine(d: Desk, order: seq<string>, shell: string, g: int) {
    MidLine(d, g, shell) ==> order != [] && d.handlers[g].req.id == order[|order| - 1]
  }

  ghost predicate InStep(d: Desk, order: seq<string>, shell: string) {
    && Inv(d) && Distinct(order) && WholeLines(d, order, shell)
    && (forall i :: 0 <= i < |order| ==> LineKnown(d, order[i], shell))
    && (forall g: int :: OnLastLine(d, order, shell, g))
  }

  /** What a start does: the line is approved as submitted and its handler holds all of it. */
  lemma StartEffect(d: Desk, e: Event, shell: string)
    requires AQ.AllSound(d.q) && Starts(d, e, shell)
    ensures var n, r := Step(d, e), Step(d, e).q.byID[e.id];
            && LineKnown(n, e.id, shell) && r.id == e.id && Chunks(r) == Chunks(d.q.byID[e.id])
            && AQ.AllSound(n.q) && AQ.NoneRewritten(d.q, n.q)
            && n == Desk(n.q, d.handlers[e.h := Executing(r.Clone(), Chunks(r))], d.written)
  {
    AQ.StepKeepsSound(d.q, AQ.Approve(e.id, e.now));
    AQ.ApproveSucceedsIffPending(d.q, AQ.Approve(e.id, e.now), e.id);
    assert AQ.Follows(d.q.byID[e.id], Step(d, e).q.byID[e.id]);
  }

  lemma LinesStayKnown(d: Desk, n: Desk, order: seq<string>, shell: string)
    requires AQ.NoneRewritten(d.q, n.q) && forall i :: 0 <= i < |order| ==> LineKnown(d, order[i], shell)
    ensures forall i :: 0 <= i < |order| ==> LineKnown(n, order[i], shell)
  {
    forall i | 0 <= i < |order| ensures LineKnown(n, order[i], shell) {
      assert LineKnown(d, order[i], shell);
      assert AQ.Follows(d.q.byID[order[i]], n.q.byID[order[i]]);
    }
  }

  lemma NewLineIsEmpty(written: seq<Write>, order: seq<string>, id: string)
    requires Of(written, id) == []
    ensures LineByLine(written, order + [id]) == LineByLine(written, order)
  {
    ForLineIds(written, id);
    LineByLineSplit(written, order, [id]);
    OneLine(written, id);
  }

  /** A line that still waits has not been started on, and nothing of it has been written. */
  lemma WaitingIsUnwritten(d: Desk, order: seq<string>, shell: string, id: string)
    requires InStep(d, order, shell) && id in d.q.byID && d.q.byID[id].state == AQ.Pending
    ensures id !in order && Of(d.written, id) == [] && ForLine(d.written, id) == []
  {
    forall i | 0 <= i < |order| ensures order[i] != id {
      assert LineKnown(d, order[i], shell);
    }
    assert WrittenWell(d, id);
    ForLineIds(d.written, id);
  }

  lemma StartStaysInStep(d: Desk, e: Event, order: seq<string>, shell: string)
    requires InStep(d, order, shell) && Starts(d, e, shell) && forall g: int :: !MidLine(d, g, shell)
    ensures InStep(Step(d, e), order + [e.id], shell)
  {
    var n := Step(d, e);
    StepKeepsInv(d, e);
    StartEffect(d, e, shell);
    WaitingIsUnwritten(d, order, shell, e.id);
    NewLineIsEmpty(d.written, order, e.id);
    LinesStayKnown(d, n, order, shell);
    NewLineIsLast(d, n, e.h, e.id, order, shell);
    GrownOrder(n, order, e.id, shell);
  }

  lemma NewLineIsLast(d: Desk, n: Desk, h: int, id: string, order: seq<string>, shell: string)
    requires forall g: int :: !MidLine(d, g, shell)
    requires h in n.handlers && n.handlers == d.handlers[h := n.handlers[h]]
    requires n.handlers[h].Executing? && n.handlers[h].req.id == id
    ensures forall g: int :: OnLastLine(n, order + [id], shell, g)
  {
    forall g: int ensures OnLastLine(n, order + [id], shell, g) {
      assert !MidLine(d, g, shell);
    }
  }

  lemma GrownOrder(n: Desk, order: seq<string>, id: string, shell: string)
    requires Distinct(order) && id !in order && LineKnown(n, id, shell)
    requires forall i :: 0 <= i < |order| ==> LineKnown(n, order[i], shell)
    ensures Distinct(order + [id])
    ensures forall i :: 0 <= i < |order + [id]| ==> LineKnown(n, (order + [id])[i], shell)
  {
  }

  lemma WriteKeepsWhole(d: Desk, h: int, order: seq<string>, shell: string)
    requires Busy(d, h) && d.handlers[h].rest != [] && HandlerWell(d, h) && OnLastLine(d, order, shell, h)
    requires Distinct(order) && WholeLines(d, order, shell)
    requires forall i :: 0 <= i < |order| ==> LineKnown(d, order[i], shell)
    ensures WholeLines(Step(d, WriteNext(h)), order, shell)
  {
    var x := d.handlers[h];
    var w := Write(x.req.id, x.req.shell, x.rest[0]);
    if x.req.shell == shell {
      WriteStaysWholeIff(d, h, order, |order| - 1, shell);
      assert order[|order|..] == [];
    } else {
      forall i | 0 <= i < |order| ensures order[i] != w.id {
        assert LineKnown(d, order[i], shell);
      }
      OtherLinesStand(d.written, w, order);
      OnShellAppend(d.written, w, shell);
    }
  }

  lemma WriteKeepsLast(d: Desk, h: int, order: seq<string>, shell: string, g: int)
    requires Busy(d, h) && d.handlers[h].rest != [] && OnLastLine(d, order, shell, g)
    ensures OnLastLine(Step(d, WriteNext(h)), order, shell, g)
  {
  }

  lemma WriteStaysInStep(d: Desk, h: int, order: seq<string>, shell: string)
    requires InStep(d, order, shell) && Busy(d, h) && d.handlers[h].rest != []
    ensures InStep(Step(d, WriteNext(h)), order, shell)
  {
    var n := Step(d, WriteNext(h));
    StepKeepsInv(d, WriteNext(h));
    assert HandlerWell(d, h) && OnLastLine(d, order, shell, h);
    WriteKeepsWhole(d, h, order, shell);
    forall i | 0 <= i < |order| ensures LineKnown(n, order[i], shell) {
      assert LineKnown(d, order[i], shell);
    }
    forall g: int ensures OnLastLine(n, order, shell, g) {
      assert OnLastLine(d, order, shell, g);
      WriteKeepsLast(d, h, order, shell, g);
    }
  }

  /** Any other event writes nothing, starts nothing here and rewrites no request. */
  lemma OtherEffect(d: Desk, e: Event, shell: string)
    requires AQ.AllSound(d.q) && !Starts(d, e, shell)
    requires e.WriteNext? ==> !Busy(d, e.h) || d.handlers[e.h].rest == []
    ensures var n := Step(d, e);
            && n.written == d.written && AQ.NoneRewritten(d.q, n.q)
            && forall g: int :: MidLine(n, g, shell) ==> MidLine(d, g, shell) && n.handlers[g] == d.handlers[g]
  {
    if e.Queued? {
      AQ.StepKeepsSound(d.q, e.op);
    } else if e.Approval? && !Busy(d, e.h) {
      AQ.StepKeepsSound(d.q, AQ.Approve(e.id, e.now));
      AQ.ApproveSucceedsIffPending(d.q, AQ.Approve(e.id, e.now), e.id);
    }
  }

  lemma OtherStaysInStep(d: Desk, e: Event, order: seq<string>, shell: string)
    requires InStep(d, order, shell) && !Starts(d, e, shell)
    requires e.WriteNext? ==> !Busy(d, e.h) || d.handlers[e.h].rest == []
    ensures InStep(Step(d, e), order, shell)
  {
    var n := Step(d, e);
    StepKeepsInv(d, e);
    OtherEffect(d, e, shell);
    LinesStayKnown(d, n, order, shell);
    forall g: int ensures OnLastLine(n, order, shell, g) {
      assert OnLastLine(d, order, shell, g);
    }
  }

  lemma StepStaysInStep(d: Desk, e: Event, order: seq<string>, shell: string)
    requires InStep(d, order, shell) && (Starts(d, e, shell) ==> forall g: int :: !MidLine(d, g, shell))
    ensures InStep(Step(d, e), order + StartedNow(d, e, shell), shell)
  {
    if Starts(d, e, shell) {
      StartStaysInStep(d, e, order, shell);
    } else {
      assert order + [] == order;
      if e.WriteNext? && Busy(d, e.h) && d.handlers[e.h].rest != [] {
        WriteStaysInStep(d, e.h, order, shell);
      } else {
        OtherStaysInStep(d, e, order, shell);
      }
    }
  }

  lemma {:induction false} RunStaysInStep(d: Desk, es: seq<Event>, order: seq<string>, shell: string)
    requires InStep(d, order, shell) && NoOverlap(d, es, shell)
    ensures InStep(Run(d, es), order + Started(d, es, shell), shell)
    decreases |es|
  {
    if es == [] {
      assert order + Started(d, es, shell) == order;
    } else {
      var n, now := Step(d, es[0]), StartedNow(d, es[0], shell);
      StepStaysInStep(d, es[0], order, shell);
      RunStaysInStep(n, es[1..], order + now, shell);
      Associate(order, now, Started(n, es[1..], shell));
    }
  }

  /**
   In every run in which no two handlers overlap on a shell, the shell receives whole lines in
   the order they were approved: all writes to it are those of the first line, then those of
   the second, and so on, each of them a beginning of its request.
   */
  lemma ShellGetsWholeLines(d: Desk, order: seq<string>, es: seq<Event>, shell: string)
    requires InStep(d, order, shell) && NoOverlap(d, es, shell)
    ensures var n, lines := Run(d, es), order + Started(d, es, shell);
            && OnShell(n.written, shell) == LineByLine(n.written, lines)
            && Distinct(lines)
            && forall i :: 0 <= i < |lines| ==>
                 lines[i] in n.q.byID && Of(n.written, lines[i]) <= Chunks(n.q.byID[lines[i]])
  {
    RunStaysInStep(d, es, order, shell);
    InStepLines(Run(d, es), order + Started(d, es, shell), shell);
  }

  /** An empty desk is where those runs start. */
  lemma FreshDeskIsInStep(session: string, timeout: int, shell: string)
    ensures InStep(Desk(AQ.NewQueue(session, timeout), map[], []), [], shell)
  {
  }

  lemma InStepLines(d: Desk, order: seq<string>, shell: string)
    requires InStep(d, order, shell)
    ensures forall i :: 0 <= i < |order| ==>
              order[i] in d.q.byID && Of(d.written, order[i]) <= Chunks(d.q.byID[order[i]])
  {
    forall i | 0 <= i < |order| ensures order[i] in d.q.byID && Of(d.written, order[i]) <= Chunks(d.q.byID[order[i]]) {
      assert LineKnown(d, order[i], shell) && WrittenWell(d, order[i]);
    }
  }

  /**
   Overlap is reachable and mixes: two handlers approve two lines of one shell, the first
   writes, the second writes, the first writes again, and the second line has landed inside
   the first.
   */
  lemma OverlappingHandlersMixLines(d: Desk, order: seq<string>, shell: string,
                                    g: int, h: int, a: string, b: string, now: int)
    requires InStep(d, order, shell) && !Busy(d, g) && !Busy(d, h) && g != h && a != b
    requires forall k: int :: !MidLine(d, k, shell)
    requires a in d.q.byID && d.q.byID[a].state == AQ.Pending && d.q.byID[a].shell == shell
    requires b in d.q.byID && d.q.byID[b].state == AQ.Pending && d.q.byID[b].shell == shell
    requires |Chunks(d.q.byID[a])| >= 2 && Chunks(d.q.byID[b]) != []
    ensures var both := Step(Step(d, Approval(g, a, now)), Approval(h, b, now));
            var n := Step(Step(Step(both, WriteNext(g)), WriteNext(h)), WriteNext(g));
            && n.written == d.written + [Write(a, shell, Chunks(d.q.byID[a])[0]),
                                         Write(b, shell, Chunks(d.q.byID[b])[0]),
                                         Write(a, shell, Chunks(d.q.byID[a])[1])]
            && !WholeLines(n, order + [a, b], shell)
  {
    var x := Write(a, shell, Chunks(d.q.byID[a])[0]);
    var y := Write(b, shell, Chunks(d.q.byID[b])[0]);
    var z := Write(a, shell, Chunks(d.q.byID[a])[1]);
    WaitingIsUnwritten(d, order, shell, a);
    WaitingIsUnwritten(d, order, shell, b);
    BothStart(d, shell, g, h, a, b, now);
    MixedWrites(Step(Step(d, Approval(g, a, now)), Approval(h, b, now)), g, h, x, y, z);
    MixedIsNotWhole(d.written, order, shell, x, y, z);
  }

  lemma BothStart(d: Desk, shell: string, g: int, h: int, a: string, b: string, now: int)
    requires AQ.AllSound(d.q) && !Busy(d, g) && !Busy(d, h) && g != h && a != b
    requires Starts(d, Approval(g, a, now), shell) && Starts(d, Approval(h, b, now), shell)
    ensures var both := Step(Step(d, Approval(g, a, now)), Approval(h, b, now));
            && both.written == d.written && Busy(both, g) && Busy(both, h)
            && both.handlers[g].req.id == a && both.handlers[g].req.shell == shell
            && both.handlers[h].req.id == b && both.handlers[h].req.shell == shell
            && both.handlers[g].rest == Chunks(d.q.byID[a]) && both.handlers[h].rest == Chunks(d.q.byID[b])
  {
    var one := Step(d, Approval(g, a, now));
    StartEffect(d, Approval(g, a, now), shell);
    assert one.q.byID[b] == d.q.byID[b];
    StartEffect(one, Approval(h, b, now), shell);
  }

  lemma MixedWrites(d: Desk, g: int, h: int, x: Write, y: Write, z: Write)
    requires Busy(d, g) && Busy(d, h) && g != h && |d.handlers[g].rest| >= 2 && d.handlers[h].rest != []
    requires x == Write(d.handlers[g].req.id, d.handlers[g].req.shell, d.handlers[g].rest[0])
    requires z == Write(d.handlers[g].req.id, d.handlers[g].req.shell, d.handlers[g].rest[1])
    requires y == Write(d.handlers[h].req.id, d.handlers[h].req.shell, d.handlers[h].rest[0])
    ensures Step(Step(Step(d, WriteNext(g)), WriteNext(h)), WriteNext(g)).written == d.written + [x, y, z]
  {
    var n1 := Step(d, WriteNext(g));
    var n2 := Step(n1, WriteNext(h));
    assert n2.handlers[g] == Executing(d.handlers[g].req, d.handlers[g].rest[1..]);
    assert d.written + [x] + [y] + [z] == d.written + [x, y, z];
  }

  lemma MixedIsNotWhole(written: seq<Write>, order: seq<string>, shell: string, x: Write, y: Write, z: Write)
    requires x.id == z.id != y.id && x.shell == y.shell == z.shell == shell
    requires x.id !in order && y.id !in order
    requires OnShell(written, shell) == LineByLine(written, order)
    requires ForLine(written, x.id) == [] && ForLine(written, y.id) == []
    ensures OnShell(written + [x, y, z], shell) != LineByLine(written + [x, y, z], order + [x.id, y.id])
  {
    var w1, w2 := written + [x], written + [x] + [y];
    var w3 := w2 + [z];
    assert w3 == written + [x, y, z];
    var common := LineByLine(written, order);
    OnShellAppend(written, x, shell);
    OnShellAppend(w1, y, shell);
    OnShellAppend(w2, z, shell);
    assert OnShell(w3, shell) == common + [x] + [y] + [z];
    OtherLinesStand(written, x, order);
    OtherLinesStand(w1, y, order);
    OtherLinesStand(w2, z, order);
    FirstThenThird(written, x, y, z);
    LineByLineSplit(w3, order, [x.id, y.id]);
    assert [x.id, y.id][1..] == [y.id];
    var rest := LineByLine(w3, [y.id]);
    assert LineByLine(w3, order + [x.id, y.id]) == common + ([x, z] + rest);
    assert (common + ([x, z] + rest))[|common| + 1] == z;
    assert (common + [x] + [y] + [z])[|common| + 1] == y;
  }

  lemma FirstThenThird(written: seq<Write>, x: Write, y: Write, z: Write)
    requires x.id == z.id != y.id && ForLine(written, x.id) == []
    ensures ForLine(written + [x] + [y] + [z], x.id) == [x, z]
  {
    ForLineAppend(written, x, x.id);
    ForLineAppend(written + [x], y, x.id);
    ForLineAppend(written + [x] + [y], z, x.id);
  }
}
