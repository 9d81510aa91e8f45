/**
 A shell's transcript: the append-only byte log, which is the truth, and the index of
 status marks that labels its spans (internal/message/message.go, internal/storage/store.go,
 and the span listing in internal/mcp/handlers.go).
 */
module MessageLog {
  import opened Basics
  import opened Lines

  datatype Result<T> = Ok(value: T) | Err

  type Status = string

  /** Bytes produced by the shell; every other status labels a point where nothing was written. */
  const OUTPUT: Status := "o"

  datatype Mark = Mark(status: Status, time: int, offset: nat)

  datatype Transcript = Transcript(log: seq<byte>, marks: seq<Mark>, last: Option<Status>)

  const EMPTY: Transcript := Transcript([], [], None)

  // ---------------------------------------------------------------- operations

  /** One mark per status change, none for a repeat. */
  function MarkIfChanged(t: Transcript, status: Status, offset: nat, now: int): Transcript {
    if t.last == Some(status) then t
    else t.(marks := t.marks + [Mark(status, now, offset)], last := Some(status))
  }

  datatype Event = Output(data: seq<byte>, time: int) | MarkOnly(status: Status, time: int)

  function Apply(t: Transcript, e: Event): Transcript {
    match e
    case Output(data, now) =>
      if data == [] then t else MarkIfChanged(t.(log := t.log + data), OUTPUT, |t.log|, now)
    case MarkOnly(status, now) => MarkIfChanged(t, status, |t.log|, now)
  }

  function Replay(t: Transcript, es: seq<Event>): Transcript
    decreases |es|
  {
    if es == [] then t else Replay(Apply(t, es[0]), es[1..])
  }

  // ---------------------------------------------------------------- spans

  datatype Span = Span(status: Status, time: int, start: nat, end: nat)

  /** A span ends where the next mark starts; the last one runs to the end of the log. */
  function SpanEnd(marks: seq<Mark>, size: nat, i: nat): nat
    requires i < |marks|
  {
    if i + 1 < |marks| then marks[i + 1].offset else size
  }

  /** Each span starts at its mark and ends where the next one starts, the last at the end of the log. */
  ghost predicate AreSpans(marks: seq<Mark>, size: nat, spans: seq<Span>) {
    && |spans| == |marks|
    && (forall i :: 0 <= i < |marks| ==>
          spans[i].status == marks[i].status && spans[i].time == marks[i].time && spans[i].start == marks[i].offset)
    && (forall i :: 0 < i < |spans| ==> spans[i - 1].end == spans[i].start)
    && (spans != [] ==> spans[|spans| - 1].end == size)
  }

  method DeriveSpans(marks: seq<Mark>, size: nat) returns (spans: seq<Span>)
    ensures AreSpans(marks, size, spans)
  {
    spans := [];
    for i := 0 to |marks|
      invariant |spans| == i
      invariant forall j :: 0 <= j < i ==>
                  spans[j] == Span(marks[j].status, marks[j].time, marks[j].offset, SpanEnd(marks, size, j))
    {
      var end := size;
      if i + 1 < |marks| {
        end := marks[i + 1].offset;
      }
      spans := spans + [Span(marks[i].status, marks[i].time, marks[i].offset, end)];
    }
    forall i | 0 < i < |spans| ensures spans[i - 1].end == spans[i].start {
      assert spans[i - 1].end == SpanEnd(marks, size, i - 1);
    }
  }

  // ---------------------------------------------------------------- what every run keeps

  ghost predicate InOrder(marks: seq<Mark>) {
    forall i :: 0 < i < |marks| ==> marks[i - 1].offset <= marks[i].offset
  }

  ghost predicate NoRepeats(marks: seq<Mark>) {
    forall i :: 0 < i < |marks| ==> marks[i - 1].status != marks[i].status
  }

  ghost predicate Inv(t: Transcript) {
    var n := |t.marks|;
    && (n == 0 <==> t.last == None)
    && (n == 0 ==> t.log == [])
    && (n > 0 ==> t.marks[0].offset == 0 && t.last == Some(t.marks[n - 1].status) && t.marks[n - 1].offset <= |t.log|)
    && InOrder(t.marks) && NoRepeats(t.marks)
    && (forall i :: 0 <= i < n && t.marks[i].offset < SpanEnd(t.marks, |t.log|, i) ==> t.marks[i].status == OUTPUT)
  }

  /** A new mark at the end of the log, with the bytes it labels. */
  lemma NewMarkKeepsInv(t: Transcript, status: Status, now: int, data: seq<byte>)
    requires Inv(t) && t.last != Some(status) && (data == [] || status == OUTPUT)
    ensures Inv(Transcript(t.log + data, t.marks + [Mark(status, now, |t.log|)], Some(status)))
  {
    NewMarkInOrder(t.marks, Mark(status, now, |t.log|));
  }

  lemma NewMarkInOrder(marks: seq<Mark>, m: Mark)
    requires InOrder(marks) && NoRepeats(marks)
    requires marks != [] ==> marks[|marks| - 1].offset <= m.offset && marks[|marks| - 1].status != m.status
    ensures InOrder(marks + [m]) && NoRepeats(marks + [m])
  {
    var all := marks + [m];
    forall i | 0 < i < |all|
      ensures all[i - 1].offset <= all[i].offset && all[i - 1].status != all[i].status
    {
      if i < |marks| {
        assert marks[i - 1].offset <= marks[i].offset && marks[i - 1].status != marks[i].status;
      }
    }
  }

  /** More output while output is already the current status: the last span grows. */
  lemma MoreOutputKeepsInv(t: Transcript, data: seq<byte>)
    requires Inv(t) && t.last == Some(OUTPUT)
    ensures Inv(t.(log := t.log + data))
  {
    var u := t.(log := t.log + data);
    forall i | 0 <= i < |u.marks| && u.marks[i].offset < SpanEnd(u.marks, |u.log|, i)
      ensures u.marks[i].status == OUTPUT
    {
      if i + 1 < |u.marks| {
        assert SpanEnd(u.marks, |u.log|, i) == SpanEnd(t.marks, |t.log|, i);
      }
    }
  }

  lemma ApplyKeepsInv(t: Transcript, e: Event)
    requires Inv(t)
    ensures Inv(Apply(t, e))
  {
    match e
    case Output(data, now) =>
      if data != [] && t.last == Some(OUTPUT) {
        MoreOutputKeepsInv(t, data);
      } else if data != [] {
        NewMarkKeepsInv(t, OUTPUT, now, data);
      }
    case MarkOnly(status, now) =>
      if t.last != Some(status) {
        assert t.log + [] == t.log;
        NewMarkKeepsInv(t, status, now, []);
      }
  }

  lemma {:induction false} ReplayKeepsInv(t: Transcript, es: seq<Event>)
    requires Inv(t)
    ensures Inv(Replay(t, es))
    decreases |es|
  {
    if es != [] {
      ApplyKeepsInv(t, es[0]);
      ReplayKeepsInv(Apply(t, es[0]), es[1..]);
    }
  }

  /** The bytes of every output event, in order. */
  function Written(es: seq<Event>): seq<byte> {
    if es == [] then [] else (if es[0].Output? then es[0].data else []) + Written(es[1..])
  }

  lemma {:induction false} LogIsExactlyTheOutput(t: Transcript, es: seq<Event>)
    ensures Replay(t, es).log == t.log + Written(es)
    decreases |es|
  {
    if es != [] {
      LogIsExactlyTheOutput(Apply(t, es[0]), es[1..]);
    }
  }

  /** The bytes the spans cover, one span after the other. */
  function Covered(log: seq<byte>, spans: seq<Span>): seq<byte> {
    if spans == [] then []
    else (if spans[0].start <= spans[0].end <= |log| then log[spans[0].start..spans[0].end] else []) + Covered(log, spans[1..])
  }

  lemma {:induction false} CoveredToTheEnd(log: seq<byte>, spans: seq<Span>)
    requires spans != [] && spans[|spans| - 1].end == |log|
    requires forall i :: 0 <= i < |spans| ==> spans[i].start <= spans[i].end <= |log|
    requires forall i :: 0 < i < |spans| ==> spans[i - 1].end == spans[i].start
    ensures Covered(log, spans) == log[spans[0].start..]
  {
    var rest := spans[1..];
    if rest == [] {
      assert log[spans[0].start..spans[0].end] == log[spans[0].start..];
    } else {
      forall i | 0 < i < |rest| ensures rest[i - 1].end == rest[i].start {
        assert spans[(i + 1) - 1].end == spans[i + 1].start;
      }
      assert spans[1 - 1].end == spans[1].start;
      CoveredToTheEnd(log, rest);
      assert log[spans[0].start..] == log[spans[0].start..spans[0].end] + log[spans[0].end..];
    }
  }

  lemma SpanEndsThere(marks: seq<Mark>, size: nat, spans: seq<Span>, i: nat)
    requires AreSpans(marks, size, spans) && i < |marks|
    ensures spans[i].end == SpanEnd(marks, size, i)
  {
    if i + 1 < |spans| {
      assert spans[(i + 1) - 1].end == spans[i + 1].start;
    }
  }

  lemma SpanIsSound(t: Transcript, spans: seq<Span>, i: nat)
    requires Inv(t) && AreSpans(t.marks, |t.log|, spans) && i < |spans|
    ensures spans[i].start <= spans[i].end && (spans[i].status != OUTPUT ==> spans[i].start == spans[i].end)
  {
    SpanEndsThere(t.marks, |t.log|, spans, i);
    if i + 1 < |t.marks| {
      assert t.marks[(i + 1) - 1].offset <= t.marks[i + 1].offset;
    }
  }

  lemma SpansInOrder(t: Transcript, spans: seq<Span>)
    requires Inv(t) && AreSpans(t.marks, |t.log|, spans)
    ensures forall i :: 0 <= i < |spans| ==> spans[i].start <= spans[i].end <= |t.log|
    ensures forall i :: 0 <= i < |spans| && spans[i].status != OUTPUT ==> spans[i].start == spans[i].end
  {
    forall i | 0 <= i < |spans|
      ensures spans[i].start <= spans[i].end && (spans[i].status != OUTPUT ==> spans[i].start == spans[i].end)
    {
      SpanIsSound(t, spans, i);
    }
    if spans != [] {
      EndsBelow(spans, |t.log|, |spans| - 1);
    }
  }

  lemma {:induction false} EndsBelow(spans: seq<Span>, size: nat, k: nat)
    requires k < |spans| && spans[k].end <= size
    requires forall i :: 0 < i < |spans| ==> spans[i - 1].end == spans[i].start
    requires forall i :: 0 <= i < |spans| ==> spans[i].start <= spans[i].end
    ensures forall i :: 0 <= i <= k ==> spans[i].end <= size
    decreases k
  {
    if k > 0 {
      assert spans[k - 1].end == spans[k].start;
      EndsBelow(spans, size, k - 1);
    }
  }

  /**
   Over every run on a fresh shell the derived spans tile the log exactly, from 0 to its size,
   each ending where the next begins, and what they cover is the log; marks never repeat a
   status; every span that holds bytes is an output span, so an input leaves only a point; and
   the log is the output and nothing else.
   */
  lemma SpansTileTheLog(es: seq<Event>, spans: seq<Span>)
    requires var t := Replay(EMPTY, es); AreSpans(t.marks, |t.log|, spans)
    ensures var t := Replay(EMPTY, es);
            && t.log == Written(es) && NoRepeats(t.marks)
            && Covered(t.log, spans) == t.log
            && (spans != [] ==> spans[0].start == 0 && spans[|spans| - 1].end == |t.log|)
            && (forall i :: 0 < i < |spans| ==> spans[i - 1].end == spans[i].start)
            && (forall i :: 0 <= i < |spans| ==>
                  spans[i].start <= spans[i].end && (spans[i].status != OUTPUT ==> spans[i].start == spans[i].end))
  {
    ReplayKeepsInv(EMPTY, es);
    LogIsExactlyTheOutput(EMPTY, es);
    var t := Replay(EMPTY, es);
    SpansInOrder(t, spans);
    if spans != [] {
      CoveredToTheEnd(t.log, spans);
    }
  }

  // ---------------------------------------------------------------- which marks there are

  /** The status an event goes through, if any, with the log size when it happens. */
  function Moment(e: Event, size: nat): seq<Mark> {
    match e
    case Output(data, now) => if data == [] then [] else [Mark(OUTPUT, now, size)]
    case MarkOnly(status, now) => [Mark(status, now, size)]
  }

  /** Every status the run goes through, repeats included. */
  function Moments(es: seq<Event>, size: nat): seq<Mark> {
    if es == [] then []
    else Moment(es[0], size) + Moments(es[1..], size + if es[0].Output? then |es[0].data| else 0)
  }

  /** Leaves out what repeats the status before it. */
  function Changes(moments: seq<Mark>, last: Option<Status>): seq<Mark> {
    if moments == [] then []
    else (if last == Some(moments[0].status) then [] else [moments[0]]) + Changes(moments[1..], Some(moments[0].status))
  }

  lemma ChangesFirst(first: seq<Mark>, rest: seq<Mark>, last: Option<Status>)
    requires |first| <= 1
    ensures Changes(first + rest, last) ==
            Changes(first, last) + Changes(rest, if first == [] then last else Some(first[0].status))
  {
    if first == [] {
      assert first + rest == rest;
    } else {
      assert (first + rest)[1..] == rest && first[1..] == [];
    }
  }

  lemma MomentIsMarked(t: Transcript, e: Event)
    ensures var n, m := Apply(t, e), Moment(e, |t.log|);
            && n.marks == t.marks + Changes(m, t.last)
            && n.last == (if m == [] then t.last else Some(m[0].status))
            && |n.log| == |t.log| + if e.Output? then |e.data| else 0
  {
    var m := Moment(e, |t.log|);
    if m != [] {
      assert m[1..] == [];
    }
  }

  /** The marks are exactly the run's status changes, each at the log size when it happened. */
  lemma {:induction false} MarksAreTheStatusChanges(t: Transcript, es: seq<Event>)
    ensures Replay(t, es).marks == t.marks + Changes(Moments(es, |t.log|), t.last)
    decreases |es|
  {
    if es == [] {
      assert t.marks + [] == t.marks;
    } else {
      var n, m := Apply(t, es[0]), Moment(es[0], |t.log|);
      var rest := Moments(es[1..], |n.log|);
      MomentIsMarked(t, es[0]);
      MarksAreTheStatusChanges(n, es[1..]);
      ChangesFirst(m, rest, t.last);
      Associate(t.marks, Changes(m, t.last), Changes(rest, n.last));
    }
  }

  // ---------------------------------------------------------------- calls that overlap

  /** A mark-only call reads the log size first and takes the session lock afterwards. */
  datatype HalfEvent = Whole(data: seq<byte>, time: int) | ReadSize(caller: int) | WriteMark(caller: int, status: Status, time: int)

  datatype Overlap = Overlap(t: Transcript, sizes: map<int, nat>)

  function HalfStep(o: Overlap, e: HalfEvent): Overlap {
    match e
    case Whole(data, now) => o.(t := Apply(o.t, Output(data, now)))
    case ReadSize(c) => o.(sizes := o.sizes[c := |o.t.log|])
    case WriteMark(c, status, now) =>
      if c in o.sizes then Overlap(MarkIfChanged(o.t, status, o.sizes[c], now), o.sizes - {c}) else o
  }

  function HalfRun(o: Overlap, es: seq<HalfEvent>): Overlap
    decreases |es|
  {
    if es == [] then o else HalfRun(HalfStep(o, es[0]), es[1..])
  }

  ghost predicate WithinLog(o: Overlap) {
    && (forall i :: 0 <= i < |o.t.marks| ==> o.t.marks[i].offset <= |o.t.log|)
    && (forall c :: c in o.sizes ==> o.sizes[c] <= |o.t.log|)
  }

  /** However the calls overlap, no mark ever points past the end of the log. */
  lemma {:induction false} MarksNeverPointPastTheLog(o: Overlap, es: seq<HalfEvent>)
    requires WithinLog(o)
    ensures WithinLog(HalfRun(o, es))
    decreases |es|
  {
    if es != [] {
      MarksNeverPointPastTheLog(HalfStep(o, es[0]), es[1..]);
    }
  }

  /** The order survives the second half of a mark-only call exactly when its size is not stale. */
  lemma OrderSurvivesIffFresh(t: Transcript, status: Status, size: nat, now: int)
    requires InOrder(t.marks)
    ensures InOrder(MarkIfChanged(t, status, size, now).marks) <==>
            t.last == Some(status) || t.marks == [] || t.marks[|t.marks| - 1].offset <= size
  {
    var m := MarkIfChanged(t, status, size, now).marks;
    if t.last != Some(status) && t.marks != [] {
      assert m[|m| - 1].offset == size && m[|m| - 2] == t.marks[|t.marks| - 1];
      if t.marks[|t.marks| - 1].offset <= size {
        forall i | 0 < i < |m| ensures m[i - 1].offset <= m[i].offset {
          if i < |t.marks| {
            assert t.marks[i - 1].offset <= t.marks[i].offset;
          }
        }
      } else {
        assert !(m[(|m| - 1) - 1].offset <= m[|m| - 1].offset);
      }
    }
  }

  /** And a stale size is reachable: output and another input between the two halves. */
  lemma OverlappingMarksLoseOrder(data: seq<byte>)
    requires data != []
    ensures !InOrder(HalfRun(Overlap(EMPTY, map[]),
                             [ReadSize(1), Whole(data, 0), ReadSize(2), WriteMark(2, "a", 0), WriteMark(1, "i", 0)]).t.marks)
  {
    var es := [ReadSize(1), Whole(data, 0), ReadSize(2), WriteMark(2, "a", 0), WriteMark(1, "i", 0)];
    var o1 := HalfStep(Overlap(EMPTY, map[]), es[0]);
    var o2 := HalfStep(o1, es[1]);
    var o3 := HalfStep(o2, es[2]);
    var o4 := HalfStep(o3, es[3]);
    var o5 := HalfStep(o4, es[4]);
    assert o2.t.marks == [Mark(OUTPUT, 0, 0)];
    assert o4.t.marks == [Mark(OUTPUT, 0, 0), Mark("a", 0, |data|)];
    assert o5.t.marks == [Mark(OUTPUT, 0, 0), Mark("a", 0, |data|), Mark("i", 0, 0)];
    assert es[1..][1..] == es[2..] && es[2..][1..] == es[3..] && es[3..][1..] == es[4..] && es[4..][1..] == [];
    calc {
      HalfRun(Overlap(EMPTY, map[]), es);
      HalfRun(o1, es[1..]);
      HalfRun(o2, es[2..]);
      HalfRun(o3, es[3..]);
      HalfRun(o4, es[4..]);
      HalfRun(o5, []);
    }
    assert !(o5.t.marks[2 - 1].offset <= o5.t.marks[2].offset);
  }

  // ---------------------------------------------------------------- the manager

  predicate ValidChar(c: char) {
    'a' <= c <= 'z' || 'A' <= c <= 'Z' || '0' <= c <= '9' || c == '_' || c == '-'
  }

  const NUL: char := '\0'

  /** Ids the store accepts; in particular none holds the key separator. */
  predicate ValidID(id: string) {
    id != "" && forall i :: 0 <= i < |id| ==> ValidChar(id[i])
  }

  function Key(session: string, shell: string): string {
    session + [NUL] + shell
  }

  /** The separator keeps shells apart: an accepted pair shares its key with no other pair. */
  lemma KeyIsInjective(s1: string, h1: string, s2: string, h2: string)
    requires ValidID(s1) && ValidID(h1) && Key(s1, h1) == Key(s2, h2)
    ensures s1 == s2 && h1 == h2
  {
    var k := Key(s1, h1);
    assert k[|s1|] == NUL && k[|s2|] == NUL;
    forall i | 0 <= i < |k| && i != |s1| ensures k[i] != NUL {
      assert k[i] == if i < |s1| then s1[i] else h1[i - |s1| - 1];
    }
    assert s1 == k[..|s1|] && s2 == k[..|s2|];
    assert h1 == k[|s1| + 1..] && h2 == k[|s2| + 1..];
  }

  class Manager {
    var logs: map<(string, string), seq<byte>>
    var marks: map<(string, string), seq<Mark>>
    var lastStatus: map<string, Status>

    ghost function View(session: string, shell: string): Transcript
      reads this
    {
      Transcript(
        if (session, shell) in logs then logs[(session, shell)] else [],
        if (session, shell) in marks then marks[(session, shell)] else [],
        if Key(session, shell) in lastStatus then Some(lastStatus[Key(session, shell)]) else None)
    }

    constructor ()
      ensures forall s: string, h: string :: View(s, h) == EMPTY
    {
      logs, marks, lastStatus := map[], map[], map[];
    }

    /** The file size, 0 when there is no file. */
    method LogSize(session: string, shell: string) returns (n: nat)
      ensures n == |View(session, shell).log|
    {
      n := if (session, shell) in logs then |logs[(session, shell)]| else 0;
    }

    method MarkChange(session: string, shell: string, status: Status, offset: nat, now: int) returns (r: Result<()>)
      modifies this
      ensures r.Ok? == ((ValidID(session) && ValidID(shell)) || old(View(session, shell)).last == Some(status))
      ensures r.Ok? ==> View(session, shell) == MarkIfChanged(old(View(session, shell)), status, offset, now)
      ensures logs == old(logs) && (!r.Ok? ==> marks == old(marks))
      ensures forall s: string, h: string :: ValidID(s) && ValidID(h) && (s, h) != (session, shell) ==>
                View(s, h) == old(View(s, h))
    {
      var key := Key(session, shell);
      forall s: string, h: string | ValidID(s) && ValidID(h) && Key(s, h) == key ensures (s, h) == (session, shell) {
        KeyIsInjective(s, h, session, shell);
      }
      if key in lastStatus && lastStatus[key] == status {
        return Ok(());
      }
      lastStatus := lastStatus[key := status];
      if !ValidID(session) || !ValidID(shell) {
        return Err;
      }
      var prior := if (session, shell) in marks then marks[(session, shell)] else [];
      marks := marks[(session, shell) := prior + [Mark(status, now, offset)]];
      r := Ok(());
    }

    /** Appends bytes, then the mark; the offset returned is where the bytes start in the log. */
    method AppendOutput(session: string, shell: string, data: seq<byte>, now: int) returns (r: Result<nat>)
      modifies this
      ensures data != [] && ValidID(session) && ValidID(shell) ==>
                && r == Ok(|old(View(session, shell)).log|)
                && View(session, shell) == Apply(old(View(session, shell)), Output(data, now))
      ensures data == [] ==> r == Ok(0)
      ensures data != [] && !(ValidID(session) && ValidID(shell)) ==> r == Err
      ensures data == [] || r == Err ==> logs == old(logs) && marks == old(marks) && lastStatus == old(lastStatus)
      ensures forall s: string, h: string :: ValidID(s) && ValidID(h) && (s, h) != (session, shell) ==>
                View(s, h) == old(View(s, h))
    {
      if data == [] {
        return Ok(0);
      }
      if !ValidID(session) || !ValidID(shell) {
        return Err;
      }
      var offset := LogSize(session, shell);
      var prior := if (session, shell) in logs then logs[(session, shell)] else [];
      logs := logs[(session, shell) := prior + data];
      var marked := MarkChange(session, shell, OUTPUT, offset, now);
      r := Ok(offset);
    }

    /** Records a status change that wrote nothing, at the current end of the log. */
    method AppendMarkOnly(session: string, shell: string, status: Status, now: int) returns (r: Result<()>)
      modifies this
      ensures r.Ok? == ((ValidID(session) && ValidID(shell)) || old(View(session, shell)).last == Some(status))
      ensures r.Ok? ==> View(session, shell) == Apply(old(View(session, shell)), MarkOnly(status, now))
      ensures logs == old(logs)
      ensures forall s: string, h: string :: ValidID(s) && ValidID(h) && (s, h) != (session, shell) ==>
                View(s, h) == old(View(s, h))
    {
      var size := LogSize(session, shell);
      r := MarkChange(session, shell, status, size, now);
    }
  }
}
