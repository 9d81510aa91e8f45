/**
 Review mode over a session's shells (internal/session/approval.go, the input handlers in
 internal/mcp/handlers.go and the executor in internal/webui/approval.go): text is held until
 a key ends the line, the line is queued, and an approval writes it.

 The model relates the bytes each shell receives this way to the bytes it would have received
 with review mode off. One event is one whole call here: a key press takes the staged text and
 submits it, an approval writes its whole line. `CommitOverlap` and `ShellWrites` say what calls
 that overlap do to the order of lines and of writes.
 */
module ReviewMode {
  import opened Basics
  import opened ApprovalQueue
  import opened TerminalKeys

  // ---------------------------------------------------------------- what callers do

  /** `id` and `now` are the fresh request id and the clock reading of a commit. */
  datatype Event =
    | SendText(shell: string, text: string)
    | PressKey(shell: string, key: string, repeat: int, id: string, now: int)
    | ApproveLine(id: string, now: int)
    | Refuse(op: Op)  // a rejection, a cancellation or a deadline

  function Get(m: map<string, string>, k: string): string {
    if k in m then m[k] else ""
  }

  // ---------------------------------------------------------------- review mode off

  /** The bytes one event writes to `shell` when nothing is reviewed. */
  function Direct(modes: map<string, Mode>, e: Event, shell: string): string {
    match e
    case SendText(s, text) => if s == shell && s in modes then text else ""
    case PressKey(s, key, repeat, _, _) =>
      if s == shell && s in modes && key != "" then Pressed(modes[s], key, repeat) else ""
    case _ => ""
  }

  function DirectAll(modes: map<string, Mode>, es: seq<Event>, shell: string): string {
    if es == [] then "" else DirectAll(modes, es[..|es| - 1], shell) + Direct(modes, es[|es| - 1], shell)
  }

  // ---------------------------------------------------------------- review mode on

  datatype Review = Review(q: Queue, staged: map<string, string>, stdin: map<string, string>)

  function Join(keys: seq<string>): string {
    if keys == [] then "" else if |keys| == 1 then keys[0] else keys[0] + "," + Join(keys[1..])
  }

  function ShellInputSummary(text: string, keys: seq<string>): string {
    if text != "" && keys != [] then text + " + " + Join(keys)
    else if text != "" then text
    else if keys != [] then "keys: " + Join(keys)
    else "(empty)"
  }

  function Line(shell: string, text: string, keys: seq<string>): Submission {
    Submission(SHELL_INPUT, shell, "mcp", ShellInputSummary(text, keys), text, keys, [])
  }

  function LineBytes(mode: Mode, r: Request): string {
    r.text + KeysPressed(mode, r.keys)
  }

  function Commit(s: Review, e: Event): Op
    requires e.PressKey?
  {
    Submit(e.id, Line(e.shell, Get(s.staged, e.shell), Copies(e.key, if e.repeat < 0 then 0 else e.repeat)), e.now)
  }

  ghost function Handle(modes: map<string, Mode>, s: Review, e: Event): Review {
    match e
    case SendText(shell, text) =>
      if shell !in modes || text == "" then s
      else s.(staged := s.staged[shell := Get(s.staged, shell) + text])
    case PressKey(shell, key, _, _, _) =>
      if key == "" || shell !in modes then s
      else s.(q := ApprovalQueue.Next(s.q, Commit(s, e)), staged := s.staged - {shell})
    case ApproveLine(id, now) =>
      var (q, reply) := ApprovalQueue.Step(s.q, Approve(id, now));
      if reply.Snap? && reply.req.state == Approved && reply.req.shell in modes
      then s.(q := q, stdin := s.stdin[reply.req.shell := Get(s.stdin, reply.req.shell)
                                                          + LineBytes(modes[reply.req.shell], reply.req)])
      else s.(q := q)
    case Refuse(op) => if op.Reject? || op.Cancel? || op.Expire? then s.(q := ApprovalQueue.Next(s.q, op)) else s
  }

  ghost function Run(modes: map<string, Mode>, s: Review, es: seq<Event>): Review {
    if es == [] then s else Handle(modes, Run(modes, s, es[..|es| - 1]), es[|es| - 1])
  }

  function Start(session: string, timeout: int): Review {
    Review(NewQueue(session, timeout), map[], map[])
  }

  // ---------------------------------------------------------------- a key always makes a reviewable line

  lemma SummaryIsReadable(text: string, keys: seq<string>)
    requires keys != []
    ensures !Blank(ShellInputSummary(text, keys))
  {
    var s := ShellInputSummary(text, keys);
    if text != "" {
      assert s[|text| + 1] == '+';
    } else {
      assert s[0] == 'k';
    }
  }

  /** The summary shows the text first and the keys last, so a reviewer sees the line as it was typed. */
  lemma SummaryShowsTheLine(text: string, keys: seq<string>)
    ensures var s := ShellInputSummary(text, keys);
            && (text != "" ==> text <= s)
            && (keys != [] ==> |Join(keys)| <= |s| && s[|s| - |Join(keys)|..] == Join(keys))
            && (text != "" && keys == [] ==> s == text)
  {
  }

  // ---------------------------------------------------------------- each shell's lines

  /** The queue is sound and open, holds lines of attached shells, and lists the shell's own lines once each. */
  ghost predicate Kept(modes: map<string, Mode>, q: Queue, shell: string) {
    var ids := q.ForShell(shell);
    && AllSound(q) && !q.stopped
    && (forall id :: id in q.byID ==> q.byID[id].shell in modes)
    && (forall i :: 0 <= i < |ids| ==> ids[i] in q.byID)
    && (forall i, j :: 0 <= i < j < |ids| ==> ids[i] != ids[j])
  }

  /** Pressing a key always queues the line: the new request and the lists afterwards. */
  lemma CommitEffect(s: Review, e: Event)
    requires e.PressKey? && e.repeat >= 1 && e.id !in s.q.byID && !s.q.stopped && e.shell != ""
    ensures var q, n := s.q, ApprovalQueue.Next(s.q, Commit(s, e));
            && n == q.(byID := q.byID[e.id := NewRequest(q, e.id, Commit(s, e).sub, e.now)],
                       byShell := q.byShell[e.shell := q.ForShell(e.shell) + [e.id]])
  {
    var op := Commit(s, e);
    assert op.sub.keys != [];
    SummaryIsReadable(op.sub.text, op.sub.keys);
  }

  /** A sound new line on the queue and on its shell's list. */
  ghost predicate LineAdded(q: Queue, n: Queue, r: Request) {
    && r.id !in q.byID && Sound(r) && r.state == Pending
    && n == q.(byID := q.byID[r.id := r], byShell := q.byShell[r.shell := q.ForShell(r.shell) + [r.id]])
  }

  lemma AddLineKeeps(modes: map<string, Mode>, q: Queue, n: Queue, r: Request, shell: string)
    requires Kept(modes, q, shell) && LineAdded(q, n, r) && r.shell in modes
    ensures Kept(modes, n, shell)
  {
    var ids := n.ForShell(shell);
    assert ids == q.ForShell(shell) + if shell == r.shell then [r.id] else [];
  }

  lemma CommitAddsLine(modes: map<string, Mode>, s: Review, e: Event) returns (r: Request)
    requires AllSound(s.q) && e.PressKey? && e.repeat >= 1 && e.id !in s.q.byID && !s.q.stopped && e.shell != ""
    ensures LineAdded(s.q, ApprovalQueue.Next(s.q, Commit(s, e)), r)
    ensures r.id == e.id && r.shell == e.shell && r.text == Get(s.staged, e.shell) && r.keys == Copies(e.key, e.repeat)
  {
    CommitEffect(s, e);
    r := NewRequest(s.q, e.id, Commit(s, e).sub, e.now);
  }

  /** A decision leaves every list and every payload as it was. */
  lemma DecisionKeeps(modes: map<string, Mode>, q: Queue, op: Op, shell: string)
    requires Kept(modes, q, shell) && IsDecision(op)
    ensures var n := ApprovalQueue.Next(q, op);
            && Kept(modes, n, shell)
            && n.byShell == q.byShell && n.byID.Keys == q.byID.Keys
            && (forall id :: id in q.byID ==> Follows(q.byID[id], n.byID[id]))
  {
    StepKeepsSound(q, op);
    var n := ApprovalQueue.Next(q, op);
    forall id | id in q.byID ensures Follows(q.byID[id], n.byID[id]) {
    }
    assert n.ForShell(shell) == q.ForShell(shell);
  }

  lemma StepKeeps(modes: map<string, Mode>, s: Review, e: Event, shell: string)
    requires Kept(modes, s.q, shell) && "" !in modes && InRange(TextOnly, e)
    requires e.PressKey? ==> e.id !in s.q.byID
    ensures Kept(modes, Handle(modes, s, e).q, shell)
  {
    match e
    case SendText(_, _) =>
    case PressKey(_, _, _, _, _) =>
      if e.key != "" && e.shell in modes {
        var r := CommitAddsLine(modes, s, e);
        AddLineKeeps(modes, s.q, Handle(modes, s, e).q, r, shell);
      }
    case ApproveLine(id, now) => DecisionKeeps(modes, s.q, Approve(id, now), shell);
    case Refuse(op) =>
      if op.Reject? || op.Cancel? || op.Expire? {
        DecisionKeeps(modes, s.q, op, shell);
      }
  }

  // ---------------------------------------------------------------- two views of a line

  /** What one request contributes: its text, or the bytes executing it writes. */
  datatype View = TextOnly | Bytes(mode: Mode)

  function Show(v: View, r: Request): string {
    match v
    case TextOnly => r.text
    case Bytes(mode) => LineBytes(mode, r)
  }

  function Concat(v: View, ids: seq<string>, byID: map<string, Request>): string {
    if ids == [] then ""
    else Concat(v, ids[..|ids| - 1], byID) + if ids[|ids| - 1] in byID then Show(v, byID[ids[|ids| - 1]]) else ""
  }

  lemma {:induction false} ConcatSame(v: View, ids: seq<string>, a: map<string, Request>, b: map<string, Request>)
    requires forall id :: id in ids ==> id in a && id in b && a[id].SamePayload(b[id])
    ensures Concat(v, ids, a) == Concat(v, ids, b)
  {
    if ids != [] {
      assert ids[|ids| - 1] in ids;
      ConcatSame(v, ids[..|ids| - 1], a, b);
    }
  }

  lemma {:induction false} ConcatPrefix(v: View, ids: seq<string>, all: seq<string>, byID: map<string, Request>)
    requires ids <= all
    ensures Concat(v, ids, byID) <= Concat(v, all, byID)
    decreases |all|
  {
    if |ids| == |all| {
      assert ids == all;
    } else {
      ConcatPrefix(v, ids, all[..|all| - 1], byID);
    }
  }

  // ---------------------------------------------------------------- conservation

  /** What one event sends to a shell, in a view. */
  function Part(v: View, modes: map<string, Mode>, e: Event, shell: string): string {
    if v.TextOnly? && !e.SendText? then "" else Direct(modes, e, shell)
  }

  ghost function Sent(v: View, modes: map<string, Mode>, es: seq<Event>, shell: string): string {
    if es == [] then ""
    else Sent(v, modes, es[..|es| - 1], shell) + Part(v, modes, es[|es| - 1], shell)
  }

  /** The key presses for which a view is conserved. */
  predicate InRange(v: View, e: Event) {
    e.PressKey? ==> e.repeat >= 1 && (v.Bytes? ==> e.repeat <= 20)
  }

  ghost predicate FreshIds(modes: map<string, Mode>, s: Review, es: seq<Event>) {
    es == [] ||
    (var e := es[|es| - 1];
     && FreshIds(modes, s, es[..|es| - 1])
     && (e.PressKey? ==> e.id !in Run(modes, s, es[..|es| - 1]).q.byID))
  }

  /** Everything sent to a shell is, in order, in its submitted lines or still staged. */
  ghost predicate Conserved(v: View, s: Review, sent: string, shell: string) {
    Concat(v, s.q.ForShell(shell), s.q.byID) + Get(s.staged, shell) == sent
  }

  /** A committed line shows the staged text and exactly what pressing the key outright would write. */
  lemma CommittedLineShows(v: View, mode: Mode, r: Request, text: string, key: string, repeat: int)
    requires r.text == text && r.keys == Copies(key, if repeat < 0 then 0 else repeat)
    requires v == TextOnly || (v == Bytes(mode) && 1 <= repeat <= 20)
    ensures Show(v, r) == text + if v.TextOnly? then "" else Pressed(mode, key, repeat)
  {
    if v == TextOnly {
      assert text + "" == text;
    } else {
      RepeatsAgreeIff(mode, key, repeat);
    }
  }

  lemma Regroup(a: string, b: string, c: string)
    ensures a + (b + c) + "" == (a + b) + c
  {
  }

  /** One more line on a shell's list takes over the staged text and the key that ended it. */
  lemma LineAppends(v: View, s: Review, n: Review, id: string, shell: string, pressed: string, sent: string)
    requires Conserved(v, s, sent, shell)
    requires forall k :: k in s.q.ForShell(shell) ==> k in s.q.byID && k in n.q.byID && s.q.byID[k].SamePayload(n.q.byID[k])
    requires n.q.ForShell(shell) == s.q.ForShell(shell) + [id] && Get(n.staged, shell) == ""
    requires id in n.q.byID && Show(v, n.q.byID[id]) == Get(s.staged, shell) + pressed
    ensures Conserved(v, n, sent + pressed, shell)
  {
    ConcatSame(v, s.q.ForShell(shell), s.q.byID, n.q.byID);
    Regroup(Concat(v, s.q.ForShell(shell), s.q.byID), Get(s.staged, shell), pressed);
  }

  /** A step that leaves a shell's list, payloads and staged text alone. */
  lemma Untouched(v: View, s: Review, n: Review, shell: string, sent: string)
    requires Conserved(v, s, sent, shell)
    requires forall k :: k in s.q.ForShell(shell) ==> k in s.q.byID && k in n.q.byID && s.q.byID[k].SamePayload(n.q.byID[k])
    requires n.q.ForShell(shell) == s.q.ForShell(shell) && Get(n.staged, shell) == Get(s.staged, shell)
    ensures Conserved(v, n, sent + "", shell)
  {
    ConcatSame(v, s.q.ForShell(shell), s.q.byID, n.q.byID);
    assert sent + "" == sent;
  }

  lemma AddLineConserves(v: View, s: Review, n: Review, r: Request, sent: string, shell: string, pressed: string)
    requires Conserved(v, s, sent, shell) && LineAdded(s.q, n.q, r) && n.staged == s.staged - {r.shell}
    requires forall k :: k in s.q.ForShell(shell) ==> k in s.q.byID
    requires shell == r.shell ==> Show(v, r) == Get(s.staged, shell) + pressed
    requires shell != r.shell ==> pressed == ""
    ensures Conserved(v, n, sent + pressed, shell)
  {
    if r.shell == shell {
      LineAppends(v, s, n, r.id, shell, pressed, sent);
    } else {
      assert n.q.ForShell(shell) == s.q.ForShell(shell) && Get(n.staged, shell) == Get(s.staged, shell);
      Untouched(v, s, n, shell, sent);
    }
  }

  lemma CommitConserves(v: View, modes: map<string, Mode>, s: Review, e: Event, sent: string, shell: string)
    requires Kept(modes, s.q, shell) && "" !in modes && shell in modes && Conserved(v, s, sent, shell)
    requires e.PressKey? && e.key != "" && e.shell in modes && e.id !in s.q.byID
    requires (v == TextOnly || v == Bytes(modes[shell])) && InRange(v, e)
    ensures Conserved(v, Handle(modes, s, e), sent + Part(v, modes, e, shell), shell)
  {
    var r := CommitAddsLine(modes, s, e);
    if e.shell == shell {
      CommittedLineShows(v, modes[shell], r, Get(s.staged, shell), e.key, e.repeat);
    }
    AddLineConserves(v, s, Handle(modes, s, e), r, sent, shell, Part(v, modes, e, shell));
  }

  lemma DecisionConserves(v: View, modes: map<string, Mode>, s: Review, n: Review, op: Op, sent: string, shell: string)
    requires Kept(modes, s.q, shell) && Conserved(v, s, sent, shell) && IsDecision(op)
    requires n.q == ApprovalQueue.Next(s.q, op) && n.staged == s.staged
    ensures Conserved(v, n, sent + "", shell)
  {
    DecisionKeeps(modes, s.q, op, shell);
    assert n.q.ForShell(shell) == s.q.ForShell(shell);
    Untouched(v, s, n, shell, sent);
  }

  lemma TextConserves(v: View, modes: map<string, Mode>, s: Review, e: Event, sent: string, shell: string)
    requires Conserved(v, s, sent, shell) && e.SendText? && shell in modes
    ensures Conserved(v, Handle(modes, s, e), sent + Part(v, modes, e, shell), shell)
  {
    var n := Handle(modes, s, e);
    assert n.q == s.q;
    assert Get(n.staged, shell) == Get(s.staged, shell) + Part(v, modes, e, shell);
    var head := Concat(v, s.q.ForShell(shell), s.q.byID);
    assert head + (Get(s.staged, shell) + Part(v, modes, e, shell)) == (head + Get(s.staged, shell)) + Part(v, modes, e, shell);
  }

  lemma StepConserves(v: View, modes: map<string, Mode>, s: Review, e: Event, sent: string, shell: string)
    requires Kept(modes, s.q, shell) && "" !in modes && shell in modes && Conserved(v, s, sent, shell)
    requires (v == TextOnly || v == Bytes(modes[shell])) && InRange(v, e)
    requires e.PressKey? ==> e.id !in s.q.byID
    ensures Conserved(v, Handle(modes, s, e), sent + Part(v, modes, e, shell), shell)
  {
    match e
    case SendText(_, _) => TextConserves(v, modes, s, e, sent, shell);
    case PressKey(_, _, _, _, _) =>
      if e.key != "" && e.shell in modes {
        CommitConserves(v, modes, s, e, sent, shell);
      } else {
        assert sent + Part(v, modes, e, shell) == sent;
      }
    case ApproveLine(id, now) => DecisionConserves(v, modes, s, Handle(modes, s, e), Approve(id, now), sent, shell);
    case Refuse(op) =>
      if op.Reject? || op.Cancel? || op.Expire? {
        DecisionConserves(v, modes, s, Handle(modes, s, e), op, sent, shell);
      } else {
        assert sent + "" == sent;
      }
  }

  /**
   In every run of whole calls, while the mode stays on, whatever is approved, refused or left waiting: each shell's
   submitted lines in order, followed by what is still staged, are exactly what was sent to
   it. As text this holds for any key pressed at least once; as bytes, against the direct
   path, for 1 to 20 repeats of any key.
   */
  lemma {:induction false} NothingSentIsLost(v: View, modes: map<string, Mode>, session: string, timeout: int,
                                             es: seq<Event>, shell: string)
    requires "" !in modes && shell in modes && FreshIds(modes, Start(session, timeout), es)
    requires v == TextOnly || v == Bytes(modes[shell])
    requires forall i :: 0 <= i < |es| ==> InRange(v, es[i])
    ensures var s := Run(modes, Start(session, timeout), es);
            Kept(modes, s.q, shell) && Conserved(v, s, Sent(v, modes, es, shell), shell)
  {
    if es != [] {
      var before, e := es[..|es| - 1], es[|es| - 1];
      NothingSentIsLost(v, modes, session, timeout, before, shell);
      var s := Run(modes, Start(session, timeout), before);
      StepKeeps(modes, s, e, shell);
      StepConserves(v, modes, s, e, Sent(v, modes, before, shell), shell);
    }
  }

  // ---------------------------------------------------------------- what approvals write

  /** The event is an approval, and it went through. */
  ghost predicate Released(s: Review, e: Event) {
    e.ApproveLine? && ApprovalQueue.Step(s.q, Approve(e.id, e.now)).1.Snap?
  }

  /** The ids whose approval went through, in the order of the approvals. */
  ghost function Approvals(modes: map<string, Mode>, s: Review, es: seq<Event>): seq<string> {
    if es == [] then []
    else
      var e := es[|es| - 1];
      Approvals(modes, s, es[..|es| - 1]) + if Released(Run(modes, s, es[..|es| - 1]), e) then [e.id] else []
  }

  /** The ids in `ids` that belong to a shell. */
  function Only(ids: seq<string>, byID: map<string, Request>, shell: string): seq<string> {
    if ids == [] then []
    else
      var id := ids[|ids| - 1];
      Only(ids[..|ids| - 1], byID, shell) + if id in byID && byID[id].shell == shell then [id] else []
  }

  lemma {:induction false} OnlySame(ids: seq<string>, a: map<string, Request>, b: map<string, Request>, shell: string)
    requires forall id :: id in ids ==> id in a && id in b && a[id].SamePayload(b[id])
    ensures Only(ids, a, shell) == Only(ids, b, shell)
    ensures forall id :: id in Only(ids, a, shell) ==> id in ids
  {
    if ids != [] {
      assert ids[|ids| - 1] in ids;
      OnlySame(ids[..|ids| - 1], a, b, shell);
    }
  }

  /** Exactly the approved requests were released, each once. */
  ghost predicate ReleasedOnce(q: Queue, ids: seq<string>) {
    && (forall i, j :: 0 <= i < j < |ids| ==> ids[i] != ids[j])
    && (forall id :: id in ids <==> id in q.byID && q.byID[id].state == Approved)
  }

  /** The shell's input is the released lines' bytes, in the order of release. */
  ghost predicate Wrote(mode: Mode, s: Review, ids: seq<string>, shell: string) {
    Get(s.stdin, shell) == Concat(Bytes(mode), Only(ids, s.q.byID, shell), s.q.byID)
  }

  lemma QuietKeepsWrote(mode: Mode, s: Review, n: Review, ids: seq<string>, shell: string)
    requires Wrote(mode, s, ids, shell) && Get(n.stdin, shell) == Get(s.stdin, shell)
    requires forall id :: id in ids ==> id in s.q.byID && id in n.q.byID && s.q.byID[id].SamePayload(n.q.byID[id])
    ensures Wrote(mode, n, ids, shell)
  {
    OnlySame(ids, s.q.byID, n.q.byID, shell);
    ConcatSame(Bytes(mode), Only(ids, s.q.byID, shell), s.q.byID, n.q.byID);
  }

  lemma ReleaseKeepsWrote(mode: Mode, s: Review, n: Review, ids: seq<string>, id: string, shell: string)
    requires Wrote(mode, s, ids, shell) && id in n.q.byID
    requires forall k :: k in ids ==> k in s.q.byID && k in n.q.byID && s.q.byID[k].SamePayload(n.q.byID[k])
    requires Get(n.stdin, shell) ==
             Get(s.stdin, shell) + if n.q.byID[id].shell == shell then Show(Bytes(mode), n.q.byID[id]) else ""
    ensures Wrote(mode, n, ids + [id], shell)
  {
    var own := Only(ids, s.q.byID, shell);
    OnlySame(ids, s.q.byID, n.q.byID, shell);
    ConcatSame(Bytes(mode), own, s.q.byID, n.q.byID);
    assert (ids + [id])[..|ids|] == ids;
    if n.q.byID[id].shell == shell {
    } else {
      assert own + [] == own && Get(s.stdin, shell) + "" == Get(s.stdin, shell);
    }
  }

  /** What a released line changes: its own request, and the input of its own shell. */
  lemma ReleaseEffect(modes: map<string, Mode>, s: Review, e: Event, shell: string)
    requires Kept(modes, s.q, shell) && shell in modes && Released(s, e)
    ensures var n := Handle(modes, s, e);
            && e.id in s.q.byID && s.q.byID[e.id].state == Pending && n.q.byID[e.id].state == Approved
            && Get(n.stdin, shell) == Get(s.stdin, shell) +
                                      if n.q.byID[e.id].shell == shell then Show(Bytes(modes[shell]), n.q.byID[e.id]) else ""
  {
    var n, op := Handle(modes, s, e), Approve(e.id, e.now);
    ApproveSucceedsIffPending(s.q, op, e.id);
    var r := n.q.byID[e.id];
    assert r.Clone().text == r.text && r.Clone().keys == r.keys && r.Clone().shell == r.shell;
    assert Get(s.stdin, shell) + "" == Get(s.stdin, shell);
  }

  lemma ReleaseKeepsOnce(q: Queue, n: Queue, ids: seq<string>, id: string)
    requires ReleasedOnce(q, ids) && id in q.byID && q.byID[id].state == Pending
    requires n.byID.Keys == q.byID.Keys && n.byID[id].state == Approved
    requires forall k :: k in q.byID && k != id ==> (n.byID[k].state == Approved <==> q.byID[k].state == Approved)
    ensures ReleasedOnce(n, ids + [id])
  {
    forall k ensures k in ids + [id] <==> k in n.byID && n.byID[k].state == Approved {
      assert k in ids + [id] <==> k in ids || k == id;
    }
  }

  /** A call that is not a successful approval of a request leaves its approval as it was. */
  lemma QuietDecision(q: Queue, op: Op, id: string)
    requires AllSound(q) && id in q.byID && !Approves(q, op, id)
    ensures var n := ApprovalQueue.Next(q, op);
            id in n.byID && (n.byID[id].state == Approved <==> q.byID[id].state == Approved)
  {
    StepKeepsSound(q, op);
    if q.byID[id].state == Pending {
      OnlyApproveApproves(q, op, id);
    } else {
      assert Follows(q.byID[id], ApprovalQueue.Next(q, op).byID[id]);
    }
  }

  lemma DecisionKeepsReleased(modes: map<string, Mode>, s: Review, e: Event, op: Op, ids: seq<string>, shell: string)
    requires Kept(modes, s.q, shell) && shell in modes && ReleasedOnce(s.q, ids) && Wrote(modes[shell], s, ids, shell)
    requires IsDecision(op) && Handle(modes, s, e).q == ApprovalQueue.Next(s.q, op)
    requires (e.ApproveLine? && op == Approve(e.id, e.now)) || (e.Refuse? && op == e.op && !op.Approve?)
    ensures var n, more := Handle(modes, s, e), ids + if Released(s, e) then [e.id] else [];
            ReleasedOnce(n.q, more) && Wrote(modes[shell], n, more, shell)
  {
    var n := Handle(modes, s, e);
    DecisionKeeps(modes, s.q, op, shell);
    forall k | k in s.q.byID && !Approves(s.q, op, k)
      ensures n.q.byID[k].state == Approved <==> s.q.byID[k].state == Approved
    {
      QuietDecision(s.q, op, k);
    }
    if Released(s, e) {
      ReleaseEffect(modes, s, e, shell);
      ReleaseKeepsOnce(s.q, n.q, ids, e.id);
      ReleaseKeepsWrote(modes[shell], s, n, ids, e.id, shell);
    } else {
      assert ids + [] == ids;
      QuietKeepsWrote(modes[shell], s, n, ids, shell);
    }
  }

  lemma AddLineKeepsReleased(mode: Mode, s: Review, n: Review, r: Request, ids: seq<string>, shell: string)
    requires ReleasedOnce(s.q, ids) && Wrote(mode, s, ids, shell) && LineAdded(s.q, n.q, r) && n.stdin == s.stdin
    ensures ReleasedOnce(n.q, ids) && Wrote(mode, n, ids, shell)
  {
    QuietKeepsWrote(mode, s, n, ids, shell);
  }

  lemma StepKeepsReleased(modes: map<string, Mode>, s: Review, e: Event, ids: seq<string>, shell: string)
    requires Kept(modes, s.q, shell) && "" !in modes && shell in modes
    requires ReleasedOnce(s.q, ids) && Wrote(modes[shell], s, ids, shell)
    requires InRange(TextOnly, e) && (e.PressKey? ==> e.id !in s.q.byID)
    ensures var n, more := Handle(modes, s, e), ids + if Released(s, e) then [e.id] else [];
            ReleasedOnce(n.q, more) && Wrote(modes[shell], n, more, shell)
  {
    var n := Handle(modes, s, e);
    if e.ApproveLine? {
      DecisionKeepsReleased(modes, s, e, Approve(e.id, e.now), ids, shell);
    } else if e.Refuse? && (e.op.Reject? || e.op.Cancel? || e.op.Expire?) {
      DecisionKeepsReleased(modes, s, e, e.op, ids, shell);
    } else {
      assert ids + [] == ids;
      if e.PressKey? && e.key != "" && e.shell in modes {
        var r := CommitAddsLine(modes, s, e);
        AddLineKeepsReleased(modes[shell], s, n, r, ids, shell);
      } else {
        assert n.q == s.q && n.stdin == s.stdin;
      }
    }
  }

  /**
   In every run of whole calls, approving some lines writes exactly those lines' bytes to their
   shells, in approval order, each once, and nothing else ever reaches a shell.
   */
  lemma {:induction false} ShellGetsApprovedLines(modes: map<string, Mode>, session: string, timeout: int,
                                                  es: seq<Event>, shell: string)
    requires "" !in modes && shell in modes && FreshIds(modes, Start(session, timeout), es)
    requires forall i :: 0 <= i < |es| ==> InRange(TextOnly, es[i])
    ensures var s, ids := Run(modes, Start(session, timeout), es), Approvals(modes, Start(session, timeout), es);
            Kept(modes, s.q, shell) && ReleasedOnce(s.q, ids) && Wrote(modes[shell], s, ids, shell)
  {
    if es != [] {
      var before, e := es[..|es| - 1], es[|es| - 1];
      ShellGetsApprovedLines(modes, session, timeout, before, shell);
      var s := Run(modes, Start(session, timeout), before);
      StepKeeps(modes, s, e, shell);
      StepKeepsReleased(modes, s, e, Approvals(modes, Start(session, timeout), before), shell);
    }
  }

  // ---------------------------------------------------------------- transparency

  lemma {:induction false} SentBytesAreDirect(modes: map<string, Mode>, es: seq<Event>, shell: string)
    requires shell in modes
    ensures Sent(Bytes(modes[shell]), modes, es, shell) == DirectAll(modes, es, shell)
  {
    if es != [] {
      SentBytesAreDirect(modes, es[..|es| - 1], shell);
    }
  }

  /** A rejection, a cancellation and a deadline reach the queue as they are, and write nothing. */
  lemma RefusalReachesTheQueue(modes: map<string, Mode>, s: Review, op: Op)
    requires op.Reject? || op.Cancel? || op.Expire?
    ensures Handle(modes, s, Refuse(op)) == s.(q := ApprovalQueue.Step(s.q, op).0)
  {
  }

  /** A line that was rejected is never written: approving it afterwards changes no shell's input. */
  lemma RejectedLineIsNeverWritten(modes: map<string, Mode>, s: Review, id: string, reason: string, before: int, now: int)
    requires AllSound(s.q) && id in s.q.byID && s.q.byID[id].state == Pending
    ensures var n := Handle(modes, s, Refuse(Reject(id, reason, before)));
            && n.stdin == s.stdin && id in n.q.byID && n.q.byID[id].state == Rejected
            && Handle(modes, n, ApproveLine(id, now)).stdin == s.stdin
  {
    var n := Handle(modes, s, Refuse(Reject(id, reason, before)));
    StepKeepsSound(s.q, Reject(id, reason, before));
    RejectsIffPending(s.q, id, reason, before);
    ApproveSucceedsIffPending(n.q, Approve(id, now), id);
  }

  /** The shell's lines that were approved, in the order of their approvals. */
  ghost function ReleasedLines(modes: map<string, Mode>, s: Review, es: seq<Event>, shell: string): seq<string> {
    Only(Approvals(modes, s, es), Run(modes, s, es).q.byID, shell)
  }

  /**
   Review mode is transparent. For every script of whole calls over any number of shells, with 1 to 20
   repeats of any key: approving a shell's lines in the order they were submitted writes a
   prefix of what the shell would have received unreviewed; and when all of them are approved,
   all that is missing is the text of a line not yet ended.
   */
  lemma ReviewIsTransparent(modes: map<string, Mode>, session: string, timeout: int, es: seq<Event>, shell: string)
    requires "" !in modes && shell in modes && FreshIds(modes, Start(session, timeout), es)
    requires forall i :: 0 <= i < |es| ==> InRange(Bytes(modes[shell]), es[i])
    requires ReleasedLines(modes, Start(session, timeout), es, shell) <= Run(modes, Start(session, timeout), es).q.ForShell(shell)
    ensures var s := Run(modes, Start(session, timeout), es);
            && Get(s.stdin, shell) <= DirectAll(modes, es, shell)
            && (ReleasedLines(modes, Start(session, timeout), es, shell) == s.q.ForShell(shell) ==>
                  Get(s.stdin, shell) + Get(s.staged, shell) == DirectAll(modes, es, shell))
  {
    var s, v := Run(modes, Start(session, timeout), es), Bytes(modes[shell]);
    var released := ReleasedLines(modes, Start(session, timeout), es, shell);
    NothingSentIsLost(v, modes, session, timeout, es, shell);
    SentBytesAreDirect(modes, es, shell);
    ShellGetsApprovedLines(modes, session, timeout, es, shell);
    ConcatPrefix(v, released, s.q.ForShell(shell), s.q.byID);
  }

  // ---------------------------------------------------------------- where the two paths part

  /** What one line, held, queued and approved, writes. */
  function ReviewedLine(mode: Mode, text: string, key: string, repeat: int): string {
    var keys := Copies(key, if repeat < 0 then 0 else repeat);
    if NothingToApprove(Line("shell", text, keys)) then "" else text + KeysPressed(mode, keys)
  }

  function DirectLine(mode: Mode, text: string, key: string, repeat: int): string {
    text + Pressed(mode, key, repeat)
  }

  /**
   One line's bytes agree exactly for 1 to 20 repeats, or for an unknown key unless a
   non-positive repeat leaves nothing but blanks to review.
   */
  lemma LineIsTransparentIff(mode: Mode, text: string, key: string, repeat: int)
    ensures ReviewedLine(mode, text, key, repeat) == DirectLine(mode, text, key, repeat) <==>
            || 1 <= repeat <= 20
            || (KeyBytes(key, mode).None? && (repeat >= 1 || text == "" || !Blank(text)))
  {
    RepeatsAgreeIff(mode, key, repeat);
    if repeat >= 1 {
      assert Copies(key, repeat) != [];
      SummaryIsReadable(text, Copies(key, repeat));
      assert DirectLine(mode, text, key, repeat)[|text|..] == Pressed(mode, key, repeat);
      assert ReviewedLine(mode, text, key, repeat)[|text|..] == KeysPressed(mode, Copies(key, repeat));
    } else {
      assert text + "" == text;
      if KeyBytes(key, mode).Some? {
        var b := KeyBytes(key, mode).value;
        assert Repeat(b, 1) == b + Repeat(b, 0) == b && |b| > 0;
      }
    }
  }

  // ---------------------------------------------------------------- the object

  /** The next key either adds its bytes or, when unknown, ends the line. */
  lemma NextKeyPressed(mode: Mode, keys: seq<string>, i: nat, written: string)
    requires i < |keys|
    ensures written + KeysPressed(mode, keys[i..]) ==
            match KeyBytes(keys[i], mode)
            case None => written
            case Some(b) => (written + b) + KeysPressed(mode, keys[i + 1..])
  {
    assert keys[i..][0] == keys[i] && keys[i..][1..] == keys[i + 1..];
    if KeyBytes(keys[i], mode).Some? {
      var b := KeyBytes(keys[i], mode).value;
      assert Repeat(b, 1) == b + Repeat(b, 0) == b;
      assert written + (b + KeysPressed(mode, keys[i + 1..])) == (written + b) + KeysPressed(mode, keys[i + 1..]);
    }
  }

  class ReviewSession {
    const modes: map<string, Mode>
    const queue: ReviewQueue
    var pending: map<string, string>
    var stdin: map<string, string>

    ghost function View(): Review
      reads this, queue
    {
      Review(queue.View(), pending, stdin)
    }

    constructor (session: string, timeout: int, modes: map<string, Mode>)
      ensures View() == Start(session, timeout) && this.modes == modes && fresh(queue)
    {
      this.modes := modes;
      queue := new ReviewQueue(session, 1, timeout);
      pending, stdin := map[], map[];
    }

    /** Holds text for a shell; nothing is written and nothing is queued yet. */
    method StageText(shell: string, text: string)
      modifies this`pending
      ensures View() == Handle(modes, old(View()), SendText(shell, text))
    {
      if shell !in modes || text == "" {
        return;
      }
      var cur := if shell in pending then pending[shell] else "";
      pending := pending[shell := cur + text];
    }

    /** Queues what a shell has staged together with the key that ended it. */
    method CommitStaged(shell: string, key: string, repeat: int, id: string, now: int) returns (reply: Reply)
      requires id !in queue.byID
      modifies this`pending, queue
      ensures View() == Handle(modes, old(View()), PressKey(shell, key, repeat, id, now))
      ensures reply == if key == "" || shell !in modes then NotFound
                       else ApprovalQueue.Step(old(View()).q, Commit(old(View()), PressKey(shell, key, repeat, id, now))).1
    {
      if key == "" || shell !in modes {
        return NotFound;
      }
      var text := if shell in pending then pending[shell] else "";
      pending := pending - {shell};
      var keys: seq<string> := [];
      var i := 0;
      while i < repeat
        invariant 0 <= i && (i <= repeat || i == 0)
        invariant keys + Copies(key, if repeat < i then 0 else repeat - i) == Copies(key, if repeat < 0 then 0 else repeat)
      {
        var left := repeat - i;
        assert Copies(key, left) == [key] + Copies(key, left - 1);
        assert keys + ([key] + Copies(key, left - 1)) == (keys + [key]) + Copies(key, left - 1);
        keys := keys + [key];
        i := i + 1;
      }
      assert keys + [] == keys;
      reply := queue.SubmitRequest(id, Line(shell, text, keys), now);
    }

    /** Approves a request and, if that went through, writes its text and then its keys. */
    method ApproveAndExecute(id: string, now: int) returns (reply: Reply)
      modifies this`stdin, queue
      ensures View() == Handle(modes, old(View()), ApproveLine(id, now))
      ensures reply == ApprovalQueue.Step(old(View()).q, Approve(id, now)).1
    {
      reply := queue.ApproveRequest(id, now);
      if !reply.Snap? || reply.req.state != Approved {
        return;
      }
      var req := reply.req;
      if req.shell !in modes {
        return;
      }
      ExecuteApproved(req.shell, req.text, req.keys);
    }

    method ExecuteApproved(shell: string, text: string, keys: seq<string>)
      requires shell in modes
      modifies this`stdin
      ensures stdin == old(stdin)[shell := Get(old(stdin), shell) + (text + KeysPressed(modes[shell], keys))]
    {
      var written := if shell in stdin then stdin[shell] else "";
      if text != "" {
        written := written + text;
      }
      assert written == Get(old(stdin), shell) + text;
      written := PressAll(modes[shell], keys, written);
      Associate(Get(old(stdin), shell), text, KeysPressed(modes[shell], keys));
      stdin := stdin[shell := written];
    }

    /** One key after the other, stopping at an unknown one. */
    static method PressAll(mode: Mode, keys: seq<string>, start: string) returns (written: string)
      ensures written == start + KeysPressed(mode, keys)
    {
      written := start;
      assert keys[0..] == keys;
      for i := 0 to |keys|
        invariant written + KeysPressed(mode, keys[i..]) == start + KeysPressed(mode, keys)
      {
        NextKeyPressed(mode, keys, i, written);
        var bytes := KeyBytes(keys[i], mode);
        if bytes.None? {
          return;
        }
        written := written + bytes.value;
      }
      assert written + "" == written;
    }
  }
}
