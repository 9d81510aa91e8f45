/**
 The review queue of one session (internal/approval/approval.go): submitted command lines
 and operations wait for one decision, and a request that has been resolved stays resolved.
 */
module ApprovalQueue {
  import opened Basics
  import opened Lines

  // ---------------------------------------------------------------- requests

  datatype State = Pending | Approved | Rejected | Expired | Cancelled

  const LOCAL_REVIEWER := "local"
  const SHELL_INPUT := "shell_input"

  /**
   `open` says whether the done signal is still open; `closes` counts how often it was
   closed. Everything up to `need` is the payload and its deadline, fixed at submission.
   */
  datatype Request = Request(
    id: string, session: string, shell: string, source: string,
    kind: string, summary: string, text: string, keys: seq<string>, payload: seq<byte>,
    createdAt: int, expiresAt: int, need: int,
    state: State, approvals: seq<string>, decidedBy: string, reason: string, resolvedAt: int,
    open: bool, closes: nat)
  {
    function NeedsMore(): nat {
      if need > |approvals| then need - |approvals| else 0
    }

    /** The copy handed to callers carries no signal. */
    function Clone(): Request { this.(open := false) }

    /** The part no later operation may touch. */
    ghost predicate SamePayload(r: Request) {
      && id == r.id && session == r.session && shell == r.shell && source == r.source
      && kind == r.kind && summary == r.summary && text == r.text && keys == r.keys && payload == r.payload
      && createdAt == r.createdAt && expiresAt == r.expiresAt && need == r.need
    }
  }

  datatype Submission = Submission(
    kind: string, shell: string, source: string, summary: string,
    text: string, keys: seq<string>, payload: seq<byte>)

  /** unicode.IsSpace */
  predicate IsSpace(c: char) {
    || c in {'\t', '\n', '\U{0B}', '\U{0C}', '\r', ' ', '\U{85}', '\U{A0}', '\U{1680}'}
    || '\U{2000}' <= c <= '\U{200A}'
    || c in {'\U{2028}', '\U{2029}', '\U{202F}', '\U{205F}', '\U{3000}'}
  }

  /** strings.TrimSpace(s) == "" */
  predicate Blank(s: string) {
    forall i :: 0 <= i < |s| ==> IsSpace(s[i])
  }

  predicate NothingToApprove(sub: Submission) {
    var kind := if sub.kind == "" then SHELL_INPUT else sub.kind;
    || (kind == SHELL_INPUT && sub.text == "" && sub.keys == [])
    || (kind != SHELL_INPUT && sub.payload == [])
    || Blank(sub.summary)
  }

  // ---------------------------------------------------------------- the queue as a value

  datatype Queue = Queue(
    session: string, need: int, timeout: int,
    byID: map<string, Request>, byShell: map<string, seq<string>>, stopped: bool)
  {
    function ForShell(shell: string): seq<string> {
      if shell in byShell then byShell[shell] else []
    }
  }

  /** One decision resolves a request, whatever threshold was asked for. */
  function NewQueue(session: string, timeout: int): Queue {
    Queue(session, 1, timeout, map[], map[], false)
  }

  datatype Op =
    | Submit(id: string, sub: Submission, now: int)
    | Approve(id: string, now: int)
    | Reject(id: string, reason: string, now: int)
    | Cancel(id: string, reason: string, now: int)
    | Expire(id: string, now: int)
    | Stop                                    // first lock hold of Close
    | CancelPending(reason: string, now: int) // its second one, and CancelAll

  datatype Reply =
    | Id(id: string)
    | Snap(req: Request)
    | Timeout(req: Request)
    | NotPending(req: Request)
    | NotFound
    | Empty
    | Closed
    | Ok

  function NewRequest(q: Queue, id: string, sub: Submission, now: int): Request {
    Request(id, q.session, sub.shell, sub.source,
            if sub.kind == "" then SHELL_INPUT else sub.kind,
            sub.summary, sub.text, sub.keys, sub.payload,
            now, if q.timeout > 0 then now + q.timeout else 0, q.need,
            Pending, [], "", "", 0, true, 0)
  }

  function Resolve(r: Request, state: State, reason: string, now: int): Request {
    r.(state := state, decidedBy := "", reason := reason, resolvedAt := now,
       open := false, closes := r.closes + if r.open then 1 else 0)
  }

  function CancelOne(r: Request, reason: string, now: int): Request {
    if r.state == Pending then Resolve(r, Cancelled, reason, now) else r
  }

  /** CancelOne on every request, one after the other in any order: a recursion for the reason given at Shifted. */
  ghost function CancelEach(byID: map<string, Request>, reason: string, now: int): (r: map<string, Request>)
    ensures r.Keys == byID.Keys
    ensures forall id :: id in byID ==> r[id] == CancelOne(byID[id], reason, now)
    decreases |byID|
  {
    if byID.Keys == {} then map[]
    else
      var id := Any(byID.Keys);
      CancelEach(byID - {id}, reason, now)[id := CancelOne(byID[id], reason, now)]
  }

  predicate IsDecision(op: Op) { op.Approve? || op.Reject? || op.Cancel? || op.Expire? }

  /** What a decision, a cancellation or a deadline makes of one request. */
  function Decide(r: Request, op: Op): (Request, Reply)
    requires IsDecision(op)
  {
    match op
    case Approve(_, now) =>
      if r.state != Pending then (r, NotPending(r.Clone()))
      else
        var voted := r.(approvals := r.approvals + [LOCAL_REVIEWER]);
        var decided := if voted.NeedsMore() == 0 then Resolve(voted, Approved, "", now) else voted;
        (decided, Snap(decided.Clone()))
    case Reject(_, reason, now) =>
      if r.state != Pending then (r, NotPending(r.Clone()))
      else (Resolve(r, Rejected, reason, now), Snap(Resolve(r, Rejected, reason, now).Clone()))
    case Cancel(_, reason, now) =>
      (if r.state != Pending then r else Resolve(r, Cancelled, reason, now), Ok)
    case Expire(_, now) =>
      if r.state != Pending || r.expiresAt == 0 || now < r.expiresAt then (r, Snap(r.Clone()))
      else (Resolve(r, Expired, "", now), Timeout(Resolve(r, Expired, "", now).Clone()))
  }

  /** One lock hold: the new queue and what the caller is told. */
  ghost function Step(q: Queue, op: Op): (Queue, Reply) {
    match op
    case Submit(id, sub, now) =>
      if NothingToApprove(sub) then (q, Empty)
      else if q.stopped then (q, Closed)
      else
        (q.(byID := q.byID[id := NewRequest(q, id, sub, now)],
            byShell := if sub.shell == "" then q.byShell else q.byShell[sub.shell := q.ForShell(sub.shell) + [id]]),
         Id(id))
    case Stop => (q.(stopped := true), Ok)
    case CancelPending(reason, now) =>
      (q.(byID := CancelEach(q.byID, reason, now)), Ok)
    case _ =>
      if op.id !in q.byID || (op.Cancel? && op.id == "") then (q, if op.Cancel? then Ok else NotFound)
      else
        var (r, reply) := Decide(q.byID[op.id], op);
        (q.(byID := q.byID[op.id := r]), reply)
  }

  /** Ids are minted fresh, so a submission never names an id already in use. */
  predicate Enabled(q: Queue, op: Op) {
    op.Submit? ==> op.id !in q.byID
  }

  ghost function Next(q: Queue, op: Op): Queue {
    if Enabled(q, op) then Step(q, op).0 else q
  }

  ghost function Run(q: Queue, ops: seq<Op>): Queue
    decreases |ops|
  {
    if ops == [] then q else Run(Next(q, ops[0]), ops[1..])
  }

  // ---------------------------------------------------------------- one request's life

  /** Pending exactly while the signal is open; closed exactly once; approvals exactly when approved. */
  ghost predicate Sound(r: Request) {
    && (r.state == Pending <==> r.open)
    && r.closes == (if r.state == Pending then 0 else 1)
    && r.need == 1
    && r.approvals == (if r.state == Approved then [LOCAL_REVIEWER] else [])
  }

  ghost predicate AllSound(q: Queue) {
    && q.need == 1
    && forall id :: id in q.byID ==> q.byID[id].id == id && Sound(q.byID[id])
  }

  /** `r2` is `r1` later on: the same payload, and nothing at all changed once it was resolved. */
  ghost predicate Follows(r1: Request, r2: Request) {
    r1.SamePayload(r2) && (r1.state != Pending ==> r2 == r1)
  }

  ghost predicate NoneRewritten(q1: Queue, q2: Queue) {
    forall id :: id in q1.byID ==> id in q2.byID && Follows(q1.byID[id], q2.byID[id])
  }

  lemma DecideKeepsSound(r: Request, op: Op)
    requires Sound(r) && IsDecision(op)
    ensures Sound(Decide(r, op).0) && Follows(r, Decide(r, op).0)
  {
  }

  lemma StepOnRequest(q: Queue, op: Op, id: string)
    requires id in q.byID && Sound(q.byID[id])
    ensures var n := Next(q, op); id in n.byID && Sound(n.byID[id]) && Follows(q.byID[id], n.byID[id])
  {
    if IsDecision(op) && op.id == id {
      DecideKeepsSound(q.byID[id], op);
    }
  }

  lemma StepKeys(q: Queue, op: Op)
    ensures Next(q, op).byID.Keys == q.byID.Keys + if op.Submit? && Next(q, op) != q then {op.id} else {}
    ensures q.stopped ==> Next(q, op).stopped && Next(q, op).byID.Keys == q.byID.Keys
    ensures Next(q, op).need == q.need
  {
    if op.CancelPending? {
      assert Next(q, op).byID.Keys == q.byID.Keys;
    }
  }

  lemma StepKeepsSound(q: Queue, op: Op)
    requires AllSound(q)
    ensures AllSound(Next(q, op)) && NoneRewritten(q, Next(q, op))
    ensures !op.Submit? || q.stopped ==> Next(q, op).byID.Keys == q.byID.Keys
    ensures q.stopped ==> Next(q, op).stopped
  {
    StepKeys(q, op);
    var n := Next(q, op);
    forall id | id in q.byID
      ensures id in n.byID && n.byID[id].id == id && Sound(n.byID[id]) && Follows(q.byID[id], n.byID[id])
    {
      StepOnRequest(q, op, id);
    }
    if op.Submit? && n != q {
      assert n.byID[op.id] == NewRequest(q, op.id, op.sub, op.now);
    }
    forall id | id in n.byID ensures n.byID[id].id == id && Sound(n.byID[id]) {
      assert id in q.byID || (op.Submit? && id == op.id);
    }
  }

  /**
   Over every run: terminal states never change, payloads never change, a request is pending
   exactly while its signal is open, the signal closes exactly once, and a request that needs
   no more approvals is exactly an approved one.
   */
  lemma {:induction false} RequestsAreNeverRewritten(q: Queue, ops: seq<Op>)
    requires AllSound(q)
    ensures AllSound(Run(q, ops)) && NoneRewritten(q, Run(q, ops))
    ensures forall id :: id in Run(q, ops).byID ==>
              (Run(q, ops).byID[id].NeedsMore() == 0 <==> Run(q, ops).byID[id].state == Approved)
    decreases |ops|
  {
    if ops != [] {
      StepKeepsSound(q, ops[0]);
      RequestsAreNeverRewritten(Next(q, ops[0]), ops[1..]);
    }
  }

  /** Needing more approvals does not mean waiting for one: a rejected request still needs its one. */
  lemma RejectedStillNeedsMore(q: Queue, id: string, reason: string, now: int)
    requires AllSound(q) && id in q.byID && q.byID[id].state == Pending
    ensures var r := Next(q, Reject(id, reason, now)).byID[id];
            r.state == Rejected && !r.open && r.NeedsMore() == 1
  {
    assert Sound(q.byID[id]);
  }

  // ---------------------------------------------------------------- what each call does to a request

  /** `r2` is `r1` resolved this way, for this reason and at this time. */
  ghost predicate ResolvedAs(r1: Request, r2: Request, state: State, reason: string, now: int) {
    && r1.SamePayload(r2) && r2.state == state && r2.reason == reason && r2.resolvedAt == now && !r2.open
  }

  /**
   A deadline resolves a request if and only if it is pending, has a deadline and the deadline
   has been reached; then it has expired, and the caller is told so.
   */
  lemma ExpiresIffDue(q: Queue, id: string, now: int)
    requires id in q.byID
    ensures var r, n, reply := q.byID[id], Next(q, Expire(id, now)), Step(q, Expire(id, now)).1;
            var due := r.state == Pending && r.expiresAt != 0 && r.expiresAt <= now;
            && id in n.byID
            && (due ==> ResolvedAs(r, n.byID[id], Expired, "", now) && reply == Timeout(n.byID[id].Clone()))
            && (!due ==> n == q && reply == Snap(r.Clone()))
  {
    var n := Next(q, Expire(id, now));
    assert n.byID[id] == q.byID[id] ==> n.byID == q.byID;
  }

  /** A rejection resolves exactly a pending request, with its reason. */
  lemma RejectsIffPending(q: Queue, id: string, reason: string, now: int)
    requires id in q.byID
    ensures var r, n, reply := q.byID[id], Next(q, Reject(id, reason, now)), Step(q, Reject(id, reason, now)).1;
            && id in n.byID
            && (r.state == Pending ==> ResolvedAs(r, n.byID[id], Rejected, reason, now) && reply == Snap(n.byID[id].Clone()))
            && (r.state != Pending ==> n == q && reply == NotPending(r.Clone()))
  {
    var n := Next(q, Reject(id, reason, now));
    assert n.byID[id] == q.byID[id] ==> n.byID == q.byID;
  }

  /** A cancellation resolves exactly a pending request, with its reason, and never complains. */
  lemma CancelsIffPending(q: Queue, id: string, reason: string, now: int)
    requires id in q.byID && id != ""
    ensures var r, n := q.byID[id], Next(q, Cancel(id, reason, now));
            && id in n.byID && Step(q, Cancel(id, reason, now)).1 == Ok
            && (r.state == Pending ==> ResolvedAs(r, n.byID[id], Cancelled, reason, now))
            && (r.state != Pending ==> n == q)
  {
    var n := Next(q, Cancel(id, reason, now));
    assert n.byID[id] == q.byID[id] ==> n.byID == q.byID;
  }

  /** A decision on an id nobody submitted changes nothing and is not found; a cancellation is silent. */
  lemma UnknownIsNotFound(q: Queue, op: Op)
    requires IsDecision(op) && op.id !in q.byID
    ensures Next(q, op) == q && Step(q, op).1 == if op.Cancel? then Ok else NotFound
  {
  }

  /** Among the ASCII characters exactly tab, the four line breaks and the space are blank. */
  lemma AsciiBlanks(c: char)
    requires c as int < 128
    ensures IsSpace(c) <==> 9 <= c as int <= 13 || c as int == 32
  {
  }

  predicate HasVisible(s: string) { exists i :: 0 <= i < |s| && !IsSpace(s[i]) }

  /** Something to approve: a readable summary, and text or keys for a command line, a payload for an operation. */
  ghost predicate WorthReviewing(sub: Submission) {
    && HasVisible(sub.summary)
    && (if sub.kind == "" || sub.kind == SHELL_INPUT then sub.text != "" || sub.keys != [] else sub.payload != [])
  }

  /**
   A submission is accepted exactly when there is something to approve and the queue is open.
   The new request carries everything that was submitted, waits for one approval, and has a
   deadline exactly when the queue has a timeout.
   */
  lemma SubmitsIffOpen(q: Queue, id: string, sub: Submission, now: int)
    requires AllSound(q) && id !in q.byID
    ensures var n, reply := Next(q, Submit(id, sub, now)), Step(q, Submit(id, sub, now)).1;
            && (reply == Empty <==> !WorthReviewing(sub))
            && (reply == Closed <==> WorthReviewing(sub) && q.stopped)
            && (reply == Id(id) <==> WorthReviewing(sub) && !q.stopped)
            && (reply != Id(id) ==> n == q)
            && (reply == Id(id) ==>
                  && id in n.byID
                  && var r := n.byID[id];
                     && r.id == id && r.session == q.session && r.shell == sub.shell && r.source == sub.source
                     && r.kind == (if sub.kind == "" then SHELL_INPUT else sub.kind)
                     && r.summary == sub.summary && r.text == sub.text && r.keys == sub.keys && r.payload == sub.payload
                     && r.createdAt == now && r.expiresAt == (if q.timeout > 0 then now + q.timeout else 0)
                     && r.state == Pending && r.open && r.NeedsMore() == 1)
  {
    assert Blank(sub.summary) <==> !HasVisible(sub.summary);
  }

  /** The copy handed to callers is the request in all but the signal. */
  lemma CloneIsTheRequest(r: Request)
    ensures var c := r.Clone();
            && r.SamePayload(c) && c.state == r.state && c.approvals == r.approvals && c.decidedBy == r.decidedBy
            && c.reason == r.reason && c.resolvedAt == r.resolvedAt && !c.open
  {
  }

  // ---------------------------------------------------------------- exactly one decision

  /** The call resolved the request. */
  ghost predicate Resolves(q: Queue, op: Op, id: string) {
    id in q.byID && q.byID[id].state == Pending && id in Next(q, op).byID && Next(q, op).byID[id].state != Pending
  }

  /** The call was an approval of this request, and its caller was told that it went through. */
  ghost predicate Approves(q: Queue, op: Op, id: string) {
    op.Approve? && op.id == id && Step(q, op).1.Snap?
  }

  ghost function CountResolutions(q: Queue, ops: seq<Op>, id: string): nat
    decreases |ops|
  {
    if ops == [] then 0
    else (if Resolves(q, ops[0], id) then 1 else 0) + CountResolutions(Next(q, ops[0]), ops[1..], id)
  }

  ghost function CountApprovals(q: Queue, ops: seq<Op>, id: string): nat
    decreases |ops|
  {
    if ops == [] then 0
    else (if Approves(q, ops[0], id) then 1 else 0) + CountApprovals(Next(q, ops[0]), ops[1..], id)
  }

  /** An approval goes through exactly when the request was pending, and then it is approved as submitted. */
  lemma ApproveSucceedsIffPending(q: Queue, op: Op, id: string)
    requires AllSound(q) && op.Approve? && op.id == id
    ensures Approves(q, op, id) <==> id in q.byID && q.byID[id].state == Pending
    ensures Approves(q, op, id) ==>
              && ResolvedAs(q.byID[id], Next(q, op).byID[id], Approved, "", op.now)
              && Step(q, op).1.req == Next(q, op).byID[id].Clone()
              && Step(q, op).1.req.SamePayload(q.byID[id])
  {
  }

  /** No other call approves anything. */
  lemma OnlyApproveApproves(q: Queue, op: Op, id: string)
    requires AllSound(q) && id in q.byID && q.byID[id].state == Pending
    ensures id in Next(q, op).byID && (Next(q, op).byID[id].state == Approved <==> Approves(q, op, id))
  {
    StepKeepsSound(q, op);
    if op.Approve? {
      ApproveSucceedsIffPending(q, op, op.id);
    }
  }

  lemma {:induction false} ResolvedNeverAgain(q: Queue, ops: seq<Op>, id: string)
    requires AllSound(q) && id in q.byID && q.byID[id].state != Pending
    ensures CountResolutions(q, ops, id) == 0 && CountApprovals(q, ops, id) == 0
    decreases |ops|
  {
    if ops != [] {
      StepKeepsSound(q, ops[0]);
      assert Follows(q.byID[id], Next(q, ops[0]).byID[id]);
      ResolvedNeverAgain(Next(q, ops[0]), ops[1..], id);
    }
  }

  /**
   However many decisions race on a request, exactly one resolves it or none does; and it
   ends approved exactly when one approval was told that it went through.
   */
  lemma {:induction false} OneDecisionPerRequest(q: Queue, ops: seq<Op>, id: string)
    requires AllSound(q) && id in q.byID && q.byID[id].state == Pending
    ensures id in Run(q, ops).byID
    ensures CountResolutions(q, ops, id) == if Run(q, ops).byID[id].state == Pending then 0 else 1
    ensures CountApprovals(q, ops, id) == if Run(q, ops).byID[id].state == Approved then 1 else 0
    decreases |ops|
  {
    if ops != [] {
      var n := Next(q, ops[0]);
      StepKeepsSound(q, ops[0]);
      OnlyApproveApproves(q, ops[0], id);
      if n.byID[id].state == Pending {
        OneDecisionPerRequest(n, ops[1..], id);
      } else {
        ResolvedNeverAgain(n, ops[1..], id);
        RequestsAreNeverRewritten(n, ops[1..]);
        assert Follows(n.byID[id], Run(n, ops[1..]).byID[id]);
      }
    }
  }

  // ---------------------------------------------------------------- closing

  ghost predicate NonePending(q: Queue) {
    forall id :: id in q.byID ==> q.byID[id].state != Pending
  }

  lemma StoppedStep(q: Queue, op: Op)
    requires AllSound(q) && q.stopped && NonePending(q)
    ensures AllSound(Next(q, op)) && Next(q, op).stopped && NonePending(Next(q, op))
  {
    StepKeepsSound(q, op);
    var n := Next(q, op);
    forall id | id in n.byID ensures n.byID[id].state != Pending {
      assert id in q.byID;
      assert Follows(q.byID[id], n.byID[id]);
    }
  }

  /** A queue that is stopped and has nothing pending never has anything pending again. */
  lemma {:induction false} StoppedStaysEmpty(q: Queue, ops: seq<Op>)
    requires AllSound(q) && q.stopped && NonePending(q)
    ensures Run(q, ops).stopped && NonePending(Run(q, ops))
    decreases |ops|
  {
    if ops != [] {
      StoppedStep(q, ops[0]);
      StoppedStaysEmpty(Next(q, ops[0]), ops[1..]);
    }
  }

  lemma CancelEmpties(q: Queue, reason: string, now: int)
    ensures NonePending(Next(q, CancelPending(reason, now)))
    ensures forall id :: id in q.byID && q.byID[id].state == Pending ==>
              ResolvedAs(q.byID[id], Next(q, CancelPending(reason, now)).byID[id], Cancelled, reason, now)
  {
    assert Next(q, CancelPending(reason, now)).byID.Keys == q.byID.Keys;
  }

  /**
   Close is two lock holds. Whatever runs before, between and after them, from the second one
   on there is no pending request, and the requests that were pending are not approved by it.
   */
  lemma CloseIsFinal(q: Queue, between: seq<Op>, reason: string, now: int, later: seq<Op>)
    requires AllSound(q)
    ensures var mid := Run(Next(q, Stop), between);
            var closed := Next(mid, CancelPending(reason, now));
            && NonePending(Run(closed, later))
            && (forall id :: id in mid.byID && mid.byID[id].state == Pending ==> closed.byID[id].state == Cancelled)
  {
    var stopped := Next(q, Stop);
    StepKeepsSound(q, Stop);
    RequestsAreNeverRewritten(stopped, between);
    StopStays(stopped, between);
    var mid := Run(stopped, between);
    StepKeepsSound(mid, CancelPending(reason, now));
    CancelEmpties(mid, reason, now);
    StoppedStaysEmpty(Next(mid, CancelPending(reason, now)), later);
  }

  lemma {:induction false} StopStays(q: Queue, ops: seq<Op>)
    requires AllSound(q) && q.stopped
    ensures Run(q, ops).stopped
    decreases |ops|
  {
    if ops != [] {
      StepKeepsSound(q, ops[0]);
      StopStays(Next(q, ops[0]), ops[1..]);
    }
  }

  // ---------------------------------------------------------------- submission order

  /** The ids in `order` that belong to a shell, in that order. */
  ghost function OfShell(order: seq<string>, byID: map<string, Request>, shell: string): seq<string> {
    if order == [] then []
    else
      var id := order[|order| - 1];
      OfShell(order[..|order| - 1], byID, shell) +
      if id in byID && byID[id].shell == shell then [id] else []
  }

  /** `order` lists every submitted id once, and each shell's list is its part of it. */
  ghost predicate Indexed(q: Queue, order: seq<string>) {
    && (forall i, j :: 0 <= i < j < |order| ==> order[i] != order[j])
    && (forall id :: id in order <==> id in q.byID)
    && "" !in q.byShell
    && (forall shell: string :: shell != "" ==> q.ForShell(shell) == OfShell(order, q.byID, shell))
  }

  lemma {:induction false} OfShellSame(order: seq<string>, a: map<string, Request>, b: map<string, Request>, shell: string)
    requires forall id :: id in order ==> id in a && id in b && a[id].shell == b[id].shell
    ensures OfShell(order, a, shell) == OfShell(order, b, shell)
  {
    if order != [] {
      assert order[|order| - 1] in order;
      OfShellSame(order[..|order| - 1], a, b, shell);
    }
  }

  ghost predicate Accepts(q: Queue, op: Op) {
    op.Submit? && op.id !in q.byID && !NothingToApprove(op.sub) && !q.stopped
  }

  lemma AddingKeepsIndexed(q: Queue, n: Queue, order: seq<string>, r: Request)
    requires Indexed(q, order) && r.id !in q.byID && n.byID == q.byID[r.id := r]
    requires n.byShell == if r.shell == "" then q.byShell else q.byShell[r.shell := q.ForShell(r.shell) + [r.id]]
    ensures Indexed(n, order + [r.id])
  {
    var o := order + [r.id];
    assert o[..|o| - 1] == order && o[|o| - 1] == r.id;
    forall shell: string | shell != "" ensures n.ForShell(shell) == OfShell(o, n.byID, shell) {
      OfShellSame(order, q.byID, n.byID, shell);
    }
    assert forall id :: id in o <==> id in order || id == r.id;
  }

  lemma SubmitKeepsIndexed(q: Queue, order: seq<string>, op: Op)
    requires Indexed(q, order) && Accepts(q, op)
    ensures Indexed(Next(q, op), order + [op.id])
  {
    AddingKeepsIndexed(q, Next(q, op), order, NewRequest(q, op.id, op.sub, op.now));
  }

  lemma SameShellsKeepIndexed(q: Queue, n: Queue, order: seq<string>)
    requires Indexed(q, order) && n.byShell == q.byShell && n.byID.Keys == q.byID.Keys
    requires forall id :: id in q.byID ==> n.byID[id].shell == q.byID[id].shell
    ensures Indexed(n, order)
  {
    forall shell: string | shell != "" ensures n.ForShell(shell) == OfShell(order, n.byID, shell) {
      OfShellSame(order, q.byID, n.byID, shell);
      assert q.ForShell(shell) == OfShell(order, q.byID, shell);
    }
  }

  lemma OtherKeepsIndexed(q: Queue, order: seq<string>, op: Op)
    requires AllSound(q) && Indexed(q, order) && !Accepts(q, op)
    ensures Indexed(Next(q, op), order)
  {
    var n := Next(q, op);
    if op.Submit? {
      assert n == q;
    } else {
      StepKeepsSound(q, op);
      assert n.byShell == q.byShell;
      forall id | id in q.byID ensures n.byID[id].shell == q.byID[id].shell {
        assert Follows(q.byID[id], n.byID[id]);
      }
      SameShellsKeepIndexed(q, n, order);
    }
  }

  /** The id a call adds to the queue, if any. */
  ghost function Added(q: Queue, op: Op): seq<string> {
    if Accepts(q, op) then [op.id] else []
  }

  lemma StepKeepsIndexed(q: Queue, order: seq<string>, op: Op)
    requires AllSound(q) && Indexed(q, order)
    ensures Indexed(Next(q, op), order + Added(q, op))
  {
    if Accepts(q, op) {
      SubmitKeepsIndexed(q, order, op);
    } else {
      OtherKeepsIndexed(q, order, op);
      assert order + [] == order;
    }
  }

  /** The ids accepted during a run, oldest first. */
  ghost function Submitted(q: Queue, ops: seq<Op>): seq<string>
    decreases |ops|
  {
    if ops == [] then [] else Added(q, ops[0]) + Submitted(Next(q, ops[0]), ops[1..])
  }

  /** In every reachable state each shell's list holds its requests in submission order. */
  lemma {:induction false} ShellListsAreInSubmissionOrder(q: Queue, order: seq<string>, ops: seq<Op>)
    requires AllSound(q) && Indexed(q, order)
    ensures Indexed(Run(q, ops), order + Submitted(q, ops))
    decreases |ops|
  {
    if ops == [] {
      assert order + Submitted(q, ops) == order;
    } else {
      var n, added := Next(q, ops[0]), Added(q, ops[0]);
      Associate(order, added, Submitted(n, ops[1..]));
      StepKeepsIndexed(q, order, ops[0]);
      StepKeepsSound(q, ops[0]);
      ShellListsAreInSubmissionOrder(n, order + added, ops[1..]);
    }
  }

  /** Copies of the requests with these ids, in this order. */
  function Listed(ids: seq<string>, byID: map<string, Request>): seq<Request> {
    if ids == [] then []
    else
      var id := ids[|ids| - 1];
      Listed(ids[..|ids| - 1], byID) + if id in byID then [byID[id].Clone()] else []
  }

  lemma {:induction false} ListedInOrder(ids: seq<string>, byID: map<string, Request>)
    requires forall i :: 0 <= i < |ids| ==> ids[i] in byID
    ensures |Listed(ids, byID)| == |ids|
    ensures forall i :: 0 <= i < |ids| ==> Listed(ids, byID)[i] == byID[ids[i]].Clone()
  {
    if ids != [] {
      ListedInOrder(ids[..|ids| - 1], byID);
    }
  }

  lemma {:induction false} OfShellIsKnown(order: seq<string>, byID: map<string, Request>, shell: string)
    ensures forall id :: id in OfShell(order, byID, shell) ==> id in byID && byID[id].shell == shell
  {
    if order != [] {
      OfShellIsKnown(order[..|order| - 1], byID, shell);
    }
  }

  /** In every reachable state a shell's listing is complete and in submission order. */
  lemma ListingIsComplete(session: string, timeout: int, ops: seq<Op>, shell: string)
    requires shell != ""
    ensures var q0 := NewQueue(session, timeout);
            var q := Run(q0, ops);
            var ids := OfShell(Submitted(q0, ops), q.byID, shell);
            && q.ForShell(shell) == ids && |Listed(ids, q.byID)| == |ids|
            && (forall i :: 0 <= i < |ids| ==> ids[i] in q.byID && Listed(ids, q.byID)[i] == q.byID[ids[i]].Clone())
  {
    var q0 := NewQueue(session, timeout);
    var q := Run(q0, ops);
    ShellListsAreInSubmissionOrder(q0, [], ops);
    assert [] + Submitted(q0, ops) == Submitted(q0, ops);
    var ids := OfShell(Submitted(q0, ops), q.byID, shell);
    OfShellIsKnown(Submitted(q0, ops), q.byID, shell);
    assert forall i :: 0 <= i < |ids| ==> ids[i] in ids;
    ListedInOrder(ids, q.byID);
  }

  // ---------------------------------------------------------------- the object

  class ReviewQueue {
    const session: string
    const need: int
    const timeout: int
    var byID: map<string, Request>
    var byShell: map<string, seq<string>>
    var stopped: bool

    ghost function View(): Queue
      reads this
    {
      Queue(session, need, timeout, byID, byShell, stopped)
    }

    /** The threshold asked for is not honoured: review has a single reviewer. */
    constructor (session: string, asked: int, timeout: int)
      ensures View() == NewQueue(session, timeout) == Queue(session, 1, timeout, map[], map[], false)
      ensures AllSound(View()) && Indexed(View(), [])
    {
      this.session, this.need, this.timeout := session, 1, timeout;
      byID, byShell, stopped := map[], map[], false;
    }

    method SubmitRequest(id: string, sub: Submission, now: int) returns (reply: Reply)
      requires id !in byID
      modifies this
      ensures (View(), reply) == Step(old(View()), Submit(id, sub, now))
    {
      var kind := if sub.kind == "" then SHELL_INPUT else sub.kind;
      if kind == SHELL_INPUT && sub.text == "" && sub.keys == [] {
        return Empty;
      }
      if kind != SHELL_INPUT && sub.payload == [] {
        return Empty;
      }
      if Blank(sub.summary) {
        return Empty;
      }
      var expiresAt := 0;
      if stopped {
        return Closed;
      }
      if timeout > 0 {
        expiresAt := now + timeout;
      }
      var r := Request(id, session, sub.shell, sub.source, kind, sub.summary, sub.text, sub.keys, sub.payload,
                       now, expiresAt, need, Pending, [], "", "", 0, true, 0);
      byID := byID[id := r];
      if sub.shell != "" {
        byShell := byShell[sub.shell := (if sub.shell in byShell then byShell[sub.shell] else []) + [id]];
      }
      reply := Id(id);
    }

    method ApproveRequest(id: string, now: int) returns (reply: Reply)
      modifies this`byID
      ensures (View(), reply) == Step(old(View()), Approve(id, now))
    {
      if id !in byID {
        return NotFound;
      }
      var r := byID[id];
      if r.state != Pending {
        assert byID == byID[id := r];
        return NotPending(r.Clone());
      }
      r := r.(approvals := r.approvals + [LOCAL_REVIEWER]);
      if r.NeedsMore() == 0 {
        r := Resolve(r, Approved, "", now);
      }
      byID := byID[id := r];
      reply := Snap(r.Clone());
    }

    method RejectRequest(id: string, reason: string, now: int) returns (reply: Reply)
      modifies this`byID
      ensures (View(), reply) == Step(old(View()), Reject(id, reason, now))
    {
      if id !in byID {
        return NotFound;
      }
      var r := byID[id];
      if r.state != Pending {
        assert byID == byID[id := r];
        return NotPending(r.Clone());
      }
      r := Resolve(r, Rejected, reason, now);
      byID := byID[id := r];
      reply := Snap(r.Clone());
    }

    method CancelRequest(id: string, reason: string, now: int)
      modifies this`byID
      ensures View() == Step(old(View()), Cancel(id, reason, now)).0
    {
      if id == "" {
        return;
      }
      if id !in byID || byID[id].state != Pending {
        assert id in byID ==> byID == byID[id := byID[id]];
        return;
      }
      byID := byID[id := Resolve(byID[id], Cancelled, reason, now)];
    }

    method ExpireRequest(id: string, now: int) returns (reply: Reply)
      modifies this`byID
      ensures (View(), reply) == Step(old(View()), Expire(id, now))
    {
      if id !in byID {
        return NotFound;
      }
      var r := byID[id];
      if r.state != Pending || r.expiresAt == 0 || now < r.expiresAt {
        assert byID == byID[id := r];
        return Snap(r.Clone());
      }
      r := Resolve(r, Expired, "", now);
      byID := byID[id := r];
      reply := Timeout(r.Clone());
    }

    /** Cancels everything still waiting, in whatever order the map is walked. */
    method CancelWaiting(reason: string, now: int)
      modifies this`byID
      ensures View() == Step(old(View()), CancelPending(reason, now)).0
    {
      var todo := byID.Keys;
      while todo != {}
        invariant byID.Keys == old(byID).Keys && todo <= byID.Keys
        invariant forall id :: id in todo ==> byID[id] == old(byID)[id]
        invariant forall id :: id in byID && id !in todo ==> byID[id] == CancelOne(old(byID)[id], reason, now)
      {
        var id := Pick(todo);
        if byID[id].state == Pending {
          byID := byID[id := Resolve(byID[id], Cancelled, reason, now)];
        }
        todo := todo - {id};
      }
      assert byID == Step(old(View()), CancelPending(reason, now)).0.byID;
    }

    /** Two lock holds; with nothing in between this is what one caller sees. */
    method Close(reason: string, now: int)
      requires AllSound(View())
      modifies this`byID, this`stopped
      ensures View() == Run(old(View()), [Stop, CancelPending(reason, now)])
      ensures stopped && NonePending(View())
    {
      ghost var start := View();
      ghost var ops := [Stop, CancelPending(reason, now)];
      stopped := true;
      ghost var mid := View();
      CancelWaiting(reason, now);
      assert ops[1..] == [CancelPending(reason, now)] && ops[1..][1..] == [];
      assert Run(start, ops) == Run(mid, ops[1..]) == Run(View(), []);
      assert byID.Keys == mid.byID.Keys;
    }

    /** The requests whose pending-ness is `pending`, each once, in no particular order. */
    method Collect(pending: bool) returns (out: seq<Request>)
      requires forall id :: id in byID ==> byID[id].id == id
      ensures forall i :: 0 <= i < |out| ==>
                out[i].id in byID && out[i] == byID[out[i].id].Clone() && (out[i].state == Pending) == pending
      ensures forall i, j :: 0 <= i < j < |out| ==> out[i].id != out[j].id
      ensures forall id :: id in byID && (byID[id].state == Pending) == pending ==> byID[id].Clone() in out
    {
      out := [];
      var todo := byID.Keys;
      while todo != {}
        invariant todo <= byID.Keys
        invariant forall i :: 0 <= i < |out| ==>
                    && out[i].id in byID && out[i].id !in todo
                    && out[i] == byID[out[i].id].Clone() && (out[i].state == Pending) == pending
        invariant forall i, j :: 0 <= i < j < |out| ==> out[i].id != out[j].id
        invariant forall id :: id in byID && id !in todo && (byID[id].state == Pending) == pending ==>
                    byID[id].Clone() in out
      {
        var id := Pick(todo);
        if (byID[id].state == Pending) == pending {
          out := out + [byID[id].Clone()];
        }
        todo := todo - {id};
      }
    }

    /** Every request exactly once, the ones still waiting for a decision first. */
    method List() returns (out: seq<Request>)
      requires forall id :: id in byID ==> byID[id].id == id
      ensures forall i :: 0 <= i < |out| ==> out[i].id in byID && out[i] == byID[out[i].id].Clone()
      ensures forall i, j :: 0 <= i < j < |out| ==> out[i].id != out[j].id
      ensures forall id :: id in byID ==> byID[id].Clone() in out
      ensures forall i, j :: 0 <= i < j < |out| && out[j].state == Pending ==> out[i].state == Pending
    {
      var waiting := Collect(true);
      var resolved := Collect(false);
      out := waiting + resolved;
    }

    /** One shell's requests, oldest first. */
    method ListForShell(shell: string) returns (out: seq<Request>)
      ensures out == Listed(View().ForShell(shell), byID)
    {
      var ids := if shell in byShell then byShell[shell] else [];
      out := [];
      for i := 0 to |ids|
        invariant out == Listed(ids[..i], byID)
      {
        assert ids[..i + 1][..i] == ids[..i];
        if ids[i] in byID {
          out := out + [byID[ids[i]].Clone()];
        }
      }
      assert ids[..|ids|] == ids;
    }
  }
}
