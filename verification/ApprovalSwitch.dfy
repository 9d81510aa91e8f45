/**
 Turning review mode on and off while it is in use (EnableApproval and DisableApproval in
 internal/session/approval.go, beginClosing in internal/session/session.go). The switch swaps
 a pointer under the session lock and closes the queue it took away afterwards, in two lock
 holds of that queue; submitters and reviewers that still hold the old queue keep using it.
 */
module ApprovalSwitch {
  import opened ApprovalQueue

  // ---------------------------------------------------------------- state

  /** How far a switching call has come with the queue it detached. */
  datatype Call =
    | WillDisable          // beginClosing, before its call of DisableApproval
    | Detached(k: nat)     // the pointer no longer leads to queue k
    | Stopped(k: nat)      // k refuses submissions
    | Returned(k: nat)     // k's pending requests are cancelled, and the call is over
    | ReturnedEmpty        // there was nothing to detach, or the session was already closing

  /** Every queue the session ever had, and the one input is submitted to, if any. */
  datatype Session = Session(queues: seq<Queue>, current: int, closing: bool, calls: map<int, Call>)

  datatype Event =
    | Enable(t: int, session: string, timeout: int)
    | Disable(t: int)
    | BeginClosing(t: int)
    | Proceed(t: int, reason: string, now: int)
    | Use(k: nat, op: Op)  // anyone, with whatever queue they hold

  function Detach(s: Session, t: int, next: int): Session {
    s.(current := next,
       calls := s.calls[t := if 0 <= s.current < |s.queues| then Detached(s.current) else ReturnedEmpty])
  }

  ghost function Step(s: Session, e: Event): Session {
    match e
    case Enable(t, session, timeout) =>
      if t in s.calls then s
      else
        var n := Detach(s, t, |s.queues|);
        n.(queues := s.queues + [NewQueue(session, timeout)])
    case Disable(t) => if t in s.calls then s else Detach(s, t, -1)
    case BeginClosing(t) =>
      if t in s.calls then s
      else if s.closing then s.(calls := s.calls[t := ReturnedEmpty])
      else s.(closing := true, calls := s.calls[t := WillDisable])
    case Proceed(t, reason, now) =>
      if t !in s.calls then s
      else (
        match s.calls[t]
        case WillDisable => Detach(s, t, -1)
        case Detached(k) =>
          if k < |s.queues| then s.(queues := s.queues[k := Next(s.queues[k], Stop)], calls := s.calls[t := Stopped(k)]) else s
        case Stopped(k) =>
          if k < |s.queues|
          then s.(queues := s.queues[k := Next(s.queues[k], CancelPending(reason, now))], calls := s.calls[t := Returned(k)])
          else s
        case _ => s)
    case Use(k, op) => if k < |s.queues| then s.(queues := s.queues[k := Next(s.queues[k], op)]) else s
  }

  ghost function RunAll(s: Session, es: seq<Event>): Session
    decreases |es|
  {
    if es == [] then s else RunAll(Step(s, es[0]), es[1..])
  }

  // ---------------------------------------------------------------- the invariant

  predicate Holds(c: Call, k: nat) {
    (c.Detached? || c.Stopped? || c.Returned?) && c.k == k
  }

  ghost predicate CallSound(s: Session, t: int) {
    t in s.calls ==>
      match s.calls[t]
      case Detached(k) => k < |s.queues| && s.current != k
      case Stopped(k) => k < |s.queues| && s.current != k && s.queues[k].stopped
      case Returned(k) => k < |s.queues| && s.current != k && s.queues[k].stopped && NonePending(s.queues[k])
      case _ => true
  }

  /** A queue that input no longer reaches was taken away by some call. */
  ghost predicate Accounted(s: Session, k: nat) {
    k < |s.queues| && k != s.current ==> exists t :: t in s.calls && Holds(s.calls[t], k)
  }

  ghost predicate Inv(s: Session) {
    && -1 <= s.current < |s.queues|
    && (forall k :: 0 <= k < |s.queues| ==> AllSound(s.queues[k]))
    && (forall t: int :: CallSound(s, t))
    && (forall k: nat :: Accounted(s, k))
  }

  lemma DetachKeepsInv(s: Session, t: int, more: seq<Queue>)
    requires Inv(s) && (t !in s.calls || s.calls[t] == WillDisable)
    requires |more| <= 1 && forall i :: 0 <= i < |more| ==> AllSound(more[i])
    ensures Inv(Detach(s, t, if more == [] then -1 else |s.queues|).(queues := s.queues + more))
  {
    var n := Detach(s, t, if more == [] then -1 else |s.queues|).(queues := s.queues + more);
    forall u: int ensures CallSound(n, u) {
      assert CallSound(s, u);
    }
    forall k: nat ensures Accounted(n, k) {
      assert Accounted(s, k);
      if k < |s.queues| && k != s.current {
        var u :| u in s.calls && Holds(s.calls[u], k);
        assert u in n.calls && Holds(n.calls[u], k);
      } else if k == s.current {
        assert t in n.calls && Holds(n.calls[t], k);
      }
    }
  }

  /** A queue operation anywhere, and at most one call that moves on with the queue it holds. */
  lemma QueueStepKeepsInv(s: Session, k: nat, op: Op, calls: map<int, Call>)
    requires Inv(s) && k < |s.queues|
    requires calls.Keys == s.calls.Keys
    requires forall t :: t in s.calls && calls[t] != s.calls[t] ==>
               || (s.calls[t] == Detached(k) && calls[t] == Stopped(k) && op == Stop)
               || (s.calls[t] == Stopped(k) && calls[t] == Returned(k) && op.CancelPending?)
    ensures Inv(s.(queues := s.queues[k := Next(s.queues[k], op)], calls := calls))
  {
    var q := s.queues[k];
    var n := s.(queues := s.queues[k := Next(q, op)], calls := calls);
    StepKeepsSound(q, op);
    if op.CancelPending? {
      CancelEmpties(q, op.reason, op.now);
    }
    if q.stopped && NonePending(q) {
      StoppedStep(q, op);
    }
    forall t: int ensures CallSound(n, t) {
      assert CallSound(s, t);
    }
    forall j: nat ensures Accounted(n, j) {
      assert Accounted(s, j);
      if j < |s.queues| && j != s.current {
        var u :| u in s.calls && Holds(s.calls[u], j);
        assert u in n.calls && Holds(n.calls[u], j);
      }
    }
  }

  lemma NoteKeepsInv(s: Session, t: int, c: Call, closing: bool)
    requires Inv(s) && t !in s.calls && (c == WillDisable || c == ReturnedEmpty)
    ensures Inv(s.(closing := closing, calls := s.calls[t := c]))
  {
    var n := s.(closing := closing, calls := s.calls[t := c]);
    forall u: int ensures CallSound(n, u) {
      assert CallSound(s, u);
    }
    forall k: nat ensures Accounted(n, k) {
      assert Accounted(s, k);
      if k < |s.queues| && k != s.current {
        var u :| u in s.calls && Holds(s.calls[u], k);
        assert u in n.calls && Holds(n.calls[u], k);
      }
    }
  }

  lemma StepKeepsInv(s: Session, e: Event)
    requires Inv(s)
    ensures Inv(Step(s, e))
  {
    match e
    case Enable(t, session, timeout) =>
      if t !in s.calls {
        DetachKeepsInv(s, t, [NewQueue(session, timeout)]);
      }
    case Disable(t) =>
      if t !in s.calls {
        DetachKeepsInv(s, t, []);
        assert s.queues + [] == s.queues;
      }
    case BeginClosing(t) =>
      if t !in s.calls {
        NoteKeepsInv(s, t, if s.closing then ReturnedEmpty else WillDisable, true);
      }
    case Proceed(t, reason, now) =>
      if t in s.calls {
        assert CallSound(s, t);
        var c := s.calls[t];
        if c == WillDisable {
          DetachKeepsInv(s, t, []);
          assert s.queues + [] == s.queues;
        } else if c.Detached? {
          QueueStepKeepsInv(s, c.k, Stop, s.calls[t := Stopped(c.k)]);
        } else if c.Stopped? {
          QueueStepKeepsInv(s, c.k, CancelPending(reason, now), s.calls[t := Returned(c.k)]);
        }
      }
    case Use(k, op) =>
      if k < |s.queues| {
        QueueStepKeepsInv(s, k, op, s.calls);
      }
  }

  lemma {:induction false} RunKeepsInv(s: Session, es: seq<Event>)
    requires Inv(s)
    ensures Inv(RunAll(s, es))
    decreases |es|
  {
    if es != [] {
      StepKeepsInv(s, es[0]);
      RunKeepsInv(Step(s, es[0]), es[1..]);
    }
  }

  // ---------------------------------------------------------------- main results

  lemma {:induction false} ReturnedStays(s: Session, es: seq<Event>, t: int)
    requires Inv(s) && t in s.calls && s.calls[t].Returned?
    ensures Inv(RunAll(s, es)) && t in RunAll(s, es).calls && RunAll(s, es).calls[t] == s.calls[t]
    decreases |es|
  {
    if es != [] {
      StepKeepsInv(s, es[0]);
      ReturnedStays(Step(s, es[0]), es[1..], t);
    }
  }

  /**
   From the moment a call that detached a queue has returned, that queue has no pending
   request and accepts none, however many submissions, decisions and further switches race
   with it before, during and after.
   */
  lemma DetachedQueueStaysEmpty(s: Session, es: seq<Event>, t: int)
    requires Inv(s) && t in s.calls && s.calls[t].Returned?
    ensures var n, k := RunAll(s, es), s.calls[t].k;
            k < |n.queues| && n.current != k && n.queues[k].stopped && NonePending(n.queues[k])
  {
    ReturnedStays(s, es, t);
    assert CallSound(RunAll(s, es), t);
  }

  /** Once no switching call is under way, only the attached queue can hold a pending request. */
  lemma OnlyTheAttachedQueueCanBePending(s: Session, es: seq<Event>, k: nat)
    requires Inv(s)
    requires var n := RunAll(s, es);
             k < |n.queues| && k != n.current
             && forall t :: t in n.calls ==> n.calls[t].Returned? || n.calls[t].ReturnedEmpty?
    ensures NonePending(RunAll(s, es).queues[k])
  {
    RunKeepsInv(s, es);
    var n := RunAll(s, es);
    assert Accounted(n, k);
    var t :| t in n.calls && Holds(n.calls[t], k);
    assert CallSound(n, t);
  }

  /** A session starts with review mode off. */
  lemma FreshSessionIsSound()
    ensures Inv(Session([], -1, false, map[])) && OneHolder(Session([], -1, false, map[]))
  {
  }

  // ---------------------------------------------------------------- switching gets done

  /** Whoever holds a queue, attached or not, acts on that queue and on no other. */
  lemma UseActsOnItsQueue(s: Session, k: nat, op: Op, j: nat)
    requires k < |s.queues| && j < |s.queues|
    ensures var n := Step(s, Use(k, op));
            && n.current == s.current && n.calls == s.calls && |n.queues| == |s.queues|
            && n.queues[j] == if j == k then Next(s.queues[k], op) else s.queues[j]
  {
  }


  /** Turning review mode on attaches a new queue at once, empty and open to submissions. */
  lemma EnableAttachesAFreshQueue(s: Session, t: int, session: string, timeout: int, id: string, sub: Submission, now: int)
    requires Inv(s) && t !in s.calls && WorthReviewing(sub)
    ensures var n := Step(s, Enable(t, session, timeout));
            && n.current == |s.queues| && |n.queues| == |s.queues| + 1 && n.queues[..|s.queues|] == s.queues
            && n.queues[n.current].byID == map[] && n.queues[n.current].session == session
            && ApprovalQueue.Step(n.queues[n.current], Submit(id, sub, now)).1 == Id(id)
  {
    SubmitsIffOpen(NewQueue(session, timeout), id, sub, now);
  }

  /** Turning it off detaches at once: no queue is reached any more. */
  lemma DisableDetaches(s: Session, t: int)
    requires Inv(s) && t !in s.calls
    ensures var n := Step(s, Disable(t));
            && n.current == -1 && n.queues == s.queues
            && n.calls[t] == if s.current >= 0 then Detached(s.current) else ReturnedEmpty
  {
  }

  /** A call that took a queue away needs two more steps of its own, and then is done with it. */
  lemma DetachingFinishes(s: Session, t: int, reason: string, now: int)
    requires Inv(s) && t in s.calls && s.calls[t].Detached?
    ensures Step(Step(s, Proceed(t, reason, now)), Proceed(t, reason, now)).calls[t] == Returned(s.calls[t].k)
  {
    assert CallSound(s, t);
  }

  /** A close of a session nobody else is switching takes the attached queue away and is done with it. */
  lemma UndisturbedClosingFinishes(s: Session, t: int, reason: string, now: int)
    requires Inv(s) && !s.closing && t !in s.calls && s.current >= 0
    ensures var step := Proceed(t, reason, now);
            var n := Step(Step(Step(Step(s, BeginClosing(t)), step), step), step);
            n.closing && n.current == -1 && n.calls[t] == Returned(s.current)
  {
    var begun := Step(s, BeginClosing(t));
    StepKeepsInv(s, BeginClosing(t));
    StepKeepsInv(begun, Proceed(t, reason, now));
    DetachingFinishes(Step(begun, Proceed(t, reason, now)), t, reason, now);
  }

  // ---------------------------------------------------------------- what a closer may rely on

  /** Some call has taken queue k away and finished with it. */
  ghost predicate ClosedFor(s: Session, k: nat) {
    exists u :: u in s.calls && s.calls[u] == Returned(k)
  }

  /** After these events queue k refuses submissions and has nothing pending. */
  ghost predicate ShutAfter(s: Session, more: seq<Event>, k: nat) {
    var n := RunAll(s, more);
    k < |n.queues| && n.queues[k].stopped && NonePending(n.queues[k])
  }

  predicate Over(s: Session, t: int) {
    t in s.calls && (s.calls[t].Returned? || s.calls[t].ReturnedEmpty?)
  }

  /** No two calls ever hold the same queue. */
  ghost predicate OneHolder(s: Session) {
    forall t, u, k: nat :: t in s.calls && u in s.calls && Holds(s.calls[t], k) && Holds(s.calls[u], k) ==> t == u
  }

  lemma StepKeepsOneHolder(s: Session, e: Event)
    requires Inv(s) && OneHolder(s)
    ensures OneHolder(Step(s, e))
  {
    var n := Step(s, e);
    forall t, u, k: nat | t in n.calls && u in n.calls && Holds(n.calls[t], k) && Holds(n.calls[u], k) ensures t == u {
      assert CallSound(s, t) && CallSound(s, u);
    }
  }

  lemma {:induction false} RunKeepsOneHolder(s: Session, es: seq<Event>)
    requires Inv(s) && OneHolder(s)
    ensures OneHolder(RunAll(s, es))
    decreases |es|
  {
    if es != [] {
      StepKeepsInv(s, es[0]);
      StepKeepsOneHolder(s, es[0]);
      RunKeepsOneHolder(Step(s, es[0]), es[1..]);
    }
  }

  /** Nobody outside the switching calls decides request `id`, stops queue k or empties it. */
  predicate Undisturbed(e: Event, k: nat, id: string) {
    e.Use? && e.k == k ==> !e.op.Stop? && !e.op.CancelPending? && e.op.id != id
  }

  ghost predicate AllUndisturbed(es: seq<Event>, k: nat, id: string) {
    forall i :: 0 <= i < |es| ==> Undisturbed(es[i], k, id)
  }

  /** The request waits on queue k exactly while no call is done with k. */
  ghost predicate WaitsUntilClosed(s: Session, k: nat, id: string) {
    && Inv(s) && k < |s.queues| && id in s.queues[k].byID
    && (s.queues[k].byID[id].state == Pending <==> !ClosedFor(s, k))
  }

  lemma OtherOpLeavesRequest(q: Queue, op: Op, id: string)
    requires id in q.byID && !op.CancelPending? && (op.Stop? || op.id != id)
    ensures id in Next(q, op).byID && Next(q, op).byID[id] == q.byID[id]
  {
  }

  lemma StepWaits(s: Session, e: Event, k: nat, id: string)
    requires WaitsUntilClosed(s, k, id) && Undisturbed(e, k, id)
    ensures WaitsUntilClosed(Step(s, e), k, id)
  {
    StepKeepsInv(s, e);
    if e.Proceed? && e.t in s.calls && s.calls[e.t] == Stopped(k) {
      ReturningResolves(s, e, k, id);
    } else {
      StepLeavesRequest(s, e, k, id);
      ReturnsOnlyFromStopped(s, e, k);
    }
  }

  lemma ReturningResolves(s: Session, e: Event, k: nat, id: string)
    requires k < |s.queues| && AllSound(s.queues[k]) && id in s.queues[k].byID
    requires e.Proceed? && e.t in s.calls && s.calls[e.t] == Stopped(k)
    ensures var n := Step(s, e);
            && k < |n.queues| && id in n.queues[k].byID && n.queues[k].byID[id].state != Pending && ClosedFor(n, k)
  {
    var q, n := s.queues[k], Step(s, e);
    CancelEmpties(q, e.reason, e.now);
    StepKeepsSound(q, CancelPending(e.reason, e.now));
    assert n.queues[k] == Next(q, CancelPending(e.reason, e.now));
    assert e.t in n.calls && n.calls[e.t] == Returned(k);
  }

  lemma StepLeavesRequest(s: Session, e: Event, k: nat, id: string)
    requires k < |s.queues| && id in s.queues[k].byID && Undisturbed(e, k, id)
    requires !(e.Proceed? && e.t in s.calls && s.calls[e.t] == Stopped(k))
    ensures var n := Step(s, e);
            k < |n.queues| && id in n.queues[k].byID && n.queues[k].byID[id] == s.queues[k].byID[id]
  {
    var q := s.queues[k];
    if e.Use? && e.k == k {
      OtherOpLeavesRequest(q, e.op, id);
    } else if e.Proceed? && e.t in s.calls && s.calls[e.t] == Detached(k) {
      OtherOpLeavesRequest(q, Stop, id);
    }
  }

  lemma ReturnsOnlyFromStopped(s: Session, e: Event, k: nat)
    requires Inv(s) && !(e.Proceed? && e.t in s.calls && s.calls[e.t] == Stopped(k))
    ensures ClosedFor(Step(s, e), k) <==> ClosedFor(s, k)
  {
    var n := Step(s, e);
    if u :| u in s.calls && s.calls[u] == Returned(k) {
      assert u in n.calls && n.calls[u] == Returned(k);
    }
    if u :| u in n.calls && n.calls[u] == Returned(k) {
      assert u in s.calls && s.calls[u] == Returned(k);
    }
  }

  lemma {:induction false} RunWaits(s: Session, es: seq<Event>, k: nat, id: string)
    requires WaitsUntilClosed(s, k, id) && AllUndisturbed(es, k, id)
    ensures WaitsUntilClosed(RunAll(s, es), k, id)
    decreases |es|
  {
    if es != [] {
      assert Undisturbed(es[0], k, id);
      StepWaits(s, es[0], k, id);
      assert AllUndisturbed(es[1..], k, id) by {
        forall i | 0 <= i < |es[1..]| ensures Undisturbed(es[1..][i], k, id) {
          assert es[1..][i] == es[i + 1];
        }
      }
      RunWaits(Step(s, es[0]), es[1..], k, id);
    }
  }

  /**
   What a beginClosing call may rely on once it is over. Take any request that was waiting on
   the attached queue when the call was made and that nobody has decided since. Approving it
   still succeeds if and only if no call is done with that queue yet, whichever call that is;
   and the queue is stopped and empty in every continuation if and only if one is. The caller's own return
   settles it exactly when its call is the one that took the queue away: that call, and no
   other, decides when the queue is closed, and while nobody has taken it, it is not.
   */
  lemma ApprovableAfterClosingIff(s: Session, t: int, es: seq<Event>, id: string, now: int)
    requires Inv(s) && OneHolder(s) && t !in s.calls && s.current >= 0
    requires id in s.queues[s.current].byID && s.queues[s.current].byID[id].state == Pending
    requires AllUndisturbed(es, s.current, id)
    requires Over(RunAll(Step(s, BeginClosing(t)), es), t)
    ensures var k, n := s.current, RunAll(Step(s, BeginClosing(t)), es);
            && k < |n.queues|
            && (Approves(n.queues[k], Approve(id, now), id) <==> !ClosedFor(n, k))
            && ((forall more :: ShutAfter(n, more, k)) <==> ClosedFor(n, k))
            && (forall u :: u in n.calls && Holds(n.calls[u], k) ==> (ClosedFor(n, k) <==> n.calls[u] == Returned(k)))
            && (Holds(n.calls[t], k) ==> ClosedFor(n, k))
            && (n.current == k ==> !ClosedFor(n, k))
  {
    var k := s.current;
    AttachedIsNotClosed(s);
    assert WaitsUntilClosed(s, k, id);
    StepWaits(s, BeginClosing(t), k, id);
    RunWaits(Step(s, BeginClosing(t)), es, k, id);
    var n := RunAll(Step(s, BeginClosing(t)), es);
    assert AllSound(n.queues[k]);
    ApproveSucceedsIffPending(n.queues[k], Approve(id, now), id);
    if u :| u in n.calls && n.calls[u] == Returned(k) {
      forall more ensures ShutAfter(n, more, k) {
        DetachedQueueStaysEmpty(n, more, u);
      }
    } else {
      assert RunAll(n, []) == n;
      assert !ShutAfter(n, [], k);
    }
    StepKeepsOneHolder(s, BeginClosing(t));
    RunKeepsOneHolder(Step(s, BeginClosing(t)), es);
    if n.current == k {
      AttachedIsNotClosed(n);
    }
  }

  lemma AttachedIsNotClosed(s: Session)
    requires Inv(s) && s.current >= 0
    ensures !ClosedFor(s, s.current)
  {
    forall u | u in s.calls ensures s.calls[u] != Returned(s.current) {
      assert CallSound(s, u);
    }
  }

  /** A second closer returns at once, and the waiting request can still be approved behind its back. */
  lemma SecondCloserReturnsEarly(s: Session, t1: int, t2: int, id: string, now: int)
    requires Inv(s) && OneHolder(s) && !s.closing && t1 !in s.calls && t2 !in s.calls && t1 != t2 && s.current >= 0
    requires id in s.queues[s.current].byID && s.queues[s.current].byID[id].state == Pending
    ensures var n := Step(Step(s, BeginClosing(t1)), BeginClosing(t2));
            && n.calls[t2] == ReturnedEmpty
            && Approves(n.queues[s.current], Approve(id, now), id)
  {
    assert AllSound(s.queues[s.current]);
    ApproveSucceedsIffPending(s.queues[s.current], Approve(id, now), id);
  }

  /** So does the first closer, when a DisableApproval takes the queue from under it. */
  lemma FirstCloserReturnsEarly(s: Session, t1: int, t2: int, id: string, reason: string, now: int)
    requires Inv(s) && OneHolder(s) && !s.closing && t1 !in s.calls && t2 !in s.calls && t1 != t2 && s.current >= 0
    requires id in s.queues[s.current].byID && s.queues[s.current].byID[id].state == Pending
    ensures var n := Step(Step(Step(s, BeginClosing(t1)), Disable(t2)), Proceed(t1, reason, now));
            && n.calls[t1] == ReturnedEmpty && n.calls[t2] == Detached(s.current)
            && Approves(n.queues[s.current], Approve(id, now), id)
  {
    assert AllSound(s.queues[s.current]);
    ApproveSucceedsIffPending(s.queues[s.current], Approve(id, now), id);
  }
}
