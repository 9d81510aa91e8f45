/**
 Retaining a shell's last metadata while it may be closed at the same time (retainHistory,
 the exit watcher in startReaders, TerminateShell and CloseChildShell in
 internal/session/session.go). There is no lock: `closed` is an atomic flag, the history is
 a concurrent map, and the watcher stores first and looks at the flag again afterwards.
 */
module ShellHistory {
  import opened Basics


  // ---------------------------------------------------------------- state

  /** The exit watcher: check, store, check again, delete. */
  datatype Watcher = AtCheck | AtStore | AtRecheck | AtDelete | Finished

  /** A CloseChildShell call: set the flag, terminate (which itself may retain), purge once. */
  datatype Closer = Entered | Marked | Retaining | Terminated | Purging | Purged | Done

  /** A TerminateShell call from anywhere else: check, store, and no second look. */
  datatype Terminator = Looking | Storing | Ended

  datatype Once = NotRun | Running | Ran

  /** What the history holds of the shell: nothing, what it was at the start, or what it was at its end. */
  datatype Entry = Absent | Early | Final

  datatype Shell = Shell(
    closed: bool, entry: Entry, once: Once,
    watcher: Watcher, closers: map<int, Closer>, terminators: map<int, Terminator>)
  {
    /** The history holds the shell's id. */
    predicate Retained() { entry != Absent }
  }

  datatype Event =
    | Watch
    | Enter(c: int)
    | Close(c: int, running: bool)  // the next step of a close; was the process still running?
    | Begin(t: int)
    | Terminate(t: int)

  predicate SomeoneStoring(s: Shell) { exists t :: t in s.terminators && s.terminators[t] == Storing }

  predicate SomeonePurged(s: Shell) { exists c :: c in s.closers && s.closers[c] == Purged }

  function CloseStep(s: Shell, c: int, running: bool): Shell
    requires c in s.closers
  {
    match s.closers[c]
    case Entered =>
      s.(closed := true, closers := s.closers[c := Marked])
    case Marked => s.(closers := s.closers[c := if running && !s.closed then Retaining else Terminated])
    case Retaining => s.(entry := Final, closers := s.closers[c := Terminated])
    case Terminated =>
      (match s.once
       case NotRun => s.(once := Running, closers := s.closers[c := Purging])
       case Running => s  // waits for the purge under way
       case Ran => s.(closers := s.closers[c := Done]))
    case Purging => s.(entry := Absent, closers := s.closers[c := Purged])
    case Purged => s.(once := Ran, closers := s.closers[c := Done])
    case Done => s
  }

  function Step(s: Shell, e: Event): Shell {
    match e
    case Watch =>
      (match s.watcher
       case AtCheck => s.(watcher := if s.closed then AtRecheck else AtStore)
       case AtStore => s.(entry := Final, watcher := AtRecheck)
       case AtRecheck => s.(watcher := if s.closed then AtDelete else Finished)
       case AtDelete => s.(entry := Absent, watcher := Finished)
       case Finished => s)
    case Enter(c) => if c in s.closers then s else s.(closers := s.closers[c := Entered])
    case Close(c, running) => if c in s.closers then CloseStep(s, c, running) else s
    case Begin(t) => if t in s.terminators then s else s.(terminators := s.terminators[t := Looking])
    case Terminate(t) =>
      if t !in s.terminators then s
      else (
        match s.terminators[t]
        case Looking => s.(terminators := s.terminators[t := if s.closed then Ended else Storing])
        case Storing => s.(entry := Final, terminators := s.terminators[t := Ended])
        case Ended => s)
  }

  function Run(s: Shell, es: seq<Event>): Shell
    decreases |es|
  {
    if es == [] then s else Run(Step(s, es[0]), es[1..])
  }

  /** A new shell: in the history, running, and nobody closing it. */
  const NEW: Shell := Shell(false, Early, NotRun, AtCheck, map[], map[])

  /** Everyone who started has finished, and somebody did close the shell. */
  predicate ClosedAndQuiet(s: Shell) {
    && s.watcher == Finished
    && (exists c :: c in s.closers && s.closers[c] == Done)
    && (forall c :: c in s.closers ==> s.closers[c] == Done)
    && (forall t :: t in s.terminators ==> s.terminators[t] == Ended)
  }

  // ---------------------------------------------------------------- the invariant

  ghost predicate CloserSound(s: Shell, c: int) {
    c in s.closers ==>
      && (s.closers[c] != Entered ==> s.closed)
      && s.closers[c] != Retaining
      && (s.closers[c] == Purging || s.closers[c] == Purged ==> s.once == Running)
      && (s.closers[c] == Done ==> s.once == Ran)
  }

  ghost predicate OnePurge(s: Shell) {
    forall c, d :: c in s.closers && d in s.closers && s.closers[c] in {Purging, Purged} && s.closers[d] in {Purging, Purged}
                   ==> c == d
  }

  /** What holds in every reachable state. */
  ghost predicate Inv(s: Shell) {
    && (forall c: int :: CloserSound(s, c))
    && OnePurge(s)
    && (s.once != NotRun ==> s.closed)
  }

  lemma CloseKeepsInv(s: Shell, c: int, running: bool)
    requires Inv(s) && c in s.closers
    ensures Inv(CloseStep(s, c, running))
  {
    var n := CloseStep(s, c, running);
    assert CloserSound(s, c);
    forall d: int ensures CloserSound(n, d) {
      assert CloserSound(s, d);
      if d != c && d in s.closers && s.closers[d] in {Purging, Purged} && s.closers[c] in {Purging, Purged} {
        assert false;
      }
    }
    forall d, e | d in n.closers && e in n.closers && n.closers[d] in {Purging, Purged} && n.closers[e] in {Purging, Purged}
      ensures d == e
    {
      assert CloserSound(s, d) && CloserSound(s, e);
    }
  }

  lemma StepKeepsInv(s: Shell, e: Event)
    requires Inv(s)
    ensures Inv(Step(s, e))
  {
    if e.Close? && e.c in s.closers {
      CloseKeepsInv(s, e.c, e.running);
    } else {
      var n := Step(s, e);
      forall d: int ensures CloserSound(n, d) {
        assert CloserSound(s, d);
      }
    }
  }

  lemma {:induction false} RunKeepsInv(s: Shell, es: seq<Event>)
    requires Inv(s)
    ensures Inv(Run(s, es))
    decreases |es|
  {
    if es != [] {
      StepKeepsInv(s, es[0]);
      RunKeepsInv(Step(s, es[0]), es[1..]);
    }
  }

  // ---------------------------------------------------------------- before the flag is set

  ghost predicate SomeoneMarked(s: Shell) { exists c :: c in s.closers && s.closers[c] != Entered }

  /** The flag is set exactly by a close call; until then the entry is there and nobody is about to delete it. */
  ghost predicate Kept(s: Shell) {
    && (s.closed <==> SomeoneMarked(s))
    && (!s.closed ==> s.Retained() && s.watcher != AtDelete)
    && (!s.closed && (s.watcher == AtRecheck || s.watcher == Finished) ==> s.entry == Final)
  }

  lemma StepKeepsKept(s: Shell, e: Event)
    requires Inv(s) && Kept(s)
    ensures Kept(Step(s, e))
  {
    var n := Step(s, e);
    if e.Close? && e.c in s.closers {
      assert CloserSound(s, e.c);
      assert n.closed && n.closers[e.c] != Entered;
      assert SomeoneMarked(n);
    } else {
      if SomeoneMarked(s) {
        var c :| c in s.closers && s.closers[c] != Entered;
        assert c in n.closers && n.closers[c] != Entered;
      }
      if SomeoneMarked(n) {
        var c :| c in n.closers && n.closers[c] != Entered;
        assert c in s.closers && s.closers[c] != Entered;
      }
    }
  }

  lemma {:induction false} RunKeepsKept(s: Shell, es: seq<Event>)
    requires Inv(s) && Kept(s)
    ensures Kept(Run(s, es))
    decreases |es|
  {
    if es != [] {
      StepKeepsInv(s, es[0]);
      StepKeepsKept(s, es[0]);
      RunKeepsKept(Step(s, es[0]), es[1..]);
    }
  }

  ghost predicate NobodyCloses(es: seq<Event>) { forall i :: 0 <= i < |es| ==> !es[i].Close? }

  /**
   A shell that has not been closed stays in the history, whatever exits and terminates: in
   every reachable state in which the flag is not set the id is retained, and the flag is set
   only by a close call. So a run in which nobody closes keeps the id to the end, and once the
   watcher is done the entry is what the shell was at its end.
   */
  lemma OpenShellStaysRetained(es: seq<Event>)
    ensures !Run(NEW, es).closed ==> Run(NEW, es).Retained()
    ensures Run(NEW, es).closed <==> SomeoneMarked(Run(NEW, es))
    ensures NobodyCloses(es) ==> !Run(NEW, es).closed && Run(NEW, es).Retained()
    ensures !Run(NEW, es).closed && Run(NEW, es).watcher == Finished ==> Run(NEW, es).entry == Final
  {
    assert Inv(NEW) && Kept(NEW);
    RunKeepsKept(NEW, es);
    if NobodyCloses(es) {
      NobodyIsMarked(NEW, es);
    }
  }

  lemma {:induction false} NobodyIsMarked(s: Shell, es: seq<Event>)
    requires NobodyCloses(es) && !SomeoneMarked(s)
    ensures !SomeoneMarked(Run(s, es))
    decreases |es|
  {
    if es != [] {
      var n := Step(s, es[0]);
      assert !es[0].Close?;
      forall c | c in n.closers ensures n.closers[c] == Entered {
        assert c in s.closers ==> s.closers[c] == Entered;
      }
      forall i | 0 <= i < |es[1..]| ensures !es[1..][i].Close? {
        assert es[1..][i] == es[i + 1];
      }
      NobodyIsMarked(n, es[1..]);
    }
  }

  // ---------------------------------------------------------------- after the flag is set

  /** After the purge only the watcher can have put the entry back, and then it will take it out. */
  ghost predicate PurgeHolds(s: Shell) {
    (s.once == Ran || SomeonePurged(s)) && s.Retained() ==> s.watcher == AtRecheck || s.watcher == AtDelete
  }

  /** The flag is set and no terminator is left that looked before it was. */
  ghost predicate Settled(s: Shell) {
    Inv(s) && s.closed && !SomeoneStoring(s) && PurgeHolds(s)
  }

  lemma StepStaysSettled(s: Shell, e: Event)
    requires Settled(s)
    ensures Settled(Step(s, e))
  {
    var n := Step(s, e);
    StepKeepsInv(s, e);
    forall t | t in n.terminators ensures n.terminators[t] != Storing {
      assert t in s.terminators ==> s.terminators[t] != Storing;
    }
    if SomeonePurged(n) && n.Retained() {
      var d :| d in n.closers && n.closers[d] == Purged;
      assert CloserSound(s, d);
      assert e == Close(d, true) || e == Close(d, false) || (d in s.closers && s.closers[d] == Purged);
    }
    if e.Close? && e.c in s.closers {
      assert CloserSound(s, e.c);
    }
  }

  lemma {:induction false} RunStaysSettled(s: Shell, es: seq<Event>)
    requires Settled(s)
    ensures Settled(Run(s, es))
    decreases |es|
  {
    if es != [] {
      StepStaysSettled(s, es[0]);
      RunStaysSettled(Step(s, es[0]), es[1..]);
    }
  }

  // ---------------------------------------------------------------- finishing everyone

  lemma {:induction false} RunAppend(s: Shell, a: seq<Event>, b: seq<Event>)
    ensures Run(s, a + b) == Run(Run(s, a), b)
    decreases |a|
  {
    if a == [] {
      assert a + b == b;
    } else {
      assert (a + b)[1..] == a[1..] + b;
      RunAppend(Step(s, a[0]), a[1..], b);
    }
  }

  lemma RunTwo(s: Shell, a: Event, b: Event)
    ensures Run(s, [a, b]) == Step(Step(s, a), b)
  {
    assert [a, b][1..] == [b] && [b][1..] == [];
    assert Run(Step(s, a), [b]) == Run(Step(Step(s, a), b), []);
  }

  /** The first close to reach the purge, from its mark to its end. */
  lemma CloseFirst(s: Shell, c: int) returns (es: seq<Event>)
    requires c in s.closers && s.closers[c] == Marked && s.closed && s.once == NotRun
    ensures Run(s, es) == s.(entry := Absent, once := Ran, closers := s.closers[c := Done])
  {
    var step := Close(c, false);
    var two := [step, step];
    RunTwo(s, step, step);
    var mid := Run(s, two);
    assert mid == s.(once := Running, closers := s.closers[c := Purging]);
    RunTwo(mid, step, step);
    es := two + two;
    RunAppend(s, two, two);
  }

  /** Once the purge has run, a close that has only been entered goes straight through. */
  lemma CloseAfter(s: Shell, c: int) returns (es: seq<Event>)
    requires c in s.closers && s.closers[c] == Entered && s.closed && s.once == Ran
    ensures Run(s, es) == s.(closers := s.closers[c := Done])
  {
    var step := Close(c, false);
    RunTwo(s, step, step);
    var mid := Run(s, [step, step]);
    assert mid == s.(closers := s.closers[c := Terminated]);
    es := [step, step] + [step];
    RunAppend(s, [step, step], [step]);
    assert [step][1..] == [];
    assert Run(mid, [step]) == Run(Step(mid, step), []);
  }

  ghost function Unfinished(s: Shell): set<int> { set c | c in s.closers && s.closers[c] != Done }

  lemma {:induction false} FinishClosers(s: Shell) returns (es: seq<Event>)
    requires s.closed && s.once == Ran
    requires forall c :: c in s.closers ==> s.closers[c] == Done || s.closers[c] == Entered
    ensures var n := Run(s, es);
            && n == s.(closers := n.closers) && n.closers.Keys == s.closers.Keys
            && forall c :: c in n.closers ==> n.closers[c] == Done
    decreases |Unfinished(s)|
  {
    if Unfinished(s) == {} {
      es := [];
      forall c | c in s.closers ensures s.closers[c] == Done {
        assert c !in Unfinished(s);
      }
    } else {
      var c := Any(Unfinished(s));
      var first := CloseAfter(s, c);
      var n := Run(s, first);
      assert Unfinished(n) == Unfinished(s) - {c};
      var rest := FinishClosers(n);
      es := first + rest;
      RunAppend(s, first, rest);
    }
  }

  function StepsLeft(w: Watcher): nat {
    match w
    case AtCheck => 4
    case AtStore => 3
    case AtRecheck => 2
    case AtDelete => 1
    case Finished => 0
  }

  lemma {:induction false} FinishWatcher(s: Shell) returns (es: seq<Event>)
    requires s.closed
    ensures var n := Run(s, es); n == s.(watcher := Finished, entry := n.entry)
    decreases StepsLeft(s.watcher)
  {
    if s.watcher == Finished {
      es := [];
    } else {
      var rest := FinishWatcher(Step(s, Watch));
      es := [Watch] + rest;
      assert es[1..] == rest;
    }
  }

  ghost function Others(s: Shell, t: int): set<int> {
    set u | u in s.terminators && s.terminators[u] != Ended && u != t
  }

  lemma {:induction false} FinishOthers(s: Shell, t: int) returns (es: seq<Event>)
    requires s.closed && t in s.terminators && s.terminators[t] == Storing
    ensures var n := Run(s, es);
            && n == s.(entry := n.entry, terminators := n.terminators)
            && t in n.terminators && n.terminators[t] == Storing
            && forall u :: u in n.terminators && u != t ==> n.terminators[u] == Ended
    decreases |Others(s, t)|
  {
    if Others(s, t) == {} {
      es := [];
      forall u | u in s.terminators && u != t ensures s.terminators[u] == Ended {
        assert u !in Others(s, t);
      }
    } else {
      var u := Any(Others(s, t));
      var n := Step(s, Terminate(u));
      assert Others(n, t) == Others(s, t) - {u};
      var rest := FinishOthers(n, t);
      es := [Terminate(u)] + rest;
      assert es[1..] == rest;
    }
  }

  /** A terminator that stands between its look and its store can outlast everyone, and store last. */
  lemma StoreLast(s: Shell, c: int, t: int) returns (es: seq<Event>)
    requires s.closed && s.once == NotRun && c in s.closers && s.closers[c] == Marked
    requires forall d :: d in s.closers && d != c ==> s.closers[d] == Entered
    requires t in s.terminators && s.terminators[t] == Storing
    ensures ClosedAndQuiet(Run(s, es)) && Run(s, es).Retained()
  {
    var a := CloseFirst(s, c);
    var s1 := Run(s, a);
    var b := FinishClosers(s1);
    var s2 := Run(s1, b);
    var w := FinishWatcher(s2);
    var s3 := Run(s2, w);
    var o := FinishOthers(s3, t);
    var s4 := Run(s3, o);
    var last := [Terminate(t)];
    es := a + b + w + o + last;
    RunAppend(s, a, b);
    RunAppend(s, a + b, w);
    RunAppend(s, a + b + w, o);
    RunAppend(s, a + b + w + o, last);
    assert last[1..] == [];
    var end := Step(s4, Terminate(t));
    assert Run(s4, last) == Run(end, []) == end;
    assert c in s1.closers.Keys && c in end.closers && end.closers[c] == Done;
  }

  // ---------------------------------------------------------------- main results

  /** However the run goes on, once everyone has finished the id is gone. */
  ghost predicate WillBeAbsent(s: Shell) {
    forall es :: ClosedAndQuiet(Run(s, es)) ==> !Run(s, es).Retained()
  }

  /**
   A closed shell never survives in the retained history, in any interleaving of the watcher
   with any number of close calls and terminators, if and only if at the moment the flag is
   first set no terminator stands between its look at the flag and its store.
   */
  lemma ClosedShellIsAbsentIff(before: seq<Event>, c: int, running: bool)
    requires var p := Run(NEW, before); !p.closed && c in p.closers && p.closers[c] == Entered
    ensures var p := Run(NEW, before);
            WillBeAbsent(Step(p, Close(c, running))) <==> !SomeoneStoring(p)
  {
    var p := Run(NEW, before);
    assert Inv(NEW);
    RunKeepsInv(NEW, before);
    var s := Step(p, Close(c, running));
    assert SomeoneStoring(s) <==> SomeoneStoring(p) by {
      assert s.terminators == p.terminators;
    }
    if SomeoneStoring(p) {
      var t :| t in p.terminators && p.terminators[t] == Storing;
      forall d | d in s.closers && d != c ensures s.closers[d] == Entered {
        assert CloserSound(p, d);
      }
      var es := StoreLast(s, c, t);
      assert !WillBeAbsent(s);
    } else {
      StepKeepsInv(p, Close(c, running));
      NobodyPurgedYet(p);
      forall d | d in s.closers ensures s.closers[d] != Purged {
        assert p.closers[d] != Purged;
      }
      forall es | ClosedAndQuiet(Run(s, es)) ensures !Run(s, es).Retained() {
        AbsentWhenQuiet(s, es);
      }
    }
  }

  lemma NobodyPurgedYet(p: Shell)
    requires Inv(p) && !p.closed
    ensures p.once == NotRun && !SomeonePurged(p)
  {
    forall d | d in p.closers ensures p.closers[d] != Purged {
      assert CloserSound(p, d);
    }
  }

  lemma AbsentWhenQuiet(s: Shell, es: seq<Event>)
    requires Settled(s) && ClosedAndQuiet(Run(s, es))
    ensures !Run(s, es).Retained()
  {
    RunStaysSettled(s, es);
    var n := Run(s, es);
    var c :| c in n.closers && n.closers[c] == Done;
    assert CloserSound(n, c);
  }

  lemma OpenIsNotQuiet(s: Shell)
    requires Inv(s) && !s.closed
    ensures !ClosedAndQuiet(s)
  {
    forall c | c in s.closers ensures s.closers[c] != Done {
      assert CloserSound(s, c);
    }
  }

  ghost predicate NoTerminators(es: seq<Event>) {
    forall i :: 0 <= i < |es| ==> !es[i].Begin? && !es[i].Terminate?
  }

  /** With the watcher and any number of close calls alone the id is always absent at the end. */
  lemma {:induction false} WatcherAndClosersNeverRetain(s: Shell, es: seq<Event>)
    requires Inv(s) && s.terminators == map[] && PurgeHolds(s) && NoTerminators(es)
    requires ClosedAndQuiet(Run(s, es))
    ensures !Run(s, es).Retained()
    decreases |es|
  {
    if s.closed {
      AbsentWhenQuiet(s, es);
    } else if es == [] {
      OpenIsNotQuiet(s);
    } else {
      var n := Step(s, es[0]);
      assert NoTerminators(es[1..]) by {
        forall i | 0 <= i < |es[1..]| ensures !es[1..][i].Begin? && !es[1..][i].Terminate? {
          assert es[1..][i] == es[i + 1];
        }
      }
      assert !es[0].Begin? && !es[0].Terminate?;
      StepKeepsInv(s, es[0]);
      NobodyPurgedYet(s);
      if SomeonePurged(n) {
        var d :| d in n.closers && n.closers[d] == Purged;
        assert CloserSound(s, d);
      }
      WatcherAndClosersNeverRetain(n, es[1..]);
    }
  }

  /** A new shell is where those runs start. */
  lemma NewShellIsSound()
    ensures Inv(NEW) && PurgeHolds(NEW) && NEW.terminators == map[]
  {
  }

  /** The failing case is reached from a new shell: look, close, purge, store. */
  lemma LateTerminatorRetains(t: int, c: int)
    ensures exists es :: ClosedAndQuiet(Run(NEW, es)) && Run(NEW, es).Retained()
  {
    var looking := Step(NEW, Begin(t));
    var storing := Step(looking, Terminate(t));
    RunTwo(NEW, Begin(t), Terminate(t));
    RunTwo(storing, Enter(c), Close(c, true));
    var marked := Step(Step(storing, Enter(c)), Close(c, true));
    var start := [Begin(t), Terminate(t)] + [Enter(c), Close(c, true)];
    RunAppend(NEW, [Begin(t), Terminate(t)], [Enter(c), Close(c, true)]);
    var es := StoreLast(marked, c, t);
    RunAppend(NEW, start, es);
    assert ClosedAndQuiet(Run(NEW, start + es)) && Run(NEW, start + es).Retained();
  }
}
