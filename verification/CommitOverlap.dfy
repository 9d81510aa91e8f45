/**
 Two key presses on one shell in review mode at the same time (CommitStaged and submitApproval
 in internal/session/approval.go): a commit takes the staged text under one lock and submits it
 under another, so commits that overlap may reach the queue in another order than they took
 their text.
 */
module CommitOverlap {

  /** `hand` holds the texts of commits between their two locks, in the order they were taken. */
  datatype Shell = Shell(queued: seq<string>, hand: seq<string>, staged: string)

  datatype Event =
    | Stage(text: string)
    | Take             // a commit takes what is staged
    | Submit(i: nat)   // the i-th oldest commit under way reaches the queue

  function Step(s: Shell, e: Event): Shell {
    match e
    case Stage(text) => s.(staged := s.staged + text)
    case Take => s.(hand := s.hand + [s.staged], staged := "")
    case Submit(i) =>
      if i < |s.hand| then s.(queued := s.queued + [s.hand[i]], hand := s.hand[..i] + s.hand[i + 1..]) else s
  }

  function Run(s: Shell, es: seq<Event>): Shell
    decreases |es|
  {
    if es == [] then s else Run(Step(s, es[0]), es[1..])
  }

  function Flat(texts: seq<string>): string {
    if texts == [] then "" else texts[0] + Flat(texts[1..])
  }

  /** The queue's lines, then what is under way, then what is staged. */
  function Whole(s: Shell): string { Flat(s.queued) + (Flat(s.hand) + s.staged) }

  function Staged(es: seq<Event>): string {
    if es == [] then "" else (if es[0].Stage? then es[0].text else "") + Staged(es[1..])
  }

  lemma {:induction false} FlatAppend(a: seq<string>, b: seq<string>)
    ensures Flat(a + b) == Flat(a) + Flat(b)
  {
    if a == [] {
      assert a + b == b;
    } else {
      assert (a + b)[1..] == a[1..] + b;
      FlatAppend(a[1..], b);
    }
  }

  lemma FlatOne(text: string)
    ensures Flat([text]) == text
  {
    assert [text][1..] == [];
  }

  lemma Regroup(q: string, x: string, p: string, rest: string)
    ensures q + x + (p + rest) == q + ((x + p) + rest)
  {
  }

  lemma SameMiddle(q: string, a: string, b: string, rest: string)
    requires |a| == |b|
    ensures q + (a + rest) == q + (b + rest) <==> a == b
  {
    if q + (a + rest) == q + (b + rest) {
      assert a == (q + (a + rest))[|q|..|q| + |a|];
      assert b == (q + (b + rest))[|q|..|q| + |b|];
    }
  }

  /**
   A submission keeps the text in the order it was typed if and only if its text commutes with
   the texts of the commits that took theirs earlier and are still under way: always when there
   are none.
   */
  lemma SubmitKeepsOrderIff(s: Shell, i: nat)
    requires i < |s.hand|
    ensures Whole(Step(s, Submit(i))) == Whole(s) <==>
            s.hand[i] + Flat(s.hand[..i]) == Flat(s.hand[..i]) + s.hand[i]
  {
    var p, x, r := Flat(s.hand[..i]), s.hand[i], Flat(s.hand[i + 1..]);
    var q := Flat(s.queued);
    assert s.hand == s.hand[..i] + ([x] + s.hand[i + 1..]);
    FlatAppend(s.hand[..i], [x] + s.hand[i + 1..]);
    FlatAppend([x], s.hand[i + 1..]);
    FlatAppend(s.hand[..i], s.hand[i + 1..]);
    FlatAppend(s.queued, [x]);
    FlatOne(x);
    var rest := r + s.staged;
    assert Whole(s) == q + ((p + x) + rest) by {
      assert Flat(s.hand) + s.staged == (p + x) + rest;
    }
    assert Whole(Step(s, Submit(i))) == q + ((x + p) + rest) by {
      assert (p + r) + s.staged == p + rest;
      Regroup(q, x, p, rest);
    }
    SameMiddle(q, p + x, x + p, rest);
  }

  /** Commits reach the queue in the order they took their text. */
  ghost predicate InTurn(es: seq<Event>) {
    forall i :: 0 <= i < |es| && es[i].Submit? ==> es[i].i == 0
  }

  /** Then, whatever overlaps otherwise, every character typed is queued, under way or staged, in order. */
  lemma {:induction false} InTurnKeepsOrder(s: Shell, es: seq<Event>)
    requires InTurn(es)
    ensures Whole(Run(s, es)) == Whole(s) + Staged(es)
    decreases |es|
  {
    if es == [] {
      assert Whole(s) + "" == Whole(s);
    } else {
      var e, n := es[0], Step(s, es[0]);
      assert e.Submit? ==> e.i == 0;
      InTurnStep(s, e);
      assert InTurn(es[1..]) by {
        forall i | 0 <= i < |es[1..]| && es[1..][i].Submit? ensures es[1..][i].i == 0 {
          assert es[1..][i] == es[i + 1];
        }
      }
      InTurnKeepsOrder(n, es[1..]);
      var text := if e.Stage? then e.text else "";
      assert Whole(s) + text + Staged(es[1..]) == Whole(s) + (text + Staged(es[1..]));
    }
  }

  lemma InTurnStep(s: Shell, e: Event)
    requires e.Submit? ==> e.i == 0
    ensures Whole(Step(s, e)) == Whole(s) + if e.Stage? then e.text else ""
  {
    match e
    case Stage(text) =>
      assert Flat(s.queued) + (Flat(s.hand) + (s.staged + text)) == Flat(s.queued) + (Flat(s.hand) + s.staged) + text;
    case Take =>
      FlatAppend(s.hand, [s.staged]);
      FlatOne(s.staged);
      assert Flat(s.hand) + s.staged + "" == Flat(s.hand) + s.staged;
    case Submit(i) =>
      if i < |s.hand| {
        SubmitKeepsOrderIff(s, 0);
        assert s.hand[..0] == [];
      }
  }

  /** Two lines typed and taken, one after the other. */
  lemma BothTaken(x: string, y: string)
    ensures Step(Step(Step(Step(Shell([], [], ""), Stage(x)), Take), Stage(y)), Take) == Shell([], [x, y], "")
  {
    assert "" + x == x && "" + y == y;
    assert [] + [x] == [x] && [x] + [y] == [x, y];
  }

  /** Out of turn the order is lost: the second line typed is queued before the first. */
  lemma OverlappingCommitsSwap(x: string, y: string)
    ensures var taken := Step(Step(Step(Step(Shell([], [], ""), Stage(x)), Take), Stage(y)), Take);
            Step(Step(taken, Submit(1)), Submit(0)) == Shell([y, x], [], "")
    ensures Flat([y, x]) == y + x
  {
    BothTaken(x, y);
    var s := Step(Shell([], [x, y], ""), Submit(1));
    assert s == Shell([y], [x], "");
    assert [y] + [x] == [y, x] && [y, x][1..] == [x];
    FlatOne(x);
  }
}
