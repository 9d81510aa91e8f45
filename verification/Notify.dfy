/**
 The notification manager (internal/notify/manager.go): rules with two indexes over them,
 and the cooldown gate in front of every send.
 */
module Notify {
  import opened Basics

  datatype Channel = Resource | Sampling | OtherChannel
  datatype Event = Exit | Silence | Output | Unset | OtherEvent

  datatype Rule = Rule(id: string, session: string, shell: string, channel: Channel, event: Event, silenceSec: int)

  type Rules = map<string, Rule>

  /** `byShell` holds each shell's rule ids, `bySession` each session's shells. */
  datatype Index = Index(rules: Rules, byShell: map<string, set<string>>, bySession: map<string, set<string>>)

  // ---------------------------------------------------------------- what the indexes mean

  ghost function IdsOf(rules: Rules, shell: string): set<string> {
    set id | id in rules && rules[id].shell == shell
  }

  ghost function IdsOfSession(rules: Rules, session: string): set<string> {
    set id | id in rules && rules[id].session == session
  }

  ghost function ShellsOf(rules: Rules, session: string): set<string> {
    set id | id in rules && rules[id].session == session :: rules[id].shell
  }

  /** An entry is there exactly when it is not empty, and holds exactly what the rules say. */
  ghost predicate Entry(index: map<string, set<string>>, key: string, want: set<string>) {
    if key in index then index[key] == want && want != {} else want == {}
  }

  /** Rules without a session are not indexed by session; `skip` is one whose entry has been dropped. */
  ghost predicate SessionEntry(x: Index, session: string, skip: string) {
    Entry(x.bySession, session, if session == "" || session == skip then {} else ShellsOf(x.rules, session))
  }

  /** The shell index is right, whoever owns the shells. */
  ghost predicate ShellsRight(x: Index) {
    && (forall id :: id in x.rules ==> x.rules[id].id == id)
    && (forall s: string :: Entry(x.byShell, s, IdsOf(x.rules, s)))
  }

  ghost predicate Describes(x: Index, skip: string) {
    ShellsRight(x) && forall t: string :: SessionEntry(x, t, skip)
  }

  /** All three describe the same rules, with no empty entry. */
  ghost predicate Consistent(x: Index) { Describes(x, "") }

  /** Each shell belongs to one session. */
  ghost predicate OneOwner(rules: Rules) {
    forall a, b :: a in rules && b in rules && rules[a].shell == rules[b].shell ==> rules[a].session == rules[b].session
  }

  ghost predicate BelongsTo(rules: Rules, shell: string, session: string) {
    forall id :: id in rules && rules[id].shell == shell ==> rules[id].session == session
  }

  /** The rules determine the indexes. */
  lemma IndexIsDetermined(x: Index, y: Index)
    requires Consistent(x) && Consistent(y) && x.rules == y.rules
    ensures x == y
  {
    forall s: string ensures s in x.byShell <==> s in y.byShell {
      assert Entry(x.byShell, s, IdsOf(x.rules, s)) && Entry(y.byShell, s, IdsOf(y.rules, s));
    }
    forall t: string ensures t in x.bySession <==> t in y.bySession {
      assert SessionEntry(x, t, "") && SessionEntry(y, t, "");
    }
    assert x.byShell.Keys == y.byShell.Keys && x.bySession.Keys == y.bySession.Keys;
    forall s | s in x.byShell ensures x.byShell[s] == y.byShell[s] {
      assert Entry(x.byShell, s, IdsOf(x.rules, s)) && Entry(y.byShell, s, IdsOf(y.rules, s));
    }
    forall t | t in x.bySession ensures x.bySession[t] == y.bySession[t] {
      assert SessionEntry(x, t, "") && SessionEntry(y, t, "");
    }
    assert x.byShell == y.byShell && x.bySession == y.bySession;
  }

  // ---------------------------------------------------------------- adding and removing one rule

  function Held(index: map<string, set<string>>, key: string): set<string> {
    if key in index then index[key] else {}
  }

  /** Stores an entry, or deletes it when it has become empty. */
  function Put(index: map<string, set<string>>, key: string, value: set<string>): map<string, set<string>> {
    if value == {} then index - {key} else index[key := value]
  }

  function Add(x: Index, r: Rule): Index {
    Index(
      x.rules[r.id := r],
      x.byShell[r.shell := Held(x.byShell, r.shell) + {r.id}],
      if r.session == "" then x.bySession
      else x.bySession[r.session := Held(x.bySession, r.session) + {r.shell}])
  }

  /** The session entry loses the shell only when the shell has lost its last rule. */
  function Remove(x: Index, r: Rule): Index {
    if r.shell !in x.byShell then x.(rules := x.rules - {r.id})
    else
      var left := x.byShell[r.shell] - {r.id};
      Index(
        x.rules - {r.id},
        Put(x.byShell, r.shell, left),
        if left == {} && r.session in x.bySession
        then Put(x.bySession, r.session, x.bySession[r.session] - {r.shell})
        else x.bySession)
  }

  lemma AddKeepsShells(x: Index, r: Rule)
    requires ShellsRight(x) && r.id !in x.rules
    ensures ShellsRight(Add(x, r))
  {
    var y := Add(x, r);
    forall s: string ensures Entry(y.byShell, s, IdsOf(y.rules, s)) {
      assert Entry(x.byShell, s, IdsOf(x.rules, s));
      assert IdsOf(y.rules, s) == IdsOf(x.rules, s) + if s == r.shell then {r.id} else {};
    }
  }

  lemma AddStaysConsistent(x: Index, r: Rule)
    requires Consistent(x) && r.id !in x.rules
    ensures Consistent(Add(x, r))
  {
    var y := Add(x, r);
    AddKeepsShells(x, r);
    forall t: string ensures SessionEntry(y, t, "") {
      assert SessionEntry(x, t, "");
      AddedShells(x.rules, r, t);
    }
  }

  lemma AddedShells(rules: Rules, r: Rule, t: string)
    requires r.id !in rules
    ensures ShellsOf(rules[r.id := r], t) == ShellsOf(rules, t) + if t == r.session then {r.shell} else {}
  {
    var more := rules[r.id := r];
    forall s | s in ShellsOf(more, t) ensures s in ShellsOf(rules, t) || (t == r.session && s == r.shell) {
      var id :| id in more && more[id].session == t && more[id].shell == s;
      assert id == r.id || (id in rules && rules[id] == more[id]);
    }
    forall s | s in ShellsOf(rules, t) ensures s in ShellsOf(more, t) {
      var id :| id in rules && rules[id].session == t && rules[id].shell == s;
      assert more[id] == rules[id];
    }
    if t == r.session {
      assert more[r.id] == r;
    }
  }

  /** Another rule keeps this rule's shell in this rule's session. */
  ghost predicate Backed(rules: Rules, r: Rule) {
    exists id :: id in rules && id != r.id && rules[id].shell == r.shell && rules[id].session == r.session
  }

  ghost predicate LastOfShell(rules: Rules, r: Rule) {
    forall id :: id in rules && rules[id].shell == r.shell ==> id == r.id
  }

  lemma RemovedShells(rules: Rules, r: Rule, t: string)
    requires r.id in rules && rules[r.id] == r
    ensures ShellsOf(rules - {r.id}, t) ==
            if t == r.session && !Backed(rules, r) then ShellsOf(rules, t) - {r.shell} else ShellsOf(rules, t)
  {
    var fewer := rules - {r.id};
    forall s | s in ShellsOf(fewer, t) ensures s in ShellsOf(rules, t) {
      var id :| id in fewer && fewer[id].session == t && fewer[id].shell == s;
      assert rules[id] == fewer[id];
    }
    forall s | s in ShellsOf(rules, t) && !(t == r.session && !Backed(rules, r) && s == r.shell) ensures s in ShellsOf(fewer, t) {
      var id :| id in rules && rules[id].session == t && rules[id].shell == s;
      if id == r.id {
        var other :| other in rules && other != r.id && rules[other].shell == r.shell && rules[other].session == r.session;
        assert fewer[other] == rules[other];
      } else {
        assert fewer[id] == rules[id];
      }
    }
    if t == r.session && r.shell in ShellsOf(fewer, t) {
      var id :| id in fewer && fewer[id].session == t && fewer[id].shell == r.shell;
      assert rules[id] == fewer[id];
      assert Backed(rules, r);
    }
  }

  /** When removing a rule keeps the session index right: checkable from the rules before the call. */
  ghost predicate SafeToRemove(rules: Rules, r: Rule, skip: string) {
    LastOfShell(rules, r) || r.session == "" || r.session == skip || Backed(rules, r)
  }

  lemma RemoveKeepsShells(x: Index, r: Rule)
    requires ShellsRight(x) && r.id in x.rules && x.rules[r.id] == r
    ensures var y := Remove(x, r);
            && r.shell in x.byShell && y.rules == x.rules - {r.id}
            && (x.byShell[r.shell] - {r.id} == {} <==> LastOfShell(x.rules, r))
            && ShellsRight(y)
  {
    var y := Remove(x, r);
    assert Entry(x.byShell, r.shell, IdsOf(x.rules, r.shell));
    assert r.id in IdsOf(x.rules, r.shell);
    assert LastOfShell(x.rules, r) ==> forall id :: id in IdsOf(x.rules, r.shell) ==> id == r.id;
    if x.byShell[r.shell] - {r.id} == {} {
      forall id | id in x.rules && x.rules[id].shell == r.shell ensures id == r.id {
        assert id in IdsOf(x.rules, r.shell) && id in x.byShell[r.shell];
        assert id !in x.byShell[r.shell] - {r.id};
      }
    }
    forall s: string ensures Entry(y.byShell, s, IdsOf(y.rules, s)) {
      assert Entry(x.byShell, s, IdsOf(x.rules, s));
    }
  }

  lemma RemoveKeepsOtherSessions(x: Index, r: Rule, skip: string, t: string)
    requires Describes(x, skip) && r.id in x.rules && x.rules[r.id] == r && t != r.session
    ensures SessionEntry(Remove(x, r), t, skip)
  {
    assert SessionEntry(x, t, skip);
    RemovedShells(x.rules, r, t);
    RemoveKeepsShells(x, r);
  }

  lemma RemoveOnOwnSession(x: Index, r: Rule, skip: string)
    requires Describes(x, skip) && r.id in x.rules && x.rules[r.id] == r
    ensures SessionEntry(Remove(x, r), r.session, skip) <==> SafeToRemove(x.rules, r, skip)
  {
    var t := r.session;
    assert SessionEntry(x, t, skip);
    RemovedShells(x.rules, r, t);
    RemoveKeepsShells(x, r);
    assert x.rules[r.id].session == t && r.shell in ShellsOf(x.rules, t);
    if LastOfShell(x.rules, r) && Backed(x.rules, r) {
      assert false;
    }
  }

  /** Removing a rule keeps the indexes right if and only if it is safe to remove. */
  lemma RemoveStaysConsistentIff(x: Index, r: Rule)
    requires Consistent(x) && r.id in x.rules && x.rules[r.id] == r
    ensures Consistent(Remove(x, r)) <==> SafeToRemove(x.rules, r, "")
  {
    RemoveKeepsShells(x, r);
    RemoveOnOwnSession(x, r, "");
    if SafeToRemove(x.rules, r, "") {
      RemoveStays(x, r, "");
    } else {
      assert !SessionEntry(Remove(x, r), r.session, "");
    }
  }

  lemma RemoveStays(x: Index, r: Rule, skip: string)
    requires Describes(x, skip) && r.id in x.rules && x.rules[r.id] == r && SafeToRemove(x.rules, r, skip)
    ensures Describes(Remove(x, r), skip)
  {
    var y := Remove(x, r);
    RemoveKeepsShells(x, r);
    forall t: string ensures SessionEntry(y, t, skip) {
      if t == r.session {
        RemoveOnOwnSession(x, r, skip);
      } else {
        RemoveKeepsOtherSessions(x, r, skip, t);
      }
    }
  }

  /** With one owner per shell every rule is safe to remove. */
  lemma OneOwnerIsSafe(rules: Rules, r: Rule, skip: string)
    requires OneOwner(rules) && r.id in rules && rules[r.id] == r
    ensures SafeToRemove(rules, r, skip)
  {
    if !LastOfShell(rules, r) {
      var id :| id in rules && rules[id].shell == r.shell && id != r.id;
      assert rules[id].session == rules[r.id].session;
      assert Backed(rules, r);
    }
  }

  /** Two sessions with rules on one shell leave an entry behind that no later removal takes away. */
  lemma SharedShellLeavesStaleEntry(a: Rule, b: Rule)
    requires a.id != b.id && a.shell == b.shell && a.session != b.session && a.session != "" && b.session != ""
    ensures var both := Add(Add(Index(map[], map[], map[]), a), b);
            && Consistent(both)
            && !Consistent(Remove(both, a))
            && Remove(Remove(both, a), b) == Index(map[], map[], map[a.session := {a.shell}])
  {
    var none := Index(map[], map[], map[]);
    var both := Add(Add(none, a), b);
    assert Consistent(none);
    AddStaysConsistent(none, a);
    AddStaysConsistent(Add(none, a), b);
    assert both.rules == map[a.id := a, b.id := b];
    RemoveStaysConsistentIff(both, a);
    assert both.rules[b.id] == b;
    assert !Backed(both.rules, a);
    assert !SafeToRemove(both.rules, a, "");
    AddBoth(a, b);
  }

  lemma AddBoth(a: Rule, b: Rule)
    requires a.id != b.id && a.shell == b.shell && a.session != b.session && a.session != "" && b.session != ""
    ensures Add(Add(Index(map[], map[], map[]), a), b) ==
            Index(map[a.id := a, b.id := b],
                  map[a.shell := {a.id, b.id}],
                  map[a.session := {a.shell}, b.session := {a.shell}])
  {
    var none: map<string, set<string>> := map[];
    assert Held(none, a.shell) + {a.id} == {a.id};
    assert Held(none, a.session) + {a.shell} == {a.shell};
    var first := Add(Index(map[], map[], map[]), a);
    assert first == Index(map[a.id := a], map[a.shell := {a.id}], map[a.session := {a.shell}]);
    assert Held(first.byShell, b.shell) + {b.id} == {a.id, b.id};
    assert Held(first.bySession, b.session) + {b.shell} == {a.shell};
  }

  // ---------------------------------------------------------------- the cooldown gate

  /** A send passes when nothing was sent before, or the last send is at least `cooldown` old. */
  predicate Passes(last: Option<int>, cooldown: nat, now: int) {
    last.None? || now - last.value >= cooldown
  }

  /** The times of the attempts that pass, for attempts made at the given times. */
  function Sends(last: Option<int>, cooldown: nat, attempts: seq<int>): seq<int>
    decreases |attempts|
  {
    if attempts == [] then []
    else if Passes(last, cooldown, attempts[0])
    then [attempts[0]] + Sends(Some(attempts[0]), cooldown, attempts[1..])
    else Sends(last, cooldown, attempts[1..])
  }

  lemma {:induction false} FirstSendWaits(last: int, cooldown: nat, attempts: seq<int>)
    ensures var t := Sends(Some(last), cooldown, attempts); t != [] ==> t[0] - last >= cooldown
    decreases |attempts|
  {
    if attempts != [] && !Passes(Some(last), cooldown, attempts[0]) {
      FirstSendWaits(last, cooldown, attempts[1..]);
    }
  }

  lemma {:induction false} NeighboursAreSpaced(last: Option<int>, cooldown: nat, attempts: seq<int>, k: nat)
    requires k + 1 < |Sends(last, cooldown, attempts)|
    ensures var t := Sends(last, cooldown, attempts); t[k + 1] - t[k] >= cooldown
    decreases |attempts|
  {
    if !Passes(last, cooldown, attempts[0]) {
      NeighboursAreSpaced(last, cooldown, attempts[1..], k);
    } else if k == 0 {
      FirstSendWaits(attempts[0], cooldown, attempts[1..]);
    } else {
      NeighboursAreSpaced(Some(attempts[0]), cooldown, attempts[1..], k - 1);
    }
  }

  /** However many rules fire and whenever, n + 1 sends span at least n cooldowns. */
  lemma {:induction false} SendsAreSpaced(last: Option<int>, cooldown: nat, attempts: seq<int>, i: nat, n: nat)
    requires i + n < |Sends(last, cooldown, attempts)|
    ensures var t := Sends(last, cooldown, attempts); t[i + n] - t[i] >= n * cooldown
    decreases n
  {
    if n > 0 {
      SendsAreSpaced(last, cooldown, attempts, i, n - 1);
      NeighboursAreSpaced(last, cooldown, attempts, i + n - 1);
      assert n * cooldown == (n - 1) * cooldown + cooldown;
    }
  }

  ghost predicate Excused(sends: seq<int>, last: Option<int>, cooldown: nat, at: int) {
    || at in sends
    || (last.Some? && at - last.value < cooldown)
    || exists t :: t in sends && at - t < cooldown
  }

  /** And the gate drops no more than that: an attempt that is not sent comes within a cooldown of a send. */
  lemma {:induction false} DropsAreExcused(last: Option<int>, cooldown: nat, attempts: seq<int>, k: nat)
    requires k < |attempts|
    ensures Excused(Sends(last, cooldown, attempts), last, cooldown, attempts[k])
    decreases |attempts|
  {
    var first, sends := attempts[0], Sends(last, cooldown, attempts);
    if k > 0 {
      if Passes(last, cooldown, first) {
        DropsAreExcused(Some(first), cooldown, attempts[1..], k - 1);
        var later := Sends(Some(first), cooldown, attempts[1..]);
        assert first in sends && forall t :: t in later ==> t in sends;
      } else {
        DropsAreExcused(last, cooldown, attempts[1..], k - 1);
      }
    }
  }

  // ---------------------------------------------------------------- the object

  function Normalised(id: string, session: string, shell: string, channel: Channel, event: Event, silenceSec: int): Rule {
    var ev := if event == Unset then Output else event;
    var secs := if ev != Silence then 0 else if silenceSec <= 0 then 3 else if silenceSec > 300 then 300 else silenceSec;
    Rule(id, session, shell, channel, ev, secs)
  }

  /** A silence rule waits 1 to 300 seconds, 3 when none are asked for; other rules keep no seconds; output is the default. */
  lemma NormalisedWaits(id: string, session: string, shell: string, channel: Channel, event: Event, silenceSec: int)
    ensures var r := Normalised(id, session, shell, channel, event, silenceSec);
            && r.id == id && r.session == session && r.shell == shell && r.channel == channel
            && (event == Unset ==> r.event == Output) && (event != Unset ==> r.event == event)
            && (r.event != Silence ==> r.silenceSec == 0)
            && (r.event == Silence ==>
                  && 1 <= r.silenceSec <= 300
                  && (1 <= silenceSec <= 300 ==> r.silenceSec == silenceSec)
                  && (silenceSec <= 0 ==> r.silenceSec == 3) && (silenceSec > 300 ==> r.silenceSec == 300))
  {
  }

  class Manager {
    var rules: Rules
    var byShell: map<string, set<string>>
    var bySession: map<string, set<string>>
    var lastSentAt: Option<int>
    const cooldown: nat

    ghost function View(): Index
      reads this
    {
      Index(rules, byShell, bySession)
    }

    constructor (cooldown: nat)
      ensures Consistent(View()) && rules == map[] && lastSentAt == None && this.cooldown == cooldown
    {
      rules, byShell, bySession, lastSentAt := map[], map[], map[], None;
      this.cooldown := cooldown;
    }

    method Register(id: string, session: string, shell: string, channel: Channel, event: Event, silenceSec: int)
      returns (r: Option<Rule>)
      requires ShellsRight(View()) && id !in rules
      modifies this
      ensures ShellsRight(View()) && lastSentAt == old(lastSentAt)
      ensures Consistent(old(View())) ==> Consistent(View())
      ensures r.None? <==> shell == "" || channel == OtherChannel || event == OtherEvent
      ensures r.None? ==> rules == old(rules)
      ensures r.Some? ==>
                && r.value == Normalised(id, session, shell, channel, event, silenceSec)
                && rules == old(rules)[id := r.value]
      ensures OneOwner(old(rules)) && BelongsTo(old(rules), shell, session) ==> OneOwner(rules)
    {
      if shell == "" {
        return None;
      }
      if channel != Resource && channel != Sampling {
        return None;
      }
      var ev := event;
      if ev == Unset {
        ev := Output;
      }
      if ev != Exit && ev != Silence && ev != Output {
        return None;
      }
      var secs := silenceSec;
      if ev == Silence {
        if secs <= 0 {
          secs := 3;
        }
        if secs > 300 {
          secs := 300;
        }
      } else {
        secs := 0;
      }
      var rule := Rule(id, session, shell, channel, ev, secs);
      AddKeepsShells(View(), rule);
      if Consistent(View()) {
        AddStaysConsistent(View(), rule);
      }
      Insert(rule);
      r := Some(rule);
    }

    method Insert(rule: Rule)
      modifies this
      ensures View() == Add(old(View()), rule) && lastSentAt == old(lastSentAt)
    {
      rules := rules[rule.id := rule];
      if rule.shell !in byShell {
        byShell := byShell[rule.shell := {}];
      }
      byShell := byShell[rule.shell := byShell[rule.shell] + {rule.id}];
      if rule.session != "" {
        if rule.session !in bySession {
          bySession := bySession[rule.session := {}];
        }
        bySession := bySession[rule.session := bySession[rule.session] + {rule.shell}];
      }
    }

    method RemoveRule(rule: Rule)
      modifies this
      ensures View() == Remove(old(View()), rule) && lastSentAt == old(lastSentAt)
    {
      rules := rules - {rule.id};
      if rule.shell in byShell {
        byShell := byShell[rule.shell := byShell[rule.shell] - {rule.id}];
        if byShell[rule.shell] == {} {
          byShell := byShell - {rule.shell};
          if rule.session in bySession {
            bySession := bySession[rule.session := bySession[rule.session] - {rule.shell}];
            if bySession[rule.session] == {} {
              bySession := bySession - {rule.session};
            }
          }
        }
      }
    }

    method Unregister(id: string) returns (found: bool)
      requires ShellsRight(View())
      modifies this
      ensures ShellsRight(View()) && lastSentAt == old(lastSentAt)
      ensures found <==> id in old(rules)
      ensures View() == if id in old(rules) then Remove(old(View()), old(rules)[id]) else old(View())
      ensures rules == old(rules) - {id}
      ensures Good(old(View())) ==> Good(View()) && View() == Applied(old(View()), DropRule(id))
    {
      if id !in rules {
        assert rules - {id} == rules;
        SameRules(View(), View(), DropRule(id));
        return false;
      }
      RemoveKeepsShells(View(), rules[id]);
      RemoveStaysGood(View(), rules[id], "");
      RemoveRule(rules[id]);
      found := true;
      SameRules(old(View()), View(), DropRule(id));
    }

    /** Removes the shell's rules one by one, in any order. */
    method ClearShell(shell: string, ghost skip: string)
      requires ShellsRight(View())
      modifies this
      ensures ShellsRight(View()) && lastSentAt == old(lastSentAt)
      ensures rules == old(rules) - IdsOf(old(rules), shell)
      ensures GoodBut(old(View()), skip) ==> GoodBut(View(), skip)
      ensures Good(old(View())) && skip == "" ==> View() == Applied(old(View()), DropShell(shell))
    {
      assert Entry(byShell, shell, IdsOf(rules, shell));
      if shell !in byShell {
        assert rules - {} == rules;
        SameRules(View(), View(), DropShell(shell));
        return;
      }
      var todo := byShell[shell];
      ghost var all := todo;
      while todo != {}
        invariant ShellsRight(View())
        invariant GoodBut(old(View()), skip) ==> GoodBut(View(), skip)
        invariant todo <= all && all == IdsOf(old(rules), shell)
        invariant rules == old(rules) - (all - todo)
        invariant lastSentAt == old(lastSentAt)
      {
        var id := Pick(todo);
        assert id in rules && rules[id] == old(rules)[id];
        RemoveKeepsShells(View(), rules[id]);
        RemoveStaysGood(View(), rules[id], skip);
        RemoveRule(rules[id]);
        todo := todo - {id};
      }
      assert IdsOf(rules, shell) == {};
      assert Entry(byShell, shell, IdsOf(rules, shell));
      assert all - todo == all && byShell - {shell} == byShell;
      byShell := byShell - {shell};
      SameRules(old(View()), View(), DropShell(shell));
    }

    /**
     Drops the session's entry, then clears the shells it named one by one. With one session per
     shell those hold exactly the session's rules.
     */
    method ClearSession(session: string)
      requires ShellsRight(View())
      modifies this
      ensures ShellsRight(View()) && lastSentAt == old(lastSentAt)
      ensures rules == old(rules) - IdsIn(old(rules), Held(old(bySession), session))
      ensures Good(old(View())) ==> Good(View()) && View() == Applied(old(View()), DropSession(session))
      ensures Good(old(View())) && session != "" ==> rules == old(rules) - IdsOfSession(old(rules), session)
    {
      var shells := if session in bySession then bySession[session] else {};
      SessionShells(View(), session);
      AppliedIs(View(), DropSession(session));
      if session !in bySession {
        assert IdsIn(rules, {}) == {};
        return;
      }
      bySession := bySession - {session};
      DropEntry(old(View()), session);
      var todo := shells;
      while todo != {}
        invariant ShellsRight(View())
        invariant Good(old(View())) ==> GoodBut(View(), session)
        invariant todo <= shells
        invariant rules == old(rules) - IdsIn(old(rules), shells - todo)
        invariant lastSentAt == old(lastSentAt)
      {
        var shell := Pick(todo);
        ClearShell(shell, session);
        ClearedOneMore(old(rules), shells - todo, shell);
        todo := todo - {shell};
        assert shells - todo == shells - (todo + {shell}) + {shell};
      }
      assert shells - todo == shells;
      if Good(old(View())) {
        RestoreEntry(View(), session);
        SameRules(old(View()), View(), DropSession(session));
      }
    }

    /** The gate, and a one-shot rule's removal, which happens whether or not the send passed. */
    method Dispatch(id: string, now: int, oneShot: bool) returns (sent: bool)
      requires ShellsRight(View())
      modifies this
      ensures ShellsRight(View())
      ensures Good(old(View())) ==> Good(View()) && View() == Applied(old(View()), Fire(id, now, oneShot))
      ensures sent <==> Passes(old(lastSentAt), cooldown, now)
      ensures lastSentAt == if sent then Some(now) else old(lastSentAt)
      ensures rules == if oneShot then old(rules) - {id} else old(rules)
    {
      sent := true;
      if lastSentAt.Some? && now - lastSentAt.value < cooldown {
        sent := false;
      } else {
        lastSentAt := Some(now);
      }
      if oneShot {
        var _ := Unregister(id);
      }
    }
  }

  /** All indexes right, but for one session's entry, and one session per shell. */
  ghost predicate GoodBut(x: Index, skip: string) { Describes(x, skip) && OneOwner(x.rules) }

  ghost predicate Good(x: Index) { GoodBut(x, "") }

  lemma RemoveStaysGood(x: Index, r: Rule, skip: string)
    requires r.id in x.rules && x.rules[r.id] == r
    ensures GoodBut(x, skip) ==> GoodBut(Remove(x, r), skip)
  {
    if GoodBut(x, skip) {
      OneOwnerIsSafe(x.rules, r, skip);
      RemoveStays(x, r, skip);
      RemoveKeepsShells(x, r);
    }
  }

  lemma SessionShells(x: Index, session: string)
    ensures Good(x) && session != "" ==>
              && IdsIn(x.rules, Held(x.bySession, session)) == IdsOfSession(x.rules, session)
              && (session !in x.bySession ==> IdsOfSession(x.rules, session) == {})
  {
    if Good(x) && session != "" {
      assert SessionEntry(x, session, "");
    }
  }

  ghost function IdsIn(rules: Rules, shells: set<string>): set<string> {
    set id | id in rules && rules[id].shell in shells
  }

  lemma DropEntry(x: Index, session: string)
    requires ShellsRight(x) && session in x.bySession
    ensures var y := x.(bySession := x.bySession - {session});
            ShellsRight(y) && (Good(x) ==> session != "" && GoodBut(y, session))
  {
    var y := x.(bySession := x.bySession - {session});
    forall s: string ensures Entry(y.byShell, s, IdsOf(y.rules, s)) {
      assert Entry(x.byShell, s, IdsOf(x.rules, s));
    }
    if Good(x) {
      assert SessionEntry(x, session, "");
      forall t: string ensures SessionEntry(y, t, session) {
        assert SessionEntry(x, t, "");
      }
    }
  }

  lemma RestoreEntry(x: Index, session: string)
    requires Describes(x, session) && IdsOfSession(x.rules, session) == {}
    ensures Consistent(x)
  {
    forall id | id in x.rules ensures x.rules[id].session != session {
      assert id !in IdsOfSession(x.rules, session);
    }
    assert ShellsOf(x.rules, session) == {};
    forall t: string ensures SessionEntry(x, t, "") {
      assert SessionEntry(x, t, session);
    }
  }

  lemma ClearedOneMore(rules: Rules, gone: set<string>, shell: string)
    ensures var left := rules - IdsIn(rules, gone);
            left - IdsOf(left, shell) == rules - IdsIn(rules, gone + {shell})
  {
    var left := rules - IdsIn(rules, gone);
    assert (left - IdsOf(left, shell)).Keys == (rules - IdsIn(rules, gone + {shell})).Keys;
  }

  // ---------------------------------------------------------------- whole runs

  datatype Op =
    | NewRule(rule: Rule)
    | DropRule(id: string)
    | DropShell(shell: string)
    | DropSession(session: string)
    | Fire(id: string, now: int, oneShot: bool)

  /** The manager and the times of everything it sent. */
  datatype State = State(x: Index, last: Option<int>, sent: seq<int>)

  const EMPTY: State := State(Index(map[], map[], map[]), None, [])

  ghost function RemoveEach(x: Index, ids: set<string>): Index
    decreases |ids|
  {
    if ids == {} then x
    else
      var id := Any(ids);
      RemoveEach(if id in x.rules then Remove(x, x.rules[id]) else x, ids - {id})
  }

  ghost function ClearEach(x: Index, shells: set<string>): Index
    decreases |shells|
  {
    if shells == {} then x
    else
      var shell := Any(shells);
      ClearEach(RemoveEach(x, Held(x.byShell, shell)), shells - {shell})
  }

  ghost function Step(s: State, cooldown: nat, op: Op): State {
    match op
    case NewRule(r) => if r.id in s.x.rules || r.shell == "" then s else s.(x := Add(s.x, r))
    case DropRule(id) => s.(x := RemoveEach(s.x, {id}))
    case DropShell(shell) => s.(x := RemoveEach(s.x, Held(s.x.byShell, shell)))
    case DropSession(session) =>
      if session in s.x.bySession
      then s.(x := ClearEach(s.x.(bySession := s.x.bySession - {session}), s.x.bySession[session])) else s
    case Fire(id, now, oneShot) =>
      var t := if Passes(s.last, cooldown, now) then s.(last := Some(now), sent := s.sent + [now]) else s;
      if oneShot then t.(x := RemoveEach(t.x, {id})) else t
  }

  ghost function Run(s: State, cooldown: nat, ops: seq<Op>): State
    decreases |ops|
  {
    if ops == [] then s else Run(Step(s, cooldown, ops[0]), cooldown, ops[1..])
  }

  /** What an operation leaves of the rules and their indexes; the gate plays no part in it. */
  ghost function Applied(x: Index, op: Op): Index { Step(State(x, None, []), 0, op).x }

  ghost function RulesLeft(x: Index, op: Op): Rules
    requires !op.NewRule? && !op.Fire?
  {
    match op
    case DropRule(id) => x.rules - {id}
    case DropShell(shell) => x.rules - IdsOf(x.rules, shell)
    case DropSession(session) =>
      if session in x.bySession then x.rules - IdsOfSession(x.rules, session) else x.rules
  }

  lemma AppliedIs(x: Index, op: Op)
    requires !op.NewRule? && !op.Fire?
    ensures Good(x) ==> Good(Applied(x, op)) && Applied(x, op).rules == RulesLeft(x, op)
  {
    if Good(x) {
      match op
      case DropRule(id) => RemoveEachIs(x, {id}, "");
      case DropShell(shell) => ClearShellIs(x, shell, "");
      case DropSession(session) =>
        if session in x.bySession {
          ClearSessionIs(x, session);
        }
    }
  }

  /** The rules settle it: whoever leaves the same rules and right indexes has done the operation. */
  lemma SameRules(x: Index, y: Index, op: Op)
    requires !op.NewRule? && !op.Fire?
    ensures Good(x) && Good(y) && y.rules == RulesLeft(x, op) ==> y == Applied(x, op)
  {
    AppliedIs(x, op);
    if Good(x) && Good(y) && y.rules == RulesLeft(x, op) {
      IndexIsDetermined(y, Applied(x, op));
    }
  }

  lemma {:induction false} RemoveEachIs(x: Index, ids: set<string>, skip: string)
    requires GoodBut(x, skip)
    ensures GoodBut(RemoveEach(x, ids), skip) && RemoveEach(x, ids).rules == x.rules - ids
    decreases |ids|
  {
    if ids == {} {
      assert x.rules - ids == x.rules;
    } else {
      var id := Any(ids);
      if id in x.rules {
        RemoveStaysGood(x, x.rules[id], skip);
        RemoveKeepsShells(x, x.rules[id]);
        RemoveEachIs(Remove(x, x.rules[id]), ids - {id}, skip);
      } else {
        RemoveEachIs(x, ids - {id}, skip);
      }
      assert x.rules - {id} - (ids - {id}) == x.rules - ids;
    }
  }

  lemma ClearShellIs(x: Index, shell: string, skip: string)
    requires GoodBut(x, skip)
    ensures var y := RemoveEach(x, Held(x.byShell, shell));
            GoodBut(y, skip) && y.rules == x.rules - IdsOf(x.rules, shell)
  {
    assert Entry(x.byShell, shell, IdsOf(x.rules, shell));
    RemoveEachIs(x, Held(x.byShell, shell), skip);
  }

  lemma {:induction false} ClearEachIs(x: Index, shells: set<string>, skip: string)
    requires GoodBut(x, skip)
    ensures GoodBut(ClearEach(x, shells), skip)
    ensures ClearEach(x, shells).rules == x.rules - IdsIn(x.rules, shells)
    decreases |shells|
  {
    if shells == {} {
      assert x.rules - IdsIn(x.rules, shells) == x.rules;
    } else {
      var shell := Any(shells);
      var y := RemoveEach(x, Held(x.byShell, shell));
      ClearShellIs(x, shell, skip);
      ClearEachIs(y, shells - {shell}, skip);
      ClearedRest(x.rules, shell, shells);
    }
  }

  lemma ClearedRest(rules: Rules, shell: string, shells: set<string>)
    requires shell in shells
    ensures var left := rules - IdsOf(rules, shell);
            left - IdsIn(left, shells - {shell}) == rules - IdsIn(rules, shells)
  {
    var left := rules - IdsOf(rules, shell);
    assert (left - IdsIn(left, shells - {shell})).Keys == (rules - IdsIn(rules, shells)).Keys;
  }

  lemma ClearSessionIs(x: Index, session: string)
    requires Good(x) && session in x.bySession
    ensures var y := ClearEach(x.(bySession := x.bySession - {session}), x.bySession[session]);
            Good(y) && y.rules == x.rules - IdsOfSession(x.rules, session)
  {
    DropEntry(x, session);
    SessionShells(x, session);
    var dropped := x.(bySession := x.bySession - {session});
    ClearEachIs(dropped, x.bySession[session], session);
    RestoreEntry(ClearEach(dropped, x.bySession[session]), session);
  }

  /** Each shell belongs to the session the caller says. */
  ghost predicate Owned(rules: Rules, owner: string -> string) {
    forall id :: id in rules ==> rules[id].session == owner(rules[id].shell)
  }

  ghost predicate AllOwned(ops: seq<Op>, owner: string -> string) {
    forall i :: 0 <= i < |ops| && ops[i].NewRule? ==> ops[i].rule.session == owner(ops[i].rule.shell)
  }

  lemma StepStaysGood(s: State, cooldown: nat, op: Op, owner: string -> string)
    requires Good(s.x) && Owned(s.x.rules, owner)
    requires op.NewRule? ==> op.rule.session == owner(op.rule.shell)
    ensures Good(Step(s, cooldown, op).x) && Owned(Step(s, cooldown, op).x.rules, owner)
  {
    match op
    case NewRule(r) =>
      if r.id !in s.x.rules && r.shell != "" {
        AddStaysConsistent(s.x, r);
      }
    case DropRule(id) => RemoveEachIs(s.x, {id}, "");
    case DropShell(shell) => ClearShellIs(s.x, shell, "");
    case DropSession(session) =>
      if session in s.x.bySession {
        ClearSessionIs(s.x, session);
      }
    case Fire(id, _, _) => RemoveEachIs(s.x, {id}, "");
  }

  /** What an operation leaves of the rules: registering adds the rule, and the others take away exactly theirs. */
  lemma RulesAfterStep(s: State, cooldown: nat, op: Op)
    requires Good(s.x)
    ensures Step(s, cooldown, op).x.rules ==
            match op
            case NewRule(r) => if r.id in s.x.rules || r.shell == "" then s.x.rules else s.x.rules[r.id := r]
            case DropRule(id) => s.x.rules - {id}
            case DropShell(shell) => s.x.rules - IdsOf(s.x.rules, shell)
            case DropSession(session) =>
              if session in s.x.bySession then s.x.rules - IdsOfSession(s.x.rules, session) else s.x.rules
            case Fire(id, _, oneShot) => if oneShot then s.x.rules - {id} else s.x.rules
  {
    match op
    case NewRule(_) =>
    case Fire(id, _, _) => RemoveEachIs(s.x, {id}, "");
    case _ => AppliedIs(s.x, op);
  }

  /** Over every run with one session per shell the three indexes describe the same rules, with no empty entry. */
  lemma {:induction false} RunStaysConsistent(s: State, cooldown: nat, ops: seq<Op>, owner: string -> string)
    requires Good(s.x) && Owned(s.x.rules, owner) && AllOwned(ops, owner)
    ensures Consistent(Run(s, cooldown, ops).x) && Owned(Run(s, cooldown, ops).x.rules, owner)
    decreases |ops|
  {
    if ops != [] {
      StepStaysGood(s, cooldown, ops[0], owner);
      assert AllOwned(ops[1..], owner) by {
        forall i | 0 <= i < |ops[1..]| && ops[1..][i].NewRule?
          ensures ops[1..][i].rule.session == owner(ops[1..][i].rule.shell)
        {
          assert ops[1..][i] == ops[i + 1];
        }
      }
      RunStaysConsistent(Step(s, cooldown, ops[0]), cooldown, ops[1..], owner);
    }
  }

  lemma EmptyIsGood(owner: string -> string)
    ensures Good(EMPTY.x) && Owned(EMPTY.x.rules, owner)
  {
  }

  function Attempts(ops: seq<Op>): seq<int> {
    if ops == [] then [] else (if ops[0].Fire? then [ops[0].now] else []) + Attempts(ops[1..])
  }

  /** What a run sends is what the gate lets through of its attempts, whatever else happens in between. */
  lemma {:induction false} RunSends(s: State, cooldown: nat, ops: seq<Op>)
    ensures Run(s, cooldown, ops).sent == s.sent + Sends(s.last, cooldown, Attempts(ops))
    decreases |ops|
  {
    if ops == [] {
      assert s.sent + [] == s.sent;
    } else {
      var n, op := Step(s, cooldown, ops[0]), ops[0];
      RunSends(n, cooldown, ops[1..]);
      if op.Fire? {
        assert Attempts(ops)[1..] == Attempts(ops[1..]);
        assert s.sent + [op.now] + Sends(n.last, cooldown, Attempts(ops[1..]))
            == s.sent + ([op.now] + Sends(n.last, cooldown, Attempts(ops[1..])));
      } else {
        assert Attempts(ops) == Attempts(ops[1..]);
      }
    }
  }

  /** In every run from the start any n + 1 sends span at least n cooldowns. */
  lemma RunSendsAreSpaced(cooldown: nat, ops: seq<Op>, i: nat, n: nat)
    requires i + n < |Run(EMPTY, cooldown, ops).sent|
    ensures Run(EMPTY, cooldown, ops).sent[i + n] - Run(EMPTY, cooldown, ops).sent[i] >= n * cooldown
  {
    RunSends(EMPTY, cooldown, ops);
    assert [] + Sends(None, cooldown, Attempts(ops)) == Sends(None, cooldown, Attempts(ops));
    SendsAreSpaced(None, cooldown, Attempts(ops), i, n);
  }
}
