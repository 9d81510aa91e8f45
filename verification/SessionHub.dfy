/**
 The coalesced wake-ups behind the session list (sessionListHub in
 internal/webui/session_list_sse.go and sessionLoop in internal/webui/ws.go): the registry
 changes, somebody broadcasts, and any number of browser tabs pull the list again. A
 broadcast drains and refills one tab's signal at a time while it holds the hub lock; tabs
 wake, pull and park in between.
 */
module SessionHub {
  import opened Basics

  // ---------------------------------------------------------------- the hub

  /** Each client's channel has one slot; it is true while a wake-up is pending in it. */
  class Hub {
    var nextID: nat
    var clients: map<nat, bool>

    ghost predicate Valid()
      reads this
    {
      forall id :: id in clients ==> 0 < id <= nextID
    }

    method Register() returns (id: nat)
      requires Valid()
      modifies this
      ensures Valid() && id !in old(clients) && nextID == id
      ensures clients == old(clients)[id := false]
    {
      nextID := nextID + 1;
      id := nextID;
      clients := clients[id := false];
    }

    method Unregister(id: nat)
      requires Valid()
      modifies this
      ensures Valid() && clients == old(clients) - {id} && nextID == old(nextID)
    {
      clients := clients - {id};
    }

    /** Leaves exactly one wake-up pending for every client, whatever was pending before. */
    method Broadcast()
      requires Valid()
      modifies this`clients
      ensures Valid() && clients.Keys == old(clients.Keys)
      ensures forall id :: id in clients ==> clients[id]
    {
      var todo := clients.Keys;
      while todo != {}
        invariant todo <= clients.Keys && clients.Keys == old(clients.Keys)
        invariant forall id :: id in clients && id !in todo ==> clients[id]
      {
        var id := Pick(todo);
        if clients[id] {
          clients := clients[id := false];
        }
        if !clients[id] {
          clients := clients[id := true];
        }
        todo := todo - {id};
      }
    }
  }

  // ---------------------------------------------------------------- tabs, changes and broadcasts, step by step

  /** `pulled` is the registry version of the last list the tab pulled. */
  datatype Tab = Starting | Parked(pulled: nat) | Woken

  /** A broadcast in progress: the version it announces, the clients to come, and the one just drained. */
  datatype Job = Idle | Busy(version: nat, todo: set<nat>) | Refilling(version: nat, todo: set<nat>, id: nat)

  datatype World = World(version: nat, announced: nat, signals: map<nat, bool>, tabs: map<nat, Tab>, job: Job)

  datatype Event =
    | Change
    | StartBroadcast
    | Drain(id: nat)
    | Refill
    | EndBroadcast
    | Join(id: nat)
    | Leave(id: nat)
    | FirstPull(id: nat)
    | Wake(id: nat)
    | PullAgain(id: nat)

  predicate CanHappen(w: World, e: Event) {
    match e
    case Change => true
    case StartBroadcast => w.job == Idle
    case Drain(id) => w.job.Busy? && id in w.job.todo
    case Refill => w.job.Refilling?
    case EndBroadcast => w.job.Busy? && w.job.todo == {}
    case Join(id) => w.job == Idle && id !in w.signals && id !in w.tabs
    case Leave(id) => w.job == Idle && id in w.tabs
    case FirstPull(id) => id in w.tabs && w.tabs[id] == Starting
    case Wake(id) => id in w.tabs && w.tabs[id].Parked? && id in w.signals && w.signals[id]
    case PullAgain(id) => id in w.tabs && w.tabs[id] == Woken
  }

  function Step(w: World, e: Event): World
    requires CanHappen(w, e)
  {
    match e
    case Change => w.(version := w.version + 1)
    case StartBroadcast => w.(job := Busy(w.version, w.signals.Keys))
    case Drain(id) => w.(signals := w.signals[id := false], job := Refilling(w.job.version, w.job.todo, id))
    case Refill => w.(signals := w.signals[w.job.id := true], job := Busy(w.job.version, w.job.todo - {w.job.id}))
    case EndBroadcast => w.(announced := w.job.version, job := Idle)
    case Join(id) => w.(signals := w.signals[id := false], tabs := w.tabs[id := Starting])
    case Leave(id) => w.(signals := w.signals - {id}, tabs := w.tabs - {id})
    case FirstPull(id) => w.(tabs := w.tabs[id := Parked(w.version)])
    case Wake(id) => w.(signals := w.signals[id := false], tabs := w.tabs[id := Woken])
    case PullAgain(id) => w.(tabs := w.tabs[id := Parked(w.version)])
  }

  function Next(w: World, e: Event): World { if CanHappen(w, e) then Step(w, e) else w }

  function Run(w: World, es: seq<Event>): World
    decreases |es|
  {
    if es == [] then w else Run(Next(w, es[0]), es[1..])
  }

  const START: World := World(0, 0, map[], map[], Idle)

  // ---------------------------------------------------------------- what versions mean

  function Changes(es: seq<Event>): nat {
    if es == [] then 0 else (if es[0] == Change then 1 else 0) + Changes(es[1..])
  }

  /** The version counts the registry's changes. */
  lemma {:induction false} VersionCountsChanges(w: World, es: seq<Event>)
    ensures Run(w, es).version == w.version + Changes(es)
    decreases |es|
  {
    if es != [] {
      VersionCountsChanges(Next(w, es[0]), es[1..]);
    }
  }

  ghost predicate StillGoing(es: seq<Event>) { forall i :: 0 <= i < |es| ==> es[i] != EndBroadcast }

  lemma {:induction false} JobKeepsItsVersion(w: World, es: seq<Event>)
    requires !w.job.Idle? && StillGoing(es)
    ensures !Run(w, es).job.Idle? && Run(w, es).job.version == w.job.version && Run(w, es).announced == w.announced
    decreases |es|
  {
    if es != [] {
      assert es[0] != EndBroadcast;
      forall i | 0 <= i < |es[1..]| ensures es[1..][i] != EndBroadcast {
        assert es[1..][i] == es[i + 1];
      }
      JobKeepsItsVersion(Next(w, es[0]), es[1..]);
    }
  }

  /** A broadcast announces the version it started with, whatever happens before it ends. */
  lemma BroadcastAnnouncesItsStart(w: World, es: seq<Event>)
    requires w.job == Idle && StillGoing(es)
    requires CanHappen(Run(Next(w, StartBroadcast), es), EndBroadcast)
    ensures Next(Run(Next(w, StartBroadcast), es), EndBroadcast).announced == w.version
  {
    JobKeepsItsVersion(Next(w, StartBroadcast), es);
  }

  /** And it can end once every client has had its turn, each turn leaving a wake-up pending. */
  lemma TurnLeavesAWakeUp(w: World, id: nat)
    requires w.job.Busy? && id in w.job.todo
    ensures var n := Next(Next(w, Drain(id)), Refill);
            && !Next(w, Drain(id)).signals[id]
            && n.job == Busy(w.job.version, w.job.todo - {id}) && n.signals == w.signals[id := true]
  {
  }

  /** A tab joins with nothing pending and nothing pulled, and one that leaves is forgotten. */
  lemma TabsComeAndGo(w: World, id: nat)
    requires w.job == Idle
    ensures id !in w.tabs && id !in w.signals ==>
              Next(w, Join(id)) == w.(tabs := w.tabs[id := Starting], signals := w.signals[id := false])
    ensures id !in Next(w, Leave(id)).tabs
    ensures id in w.tabs ==> id !in Next(w, Leave(id)).signals
  {
  }

  // ---------------------------------------------------------------- no lost wake-up

  /** A parked tab with nothing pending has seen the last announced change, and the current one once passed over. */
  ghost predicate UpToDate(w: World, id: nat) {
    && (id in w.tabs <==> id in w.signals)
    && (id in w.tabs && w.tabs[id].Parked? && !w.signals[id] && !(w.job.Refilling? && w.job.id == id) ==>
          && w.tabs[id].pulled >= w.announced
          && (!w.job.Idle? && id !in w.job.todo ==> w.tabs[id].pulled >= w.job.version))
  }

  ghost predicate Inv(w: World) {
    && w.announced <= w.version
    && (!w.job.Idle? ==> w.announced <= w.job.version <= w.version && w.job.todo <= w.signals.Keys)
    && (w.job.Refilling? ==> w.job.id in w.job.todo)
    && forall id: nat :: UpToDate(w, id)
  }

  lemma StepKeepsInv(w: World, e: Event)
    requires Inv(w)
    ensures Inv(Next(w, e))
  {
    var n := Next(w, e);
    forall id: nat ensures UpToDate(n, id) {
      assert UpToDate(w, id);
    }
  }

  lemma {:induction false} RunKeepsInv(w: World, es: seq<Event>)
    requires Inv(w)
    ensures Inv(Run(w, es))
    decreases |es|
  {
    if es != [] {
      StepKeepsInv(w, es[0]);
      RunKeepsInv(Next(w, es[0]), es[1..]);
    }
  }

  /**
   In every interleaving, a tab that waits with no wake-up pending has pulled a list at least
   as new as the last change whose broadcast has ended, unless its signal is being refilled
   at this very moment; and as new as the change being announced once its turn is over.
   */
  lemma NoLostWakeUp(es: seq<Event>, id: nat)
    requires var w := Run(START, es);
             id in w.tabs && w.tabs[id].Parked? && id in w.signals && !w.signals[id] && !(w.job.Refilling? && w.job.id == id)
    ensures var w := Run(START, es);
            && w.tabs[id].pulled >= w.announced
            && (w.job.Busy? && id !in w.job.todo ==> w.tabs[id].pulled >= w.job.version)
  {
    RunKeepsInv(START, es);
    assert UpToDate(Run(START, es), id);
  }

  /** With no broadcast going on, a waiting tab is up to date or can wake and pull the newest list. */
  lemma QuietTabsAreCurrent(es: seq<Event>, id: nat)
    requires var w := Run(START, es); w.job == Idle && id in w.tabs && w.tabs[id].Parked?
    ensures var w := Run(START, es);
            || w.tabs[id].pulled >= w.announced
            || (&& CanHappen(w, Wake(id))
                && Next(Next(w, Wake(id)), PullAgain(id)) ==
                   w.(signals := w.signals[id := false], tabs := w.tabs[id := Parked(w.version)])
                && w.version >= w.announced)
  {
    RunKeepsInv(START, es);
    var w := Run(START, es);
    assert UpToDate(w, id);
    var n := w.tabs[id := Woken];
    assert n[id := Parked(w.version)] == w.tabs[id := Parked(w.version)];
  }
}
