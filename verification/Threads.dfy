/** Threads and the scheduler (threads/thread.cc, threads/scheduler.cc) with the semaphores on which
    threads block. With interrupts off nothing intervenes, so a call of Fork, Yield, Finish, V or one
    round of P is one step, up to the context switch; what the next thread does when it comes back
    from the switch is another. */
module Threads {
  import opened Semaphores
  import opened Wrappers

  type SemId = nat

  datatype Status = Running | Ready | Blocked

  /** `Idling`: the current thread is in the loop of Sleep and there is nothing to run.
      `Switched`: the current thread comes out of SWITCH, or begins, and has not yet cleaned up. */
  datatype Phase = Busy | Idling(finishing: bool) | Switched

  /** `status` has the live threads; `dispatched` is history: the threads given the processor. */
  datatype State = State(
    current: Tid, ready: seq<Tid>, sems: map<SemId, Sem>, status: map<Tid, Status>,
    toBeDestroyed: Option<Tid>, phase: Phase, dispatched: seq<Tid>)

  function Init(main: Tid, values: map<SemId, nat>): State {
    State(main, [], map q | q in values :: New(values[q]), map[main := Running], None, Busy, [])
  }

  datatype Action =
    | Fork(t: Tid)
    | TryPass(q: SemId)
    | Signal(q: SemId)
    | Yield
    | Finish
    | FindNext
    | Resume

  predicate Can(s: State, a: Action) {
    match a
    case Fork(t) => s.phase == Busy && t !in s.status
    case TryPass(q) => s.phase == Busy && q in s.sems
    case Signal(q) => s.phase != Switched && q in s.sems
    case Yield => s.phase == Busy
    case Finish => s.phase == Busy
    case FindNext => s.phase.Idling? && s.ready != []
    case Resume => s.phase == Switched
  }

  function MadeReady(s: State, t: Tid): State {
    s.(status := s.status[t := Ready], ready := s.ready + [t])
  }

  /** Scheduler::Run on the first ready thread. */
  function Dispatch(s: State, finishing: bool): State
    requires s.ready != []
  {
    var next := s.ready[0];
    s.(ready := s.ready[1..], current := next, status := s.status[next := Running], phase := Switched,
       toBeDestroyed := if finishing then Some(s.current) else s.toBeDestroyed, dispatched := s.dispatched + [next])
  }

  function GivesUp(s: State, finishing: bool): State {
    var blocked := s.(status := s.status[s.current := Blocked]);
    if s.ready == [] then blocked.(phase := Idling(finishing)) else Dispatch(blocked, finishing)
  }

  function PassStep(s: State, q: SemId): State
    requires q in s.sems
  {
    var tried := s.(sems := s.sems[q := TryP(s.sems[q], s.current)]);
    if s.sems[q].value == 0 then GivesUp(tried, false) else tried
  }

  function SignalStep(s: State, q: SemId): State
    requires q in s.sems
  {
    var raised := s.(sems := s.sems[q := V(s.sems[q])]);
    if s.sems[q].queue == [] then raised else MadeReady(raised, s.sems[q].queue[0])
  }

  function YieldStep(s: State): State {
    if s.ready == [] then s else Dispatch(MadeReady(s, s.current), false)
  }

  function ResumeStep(s: State): State {
    match s.toBeDestroyed
    case None => s.(phase := Busy)
    case Some(t) => s.(phase := Busy, toBeDestroyed := None, status := s.status - {t})
  }

  function Next(s: State, a: Action): State
    requires Can(s, a)
  {
    match a
    case Fork(t) => MadeReady(s, t)
    case TryPass(q) => PassStep(s, q)
    case Signal(q) => SignalStep(s, q)
    case Yield => YieldStep(s)
    case Finish => GivesUp(s, true)
    case FindNext => Dispatch(s, s.phase.finishing)
    case Resume => ResumeStep(s)
  }

  // ---------------------------------------------------------------- the invariant

  predicate Queued(s: State, t: Tid, q: SemId) {
    q in s.sems && t in s.sems[q].queue
  }

  ghost predicate Waits(s: State, t: Tid) {
    exists q: SemId :: Queued(s, t, q)
  }

  /** The lists hold each thread once, and none twice between them. */
  ghost predicate ListsInv(s: State) {
    && (forall i, j :: 0 <= i < j < |s.ready| ==> s.ready[i] != s.ready[j])
    && (forall q: SemId :: q in s.sems ==> SemInv(s.sems[q]))
    && (forall t: Tid, q: SemId :: Queued(s, t, q) ==> t !in s.ready)
    && (forall t: Tid, q: SemId, r: SemId :: Queued(s, t, q) && Queued(s, t, r) ==> q == r)
  }

  /** The status of each live thread says where it is. */
  ghost predicate StatusInv(s: State) {
    && (forall t: Tid :: t in s.status && s.status[t] == Running <==> t == s.current && !s.phase.Idling?)
    && (forall t: Tid :: t in s.status && s.status[t] == Ready <==> t in s.ready)
    && (forall t: Tid :: t in s.status && s.status[t] == Blocked <==>
          Waits(s, t) || s.toBeDestroyed == Some(t) || (s.phase == Idling(true) && t == s.current))
  }

  /** A finished thread is only kept until the next one comes out of the switch, and no list has it. */
  ghost predicate FinishInv(s: State) {
    && (s.phase != Switched ==> s.toBeDestroyed == None)
    && (s.toBeDestroyed.Some? ==> !Waits(s, s.toBeDestroyed.value))
    && (s.phase == Idling(true) ==> !Waits(s, s.current))
    && s.current in s.status
  }

  ghost predicate Inv(s: State) {
    ListsInv(s) && StatusInv(s) && FinishInv(s)
  }

  lemma InitInv(main: Tid, values: map<SemId, nat>)
    ensures Inv(Init(main, values))
  {
  }

  // ---------------------------------------------------------------- every step keeps it

  lemma WaitsIn(s: State, t: Tid, q: SemId)
    requires Queued(s, t, q)
    ensures Waits(s, t)
  {
  }

  /** A thread that is neither ready nor waiting joins the end of the ready list. */
  lemma ReadyKeepsLists(s: State, t: Tid)
    requires ListsInv(s) && t !in s.ready && !Waits(s, t)
    ensures ListsInv(MadeReady(s, t))
  {
    hide SemInv, Waits;
    forall q: SemId
      ensures !Queued(s, t, q)
    {
      if Queued(s, t, q) {
        WaitsIn(s, t, q);
      }
    }
    SameQueues(s, MadeReady(s, t));
  }

  lemma SameQueues(s: State, s': State)
    requires s'.sems == s.sems
    ensures forall t: Tid, q: SemId :: Queued(s', t, q) <==> Queued(s, t, q)
  {
  }

  lemma WaitsSame(s: State, s': State)
    requires s'.sems == s.sems
    ensures forall t: Tid :: Waits(s', t) <==> Waits(s, t)
  {
    forall t: Tid
      ensures Waits(s', t) <==> Waits(s, t)
    {
      if Waits(s, t) {
        var q: SemId :| Queued(s, t, q);
        WaitsIn(s', t, q);
      }
      if Waits(s', t) {
        var q: SemId :| Queued(s', t, q);
        WaitsIn(s, t, q);
      }
    }
  }

  lemma ForkKeeps(s: State, t: Tid)
    requires Inv(s) && t !in s.status && s.phase == Busy
    ensures Inv(MadeReady(s, t))
  {
    hide ListsInv, Waits;
    ReadyKeepsLists(s, t);
    WaitsSame(s, MadeReady(s, t));
  }

  lemma YieldKeeps(s: State)
    requires Inv(s) && s.phase == Busy && s.ready != []
    ensures Inv(YieldStep(s))
  {
    hide ListsInv, Waits;
    var mid := MadeReady(s, s.current);
    ReadyKeepsLists(s, s.current);
    WaitsSame(s, mid);
    WaitsSame(s, YieldStep(s));
    assert s.ready[0] in s.ready;
    DispatchKeepsLists(mid, false);
    FirstLeaves(mid);
  }

  lemma DispatchKeepsLists(s: State, finishing: bool)
    requires ListsInv(s) && s.ready != []
    ensures ListsInv(Dispatch(s, finishing))
  {
    hide SemInv;
    var s' := Dispatch(s, finishing);
    assert forall t: Tid :: t in s'.ready ==> t in s.ready;
    assert forall t: Tid, q: SemId :: Queued(s', t, q) <==> Queued(s, t, q);
  }

  lemma FirstLeaves(s: State)
    requires ListsInv(s) && s.ready != []
    ensures forall t: Tid :: t in s.ready[1..] <==> t in s.ready && t != s.ready[0]
    ensures s.ready[0] in s.ready && !Waits(s, s.ready[0])
  {
    assert s.ready[0] in s.ready;
    forall t: Tid
      ensures t in s.ready[1..] <==> t in s.ready && t != s.ready[0]
    {
      if t in s.ready[1..] {
        var i :| 1 <= i < |s.ready| && s.ready[i] == t;
      }
    }
  }

  /** The loop of Sleep has found a thread to run. */
  lemma FindNextKeeps(s: State)
    requires Inv(s) && s.phase.Idling? && s.ready != []
    ensures Inv(Dispatch(s, s.phase.finishing))
  {
    hide ListsInv, Waits;
    var s' := Dispatch(s, s.phase.finishing);
    DispatchKeepsLists(s, s.phase.finishing);
    FirstLeaves(s);
    WaitsSame(s, s');
  }

  /** The current thread, which has been put where it waits, or has finished, gives up the processor. */
  lemma SleepKeeps(s: State, finishing: bool)
    requires ListsInv(s) && FinishInv(s) && s.phase == Busy && s.current !in s.ready &&
             (finishing <==> !Waits(s, s.current))
    requires forall t: Tid :: t in s.status && s.status[t] == Running <==> t == s.current
    requires forall t: Tid :: t in s.status && s.status[t] == Ready <==> t in s.ready
    requires forall t: Tid :: t in s.status && s.status[t] == Blocked <==> Waits(s, t) && t != s.current
    ensures Inv(GivesUp(s, finishing))
  {
    hide Waits, ListsInv;
    var blocked := s.(status := s.status[s.current := Blocked]);
    ListsSame(s, blocked);
    WaitsSame(s, blocked);
    if s.ready != [] {
      BlockedDispatches(blocked, finishing);
    } else {
      ListsSame(s, GivesUp(s, finishing));
      WaitsSame(s, GivesUp(s, finishing));
    }
  }

  lemma BlockedDispatches(s: State, finishing: bool)
    requires ListsInv(s) && s.ready != [] && s.phase == Busy && s.current !in s.ready && s.current in s.status
    requires s.toBeDestroyed == None && (finishing <==> !Waits(s, s.current))
    requires forall t: Tid :: !(t in s.status && s.status[t] == Running)
    requires forall t: Tid :: t in s.status && s.status[t] == Ready <==> t in s.ready
    requires forall t: Tid :: t in s.status && s.status[t] == Blocked <==> Waits(s, t) || t == s.current
    ensures Inv(Dispatch(s, finishing))
  {
    hide Waits, ListsInv;
    WaitsSame(s, Dispatch(s, finishing));
    DispatchKeepsLists(s, finishing);
    FirstLeaves(s);
  }

  lemma ListsSame(s: State, s': State)
    requires ListsInv(s) && s'.ready == s.ready && s'.sems == s.sems
    ensures ListsInv(s')
  {
    assert forall t: Tid, q: SemId :: Queued(s', t, q) <==> Queued(s, t, q);
  }

  lemma FinishKeeps(s: State)
    requires Inv(s) && s.phase == Busy
    ensures Inv(GivesUp(s, true))
  {
    hide ListsInv, Waits;
    SleepKeeps(s, true);
  }

  lemma ResumeKeeps(s: State)
    requires Inv(s) && s.phase == Switched
    ensures Inv(ResumeStep(s))
  {
    hide Waits, ListsInv;
    WaitsSame(s, ResumeStep(s));
    ListsSame(s, ResumeStep(s));
  }

  /** A semaphore's value changes, and its queue does not. */
  lemma QueueSame(s: State, s': State, q: SemId, sem: Sem)
    requires q in s.sems && s'.sems == s.sems[q := sem] && sem.queue == s.sems[q].queue
    ensures forall t: Tid, r: SemId :: Queued(s', t, r) <==> Queued(s, t, r)
    ensures forall t: Tid :: Waits(s', t) <==> Waits(s, t)
  {
    assert forall t: Tid, r: SemId :: Queued(s', t, r) <==> Queued(s, t, r);
  }

  lemma ValueKeeps(s: State, q: SemId, sem: Sem)
    requires Inv(s) && q in s.sems && sem.queue == s.sems[q].queue && SemInv(sem)
    ensures Inv(s.(sems := s.sems[q := sem]))
  {
    hide Queued, Waits, SemInv;
    QueueSame(s, s.(sems := s.sems[q := sem]), q, sem);
  }

  /** The current thread joins the end of a queue. */
  lemma JoinsQueue(s: State, s': State, q: SemId, sem: Sem, t: Tid)
    requires q in s.sems && s'.sems == s.sems[q := sem] && sem.queue == s.sems[q].queue + [t]
    ensures forall u: Tid, r: SemId :: Queued(s', u, r) <==> Queued(s, u, r) || (u == t && r == q)
    ensures forall u: Tid :: Waits(s', u) <==> Waits(s, u) || u == t
  {
    assert forall u: Tid, r: SemId :: Queued(s', u, r) <==> Queued(s, u, r) || (u == t && r == q);
    WaitsIn(s', t, q);
    forall u: Tid
      ensures Waits(s', u) <==> Waits(s, u) || u == t
    {
      if Waits(s, u) {
        var r: SemId :| Queued(s, u, r);
        WaitsIn(s', u, r);
      }
    }
  }

  lemma NotQueued(s: State, t: Tid)
    requires !Waits(s, t)
    ensures forall q: SemId :: !Queued(s, t, q)
  {
    forall q: SemId
      ensures !Queued(s, t, q)
    {
      if Queued(s, t, q) {
        WaitsIn(s, t, q);
      }
    }
  }

  lemma JoinKeepsLists(s: State, s': State, q: SemId, sem: Sem, t: Tid)
    requires ListsInv(s) && q in s.sems && s'.sems == s.sems[q := sem] && sem.queue == s.sems[q].queue + [t]
    requires SemInv(sem) && s'.ready == s.ready && t !in s.ready && !Waits(s, t)
    ensures ListsInv(s')
  {
    hide SemInv, Queued, Waits;
    NotQueued(s, t);
    JoinsQueue(s, s', q, sem, t);
  }

  lemma PassKeeps(s: State, q: SemId)
    requires Inv(s) && s.phase == Busy && q in s.sems
    ensures Inv(PassStep(s, q))
  {
    hide ListsInv, Waits, SemInv;
    CurrentFree(s, q);
    var sem := TryP(s.sems[q], s.current);
    TryPKeepsInv(s.sems[q], s.current);
    if s.sems[q].value == 0 {
      var tried := s.(sems := s.sems[q := sem]);
      JoinKeepsLists(s, tried, q, sem, s.current);
      JoinsQueue(s, tried, q, sem, s.current);
      SleepKeeps(tried, false);
    } else {
      ValueKeeps(s, q, sem);
    }
  }

  /** The running thread is in no list. */
  lemma CurrentFree(s: State, q: SemId)
    requires Inv(s) && s.phase == Busy && q in s.sems
    ensures s.current !in s.ready && !Waits(s, s.current) && s.current !in s.sems[q].queue && SemInv(s.sems[q])
  {
    hide SemInv;
    if s.current in s.sems[q].queue {
      assert Queued(s, s.current, q);
      WaitsIn(s, s.current, q);
    }
  }

  /** The first thread of a queue leaves it. */
  lemma LeavesQueue(s: State, s': State, q: SemId, sem: Sem)
    requires ListsInv(s) && q in s.sems && s.sems[q].queue != [] && s'.sems == s.sems[q := sem]
    requires sem.queue == s.sems[q].queue[1..]
    ensures var w := s.sems[q].queue[0];
      && (forall u: Tid, r: SemId :: Queued(s', u, r) <==> Queued(s, u, r) && u != w)
      && (forall u: Tid :: Waits(s', u) <==> Waits(s, u) && u != w)
      && Waits(s, w) && w !in s.ready
  {
    var w := s.sems[q].queue[0];
    TailWithout(s.sems[q]);
    assert Queued(s, w, q);
    assert forall u: Tid, r: SemId :: Queued(s', u, r) <==> Queued(s, u, r) && u != w;
    forall u: Tid
      ensures Waits(s', u) <==> Waits(s, u) && u != w
    {
      if Waits(s, u) && u != w {
        var r: SemId :| Queued(s, u, r);
        WaitsIn(s', u, r);
      }
    }
  }

  lemma TailWithout(sem: Sem)
    requires SemInv(sem) && sem.queue != []
    ensures forall t: Tid :: t in sem.queue[1..] <==> t in sem.queue && t != sem.queue[0]
  {
    forall t: Tid
      ensures t in sem.queue[1..] <==> t in sem.queue && t != sem.queue[0]
    {
      if t in sem.queue[1..] {
        var i :| 1 <= i < |sem.queue| && sem.queue[i] == t;
      }
    }
  }

  lemma LeaveKeepsLists(s: State, s': State, q: SemId, sem: Sem)
    requires ListsInv(s) && q in s.sems && s.sems[q].queue != [] && s'.sems == s.sems[q := sem]
    requires sem.queue == s.sems[q].queue[1..] && SemInv(sem) && s'.ready == s.ready
    ensures ListsInv(s')
  {
    LeavesQueue(s, s', q, sem);
    hide SemInv, Queued, Waits;
  }

  lemma SignalKeeps(s: State, q: SemId)
    requires Inv(s) && s.phase != Switched && q in s.sems
    ensures Inv(SignalStep(s, q))
  {
    hide ListsInv, Waits, SemInv;
    SemOf(s, q);
    var sem := V(s.sems[q]);
    VKeepsInv(s.sems[q]);
    if s.sems[q].queue == [] {
      ValueKeeps(s, q, sem);
    } else {
      var raised := s.(sems := s.sems[q := sem]);
      LeavesQueue(s, raised, q, sem);
      LeaveKeepsLists(s, raised, q, sem);
      ReadyKeepsLists(raised, s.sems[q].queue[0]);
      WokenReady(s, raised, s.sems[q].queue[0]);
    }
  }

  lemma SemOf(s: State, q: SemId)
    requires ListsInv(s) && q in s.sems
    ensures SemInv(s.sems[q])
  {
  }

  lemma WokenReady(s: State, raised: State, w: Tid)
    requires Inv(s) && ListsInv(MadeReady(raised, w)) && s.phase != Switched && Waits(s, w)
    requires raised == s.(sems := raised.sems) && forall u: Tid :: Waits(raised, u) <==> Waits(s, u) && u != w
    ensures Inv(MadeReady(raised, w))
  {
    hide ListsInv, Waits;
    WaitsSame(raised, MadeReady(raised, w));
  }

  lemma KeepsInv(s: State, a: Action)
    requires Inv(s) && Can(s, a)
    ensures Inv(Next(s, a))
  {
    hide Inv;
    match a
    case Fork(t) => ForkKeeps(s, t);
    case TryPass(q) => PassKeeps(s, q);
    case Signal(q) => SignalKeeps(s, q);
    case Yield =>
      if s.ready != [] {
        YieldKeeps(s);
      }
    case Finish => FinishKeeps(s);
    case FindNext => FindNextKeeps(s);
    case Resume => ResumeKeeps(s);
  }

  // ---------------------------------------------------------------- every run

  ghost function After(start: State, run: seq<Action>): State {
    if run == [] then start
    else
      var before := After(start, run[..|run| - 1]);
      if Can(before, run[|run| - 1]) then Next(before, run[|run| - 1]) else before
  }

  ghost predicate IsRun(start: State, run: seq<Action>) {
    run == [] || (IsRun(start, run[..|run| - 1]) && Can(After(start, run[..|run| - 1]), run[|run| - 1]))
  }

  lemma OneMore(start: State, run: seq<Action>, a: Action)
    requires IsRun(start, run) && Can(After(start, run), a)
    ensures IsRun(start, run + [a]) && After(start, run + [a]) == Next(After(start, run), a)
  {
    hide Can, Next;
    assert (run + [a])[..|run|] == run;
  }

  lemma LastOfRun(start: State, run: seq<Action>)
    requires IsRun(start, run) && run != []
    ensures var before, a := After(start, run[..|run| - 1]), run[|run| - 1];
      IsRun(start, run[..|run| - 1]) && Can(before, a) && After(start, run) == Next(before, a)
  {
    hide Can, Next;
  }

  /** A run and one from where it ends are one run. */
  lemma {:induction false} RunThenRun(start: State, r1: seq<Action>, r2: seq<Action>)
    requires IsRun(start, r1) && IsRun(After(start, r1), r2)
    ensures IsRun(start, r1 + r2) && After(start, r1 + r2) == After(After(start, r1), r2)
  {
    hide Can, Next, IsRun, After;
    var mid := After(start, r1);
    if r2 == [] {
      RunOfNone(mid);
      assert r1 + r2 == r1;
    } else {
      var last := |r2| - 1;
      LastOfRun(mid, r2);
      RunThenRun(start, r1, r2[..last]);
      OneMore(start, r1 + r2[..last], r2[last]);
      assert r1 + r2 == r1 + r2[..last] + [r2[last]];
    }
  }

  lemma {:induction false} RunsKeepInv(start: State, run: seq<Action>)
    requires Inv(start) && IsRun(start, run)
    ensures Inv(After(start, run))
  {
    hide Inv, Can, Next;
    if run != [] {
      RunsKeepInv(start, run[..|run| - 1]);
      KeepsInv(After(start, run[..|run| - 1]), run[|run| - 1]);
    }
  }

  /** Where a live thread is. */
  datatype Place = Processor | ReadyList | Queue(q: SemId)

  ghost predicate IsAt(s: State, t: Tid, p: Place) {
    match p
    case Processor => t == s.current
    case ReadyList => t in s.ready
    case Queue(q) => Queued(s, t, q)
  }

  ghost function StatusAt(p: Place): Status {
    match p
    case Processor => Running
    case ReadyList => Ready
    case Queue(_) => Blocked
  }

  /** In every run, whenever the scheduler is not in the middle of a switch, every live thread is in
      exactly one place, which its status names: it runs, or it is in the ready list once, or it is in
      the queue of one semaphore once. */
  lemma Partition(main: Tid, values: map<SemId, nat>, run: seq<Action>, t: Tid) returns (place: Place)
    requires IsRun(Init(main, values), run) && After(Init(main, values), run).phase == Busy
    requires t in After(Init(main, values), run).status
    ensures var s := After(Init(main, values), run);
      IsAt(s, t, place) && s.status[t] == StatusAt(place) && forall other: Place :: IsAt(s, t, other) ==> other == place
    ensures forall u: Tid, p: Place :: IsAt(After(Init(main, values), run), u, p) ==>
              u in After(Init(main, values), run).status
  {
    hide IsRun, After, Inv;
    InitInv(main, values);
    RunsKeepInv(Init(main, values), run);
    var s := After(Init(main, values), run);
    place := PlaceIn(s, t);
    forall u: Tid, p: Place | IsAt(s, u, p)
      ensures u in s.status
    {
      PlacedLives(s, u, p);
    }
  }

  lemma PlaceIn(s: State, t: Tid) returns (place: Place)
    requires Inv(s) && s.phase == Busy && t in s.status
    ensures IsAt(s, t, place) && s.status[t] == StatusAt(place)
    ensures forall other: Place :: IsAt(s, t, other) ==> other == place
  {
    hide SemInv;
    if t == s.current {
      place := Processor;
      forall q: SemId
        ensures !Queued(s, t, q)
      {
        if Queued(s, t, q) {
          WaitsIn(s, t, q);
        }
      }
    } else if s.status[t] == Ready {
      place := ReadyList;
    } else {
      var q: SemId :| Queued(s, t, q);
      place := Queue(q);
    }
  }

  lemma PlacedLives(s: State, t: Tid, p: Place)
    requires Inv(s) && IsAt(s, t, p)
    ensures t in s.status
  {
    hide SemInv;
    if p.Queue? {
      WaitsIn(s, t, p.q);
    }
  }

  /** What the lists of a state keep: nobody is in one twice, and whoever is about to join one is in none. */
  ghost predicate Unlisted(s: State, t: Tid) {
    t !in s.ready && forall q: SemId :: q in s.sems ==> t !in s.sems[q].queue
  }

  /** No thread finishes while another's remains are still there, and what is deleted is not running and in
      no list. A thread that is appended to a list is not in it, nor in another: not the running one, which
      may join the ready list or a queue, not one that is forked, and the first of a queue, which V makes
      ready, is not ready. No list has a thread twice. */
  lemma Assertions(main: Tid, values: map<SemId, nat>, run: seq<Action>)
    requires IsRun(Init(main, values), run)
    ensures var s := After(Init(main, values), run);
      && (s.phase != Switched ==> s.toBeDestroyed == None)
      && (s.toBeDestroyed.Some? ==> s.toBeDestroyed.value != s.current && Unlisted(s, s.toBeDestroyed.value))
      && (s.phase == Busy ==> Unlisted(s, s.current))
      && (forall t: Tid :: t !in s.status ==> Unlisted(s, t))
      && (forall q: SemId :: q in s.sems && s.sems[q].queue != [] ==> s.sems[q].queue[0] !in s.ready)
      && (forall q: SemId, i,
          j :: q in s.sems && 0 <= i < j < |s.sems[q].queue| ==> s.sems[q].queue[i] != s.sems[q].queue[j])
      && (forall i, j :: 0 <= i < j < |s.ready| ==> s.ready[i] != s.ready[j])
  {
    hide IsRun, After, Inv, Unlisted;
    InitInv(main, values);
    RunsKeepInv(Init(main, values), run);
    var s := After(Init(main, values), run);
    ListsApart(s);
    forall t: Tid | t !in s.status
      ensures Unlisted(s, t)
    {
      DeadUnlisted(s, t);
    }
  }

  lemma NotWaiting(s: State, t: Tid)
    requires t !in s.ready && !Waits(s, t)
    ensures Unlisted(s, t)
  {
    forall q: SemId | q in s.sems
      ensures t !in s.sems[q].queue
    {
      if t in s.sems[q].queue {
        assert Queued(s, t, q);
        WaitsIn(s, t, q);
      }
    }
  }

  lemma DeadUnlisted(s: State, t: Tid)
    requires Inv(s) && t !in s.status
    ensures Unlisted(s, t)
  {
    hide Waits, ListsInv, Unlisted;
    NotWaiting(s, t);
  }

  lemma ListsApart(s: State)
    requires Inv(s)
    ensures s.phase != Switched ==> s.toBeDestroyed == None
    ensures s.toBeDestroyed.Some? ==> s.toBeDestroyed.value != s.current && Unlisted(s, s.toBeDestroyed.value)
    ensures s.phase == Busy ==> Unlisted(s, s.current)
    ensures forall q: SemId :: q in s.sems && s.sems[q].queue != [] ==> s.sems[q].queue[0] !in s.ready
    ensures forall q: SemId, i, j :: q in s.sems && 0 <= i < j < |s.sems[q].queue| ==>
              s.sems[q].queue[i] != s.sems[q].queue[j]
    ensures forall i, j :: 0 <= i < j < |s.ready| ==> s.ready[i] != s.ready[j]
  {
    hide Waits, Unlisted;
    if s.toBeDestroyed.Some? {
      NotWaiting(s, s.toBeDestroyed.value);
    }
    if s.phase == Busy {
      NotWaiting(s, s.current);
    }
    forall q: SemId | q in s.sems && s.sems[q].queue != []
      ensures s.sems[q].queue[0] !in s.ready
    {
      assert Queued(s, s.sems[q].queue[0], q);
    }
  }

  // ---------------------------------------------------------------- first come, first served

  /** Those who have had the processor, then those in line for it. */
  function Line(s: State): seq<Tid> {
    s.dispatched + s.ready
  }

  lemma LineGrows(s: State, a: Action)
    requires Can(s, a)
    ensures Line(s) <= Line(Next(s, a)) && s.dispatched <= Next(s, a).dispatched
  {
    hide TryP, V;
    match a
    case Finish => SleepLine(s, true);
    case TryPass(q) => SleepLine(s.(sems := s.sems[q := TryP(s.sems[q], s.current)]), false);
    case Yield =>
      if s.ready != [] {
        DispatchLine(MadeReady(s, s.current), false);
      }
    case FindNext => DispatchLine(s, s.phase.finishing);
    case _ =>
  }

  lemma DispatchLine(s: State, finishing: bool)
    requires s.ready != []
    ensures Line(Dispatch(s, finishing)) == Line(s)
  {
    assert s.ready == [s.ready[0]] + s.ready[1..];
  }

  lemma SleepLine(s: State, finishing: bool)
    ensures Line(GivesUp(s, finishing)) == Line(s) && s.dispatched <= GivesUp(s, finishing).dispatched
  {
    if s.ready != [] {
      DispatchLine(s.(status := s.status[s.current := Blocked]), finishing);
    }
  }

  lemma {:induction false} LineOverRun(start: State, run: seq<Action>)
    requires IsRun(start, run)
    ensures Line(start) <= Line(After(start, run)) && start.dispatched <= After(start, run).dispatched
  {
    hide Can, Next, Line;
    if run != [] {
      LineOverRun(start, run[..|run| - 1]);
      LineGrows(After(start, run[..|run| - 1]), run[|run| - 1]);
    }
  }

  lemma Placed(start: State, s: State, k: nat)
    requires Line(start) <= Line(s) && start.dispatched <= s.dispatched && k < |start.ready|
    ensures var t, n := start.ready[k], |s.dispatched| - |start.dispatched|;
      && (n > k ==> s.dispatched[|start.dispatched| + k] == t)
      && (n <= k ==> k - n < |s.ready| && s.ready[k - n] == t)
  {
    var d := |start.dispatched|;
    assert Line(start)[d + k] == start.ready[k];
    assert Line(s)[d + k] == Line(start)[d + k];
  }

  /** The thread at position `k` of the ready list is dispatched after exactly `k` others: until then
      it is in the list, moving up one place with every dispatch. */
  lemma FirstComeFirstServed(start: State, run: seq<Action>, k: nat)
    requires IsRun(start, run) && k < |start.ready|
    ensures var t, s, n := start.ready[k], After(start, run), |After(start, run).dispatched| - |start.dispatched|;
      && n >= 0
      && (n > k ==> s.dispatched[|start.dispatched| + k] == t)
      && (n <= k ==> k - n < |s.ready| && s.ready[k - n] == t)
  {
    hide IsRun, After;
    LineOverRun(start, run);
    Placed(start, After(start, run), k);
  }

  // ---------------------------------------------------------------- the loop of Sleep

  /** Interrupt handlers call V on some semaphores. */
  function SignalAll(s: State, qs: seq<SemId>): State {
    if qs == [] then s
    else
      var before := SignalAll(s, qs[..|qs| - 1]);
      if qs[|qs| - 1] in before.sems then SignalStep(before, qs[|qs| - 1]) else before
  }

  /** Idle is called until some thread is ready; `idle` has the semaphores that the handlers of each
      call signal, and after the last one the machine halts. */
  function IdleLoop(s: State, finishing: bool, idle: seq<seq<SemId>>): State
    decreases |idle|
  {
    if s.ready != [] then Dispatch(s, finishing)
    else if idle == [] then s
    else IdleLoop(SignalAll(s, idle[0]), finishing, idle[1..])
  }

  function SleepLoop(s: State, finishing: bool, idle: seq<seq<SemId>>): State {
    IdleLoop(s.(status := s.status[s.current := Blocked], phase := Idling(finishing)), finishing, idle)
  }

  /** The steps of handlers that signal these semaphores. */
  function SignalRun(sems: set<SemId>, qs: seq<SemId>): seq<Action> {
    if qs == [] then []
    else SignalRun(sems, qs[..|qs| - 1]) + if qs[|qs| - 1] in sems then [Action.Signal(qs[|qs| - 1])] else []
  }

  lemma {:induction false} SignalAllIsRun(s: State, qs: seq<SemId>)
    requires s.phase != Switched
    ensures var run, s' := SignalRun(s.sems.Keys, qs), SignalAll(s, qs);
      IsRun(s, run) && After(s, run) == s' && s'.sems.Keys == s.sems.Keys && s'.phase == s.phase && OnlyHandlers(run)
  {
    hide V, IsRun, After;
    RunOfNone(s);
    if qs != [] {
      var last := |qs| - 1;
      SignalAllIsRun(s, qs[..last]);
      if qs[last] in s.sems {
        OneMore(s, SignalRun(s.sems.Keys, qs[..last]), Action.Signal(qs[last]));
      } else {
        assert SignalRun(s.sems.Keys, qs[..last]) + [] == SignalRun(s.sems.Keys, qs[..last]);
      }
    }
  }

  lemma RunOfNone(s: State)
    ensures IsRun(s, []) && After(s, []) == s
  {
  }

  /** Steps in which no thread runs: handlers signal, and the next thread is found. */
  predicate OnlyHandlers(run: seq<Action>) {
    forall k :: 0 <= k < |run| ==> run[k].Signal? || run[k] == FindNext
  }

  /** The run has gone on from `h` by such steps. */
  ghost predicate Handled(h: seq<Action>, run: seq<Action>) {
    h <= run && OnlyHandlers(run[|h|..])
  }

  lemma HandledMore(h: seq<Action>, h1: seq<Action>, h2: seq<Action>)
    requires Handled(h, h1) && Handled(h1, h2)
    ensures Handled(h, h2)
  {
    assert h2[|h|..] == h1[|h|..] + h2[|h1|..];
  }

  lemma HandledOne(h: seq<Action>, a: Action)
    requires a.Signal? || a == FindNext
    ensures Handled(h, h) && Handled(h, h + [a])
  {
  }

  /** The idle loop is a run of handlers and of finding the next thread. */
  lemma {:induction false} IdleLoopIsRun(s: State, finishing: bool, idle: seq<seq<SemId>>) returns (run: seq<Action>)
    requires s.phase == Idling(finishing)
    ensures IsRun(s, run) && After(s, run) == IdleLoop(s, finishing, idle) && OnlyHandlers(run)
    decreases |idle|
  {
    hide IsRun, After, SignalAll, SignalRun;
    RunOfNone(s);
    if s.ready != [] {
      run := [FindNext];
      OneMore(s, [], FindNext);
      assert [] + [FindNext] == run;
    } else if idle == [] {
      run := [];
    } else {
      SignalAllIsRun(s, idle[0]);
      var signals := SignalRun(s.sems.Keys, idle[0]);
      var rest := IdleLoopIsRun(SignalAll(s, idle[0]), finishing, idle[1..]);
      run := signals + rest;
      RunThenRun(s, signals, rest);
    }
  }

  /** What the loop of Sleep makes of a thread that finishes, or that P has to put to sleep. */
  function Slept(s: State, a: Action, idle: seq<seq<SemId>>): State
    requires Can(s, a) && (a == Finish || a.TryPass?)
  {
    if a == Finish then SleepLoop(s, true, idle)
    else SleepLoop(s.(sems := s.sems[a.q := TryP(s.sems[a.q], s.current)]), false, idle)
  }

  predicate Sleeps(s: State, a: Action) {
    Can(s, a) && (a == Finish || (a.TryPass? && s.sems[a.q].value == 0))
  }

  /** The whole loop is a run of single steps: the one in which the thread gives up the processor, and then,
      if nobody is ready, those of interrupt handlers and of finding the next thread. So what holds over
      every run holds through it. */
  lemma SleepLoopIsRun(s: State, a: Action, idle: seq<seq<SemId>>) returns (run: seq<Action>)
    requires Sleeps(s, a)
    ensures IsRun(s, [a] + run) && After(s, [a] + run) == Slept(s, a, idle) && OnlyHandlers(run)
  {
    hide IsRun, After, TryP;
    RunOfNone(s);
    OneMore(s, [], a);
    assert [] + [a] == [a];
    if s.ready != [] {
      run := [];
      assert [a] + run == [a];
    } else {
      run := IdleLoopIsRun(Next(s, a), a == Finish, idle);
      RunThenRun(s, [a], run);
    }
  }

  lemma {:induction false} SignalAllKeepsInv(s: State, qs: seq<SemId>)
    requires Inv(s) && s.phase != Switched
    ensures Inv(SignalAll(s, qs)) && SignalAll(s, qs).phase == s.phase && SignalAll(s, qs).sems.Keys == s.sems.Keys
  {
    hide Inv, V;
    if qs != [] {
      SignalAllKeepsInv(s, qs[..|qs| - 1]);
      var before := SignalAll(s, qs[..|qs| - 1]);
      if qs[|qs| - 1] in before.sems {
        SignalKeeps(before, qs[|qs| - 1]);
      }
    }
  }

  /** However often the machine idles, and whoever the handlers wake meanwhile, itself included, the
      sleeping thread gives the processor to the first that is ready. */
  lemma {:induction false} IdleLoopKeepsInv(s: State, finishing: bool, idle: seq<seq<SemId>>)
    requires Inv(s) && s.phase == Idling(finishing)
    ensures Inv(IdleLoop(s, finishing, idle))
    ensures var s' := IdleLoop(s, finishing, idle);
      if s'.phase == Switched then s'.status.Keys == s.status.Keys else s'.phase == s.phase && s'.ready == []
    decreases |idle|
  {
    hide Inv, SignalAll;
    if s.ready != [] {
      FindNextKeeps(s);
      ReadyIsLive(s);
    } else if idle != [] {
      SignalAllKeepsInv(s, idle[0]);
      SignalAllKeepsThreads(s, idle[0]);
      IdleLoopKeepsInv(SignalAll(s, idle[0]), finishing, idle[1..]);
    }
  }

  lemma ReadyIsLive(s: State)
    requires Inv(s) && s.ready != []
    ensures s.ready[0] in s.status
  {
    assert s.ready[0] in s.ready;
  }

  lemma {:induction false} SignalAllKeepsThreads(s: State, qs: seq<SemId>)
    requires Inv(s) && s.phase != Switched
    ensures SignalAll(s, qs).status.Keys == s.status.Keys
  {
    hide ListsInv, Waits, V;
    if qs != [] {
      SignalAllKeepsThreads(s, qs[..|qs| - 1]);
      SignalAllKeepsInv(s, qs[..|qs| - 1]);
      var before := SignalAll(s, qs[..|qs| - 1]);
      var q := qs[|qs| - 1];
      if q in before.sems && before.sems[q].queue != [] {
        assert Queued(before, before.sems[q].queue[0], q);
        WaitsIn(before, before.sems[q].queue[0], q);
      }
    }
  }

  /** Where a thread is ready it gets the processor at once; where none is, the machine halts exactly if
      nobody waits for any of the interrupts to come. */
  lemma SleepEnds(s: State, finishing: bool, idle: seq<seq<SemId>>)
    ensures s.ready == [] ==> (SleepLoop(s, finishing, idle).phase != Switched <==> NobodyWoken(s.sems, idle))
    ensures s.ready != [] ==>
      var s' := SleepLoop(s, finishing, idle);
      && s'.current == s.ready[0] && s'.ready == s.ready[1..] && s'.sems == s.sems && s'.phase == Switched
      && s'.status == s.status[s.current := Blocked][s.ready[0] := Running]
      && s'.toBeDestroyed == if finishing then Some(s.current) else s.toBeDestroyed
  {
    hide NobodyWoken;
    if s.ready == [] {
      IdleLoopHalts(s.(status := s.status[s.current := Blocked], phase := Idling(finishing)), finishing, idle);
    }
  }

  /** Once a thread waits on a semaphore nobody is woken only if this one is not signalled either. */
  lemma QueuedIsWoken(s: State, q: SemId, idle: seq<seq<SemId>>)
    requires q in s.sems && s.sems[q].value == 0
    ensures NobodyWoken(s.sems[q := TryP(s.sems[q], s.current)], idle) <==>
            NobodyWoken(s.sems, idle) && forall i :: 0 <= i < |idle| ==> q !in idle[i]
  {
    var sems' := s.sems[q := TryP(s.sems[q], s.current)];
    if NobodyWoken(sems', idle) {
      assert sems'[q].queue != [];
      forall i, j | 0 <= i < |idle| && 0 <= j < |idle[i]| && idle[i][j] in s.sems
        ensures s.sems[idle[i][j]].queue == []
      {
        assert sems'[idle[i][j]].queue == [];
      }
    }
  }

  /** No thread waits on any of the semaphores that the handlers signal. */
  ghost predicate NobodyWoken(sems: map<SemId, Sem>, idle: seq<seq<SemId>>) {
    forall i, j :: 0 <= i < |idle| && 0 <= j < |idle[i]| && idle[i][j] in sems ==> sems[idle[i][j]].queue == []
  }

  /** Handlers make a thread ready exactly if one waits on what they signal. */
  lemma {:induction false} SignalAllWakes(s: State, qs: seq<SemId>)
    requires s.ready == []
    ensures SignalAll(s, qs).ready == [] <==> NobodyWoken(s.sems, [qs])
    ensures SignalAll(s, qs).ready == [] ==> SameSleepers(s.sems, SignalAll(s, qs).sems)
  {
    hide SameSleepers;
    if qs != [] {
      var init, q := qs[..|qs| - 1], qs[|qs| - 1];
      var before := SignalAll(s, init);
      SignalAllWakes(s, init);
      assert NobodyWoken(s.sems, [qs]) <==> NobodyWoken(s.sems, [init]) && (q in s.sems ==> s.sems[q].queue == []) by {
        assert forall j :: 0 <= j < |init| ==> [init][0][j] == [qs][0][j];
        assert [qs][0][|qs| - 1] == q;
      }
      if before.ready == [] {
        SameQueue(s.sems, before.sems, q);
        if q in before.sems && before.sems[q].queue == [] {
          SignalWakes(s.sems, before, q);
        }
      }
    } else {
      SameSleepersItself(s.sems);
    }
  }

  ghost predicate SameSleepers(sems: map<SemId, Sem>, sems': map<SemId, Sem>) {
    sems'.Keys == sems.Keys && forall q: SemId :: q in sems ==> sems'[q].queue == sems[q].queue
  }

  lemma SameSleepersItself(sems: map<SemId, Sem>)
    ensures SameSleepers(sems, sems)
  {
  }

  lemma SameQueue(sems: map<SemId, Sem>, sems': map<SemId, Sem>, q: SemId)
    requires SameSleepers(sems, sems')
    ensures q in sems' <==> q in sems
    ensures q in sems ==> sems'[q].queue == sems[q].queue
  {
  }

  lemma SignalWakes(sems: map<SemId, Sem>, s: State, q: SemId)
    requires SameSleepers(sems, s.sems) && q in s.sems && s.sems[q].queue == []
    ensures SameSleepers(sems, SignalStep(s, q).sems)
  {
  }

  lemma NobodyFirst(sems: map<SemId, Sem>, idle: seq<seq<SemId>>)
    requires idle != []
    ensures NobodyWoken(sems, idle) <==> NobodyWoken(sems, [idle[0]]) && NobodyWoken(sems, idle[1..])
  {
    var first, rest := [idle[0]], idle[1..];
    if NobodyWoken(sems, idle) {
      forall i, j | 0 <= i < |rest| && 0 <= j < |rest[i]| && rest[i][j] in sems
        ensures sems[rest[i][j]].queue == []
      {
        assert rest[i][j] == idle[i + 1][j];
      }
    }
    if NobodyWoken(sems, first) && NobodyWoken(sems, rest) {
      forall i, j | 0 <= i < |idle| && 0 <= j < |idle[i]| && idle[i][j] in sems
        ensures sems[idle[i][j]].queue == []
      {
        assert if i == 0 then idle[i][j] == first[0][j] else idle[i][j] == rest[i - 1][j];
      }
    }
  }

  lemma NobodySame(sems: map<SemId, Sem>, sems': map<SemId, Sem>, idle: seq<seq<SemId>>)
    requires SameSleepers(sems, sems')
    ensures NobodyWoken(sems, idle) <==> NobodyWoken(sems', idle)
  {
  }

  /** The machine halts exactly if nobody waits for any of the interrupts to come. */
  lemma {:induction false} IdleLoopHalts(s: State, finishing: bool, idle: seq<seq<SemId>>)
    requires s.phase == Idling(finishing) && s.ready == []
    ensures IdleLoop(s, finishing, idle).phase != Switched <==> NobodyWoken(s.sems, idle)
    decreases |idle|
  {
    hide SignalAll;
    if idle != [] {
      var after := SignalAll(s, idle[0]);
      SignalAllWakes(s, idle[0]);
      SignalAllPhase(s, idle[0]);
      NobodyFirst(s.sems, idle);
      if after.ready == [] {
        IdleLoopHalts(after, finishing, idle[1..]);
        NobodySame(s.sems, after.sems, idle[1..]);
      }
    }
  }

  lemma {:induction false} SignalAllPhase(s: State, qs: seq<SemId>)
    ensures SignalAll(s, qs).phase == s.phase
  {
    if qs != [] {
      SignalAllPhase(s, qs[..|qs| - 1]);
    }
  }

  lemma NotListed(s: State, t: Tid)
    requires Inv(s) && t !in s.status
    ensures t !in s.ready
  {
  }

  lemma NothingToDestroy(s: State)
    requires Inv(s) && s.phase != Switched
    ensures s.toBeDestroyed == None
  {
  }

  /** `s` is what a run has led to, from the start of the kernel. */
  ghost predicate Reached(main: Tid, values: map<SemId, nat>, run: seq<Action>, s: State) {
    IsRun(Init(main, values), run) && After(Init(main, values), run) == s
  }

  lemma ReachedInv(main: Tid, values: map<SemId, nat>, run: seq<Action>, s: State)
    requires Reached(main, values, run, s)
    ensures Inv(s)
  {
    hide IsRun, After, Inv;
    InitInv(main, values);
    RunsKeepInv(Init(main, values), run);
  }

  lemma ReachedNext(main: Tid, values: map<SemId, nat>, run: seq<Action>, s: State, a: Action)
    requires Reached(main, values, run, s) && Can(s, a)
    ensures Reached(main, values, run + [a], Next(s, a))
  {
    hide IsRun, After, Can, Next;
    OneMore(Init(main, values), run, a);
  }

  lemma KeptNotRunning(s: State)
    requires Inv(s) && s.toBeDestroyed.Some?
    ensures s.toBeDestroyed.value != s.current
  {
    hide Waits;
  }

  // ---------------------------------------------------------------- the class

  /** The kernel's `currentThread`, the scheduler's `readyList` and `toBeDestroyed`, the threads'
      `status`, and the semaphores. `history` is the run of single steps that has led here. */
  class Kernel {
    var currentThread: Tid
    var readyList: seq<Tid>
    var toBeDestroyed: Option<Tid>
    var status: map<Tid, Status>
    var sems: map<SemId, Sem>
    ghost var phase: Phase
    ghost var dispatched: seq<Tid>
    ghost const main: Tid
    ghost const values: map<SemId, nat>
    ghost var history: seq<Action>

    ghost function View(): State
      reads this
    {
      State(currentThread, readyList, sems, status, toBeDestroyed, phase, dispatched)
    }

    /** What all runs keep (Partition, Assertions, FirstComeFirstServed) holds here. */
    ghost predicate Valid()
      reads this
    {
      Reached(main, values, history, View())
    }

    constructor (main: Tid, values: map<SemId, nat>)
      ensures Valid() && View() == Init(main, values) && history == []
    {
      currentThread, readyList, toBeDestroyed, status := main, [], None, map[main := Running];
      sems := map q | q in values :: New(values[q]);
      phase, dispatched := Busy, [];
      this.main, this.values, history := main, values, [];
    }

    method ReadyToRun(t: Tid)
      requires t !in readyList
      modifies this`status, this`readyList
      ensures View() == MadeReady(old(View()), t)
    {
      status := status[t := Ready];
      readyList := readyList + [t];
    }

    method FindNextToRun() returns (next: Option<Tid>)
      modifies this`readyList
      ensures if old(readyList) == [] then next == None && readyList == []
              else next == Some(old(readyList)[0]) && readyList == old(readyList)[1..]
    {
      if readyList == [] {
        return None;
      }
      next := Some(readyList[0]);
      readyList := readyList[1..];
    }

    /** The processor goes to `next`, which was taken off the ready list. */
    method Run(next: Tid, finishing: bool)
      requires finishing ==> toBeDestroyed == None
      modifies this`currentThread, this`toBeDestroyed, this`status, this`phase, this`dispatched
      ensures currentThread == next && phase == Switched && dispatched == old(dispatched) + [next]
      ensures toBeDestroyed == if finishing then Some(old(currentThread)) else old(toBeDestroyed)
      ensures status == old(status)[next := Running]
    {
      if finishing {
        toBeDestroyed := Some(currentThread);
      }
      currentThread := next;
      status := status[next := Running];
      phase, dispatched := Switched, dispatched + [next];
    }

    /** What a thread does first when it comes out of SWITCH, or begins. */
    method CheckToBeDestroyed()
      requires Valid() && phase == Switched
      modifies this`toBeDestroyed, this`status, this`phase, this`history
      ensures Valid() && View() == Next(old(View()), Action.Resume) && history == old(history) + [Action.Resume]
      ensures old(toBeDestroyed).Some? ==> old(toBeDestroyed).value != currentThread
      ensures toBeDestroyed == None && phase == Busy
      ensures status == if old(toBeDestroyed).Some? then old(status) - {old(toBeDestroyed).value} else old(status)
    {
      hide Reached, Inv;
      ReachedInv(main, values, history, View());
      ReachedNext(main, values, history, View(), Action.Resume);
      if toBeDestroyed.Some? {
        KeptNotRunning(View());
      }
      match toBeDestroyed {
        case None =>
        case Some(t) =>
          status := status - {t};
          toBeDestroyed := None;
      }
      phase := Busy;
      history := history + [Action.Resume];
    }

    method Fork(t: Tid)
      requires Valid() && phase == Busy && t !in status
      modifies this`status, this`readyList, this`history
      ensures Valid() && View() == Next(old(View()), Action.Fork(t)) && history == old(history) + [Action.Fork(t)]
      ensures readyList == old(readyList) + [t] && status == old(status)[t := Ready]
    {
      hide Reached, Inv;
      ReachedInv(main, values, history, View());
      ReachedNext(main, values, history, View(), Action.Fork(t));
      NotListed(View(), t);
      ReadyToRun(t);
      history := history + [Action.Fork(t)];
    }

    method Yield()
      requires Valid() && phase == Busy
      modifies this
      ensures Valid() && View() == Next(old(View()), Action.Yield) && history == old(history) + [Action.Yield]
      ensures old(readyList) == [] ==> View() == old(View())
      ensures old(readyList) != [] ==>
                && currentThread == old(readyList)[0] && readyList == old(readyList)[1..] + [old(currentThread)]
                && status == old(status)[old(currentThread) := Ready][currentThread := Running]
                && phase == Switched && sems == old(sems) && toBeDestroyed == old(toBeDestroyed)
    {
      hide Reached, Inv;
      ReachedInv(main, values, history, View());
      ReachedNext(main, values, history, View(), Action.Yield);
      RunningNotReady(View());
      var nextThread := FindNextToRun();
      if nextThread.Some? {
        ReadyToRun(currentThread);
        Run(nextThread.value, false);
        assert readyList == Next(old(View()), Action.Yield).ready;
      }
      history := history + [Action.Yield];
    }

    /** `idle` are the semaphores that the interrupt handlers signal each time the machine idles;
        when there are no more interrupts it halts. `before` is the state in which the caller began the
        step `a`, and all that it lacks now is that the thread gives up the processor. */
    method Sleep(finishing: bool, idle: seq<seq<SemId>>, ghost before: State, ghost a: Action) returns (halted: bool)
      requires Reached(main, values, history, before) && Sleeps(before, a) && finishing == (a == Action.Finish)
      requires phase == Busy && toBeDestroyed == None && GivesUp(View(), finishing) == Next(before, a)
      modifies this
      ensures Valid() && View() == SleepLoop(old(View()), finishing, idle)
      ensures halted <==> phase != Switched
      ensures Handled(old(history) + [a], history)
    {
      hide Reached, Inv, SignalAll, Next, Can, Sleeps, Handled, V, TryP;
      CanSleep(before, a);
      ReachedNext(main, values, history, before, a);
      status := status[currentThread := Blocked];
      phase := Idling(finishing);
      ghost var start, idles, h := View(), readyList == [], history + [a];
      HandledOne(h, FindNext);
      if idles {
        history := h;
      }
      var i := 0;
      while true
        invariant 0 <= i <= |idle| && phase == Idling(finishing) && toBeDestroyed == None
        invariant if idles then Valid() && Handled(h, history)
                  else View() == start && i == 0 && history + [a] == h
        invariant IdleLoop(View(), finishing, idle[i..]) == IdleLoop(start, finishing, idle)
        decreases |idle| - i
      {
        ghost var now := View();
        var nextThread := FindNextToRun();
        if nextThread.Some? {
          Run(nextThread.value, finishing);
          assert View() == Dispatch(now, finishing);
          if idles {
            Finds(now, finishing);
            ReachedNext(main, values, history, now, FindNext);
            HandledOne(history, FindNext);
            HandledMore(h, history, history + [FindNext]);
            history := history + [FindNext];
          } else {
            history := h;
          }
          return false;
        }
        if i == |idle| {
          return true;
        }
        ghost var h1 := history;
        Idle(idle[i]);
        HandledMore(h, h1, history);
        assert idle[i..][0] == idle[i] && idle[i..][1..] == idle[i + 1..];
        i := i + 1;
      }
    }

    /** V, by the current thread or a handler: the longest waiting thread, if any, becomes ready. */
    method Signal(q: SemId)
      requires Valid() && phase != Switched && q in sems
      modifies this`status, this`readyList, this`sems, this`history
      ensures Valid() && View() == Next(old(View()), Action.Signal(q)) && history == old(history) + [Action.Signal(q)]
      ensures q in sems && sems == old(sems)[q := sems[q]] && sems[q].value == old(sems)[q].value + 1
      ensures Handed(old(sems)[q].queue) + sems[q].queue == old(sems)[q].queue
      ensures readyList == old(readyList) + Handed(old(sems)[q].queue)
      ensures status == if old(sems)[q].queue == [] then old(status)
              else old(status)[old(sems)[q].queue[0] := Ready]
    {
      hide Reached, Inv;
      ReachedInv(main, values, history, View());
      ReachedNext(main, values, history, View(), Action.Signal(q));
      var sem := sems[q];
      if sem.queue != [] {
        SignalledNotReady(View(), q);
        ReadyToRun(sem.queue[0]);
      }
      sems := sems[q := V(sem)];
      history := history + [Action.Signal(q)];
    }

    /** Interrupt::Idle, as far as threads can tell: the handlers that run signal semaphores. */
    method Idle(qs: seq<SemId>)
      requires Valid() && phase != Switched
      modifies this`status, this`readyList, this`sems, this`history
      ensures Valid() && View() == SignalAll(old(View()), qs)
      ensures toBeDestroyed == old(toBeDestroyed) && Handled(old(history), history)
    {
      hide Reached, Inv, SignalStep, Handled;
      ghost var h := history;
      HandledOne(h, FindNext);
      assert qs[..0] == [];
      for i := 0 to |qs|
        invariant Valid() && View() == SignalAll(old(View()), qs[..i]) && phase != Switched
        invariant Handled(h, history)
      {
        assert qs[..i + 1][..i] == qs[..i];
        if qs[i] in sems {
          HandledOne(history, Action.Signal(qs[i]));
          HandledMore(h, history, history + [Action.Signal(qs[i])]);
          Signal(qs[i]);
        }
      }
      assert qs[..|qs|] == qs;
    }

    /** `this == kernel->currentThread` and interrupts are off. */
    method Finish(idle: seq<seq<SemId>>) returns (halted: bool)
      requires Valid() && phase == Busy
      modifies this
      ensures Valid() && View() == SleepLoop(old(View()), true, idle)
      ensures halted <==> phase != Switched
      ensures old(readyList) != [] ==>
                && !halted && currentThread == old(readyList)[0] && readyList == old(readyList)[1..]
                && status == old(status)[old(currentThread) := Blocked][currentThread := Running]
                && toBeDestroyed == Some(old(currentThread)) && sems == old(sems)
      ensures old(readyList) == [] ==> (halted <==> NobodyWoken(old(sems), idle))
      ensures Handled(old(history) + [Action.Finish], history)
    {
      hide Reached, Inv, SleepLoop;
      ReachedInv(main, values, history, View());
      NothingToDestroy(View());
      SleepEnds(View(), true, idle);
      halted := Sleep(true, idle, View(), Action.Finish);
    }

    /** One round of P. */
    method TryPass(q: SemId, idle: seq<seq<SemId>>) returns (passed: bool, halted: bool)
      requires Valid() && phase == Busy && q in sems
      modifies this
      ensures Valid() && (passed <==> old(sems)[q].value > 0)
      ensures var tried := old(View()).(sems := old(sems)[q := TryP(old(sems)[q], old(currentThread))]);
        View() == if passed then tried else SleepLoop(tried, false, idle)
      ensures halted <==> !passed && phase != Switched
      ensures passed ==>
                && q in sems && sems == old(sems)[q := sems[q]] && sems[q].value == old(sems)[q].value - 1
                && sems[q].queue == old(sems)[q].queue && readyList == old(readyList) && status == old(status)
                && currentThread == old(currentThread) && phase == Busy
      ensures !passed && old(readyList) != [] ==>
                && !halted && currentThread == old(readyList)[0] && readyList == old(readyList)[1..]
                && q in sems && sems == old(sems)[q := sems[q]] && sems[q].value == 0
                && sems[q].queue == old(sems)[q].queue + [old(currentThread)]
                && status == old(status)[old(currentThread) := Blocked][currentThread := Running]
      ensures !passed && old(readyList) == [] ==>
                (halted <==> NobodyWoken(old(sems), idle) && forall i :: 0 <= i < |idle| ==> q !in idle[i])
      ensures Handled(old(history) + [Action.TryPass(q)], history)
    {
      hide Reached, Inv, SleepLoop, Handled;
      ghost var before := View();
      ReachedInv(main, values, history, before);
      NothingToDestroy(before);
      ReachedNext(main, values, history, before, Action.TryPass(q));
      passed, halted := sems[q].value > 0, false;
      sems := sems[q := TryP(sems[q], currentThread)];
      HandledOne(history + [Action.TryPass(q)], FindNext);
      if passed {
        history := history + [Action.TryPass(q)];
      } else {
        SleepEnds(View(), false, idle);
        QueuedIsWoken(before, q, idle);
        halted := Sleep(false, idle, before, Action.TryPass(q));
      }
    }
  }

  lemma CanSleep(s: State, a: Action)
    requires Sleeps(s, a)
    ensures Can(s, a)
  {
    hide Can;
  }

  lemma Finds(s: State, finishing: bool)
    requires s.phase == Idling(finishing) && s.ready != []
    ensures Can(s, FindNext) && Next(s, FindNext) == Dispatch(s, finishing)
  {
  }

  lemma SignalledNotReady(s: State, q: SemId)
    requires Inv(s) && q in s.sems && s.sems[q].queue != []
    ensures s.sems[q].queue[0] !in s.ready
  {
    assert Queued(s, s.sems[q].queue[0], q);
  }

  lemma RunningNotReady(s: State)
    requires Inv(s) && s.phase == Busy
    ensures s.current !in s.ready
  {
  }
}
