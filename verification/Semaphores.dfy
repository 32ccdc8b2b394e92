/** Semaphores (threads/synch.cc). P and V run with interrupts off, so one pass through the loop of
    P and one call of V are atomic; between them any thread may run, and a thread that comes later
    may take what a woken one was woken for. */
module Semaphores {
  import opened Wrappers

  type Tid = nat

  /** The value, the threads asleep in P in the order they came, and those woken by V that have
      not looked at the value again yet. */
  datatype Sem = Sem(value: nat, queue: seq<Tid>, woken: set<Tid>)

  function New(value: nat): Sem {
    Sem(value, [], {})
  }

  /** One pass of P by `t`: it takes a unit if there is one, and goes to sleep otherwise. */
  function TryP(s: Sem, t: Tid): Sem {
    if s.value == 0 then Sem(0, s.queue + [t], s.woken - {t}) else Sem(s.value - 1, s.queue, s.woken - {t})
  }

  /** V: the first sleeper is woken, but the unit is not reserved for it. */
  function V(s: Sem): Sem {
    if s.queue == [] then s.(value := s.value + 1)
    else Sem(s.value + 1, s.queue[1..], s.woken + {s.queue[0]})
  }

  /** No thread sleeps twice, or sleeps and is awake; and while threads sleep there is a woken
      thread for every unit. */
  ghost predicate SemInv(s: Sem) {
    && (forall i, j :: 0 <= i < j < |s.queue| ==> s.queue[i] != s.queue[j])
    && (forall t :: t in s.queue ==> t !in s.woken)
    && (s.queue != [] ==> |s.woken| >= s.value)
  }

  lemma TryPKeepsInv(s: Sem, t: Tid)
    requires SemInv(s) && t !in s.queue
    ensures SemInv(TryP(s, t))
  {
    if s.value > 0 && t in s.woken {
      assert |s.woken - {t}| == |s.woken| - 1;
    }
  }

  lemma VKeepsInv(s: Sem)
    requires SemInv(s)
    ensures SemInv(V(s))
  {
    if s.queue != [] {
      var t := s.queue[0];
      assert t in s.queue && t !in s.queue[1..];
      forall u | u in s.queue[1..]
        ensures u !in s.woken + {t}
      {
        assert u in s.queue;
      }
    }
  }

  // ---------------------------------------------------------------- all runs of one semaphore

  datatype Event = Attempt(t: Tid) | Signal

  /** A sleeping thread does nothing. */
  predicate Possible(s: Sem, e: Event) {
    e.Attempt? ==> e.t !in s.queue
  }

  function Do(s: Sem, e: Event): Sem {
    match e
    case Attempt(t) => TryP(s, t)
    case Signal => V(s)
  }

  /** The semaphore after a run, from its initial value. */
  function After(initial: nat, run: seq<Event>): Sem {
    if run == [] then New(initial) else Do(After(initial, run[..|run| - 1]), run[|run| - 1])
  }

  predicate IsRun(initial: nat, run: seq<Event>) {
    run == [] || (IsRun(initial, run[..|run| - 1]) && Possible(After(initial, run[..|run| - 1]), run[|run| - 1]))
  }

  /** How many Vs and how many Ps a run has completed. */
  function Signals(run: seq<Event>): nat {
    if run == [] then 0 else Signals(run[..|run| - 1]) + if run[|run| - 1].Signal? then 1 else 0
  }

  function Passed(initial: nat, run: seq<Event>): nat {
    if run == [] then 0
    else Passed(initial, run[..|run| - 1])
         + if run[|run| - 1].Attempt? && After(initial, run[..|run| - 1]).value > 0 then 1 else 0
  }

  /** Over every run the value is what was put in less what was taken out, and no wakeup is lost:
      if threads sleep although there are units, at least as many threads have been woken. */
  lemma {:induction false} RunsKeepCount(initial: nat, run: seq<Event>)
    requires IsRun(initial, run)
    ensures After(initial, run).value == initial + Signals(run) - Passed(initial, run)
    ensures SemInv(After(initial, run))
    ensures var s := After(initial, run); s.queue != [] && s.value > 0 ==> |s.woken| >= s.value && s.woken != {}
  {
    if run != [] {
      var before := run[..|run| - 1];
      RunsKeepCount(initial, before);
      match run[|run| - 1]
      case Attempt(t) => TryPKeepsInv(After(initial, before), t);
      case Signal => VKeepsInv(After(initial, before));
    }
  }

  /** The threads that go to sleep in a run, one after the other. */
  function Sleepers(initial: nat, run: seq<Event>): seq<Tid> {
    if run == [] then []
    else
      var before, e := run[..|run| - 1], run[|run| - 1];
      Sleepers(initial, before) + if e.Attempt? && After(initial, before).value == 0 then [e.t] else []
  }

  /** The thread that V hands to the scheduler, if any. */
  function Handed(queue: seq<Tid>): seq<Tid> { if queue == [] then [] else [queue[0]] }

  function Woken(initial: nat, run: seq<Event>): seq<Tid> {
    if run == [] then []
    else
      var before := run[..|run| - 1];
      Woken(initial, before) + if run[|run| - 1].Signal? then Handed(After(initial, before).queue) else []
  }

  /** Over every run threads are woken in the order in which they went to sleep: those woken so far, and
      behind them those still asleep, are all that ever went to sleep, in that order. */
  lemma {:induction false} WokenInOrder(initial: nat, run: seq<Event>)
    ensures Woken(initial, run) + After(initial, run).queue == Sleepers(initial, run)
  {
    if run != [] {
      WokenInOrder(initial, run[..|run| - 1]);
    }
  }

  // ---------------------------------------------------------------- the class

  class Semaphore {
    var value: nat
    var queue: seq<Tid>
    ghost var woken: set<Tid>

    ghost function State(): Sem
      reads this
    {
      Sem(value, queue, woken)
    }

    constructor (initialValue: nat)
      ensures State() == New(initialValue)
    {
      value, queue, woken := initialValue, [], {};
    }

    /** What P does each time round its loop. `passed` ends the loop; otherwise the thread sleeps. */
    method TryPass(current: Tid) returns (passed: bool)
      requires SemInv(State()) && current !in queue
      modifies this
      ensures SemInv(State()) && State() == TryP(old(State()), current)
      ensures passed <==> old(value) > 0
      ensures if passed then value == old(value) - 1 && queue == old(queue)
              else value == 0 && queue == old(queue) + [current]
    {
      TryPKeepsInv(State(), current);
      passed := value != 0;
      if value == 0 {
        queue := queue + [current];
      } else {
        value := value - 1;
      }
      woken := woken - {current};
    }

    /** `ready` are the threads handed to the scheduler: the longest sleeper, if any. */
    method Signal() returns (ready: seq<Tid>)
      requires SemInv(State())
      modifies this
      ensures SemInv(State()) && State() == V(old(State()))
      ensures ready == Handed(old(queue)) && ready + queue == old(queue) && value == old(value) + 1
    {
      VKeepsInv(State());
      ready := [];
      if queue != [] {
        ready := [queue[0]];
        woken := woken + {queue[0]};
        queue := queue[1..];
      }
      value := value + 1;
    }
  }

  // ---------------------------------------------------------------- locks and conditions

  class Lock {
    const semaphore: Semaphore
    var lockHolder: Option<Tid>

    constructor ()
      ensures lockHolder == None && fresh(semaphore) && semaphore.State() == New(1)
    {
      semaphore := new Semaphore(1);
      lockHolder := None;
    }

    /** One pass of Acquire. */
    method TryAcquire(current: Tid) returns (passed: bool)
      requires SemInv(semaphore.State()) && current !in semaphore.queue
      modifies this, semaphore
      ensures SemInv(semaphore.State()) && semaphore.State() == TryP(old(semaphore.State()), current)
      ensures passed <==> old(semaphore.value) > 0
      ensures lockHolder == if passed then Some(current) else old(lockHolder)
    {
      passed := semaphore.TryPass(current);
      if passed {
        lockHolder := Some(current);
      }
    }

    method Release(current: Tid) returns (ready: seq<Tid>)
      requires SemInv(semaphore.State()) && lockHolder == Some(current)
      modifies this, semaphore
      ensures SemInv(semaphore.State()) && semaphore.State() == V(old(semaphore.State())) && lockHolder == None
      ensures ready == Handed(old(semaphore.queue)) && ready + semaphore.queue == old(semaphore.queue)
    {
      lockHolder := None;
      ready := semaphore.Signal();
    }
  }

  /** A condition's queue holds one semaphore for each waiting thread. */
  class Condition {
    var waitQueue: seq<Semaphore>

    ghost predicate Valid()
      reads this, waitQueue
    {
      && (forall i, j :: 0 <= i < j < |waitQueue| ==> waitQueue[i] != waitQueue[j])
      && (forall i :: 0 <= i < |waitQueue| ==> SemInv(waitQueue[i].State()))
    }

    constructor ()
      ensures Valid() && waitQueue == []
    {
      waitQueue := [];
    }

    /** What Wait does before it releases the lock. */
    method Enqueue(lock: Lock, current: Tid) returns (waiter: Semaphore)
      requires Valid() && lock.lockHolder == Some(current)
      modifies this
      ensures Valid() && fresh(waiter) && waiter.State() == New(0) && waitQueue == old(waitQueue) + [waiter]
    {
      waiter := new Semaphore(0);
      waitQueue := waitQueue + [waiter];
    }

    method Signal(lock: Lock, current: Tid) returns (ready: seq<Tid>)
      requires Valid() && lock.lockHolder == Some(current)
      modifies this, waitQueue
      ensures Valid()
      ensures waitQueue == if old(waitQueue) == [] then [] else old(waitQueue)[1..]
      ensures old(waitQueue) != [] ==> old(waitQueue)[0].State() == V(old(waitQueue[0].State()))
      ensures forall i :: 1 <= i < |old(waitQueue)| ==> old(waitQueue)[i].State() == old(waitQueue[i].State())
      ensures ready == if old(waitQueue) == [] ||
              old(waitQueue[0].queue) == [] then [] else [old(waitQueue[0].queue[0])]
    {
      ready := [];
      if waitQueue != [] {
        var waiter := waitQueue[0];
        waitQueue := waitQueue[1..];
        ready := waiter.Signal();
      }
    }

    /** Every semaphore in the queue gets exactly one V. */
    method Broadcast(lock: Lock, current: Tid)
      requires Valid() && lock.lockHolder == Some(current)
      modifies this, waitQueue
      ensures Valid() && waitQueue == []
      ensures forall i :: 0 <= i < |old(waitQueue)| ==> old(waitQueue)[i].State() == V(old(waitQueue[i].State()))
    {
      ghost var all := waitQueue;
      ghost var k := 0;
      while waitQueue != []
        invariant 0 <= k <= |all| && waitQueue == all[k..] && Valid()
        invariant forall i :: 0 <= i < k ==> all[i].State() == V(old(waitQueue[i].State()))
        invariant forall i :: k <= i < |all| ==> all[i].State() == old(waitQueue[i].State())
        decreases |waitQueue|
      {
        var _ := Signal(lock, current);
        k := k + 1;
      }
    }
  }
}
