/** The synchronized list (threads/synchlist.cc) with its lock and its Mesa condition variable
    (threads/synch.cc), under every interleaving of any number of producers and consumers.

    A thread is at one statement of `Append` or `RemoveFront`, with the statements of `Acquire`,
    `Release`, `Wait` and `Signal` inlined; a step runs one statement of one thread. */
module SynchLists {
  import opened Semaphores
  import opened Wrappers

  datatype Pc<T> =
    | Idle
    // SynchList::Append
    | PLock(item: T)        // lock->Acquire: P
    | PHold(item: T)        // lock->Acquire: lockHolder = currentThread
    | PAppend(item: T)      // list->Append(item)
    | PSignal               // Signal: take the first waiter, if any
    | PWake(waiter: Tid)    // Signal: waiter->V()
    | PRelease              // lock->Release: lockHolder = NULL
    | PUnlock               // lock->Release: V
    // SynchList::RemoveFront
    | CLock                 // lock->Acquire: P
    | CHold                 // lock->Acquire: lockHolder = currentThread
    | CTest                 // while (list->IsEmpty())
    | CWait                 // Wait: new semaphore, put in waitQueue
    | CWaitRelease          // Wait: Release: lockHolder = NULL
    | CWaitUnlock           // Wait: Release: V
    | CSleep                // Wait: waiter->P()
    | CRelock               // Wait: Acquire: P
    | CRehold               // Wait: Acquire: lockHolder = currentThread; delete waiter
    | CTake                 // item = list->RemoveFront()
    | CRelease(item: T)     // lock->Release: lockHolder = NULL
    | CUnlock(item: T)      // lock->Release: V

  /** `waiters` holds the private semaphore of each waiting thread, and `waitQueue` the threads whose
      semaphore is in the condition's queue. `owner`, `appended` and `removed` are history: who has
      passed P on the lock and not yet called V, and the items that have gone in and come out. */
  datatype State<T> = State(
    list: seq<T>, lock: Sem, holder: Option<Tid>, waitQueue: seq<Tid>, waiters: map<Tid, Sem>,
    pc: map<Tid, Pc<T>>, owner: Option<Tid>, appended: seq<T>, removed: seq<T>)

  function Init<T>(): State<T> {
    State([], New(1), None, [], map[], map[], None, [], [])
  }

  function At<T>(s: State<T>, t: Tid): Pc<T> {
    if t in s.pc then s.pc[t] else Idle
  }

  datatype Action<T> = StartAppend(t: Tid, item: T) | StartRemove(t: Tid) | Step(t: Tid)

  /** A thread that is asleep in a queue cannot run. */
  predicate Awake<T>(s: State<T>, t: Tid) {
    && (At(s, t).PLock? || At(s, t).CLock? || At(s, t).CRelock? ==> t !in s.lock.queue)
    && (At(s, t).CSleep? ==> t in s.waiters && t !in s.waiters[t].queue)
  }

  predicate Can<T>(s: State<T>, a: Action<T>) {
    match a
    case StartAppend(t, _) => At(s, t).Idle?
    case StartRemove(t) => At(s, t).Idle?
    case Step(t) => !At(s, t).Idle? && Awake(s, t)
  }

  function Goto<T>(s: State<T>, t: Tid, pc: Pc<T>): State<T> {
    s.(pc := s.pc[t := pc])
  }

  /** One pass of P on the lock, going on at `next` when it gets through. */
  function TryLock<T>(s: State<T>, t: Tid, next: Pc<T>): State<T> {
    if s.lock.value == 0 then s.(lock := TryP(s.lock, t))
    else Goto(s, t, next).(lock := TryP(s.lock, t), owner := Some(t))
  }

  function Unlock<T>(s: State<T>, t: Tid, next: Pc<T>): State<T> {
    Goto(s, t, next).(lock := V(s.lock), owner := None)
  }

  function SignalStep<T>(s: State<T>, t: Tid): State<T> {
    if s.waitQueue == [] then Goto(s, t, PRelease)
    else Goto(s, t, PWake(s.waitQueue[0])).(waitQueue := s.waitQueue[1..])
  }

  function WakeStep<T>(s: State<T>, t: Tid, w: Tid): State<T> {
    Goto(s, t, PRelease).(waiters := if w in s.waiters then s.waiters[w := V(s.waiters[w])] else s.waiters)
  }

  function SleepStep<T>(s: State<T>, t: Tid): State<T> {
    if t !in s.waiters then s
    else if s.waiters[t].value == 0 then s.(waiters := s.waiters[t := TryP(s.waiters[t], t)])
    else Goto(s, t, CRelock).(waiters := s.waiters[t := TryP(s.waiters[t], t)])
  }

  function TakeStep<T>(s: State<T>, t: Tid): State<T> {
    if s.list == [] then s
    else Goto(s, t, CRelease(s.list[0])).(list := s.list[1..], removed := s.removed + [s.list[0]])
  }

  function Run<T>(s: State<T>, t: Tid): State<T> {
    match At(s, t)
    case Idle => s
    case PLock(item) => TryLock(s, t, PHold(item))
    case PHold(item) => Goto(s, t, PAppend(item)).(holder := Some(t))
    case PAppend(item) => Goto(s, t, PSignal).(list := s.list + [item], appended := s.appended + [item])
    case PSignal => SignalStep(s, t)
    case PWake(w) => WakeStep(s, t, w)
    case PRelease => Goto(s, t, PUnlock).(holder := None)
    case PUnlock => Unlock(s, t, Idle)
    case CLock => TryLock(s, t, CHold)
    case CHold => Goto(s, t, CTest).(holder := Some(t))
    case CTest => Goto(s, t, if s.list == [] then CWait else CTake)
    case CWait => Goto(s, t, CWaitRelease).(waiters := s.waiters[t := New(0)], waitQueue := s.waitQueue + [t])
    case CWaitRelease => Goto(s, t, CWaitUnlock).(holder := None)
    case CWaitUnlock => Unlock(s, t, CSleep)
    case CSleep => SleepStep(s, t)
    case CRelock => TryLock(s, t, CRehold)
    case CRehold => Goto(s, t, CTest).(holder := Some(t), waiters := s.waiters - {t})
    case CTake => TakeStep(s, t)
    case CRelease(item) => Goto(s, t, CUnlock(item)).(holder := None)
    case CUnlock(item) => Unlock(s, t, Idle)
  }

  function Do<T>(s: State<T>, a: Action<T>): State<T> {
    match a
    case StartAppend(t, item) => Goto(s, t, PLock(item))
    case StartRemove(t) => Goto(s, t, CLock)
    case Step(t) => Run(s, t)
  }

  // ---------------------------------------------------------------- the invariant

  /** Between P and V on the lock. */
  predicate Inside<T>(pc: Pc<T>) {
    pc.PHold? || pc.PAppend? || pc.PSignal? || pc.PWake? || pc.PRelease? || pc.PUnlock?
    || pc.CHold? || pc.CTest? || pc.CWait? || pc.CWaitRelease? || pc.CWaitUnlock? || pc.CRehold? || pc.CTake?
    || pc.CRelease? || pc.CUnlock?
  }

  /** Where `lockHolder` is this thread, as the assertions in `Wait`, `Signal` and `Release` demand. */
  predicate Holds<T>(pc: Pc<T>) {
    pc.PAppend? || pc.PSignal? || pc.PWake? || pc.PRelease?
    || pc.CTest? || pc.CWait? || pc.CWaitRelease? || pc.CTake? || pc.CRelease?
  }

  predicate AtLock<T>(pc: Pc<T>) {
    pc.PLock? || pc.CLock? || pc.CRelock?
  }

  predicate Waiting<T>(pc: Pc<T>) {
    pc.CWaitRelease? || pc.CWaitUnlock? || pc.CSleep?
  }

  /** The lock excludes: exactly the owner is between P and V. */
  ghost predicate LockInv<T>(s: State<T>) {
    && SemInv(s.lock) && s.lock.value <= 1
    && (s.owner == None <==> s.lock.value == 1)
    && (forall t: Tid :: Inside(At(s, t)) <==> s.owner == Some(t))
    && (forall t: Tid :: t in s.lock.queue || t in s.lock.woken ==> AtLock(At(s, t)))
  }

  ghost predicate HolderInv<T>(s: State<T>) {
    forall t: Tid :: Holds(At(s, t)) ==> s.holder == Some(t)
  }

  /** The threads in the condition's queue are waiting with a semaphore of value 0; a waiter that has
      left the queue has its unit, or the one who took it out is about to give it. */
  ghost predicate WaitInv<T>(s: State<T>) {
    && (forall i, j :: 0 <= i < j < |s.waitQueue| ==> s.waitQueue[i] != s.waitQueue[j])
    && (forall t: Tid :: t in s.waitQueue ==> Waiting(At(s, t)) && t in s.waiters && s.waiters[t].value == 0)
    && (forall t: Tid :: At(s, t).CWaitRelease? || At(s, t).CWaitUnlock? ==>
          t in s.waitQueue && t in s.waiters && s.waiters[t].queue == [])
    && (forall t: Tid :: At(s, t).PWake? ==>
          var w: Tid := At(s, t).waiter;
          w !in s.waitQueue && At(s, w).CSleep? && w in s.waiters && s.waiters[w].value == 0)
    && (forall t: Tid :: At(s, t).CSleep? ==>
          && t in s.waiters && s.waiters[t].value <= 1
          && (s.waiters[t].queue == [] || (s.waiters[t].queue == [t] && s.waiters[t].value == 0))
          && (s.waiters[t].value == 0 && t !in s.waitQueue ==>
                s.owner.Some? && At(s, s.owner.value).PWake? && At(s, s.owner.value).waiter == t))
  }

  /** First in, first out. */
  ghost predicate FifoInv<T>(s: State<T>) {
    s.removed + s.list == s.appended
  }

  /** Signalled, but not yet back in the lock. */
  ghost predicate IsSignalled<T>(s: State<T>, t: Tid) {
    (At(s, t).CSleep? && t !in s.waitQueue) || At(s, t).CRelock?
  }

  ghost function Signalled<T>(s: State<T>): set<Tid> {
    set t | t in s.pc && IsSignalled(s, t)
  }

  /** What the owner of the lock is about to make good: a producer its signal, a consumer back from
      waiting the item it will take. */
  ghost function Slack<T>(s: State<T>): nat {
    if s.owner == None then 0
    else
      var pc := At(s, s.owner.value);
      if pc.PSignal? || pc.CRehold? || pc.CTest? || pc.CTake? then 1 else 0
  }

  /** No wakeup is lost: while consumers are queued, one has been signalled for every item. */
  ghost predicate WakeInv<T>(s: State<T>) {
    && (s.waitQueue != [] ==> |Signalled(s)| + Slack(s) >= |s.list|)
    && (forall t: Tid :: At(s, t).CWait? || At(s, t).CWaitRelease? || At(s, t).CWaitUnlock? ==> s.list == [])
    && (forall t: Tid :: At(s, t).CTake? ==> s.list != [])
  }

  ghost predicate Inv<T>(s: State<T>) {
    LockInv(s) && HolderInv(s) && WaitInv(s) && FifoInv(s) && WakeInv(s)
  }

  // ---------------------------------------------------------------- every step keeps it

  lemma InitInv<T>()
    ensures Inv(Init<T>())
  {
    hide LockInv, HolderInv, WaitInv, WakeInv;
    InitLock<T>();
    InitRest<T>();
  }

  lemma InitLock<T>()
    ensures LockInv(Init<T>())
  {
  }

  lemma InitRest<T>()
    ensures HolderInv(Init<T>()) && WaitInv(Init<T>()) && WakeInv(Init<T>())
  {
    hide Signalled, Slack;
    assert forall t: Tid :: At(Init<T>(), t) == Idle;
  }

  /** Only `t` has moved. */
  ghost predicate Moved<T>(s: State<T>, s': State<T>, t: Tid) {
    forall u: Tid :: u != t ==> At(s', u) == At(s, u)
  }

  lemma LockFrame<T>(s: State<T>, s': State<T>, t: Tid)
    requires LockInv(s) && Moved(s, s', t) && s'.lock == s.lock && s'.owner == s.owner
    requires Inside(At(s', t)) <==> Inside(At(s, t))
    requires AtLock(At(s, t)) ==> AtLock(At(s', t))
    ensures LockInv(s')
  {
    hide SemInv, Inside, AtLock, At;
  }

  lemma TryLockKeepsLock<T>(s: State<T>, t: Tid, next: Pc<T>)
    requires LockInv(s) && AtLock(At(s, t)) && t !in s.lock.queue && Inside(next)
    ensures LockInv(TryLock(s, t, next))
  {
    hide SemInv, Inside, AtLock, At;
    TryPKeepsInv(s.lock, t);
    var s' := TryLock(s, t, next);
    if s.lock.value == 0 {
      assert forall u: Tid :: At(s', u) == At(s, u) by {
        SamePc(s, s');
      }
    } else {
      GotoAt(s, t, next);
      assert forall u: Tid :: At(s', u) == if u == t then next else At(s, u) by {
        SamePc(Goto(s, t, next), s');
      }
    }
  }

  lemma SamePc<T>(s: State<T>, s': State<T>)
    requires s'.pc == s.pc
    ensures forall u: Tid :: At(s', u) == At(s, u)
  {
  }

  lemma GotoAt<T>(s: State<T>, t: Tid, pc: Pc<T>)
    ensures forall u: Tid :: At(Goto(s, t, pc), u) == if u == t then pc else At(s, u)
  {
  }

  lemma UnlockKeepsLock<T>(s: State<T>, t: Tid, next: Pc<T>)
    requires LockInv(s) && Inside(At(s, t)) && !Inside(next)
    ensures LockInv(Unlock(s, t, next))
  {
    hide SemInv;
    VKeepsInv(s.lock);
  }

  lemma KeepsLock<T>(s: State<T>, a: Action<T>)
    requires LockInv(s) && Can(s, a)
    ensures LockInv(Do(s, a))
  {
    hide LockInv;
    var t := a.t;
    if a.Step? {
      match At(s, t)
      case PLock(item) => TryLockKeepsLock(s, t, PHold(item));
      case CLock => TryLockKeepsLock(s, t, CHold);
      case CRelock => TryLockKeepsLock(s, t, CRehold);
      case PUnlock => UnlockKeepsLock(s, t, Idle);
      case CUnlock(_) => UnlockKeepsLock(s, t, Idle);
      case CWaitUnlock => UnlockKeepsLock(s, t, CSleep);
      case _ => LockFrame(s, Do(s, a), t);
    } else {
      LockFrame(s, Do(s, a), t);
    }
  }

  /** A step that changes the holder is the owner's, and no other thread relies on it. */
  lemma HolderFrame<T>(s: State<T>, s': State<T>, t: Tid)
    requires LockInv(s) && HolderInv(s) && Moved(s, s', t)
    requires s'.holder == s.holder || Inside(At(s, t))
    requires Holds(At(s', t)) ==> s'.holder == Some(t)
    ensures HolderInv(s')
  {
    hide SemInv, At, AtLock;
  }

  lemma KeepsHolder<T>(s: State<T>, a: Action<T>)
    requires LockInv(s) && HolderInv(s) && Can(s, a)
    ensures HolderInv(Do(s, a))
  {
    hide LockInv, HolderInv, At, Run;
    if a.Step? && Holds(At(s, a.t)) {
      HeldKeepsHolder(s, a.t);
    } else if a.Step? && Inside(At(s, a.t)) {
      InsideKeepsHolder(s, a.t);
    } else {
      OutsideKeepsHolder(s, a);
    }
  }

  lemma HeldKeepsHolder<T>(s: State<T>, t: Tid)
    requires LockInv(s) && HolderInv(s) && Holds(At(s, t))
    ensures HolderInv(Run(s, t))
  {
    hide LockInv, HolderInv;
    HolderStays(s, t);
    HolderFrame(s, Run(s, t), t);
  }

  lemma InsideKeepsHolder<T>(s: State<T>, t: Tid)
    requires LockInv(s) && HolderInv(s) && Inside(At(s, t)) && !Holds(At(s, t))
    ensures HolderInv(Run(s, t))
  {
    hide LockInv, HolderInv;
    HolderFrame(s, Run(s, t), t);
  }

  lemma OutsideKeepsHolder<T>(s: State<T>, a: Action<T>)
    requires LockInv(s) && HolderInv(s) && Can(s, a) && !Inside(At(s, a.t))
    ensures HolderInv(Do(s, a))
  {
    hide LockInv, HolderInv;
    HolderFrame(s, Do(s, a), a.t);
  }

  lemma HolderStays<T>(s: State<T>, t: Tid)
    requires HolderInv(s) && Holds(At(s, t))
    ensures s.holder == Some(t)
  {
  }

  lemma KeepsFifo<T>(s: State<T>, a: Action<T>)
    requires FifoInv(s) && Can(s, a)
    ensures FifoInv(Do(s, a))
  {
    var t := a.t;
    if a.Step? {
      match At(s, t)
      case PAppend(item) => assert s.removed + (s.list + [item]) == (s.removed + s.list) + [item];
      case CTake =>
        if s.list != [] {
          assert (s.removed + [s.list[0]]) + s.list[1..] == s.removed + s.list;
        }
      case _ =>
    }
  }

  /** No one is about to give `t` its unit, as far as the lock's owner is concerned. */
  ghost predicate NoWakePending<T>(s: State<T>) {
    s.owner == None || !At(s, s.owner.value).PWake?
  }

  /** Steps that have nothing to do with the condition. */
  lemma WaitFrame<T>(s: State<T>, s': State<T>, t: Tid)
    requires WaitInv(s) && Moved(s, s', t) && s'.waitQueue == s.waitQueue && s'.waiters == s.waiters
    requires !Waiting(At(s, t)) && !At(s, t).PWake? && !Waiting(At(s', t)) && !At(s', t).PWake?
    requires s'.owner == s.owner || NoWakePending(s)
    ensures WaitInv(s')
  {
    hide At;
  }

  /** A consumer on its way from the queue to its semaphore, the lock given up in between. */
  lemma WaitOnward<T>(s: State<T>, s': State<T>, t: Tid)
    requires WaitInv(s) && Moved(s, s', t) && s'.waitQueue == s.waitQueue && s'.waiters == s.waiters
    requires (At(s, t).CWaitRelease? && At(s', t).CWaitUnlock?) || (At(s, t).CWaitUnlock? && At(s', t).CSleep?)
    requires s.owner == Some(t) && (s'.owner == s.owner || s'.owner == None)
    ensures WaitInv(s')
  {
    hide At;
    assert NoWakePending(s);
  }

  lemma SignalKeepsWait<T>(s: State<T>, t: Tid)
    requires LockInv(s) && WaitInv(s) && At(s, t).PSignal?
    ensures WaitInv(SignalStep(s, t))
  {
    hide WaitInv, LockInv;
    OwnerHere(s, t);
    if s.waitQueue == [] {
      WaitFrame(s, SignalStep(s, t), t);
    } else {
      FirstWaits(s, t);
      var w := s.waitQueue[0];
      SamePc(Goto(s, t, PWake(w)), SignalStep(s, t));
      GotoAt(s, t, PWake(w));
      TakesFirst(s, SignalStep(s, t), t, w);
    }
  }

  /** The first waiter has left the queue, and the owner is about to give it its unit. */
  lemma TakesFirst<T>(s: State<T>, s': State<T>, t: Tid, w: Tid)
    requires WaitInv(s) && At(s, t).PSignal? && s.owner == Some(t) && At(s, w).CSleep?
    requires s.waitQueue != [] && w == s.waitQueue[0] && s'.waitQueue == s.waitQueue[1..]
    requires s'.owner == s.owner && s'.waiters == s.waiters
    requires forall u: Tid :: At(s', u) == if u == t then PWake(w) else At(s, u)
    requires w !in s'.waitQueue && forall u: Tid :: u in s.waitQueue <==> u in s'.waitQueue || u == w
    ensures WaitInv(s')
  {
    hide At;
    assert w in s.waitQueue;
  }

  lemma WakeKeepsWait<T>(s: State<T>, t: Tid, w: Tid)
    requires LockInv(s) && WaitInv(s) && At(s, t).PWake? && At(s, t).waiter == w
    ensures WaitInv(WakeStep(s, t, w))
  {
    hide SemInv;
    assert s.owner == Some(t);
    assert forall u: Tid :: At(s, u).PWake? ==> u == t by {
      assert forall u: Tid :: At(s, u).PWake? ==> Inside(At(s, u));
    }
  }

  lemma EnqueueKeepsWait<T>(s: State<T>, t: Tid)
    requires LockInv(s) && WaitInv(s) && At(s, t).CWait?
    ensures WaitInv(Run(s, t))
  {
    hide SemInv;
    assert s.owner == Some(t);
    var s' := Run(s, t);
    assert t !in s.waitQueue;
    assert forall u: Tid :: u in s'.waitQueue <==> u == t || u in s.waitQueue;
  }

  lemma SleepKeepsWait<T>(s: State<T>, t: Tid)
    requires LockInv(s) && WaitInv(s) && At(s, t).CSleep? && Awake(s, t)
    ensures WaitInv(SleepStep(s, t))
  {
    hide WaitInv, LockInv;
    SleeperQueue(s, t);
    if t in s.waiters && s.waiters[t].value == 0 {
      SamePc(s, SleepStep(s, t));
      FallsAsleep(s, SleepStep(s, t), t);
    } else {
      SamePc(Goto(s, t, CRelock), SleepStep(s, t));
      GotoAt(s, t, CRelock);
      GetsThrough(s, SleepStep(s, t), t);
    }
  }

  lemma SleeperQueue<T>(s: State<T>, t: Tid)
    requires WaitInv(s) && At(s, t).CSleep? && Awake(s, t)
    ensures t in s.waiters && s.waiters[t].queue == []
  {
  }

  lemma FallsAsleep<T>(s: State<T>, s': State<T>, t: Tid)
    requires WaitInv(s) && At(s, t).CSleep? && t in s.waiters && s.waiters[t].queue == [] && s.waiters[t].value == 0
    requires (forall u: Tid :: At(s', u) == At(s, u)) && s'.waitQueue == s.waitQueue && s'.owner == s.owner
    requires s'.waiters == s.waiters[t := TryP(s.waiters[t], t)]
    ensures WaitInv(s')
  {
    hide At;
  }

  lemma GetsThrough<T>(s: State<T>, s': State<T>, t: Tid)
    requires WaitInv(s) && At(s, t).CSleep? && t in s.waiters && s.waiters[t].value > 0
    requires (forall u: Tid :: At(s', u) == if u == t then CRelock else At(s, u))
    requires s'.waitQueue == s.waitQueue && s'.owner == s.owner
    requires s'.waiters == s.waiters[t := TryP(s.waiters[t], t)]
    ensures WaitInv(s')
  {
    hide At;
  }

  lemma ReholdKeepsWait<T>(s: State<T>, t: Tid)
    requires LockInv(s) && WaitInv(s) && At(s, t).CRehold?
    ensures WaitInv(Run(s, t))
  {
    hide SemInv;
    assert s.owner == Some(t);
  }

  /** The statements of `Wait` and `Signal` that touch the queue or a private semaphore. */
  predicate AtCondition<T>(pc: Pc<T>) {
    pc.PSignal? || pc.PWake? || pc.CWait? || pc.CWaitRelease? || pc.CWaitUnlock? || pc.CSleep? || pc.CRehold?
  }

  lemma KeepsWait<T>(s: State<T>, a: Action<T>)
    requires LockInv(s) && WaitInv(s) && Can(s, a)
    ensures WaitInv(Do(s, a))
  {
    hide WaitInv, LockInv, Run, At;
    if a.Step? && AtCondition(At(s, a.t)) {
      ConditionKeepsWait(s, a.t);
    } else if a.Step? && AtLock(At(s, a.t)) {
      LockingKeepsWait(s, a.t);
    } else {
      OthersKeepWait(s, a);
    }
  }

  lemma ConditionKeepsWait<T>(s: State<T>, t: Tid)
    requires LockInv(s) && WaitInv(s) && AtCondition(At(s, t)) && Awake(s, t)
    ensures WaitInv(Run(s, t))
  {
    hide WaitInv, LockInv;
    OwnerHere(s, t);
    match At(s, t)
    case PSignal => SignalKeepsWait(s, t);
    case PWake(w) => WakeKeepsWait(s, t, w);
    case CWait => EnqueueKeepsWait(s, t);
    case CWaitRelease => WaitOnward(s, Run(s, t), t);
    case CWaitUnlock => WaitOnward(s, Run(s, t), t);
    case CSleep => SleepKeepsWait(s, t);
    case CRehold => ReholdKeepsWait(s, t);
  }

  lemma LockingKeepsWait<T>(s: State<T>, t: Tid)
    requires LockInv(s) && WaitInv(s) && AtLock(At(s, t))
    ensures WaitInv(Run(s, t))
  {
    hide WaitInv, LockInv;
    TryLockOwner(s, t, Run(s, t));
    WaitFrame(s, Run(s, t), t);
  }

  lemma OthersKeepWait<T>(s: State<T>, a: Action<T>)
    requires LockInv(s) && WaitInv(s) && Can(s, a)
    requires a.Step? ==> !AtCondition(At(s, a.t)) && !AtLock(At(s, a.t))
    ensures WaitInv(Do(s, a))
  {
    hide WaitInv, LockInv;
    OwnerHere(s, a.t);
    WaitFrame(s, Do(s, a), a.t);
  }

  lemma OwnerHere<T>(s: State<T>, t: Tid)
    requires LockInv(s)
    ensures Inside(At(s, t)) <==> s.owner == Some(t)
  {
  }

  lemma TryLockOwner<T>(s: State<T>, t: Tid, s': State<T>)
    requires LockInv(s) && (s.lock.value == 0 ==> s'.owner == s.owner)
    ensures s'.owner == s.owner || s.owner == None
  {
  }

  // ---------------------------------------------------------------- no lost wakeup

  lemma InSignalled<T>(s: State<T>, t: Tid)
    ensures t in Signalled(s) <==> IsSignalled(s, t)
  {
  }

  ghost predicate SameSignal<T>(s: State<T>, s': State<T>, t: Tid) {
    IsSignalled(s', t) <==> IsSignalled(s, t)
  }

  lemma SignalledSame<T>(s: State<T>, s': State<T>)
    requires forall u: Tid :: SameSignal(s, s', u)
    ensures Signalled(s') == Signalled(s)
  {
    forall u: Tid
      ensures u in Signalled(s') <==> u in Signalled(s)
    {
      assert SameSignal(s, s', u);
      InSignalled(s, u);
      InSignalled(s', u);
    }
  }

  lemma SignalledMore<T>(s: State<T>, s': State<T>, w: Tid)
    requires forall u: Tid :: u != w ==> SameSignal(s, s', u)
    requires !IsSignalled(s, w) && IsSignalled(s', w)
    ensures |Signalled(s')| == |Signalled(s)| + 1
  {
    hide IsSignalled;
    InSignalled(s, w);
    assert Signalled(s') == Signalled(s) + {w} by {
      forall u: Tid
        ensures u in Signalled(s') <==> u in Signalled(s) + {w}
      {
        assert u != w ==> SameSignal(s, s', u);
        InSignalled(s, u);
        InSignalled(s', u);
      }
    }
  }

  lemma SlackOf<T>(s: State<T>, t: Tid)
    requires LockInv(s) && Inside(At(s, t))
    ensures Slack(s) == if At(s, t).PSignal? || At(s, t).CRehold? || At(s, t).CTest? || At(s, t).CTake? then 1 else 0
  {
  }

  lemma SlackElsewhere<T>(s: State<T>, s': State<T>, t: Tid)
    requires Moved(s, s', t) && s'.owner == s.owner && s.owner != Some(t)
    ensures Slack(s') == Slack(s)
  {
  }

  /** While threads wait, what is signalled or about to be keeps up with the list. */
  ghost predicate Covered<T>(s: State<T>) {
    s.waitQueue != [] ==> |Signalled(s)| + Slack(s) >= |s.list|
  }

  /** Steps that signal nobody and take nobody back into the lock. */
  lemma CoveredFrame<T>(s: State<T>, s': State<T>, t: Tid)
    requires Covered(s) && Moved(s, s', t) && s'.waitQueue == s.waitQueue && SameSignal(s, s', t)
    requires Slack(s') - Slack(s) >= |s'.list| - |s.list|
    ensures Covered(s')
  {
    hide Slack, Signalled;
    assert forall u: Tid :: SameSignal(s, s', u);
    SignalledSame(s, s');
  }

  lemma SignalCovers<T>(s: State<T>, t: Tid)
    requires LockInv(s) && WaitInv(s) && Covered(s) && At(s, t).PSignal?
    ensures Covered(SignalStep(s, t))
  {
    hide LockInv, WaitInv, Signalled, Slack;
    var s' := SignalStep(s, t);
    if s'.waitQueue != [] {
      SlackOf(s, t);
      FirstWaits(s, t);
      var w := s.waitQueue[0];
      SignalledMore(s, s', w);
    }
  }

  lemma FirstWaits<T>(s: State<T>, t: Tid)
    requires LockInv(s) && WaitInv(s) && s.waitQueue != [] && At(s, t).PSignal?
    ensures var w := s.waitQueue[0]; At(s, w).CSleep? && w != t
    ensures var w := s.waitQueue[0]; forall u: Tid :: u in s.waitQueue <==> u in s.waitQueue[1..] || u == w
    ensures s.waitQueue[0] !in s.waitQueue[1..]
  {
    hide SemInv;
    var w := s.waitQueue[0];
    assert w in s.waitQueue;
    assert s.owner == Some(t);
    assert !Inside(At(s, w));
  }

  lemma TryLockCovers<T>(s: State<T>, t: Tid, next: Pc<T>)
    requires LockInv(s) && Covered(s) && At(s, t) != next && (At(s, t).CRelock? <==> next.CRehold?)
    requires AtLock(At(s, t)) && t !in s.lock.queue && Inside(next) && !next.PSignal? && !next.CTest? && !next.CTake?
    ensures Covered(TryLock(s, t, next))
  {
    hide LockInv, Signalled, Slack;
    var s' := TryLock(s, t, next);
    if s.lock.value == 0 {
      SlackSame(s, s');
      CoveredFrame(s, s', t);
    } else {
      FreeLock(s);
      TryLockKeepsLock(s, t, next);
      SlackOf(s', t);
      if next.CRehold? {
        SignalledMore(s', s, t);
      } else {
        CoveredFrame(s, s', t);
      }
    }
  }

  lemma SlackSame<T>(s: State<T>, s': State<T>)
    requires s'.owner == s.owner && s'.pc == s.pc
    ensures Slack(s') == Slack(s)
  {
  }

  lemma FreeLock<T>(s: State<T>)
    requires LockInv(s) && s.lock.value > 0
    ensures s.owner == None && Slack(s) == 0
  {
    hide SemInv;
  }

  lemma SleepCovers<T>(s: State<T>, t: Tid)
    requires LockInv(s) && WaitInv(s) && Covered(s) && At(s, t).CSleep?
    ensures Covered(SleepStep(s, t))
  {
    hide Covered, LockInv, WaitInv, Slack;
    var s' := SleepStep(s, t);
    SleeperOutside(s, t);
    SlackElsewhere(s, s', t);
    CoveredFrame(s, s', t);
  }

  lemma SleeperOutside<T>(s: State<T>, t: Tid)
    requires LockInv(s) && WaitInv(s) && At(s, t).CSleep?
    ensures s.owner != Some(t)
    ensures t in s.waitQueue ==> t in s.waiters && s.waiters[t].value == 0
  {
    hide SemInv;
    assert !Inside(At(s, t));
  }

  /** The owner moves on, the queue of the condition as it was. */
  lemma OwnerCovers<T>(s: State<T>, t: Tid)
    requires LockInv(s) && WaitInv(s) && Covered(s) && Inside(At(s, t)) && WakeInvAt(s, t)
    requires !At(s, t).PSignal? && !At(s, t).CWait?
    ensures Covered(Run(s, t))
  {
    hide Covered, LockInv, WaitInv, Slack, Run, WakeInvAt, At;
    var s' := Run(s, t);
    KeepsLock(s, Step(t)) by { InsideAwake(s, t); }
    if At(s, t).CWaitUnlock? {
      QueuedStill(s, t);
    }
    if s'.list == [] {
      NothingToCover(s');
    } else {
      OwnerSlack(s, t);
      OwnerSignals(s, t);
      CoveredFrame(s, s', t);
    }
  }

  lemma InsideAwake<T>(s: State<T>, t: Tid)
    requires Inside(At(s, t))
    ensures Can(s, Step(t))
  {
  }

  lemma OwnerSlack<T>(s: State<T>, t: Tid)
    requires LockInv(s) && LockInv(Run(s, t)) && Inside(At(s, t)) && WakeInvAt(s, t)
    requires !At(s, t).PSignal? && !At(s, t).CWait? && Run(s, t).list != []
    ensures Slack(Run(s, t)) - Slack(s) >= |Run(s, t).list| - |s.list|
  {
    hide LockInv, Slack;
    var s' := Run(s, t);
    SlackOf(s, t);
    if Inside(At(s', t)) {
      SlackOf(s', t);
    } else {
      NoSlack(s');
    }
  }

  lemma OwnerSignals<T>(s: State<T>, t: Tid)
    requires Inside(At(s, t)) && !At(s, t).PSignal? && !At(s, t).CWait? && (At(s, t).CWaitUnlock? ==> t in s.waitQueue)
    ensures Moved(s, Run(s, t), t) && Run(s, t).waitQueue == s.waitQueue && SameSignal(s, Run(s, t), t)
  {
  }

  lemma NothingToCover<T>(s: State<T>)
    requires s.list == []
    ensures Covered(s)
  {
  }

  ghost predicate WakeInvAt<T>(s: State<T>, t: Tid) {
    && (At(s, t).CWait? || At(s, t).CWaitRelease? || At(s, t).CWaitUnlock? ==> s.list == [])
    && (At(s, t).CTake? ==> s.list != [])
  }

  lemma NoSlack<T>(s: State<T>)
    ensures s.owner == None ==> Slack(s) == 0
  {
  }

  lemma QueuedStill<T>(s: State<T>, t: Tid)
    requires WaitInv(s) && At(s, t).CWaitUnlock?
    ensures t in s.waitQueue
  {
  }

  lemma KeepsCovered<T>(s: State<T>, a: Action<T>)
    requires LockInv(s) && WaitInv(s) && Covered(s) && WakeInvAt(s, a.t) && Can(s, a)
    ensures Covered(Do(s, a))
  {
    hide Covered, LockInv, WaitInv, WakeInvAt;
    var t, s' := a.t, Do(s, a);
    if a.Step? {
      match At(s, t)
      case PLock(item) => TryLockCovers(s, t, PHold(item));
      case CLock => TryLockCovers(s, t, CHold);
      case CRelock => TryLockCovers(s, t, CRehold);
      case PSignal => SignalCovers(s, t);
      case CWait => EnqueueHere(s, t);
      case CSleep => SleepCovers(s, t);
      case _ => OwnerCovers(s, t);
    } else {
      OwnerHere(s, t);
      SlackElsewhere(s, s', t);
      CoveredFrame(s, s', t);
    }
  }

  lemma EnqueueHere<T>(s: State<T>, t: Tid)
    requires WakeInvAt(s, t) && At(s, t).CWait?
    ensures Covered(Run(s, t))
  {
    NothingToCover(Run(s, t));
  }

  lemma KeepsWake<T>(s: State<T>, a: Action<T>)
    requires LockInv(s) && WaitInv(s) && WakeInv(s) && Can(s, a)
    ensures WakeInv(Do(s, a))
  {
    hide LockInv, WaitInv, Covered, Can;
    assert WakeInvAt(s, a.t);
    assert Covered(s) by { WakeParts(s); }
    KeepsCovered(s, a);
    var s' := Do(s, a);
    forall u: Tid
      ensures WakeInvAt(s', u)
    {
      assert WakeInvAt(s, u);
      KeepsWakeAt(s, a, u);
    }
    WakeWhole(s');
  }

  lemma WakeParts<T>(s: State<T>)
    requires WakeInv(s)
    ensures Covered(s)
  {
  }

  lemma WakeWhole<T>(s: State<T>)
    requires Covered(s) && forall u: Tid :: WakeInvAt(s, u)
    ensures WakeInv(s)
  {
    forall u: Tid
      ensures At(s, u).CWait? || At(s, u).CWaitRelease? || At(s, u).CWaitUnlock? ==> s.list == []
      ensures At(s, u).CTake? ==> s.list != []
    {
      assert WakeInvAt(s, u);
    }
  }

  lemma KeepsWakeAt<T>(s: State<T>, a: Action<T>, u: Tid)
    requires LockInv(s) && Can(s, a) && WakeInvAt(s, u) && WakeInvAt(s, a.t)
    ensures WakeInvAt(Do(s, a), u)
  {
    hide LockInv;
    OwnerHere(s, a.t);
    OwnerHere(s, u);
  }

  lemma KeepsInv<T>(s: State<T>, a: Action<T>)
    requires Inv(s) && Can(s, a)
    ensures Inv(Do(s, a))
  {
    hide LockInv, HolderInv, WaitInv, FifoInv, WakeInv, Can, Do;
    KeepsLock(s, a);
    KeepsHolder(s, a);
    KeepsWait(s, a);
    KeepsFifo(s, a);
    KeepsWake(s, a);
  }

  // ---------------------------------------------------------------- every run

  function After<T>(run: seq<Action<T>>): State<T> {
    if run == [] then Init() else Do(After(run[..|run| - 1]), run[|run| - 1])
  }

  predicate IsRun<T>(run: seq<Action<T>>) {
    run == [] || (IsRun(run[..|run| - 1]) && Can(After(run[..|run| - 1]), run[|run| - 1]))
  }

  lemma {:induction false} RunsKeepInv<T>(run: seq<Action<T>>)
    requires IsRun(run)
    ensures Inv(After(run))
  {
    hide Inv, Can, Do;
    if run == [] {
      InitInv<T>();
    } else {
      RunsKeepInv(run[..|run| - 1]);
      KeepsInv(After(run[..|run| - 1]), run[|run| - 1]);
    }
  }

  /** The items put in by a run, in the order in which they went into the list. */
  function Appended<T>(run: seq<Action<T>>): seq<T> {
    if run == [] then []
    else
      var before := After(run[..|run| - 1]);
      var a := run[|run| - 1];
      Appended(run[..|run| - 1]) + if a.Step? && At(before, a.t).PAppend? then [At(before, a.t).item] else []
  }

  /** The items handed out by a run, in the order in which they were taken. */
  function Removed<T>(run: seq<Action<T>>): seq<T> {
    if run == [] then []
    else
      var before, after := After(run[..|run| - 1]), After(run);
      var a := run[|run| - 1];
      Removed(run[..|run| - 1]) + if a.Step? && At(after, a.t).CRelease? &&
        At(before, a.t).CTake? then [At(after, a.t).item] else []
  }

  lemma {:induction false} HistoryIsRun<T>(run: seq<Action<T>>)
    ensures After(run).appended == Appended(run) && After(run).removed == Removed(run)
  {
    hide Do, At;
    if run != [] {
      HistoryIsRun(run[..|run| - 1]);
      HistoryOfStep(After(run[..|run| - 1]), run[|run| - 1]);
    }
  }

  lemma HistoryOfStep<T>(s: State<T>, a: Action<T>)
    ensures Do(s, a).appended == s.appended + if a.Step? && At(s, a.t).PAppend? then [At(s, a.t).item] else []
    ensures Do(s, a).removed ==
            s.removed + if a.Step? && At(Do(s, a), a.t).CRelease? &&
              At(s, a.t).CTake? then [At(Do(s, a), a.t).item] else []
  {
    hide TryP, V, At, TakeStep;
    if a.Step? && At(s, a.t).CTake? {
      TakeHistory(s, a.t);
    }
  }

  lemma TakeHistory<T>(s: State<T>, t: Tid)
    requires At(s, t).CTake?
    ensures TakeStep(s, t).removed ==
            s.removed + if At(TakeStep(s, t), t).CRelease? then [At(TakeStep(s, t), t).item] else []
    ensures TakeStep(s, t).appended == s.appended
  {
  }

  /** The synchronized list is a queue: under every interleaving, the items handed out so far
      followed by those listed are the items put in so far, in order. */
  lemma QueueOrder<T>(run: seq<Action<T>>)
    requires IsRun(run)
    ensures Removed(run) + After(run).list == Appended(run)
  {
    hide IsRun, After, Removed, Appended, LockInv, HolderInv, WaitInv, WakeInv;
    RunsKeepInv(run);
    HistoryIsRun(run);
  }

  /** In every run at most one thread is in the list's code, and where the code asserts that the
      current thread holds the lock, it does. */
  lemma Exclusion<T>(run: seq<Action<T>>, t: Tid, u: Tid)
    requires IsRun(run)
    ensures Inside(At(After(run), t)) && Inside(At(After(run), u)) ==> t == u
    ensures Holds(At(After(run), t)) ==> After(run).holder == Some(t)
  {
    hide IsRun, After, WaitInv, WakeInv, FifoInv;
    RunsKeepInv(run);
    OwnerHere(After(run), t);
    OwnerHere(After(run), u);
  }

  /** No wakeup is lost: when the lock is free and consumers are queued on the condition, at least
      one signalled consumer is on its way for every item in the list. */
  lemma NoLostWakeup<T>(run: seq<Action<T>>)
    requires IsRun(run)
    ensures var s := After(run); s.lock.value > 0 && s.waitQueue != [] ==> |Signalled(s)| >= |s.list|
  {
    hide IsRun, After, LockInv, WaitInv, HolderInv, FifoInv, Signalled, Slack;
    RunsKeepInv(run);
    if After(run).lock.value > 0 {
      FreeLock(After(run));
    }
  }

  // ---------------------------------------------------------------- progress

  /** Asleep for want of an item: in the condition's queue, on a semaphore of its own. */
  ghost predicate WantsItem<T>(s: State<T>, t: Tid) {
    At(s, t).CSleep? && t in s.waitQueue
  }

  /** No run gets stuck: as long as some thread is in the middle of an operation and is not a
      consumer waiting for an item, some thread can take a step that brings it to its next
      statement. */
  lemma Progress<T>(run: seq<Action<T>>, t: Tid) returns (u: Tid)
    requires IsRun(run) && !At(After(run), t).Idle? && !WantsItem(After(run), t)
    ensures Can(After(run), Step(u)) && At(Run(After(run), u), u) != At(After(run), u)
  {
    hide IsRun, After, LockInv, WaitInv, HolderInv, FifoInv, WakeInv, Can, Run;
    RunsKeepInv(run);
    u := SomeoneCan(After(run), t);
  }

  lemma SomeoneCan<T>(s: State<T>, t: Tid) returns (u: Tid)
    requires LockInv(s) && WaitInv(s) && WakeInv(s) && !At(s, t).Idle? && !WantsItem(s, t)
    ensures Can(s, Step(u)) && At(Run(s, u), u) != At(s, u)
  {
    hide LockInv, WaitInv, WakeInv, Run;
    if s.owner.Some? {
      u := s.owner.value;
      OwnerHere(s, u);
      OwnerMoves(s, u);
    } else if At(s, t).CSleep? {
      SignalledMoves(s, t);
      u := t;
    } else {
      OwnerHere(s, t);
      u := t;
      if t in s.lock.queue {
        u := SomeoneWoken(s);
      }
      EnteringMoves(s, u);
    }
  }

  lemma OwnerMoves<T>(s: State<T>, t: Tid)
    requires Inside(At(s, t)) && WakeInv(s)
    ensures Can(s, Step(t)) && At(Run(s, t), t) != At(s, t)
  {
    hide Signalled, Slack;
  }

  lemma SignalledMoves<T>(s: State<T>, t: Tid)
    requires WaitInv(s) && At(s, t).CSleep? && t !in s.waitQueue && s.owner == None
    ensures Can(s, Step(t)) && At(Run(s, t), t) != At(s, t)
  {
  }

  lemma EnteringMoves<T>(s: State<T>, t: Tid)
    requires LockInv(s) && AtLock(At(s, t)) && t !in s.lock.queue && s.owner == None
    ensures Can(s, Step(t)) && At(Run(s, t), t) != At(s, t)
  {
    hide SemInv;
  }

  lemma SomeoneWoken<T>(s: State<T>) returns (u: Tid)
    requires LockInv(s) && s.owner == None && s.lock.queue != []
    ensures AtLock(At(s, u)) && u !in s.lock.queue
  {
    assert s.lock.woken != {};
    u :| u in s.lock.woken;
  }
}
