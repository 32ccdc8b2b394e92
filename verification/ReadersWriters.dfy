/** The readers and writers of one file (filesys/openfile.cc): `Read` and `Write` with a file id, and
    the named `Seek`, over the file's two semaphores and its read count, under every interleaving of
    any number of clients.

    A client is at one statement of its operation; a step runs one statement of one client. */
module ReadersWriters {
  import opened Semaphores
  import opened Wrappers

  datatype Pc =
    | Idle
    // OpenFile::Read
    | RIn        // Read_Semaphore->P
    | RInc       // Read_count + 1
    | RTest      // if Read_count == 1
    | RLockW     // Write_Semaphore->P
    | RUnlockR   // Read_Semaphore->V
    | Reading    // ReadAt
    | ROut       // Read_Semaphore->P
    | RDec       // Read_count - 1
    | RTest0     // if Read_count == 0
    | RUnlockW   // Write_Semaphore->V
    | RLeave     // Read_Semaphore->V
    // OpenFile::Write
    | WIn        // Write_Semaphore->P
    | Writing    // Allocate and WriteAt
    | WOut       // Write_Semaphore->V
    // OpenFile::Seek with a name
    | SInR       // Read_Semaphore->P
    | SInW       // Write_Semaphore->P
    | Seeking    // seekPosition = position
    | SOutR      // Read_Semaphore->V
    | SOutW      // Write_Semaphore->V

  /** Who has taken the unit of the write semaphore: a writer or seeker, or the readers together. */
  datatype Owner = Free | One(t: Tid) | Readers

  /** `rOwner` and `wOwner` are history: who has passed P and not yet called V. */
  datatype State = State(r: Sem, w: Sem, count: int, pc: map<Tid, Pc>, rOwner: Option<Tid>, wOwner: Owner)

  datatype Action = StartRead(t: Tid) | StartWrite(t: Tid) | StartSeek(t: Tid) | Step(t: Tid)

  function Init(): State {
    State(New(1), New(1), 0, map[], None, Free)
  }

  function At(s: State, t: Tid): Pc {
    if t in s.pc then s.pc[t] else Idle
  }

  predicate AtR(pc: Pc) { pc == RIn || pc == ROut || pc == SInR }

  predicate AtW(pc: Pc) { pc == RLockW || pc == WIn || pc == SInW }

  /** A client asleep in a semaphore's queue cannot run. */
  predicate Awake(s: State, t: Tid) {
    (AtR(At(s, t)) ==> t !in s.r.queue) && (AtW(At(s, t)) ==> t !in s.w.queue)
  }

  predicate Can(s: State, a: Action) {
    if a.Step? then At(s, a.t) != Idle && Awake(s, a.t) else At(s, a.t) == Idle
  }

  function Goto(s: State, t: Tid, pc: Pc): State {
    s.(pc := s.pc[t := pc])
  }

  function PassR(s: State, t: Tid, next: Pc): State {
    if s.r.value == 0 then s.(r := TryP(s.r, t))
    else Goto(s, t, next).(r := TryP(s.r, t), rOwner := Some(t))
  }

  function PassW(s: State, t: Tid, next: Pc, owner: Owner): State {
    if s.w.value == 0 then s.(w := TryP(s.w, t))
    else Goto(s, t, next).(w := TryP(s.w, t), wOwner := owner)
  }

  function LeaveR(s: State, t: Tid, next: Pc): State {
    Goto(s, t, next).(r := V(s.r), rOwner := None)
  }

  function LeaveW(s: State, t: Tid, next: Pc): State {
    Goto(s, t, next).(w := V(s.w), wOwner := Free)
  }

  function Run(s: State, t: Tid): State {
    match At(s, t)
    case Idle => s
    case RIn => PassR(s, t, RInc)
    case RInc => Goto(s, t, RTest).(count := s.count + 1)
    case RTest => Goto(s, t, if s.count == 1 then RLockW else RUnlockR)
    case RLockW => PassW(s, t, RUnlockR, Readers)
    case RUnlockR => LeaveR(s, t, Reading)
    case Reading => Goto(s, t, ROut)
    case ROut => PassR(s, t, RDec)
    case RDec => Goto(s, t, RTest0).(count := s.count - 1)
    case RTest0 => Goto(s, t, if s.count == 0 then RUnlockW else RLeave)
    case RUnlockW => LeaveW(s, t, RLeave)
    case RLeave => LeaveR(s, t, Idle)
    case WIn => PassW(s, t, Writing, One(t))
    case Writing => Goto(s, t, WOut)
    case WOut => LeaveW(s, t, Idle)
    case SInR => PassR(s, t, SInW)
    case SInW => PassW(s, t, Seeking, One(t))
    case Seeking => Goto(s, t, SOutR)
    case SOutR => LeaveR(s, t, SOutW)
    case SOutW => LeaveW(s, t, Idle)
  }

  function Do(s: State, a: Action): State {
    match a
    case StartRead(t) => Goto(s, t, RIn)
    case StartWrite(t) => Goto(s, t, WIn)
    case StartSeek(t) => Goto(s, t, SInR)
    case Step(t) => Run(s, t)
  }

  // ---------------------------------------------------------------- the invariant

  predicate HasR(pc: Pc) {
    pc == RInc || pc == RTest || pc == RLockW || pc == RUnlockR || pc == RDec || pc == RTest0 || pc == RUnlockW
    || pc == RLeave || pc == SInW || pc == Seeking || pc == SOutR
  }

  predicate HasW(pc: Pc) { pc == Writing || pc == WOut || pc == Seeking || pc == SOutR || pc == SOutW }

  /** Between the increment and the decrement of the read count. */
  predicate Counted(pc: Pc) {
    pc == RTest || pc == RLockW || pc == RUnlockR || pc == Reading || pc == ROut || pc == RDec
  }

  ghost predicate RInv(s: State) {
    && SemInv(s.r) && s.r.value <= 1
    && (s.rOwner == None <==> s.r.value == 1)
    && (forall t: Tid :: HasR(At(s, t)) <==> s.rOwner == Some(t))
    && (forall t: Tid :: t in s.r.queue || t in s.r.woken ==> AtR(At(s, t)))
  }

  ghost predicate WInv(s: State) {
    && SemInv(s.w) && s.w.value <= 1
    && (s.wOwner == Free <==> s.w.value == 1)
    && (forall t: Tid :: HasW(At(s, t)) <==> s.wOwner == One(t))
    && (forall t: Tid :: t in s.w.queue || t in s.w.woken ==> AtW(At(s, t)))
  }

  ghost function Inside(s: State): set<Tid> {
    set t | t in s.pc && Counted(At(s, t))
  }

  /** The readers together hold the write semaphore: from the first one's P to the last one's V. */
  predicate ReadersHold(s: State) {
    if s.rOwner == None then s.count >= 1
    else
      var pc := At(s, s.rOwner.value);
      if pc == RTest || pc == RLockW then s.count >= 2
      else s.count >= 1 || pc == RTest0 || pc == RUnlockW
  }

  ghost predicate CountInv(s: State) {
    s.count == |Inside(s)|
  }

  ghost predicate GroupInv(s: State) {
    && (s.wOwner == Readers <==> ReadersHold(s))
    && (s.rOwner.Some? && At(s, s.rOwner.value) == RLockW ==> s.count == 1)
    && (s.rOwner.Some? && At(s, s.rOwner.value) == RUnlockW ==> s.count == 0)
    && (s.rOwner.Some? && At(s, s.rOwner.value) == RLeave ==> s.wOwner == Readers || s.count == 0)
  }

  ghost predicate Inv(s: State) {
    RInv(s) && WInv(s) && CountInv(s) && GroupInv(s)
  }

  // ---------------------------------------------------------------- every step keeps it

  lemma InitInv()
    ensures Inv(Init())
  {
    assert Inside(Init()) == {};
  }

  /** Only `t` has moved. */
  ghost predicate Moved(s: State, s': State, t: Tid) {
    forall u: Tid :: u != t ==> At(s', u) == At(s, u)
  }

  lemma SamePc(s: State, s': State)
    requires s'.pc == s.pc
    ensures forall u: Tid :: At(s', u) == At(s, u)
  {
  }

  lemma GotoAt(s: State, t: Tid, pc: Pc)
    ensures forall u: Tid :: At(Goto(s, t, pc), u) == if u == t then pc else At(s, u)
  {
  }

  lemma RFrame(s: State, s': State, t: Tid)
    requires RInv(s) && Moved(s, s', t) && s'.r == s.r && s'.rOwner == s.rOwner
    requires HasR(At(s', t)) <==> HasR(At(s, t))
    requires AtR(At(s, t)) ==> AtR(At(s', t))
    ensures RInv(s')
  {
    hide SemInv, HasR, AtR, At;
  }

  lemma PassRKeeps(s: State, t: Tid, next: Pc)
    requires RInv(s) && AtR(At(s, t)) && t !in s.r.queue && HasR(next)
    ensures RInv(PassR(s, t, next))
  {
    hide RInv, At, HasR, AtR;
    if s.r.value == 0 {
      SamePc(s, PassR(s, t, next));
      RSleeps(s, PassR(s, t, next), t);
    } else {
      GotoAt(s, t, next);
      SamePc(Goto(s, t, next), PassR(s, t, next));
      RPasses(s, PassR(s, t, next), t);
    }
  }

  lemma RSleeps(s: State, s': State, t: Tid)
    requires RInv(s) && AtR(At(s, t)) && t !in s.r.queue && s.r.value == 0
    requires s'.r == TryP(s.r, t) && s'.rOwner == s.rOwner && forall u: Tid :: At(s', u) == At(s, u)
    ensures RInv(s')
  {
    hide SemInv, HasR, AtR, At;
    TryPKeepsInv(s.r, t);
  }

  lemma RPasses(s: State, s': State, t: Tid)
    requires RInv(s) && AtR(At(s, t)) && t !in s.r.queue && s.r.value > 0
    requires s'.r == TryP(s.r, t) && s'.rOwner == Some(t) && HasR(At(s', t))
    requires forall u: Tid :: u != t ==> At(s', u) == At(s, u)
    ensures RInv(s')
  {
    hide SemInv, HasR, AtR, At;
    TryPKeepsInv(s.r, t);
  }

  lemma LeaveRKeeps(s: State, t: Tid, next: Pc)
    requires RInv(s) && HasR(At(s, t)) && !HasR(next)
    ensures RInv(LeaveR(s, t, next))
  {
    hide RInv, At, HasR;
    GotoAt(s, t, next);
    SamePc(Goto(s, t, next), LeaveR(s, t, next));
    RLeft(s, LeaveR(s, t, next), t);
  }

  lemma RLeft(s: State, s': State, t: Tid)
    requires RInv(s) && HasR(At(s, t)) && !HasR(At(s', t)) && s'.r == V(s.r) && s'.rOwner == None
    requires forall u: Tid :: u != t ==> At(s', u) == At(s, u)
    ensures RInv(s')
  {
    hide SemInv, At, HasR, AtR;
    VKeepsInv(s.r);
    NotBoth(At(s, t));
    assert s.r.queue != [] ==> s.r.queue[0] in s.r.queue;
  }

  lemma NotBoth(pc: Pc)
    ensures HasR(pc) ==> !AtR(pc)
  {
  }

  predicate LeavesR(pc: Pc) { pc == RUnlockR || pc == RLeave || pc == SOutR }

  lemma KeepsR(s: State, a: Action)
    requires RInv(s) && Can(s, a)
    ensures RInv(Do(s, a))
  {
    hide RInv, Run, At, AtR, LeavesR;
    if a.Step? && AtR(At(s, a.t)) {
      PassingKeepsR(s, a.t);
    } else if a.Step? && LeavesR(At(s, a.t)) {
      LeavingKeepsR(s, a.t);
    } else {
      OthersKeepR(s, a);
    }
  }

  lemma PassingKeepsR(s: State, t: Tid)
    requires RInv(s) && Awake(s, t) && AtR(At(s, t))
    ensures RInv(Run(s, t))
  {
    hide RInv, PassR;
    match At(s, t)
    case RIn => PassRKeeps(s, t, RInc);
    case ROut => PassRKeeps(s, t, RDec);
    case SInR => PassRKeeps(s, t, SInW);
  }

  lemma LeavingKeepsR(s: State, t: Tid)
    requires RInv(s) && LeavesR(At(s, t))
    ensures RInv(Run(s, t))
  {
    hide RInv, LeaveR;
    match At(s, t)
    case RUnlockR => LeaveRKeeps(s, t, Reading);
    case RLeave => LeaveRKeeps(s, t, Idle);
    case SOutR => LeaveRKeeps(s, t, SOutW);
  }

  lemma OthersKeepR(s: State, a: Action)
    requires RInv(s) && Can(s, a) && (a.Step? ==> !AtR(At(s, a.t)) && !LeavesR(At(s, a.t)))
    ensures RInv(Do(s, a))
  {
    hide RInv, TryP, V;
    RFrame(s, Do(s, a), a.t);
  }

  lemma WFrame(s: State, s': State, t: Tid)
    requires WInv(s) && Moved(s, s', t) && s'.w == s.w && s'.wOwner == s.wOwner
    requires HasW(At(s', t)) <==> HasW(At(s, t))
    requires AtW(At(s, t)) ==> AtW(At(s', t))
    ensures WInv(s')
  {
    hide SemInv, HasW, AtW, At;
  }

  lemma PassWKeeps(s: State, t: Tid, next: Pc, owner: Owner)
    requires WInv(s) && AtW(At(s, t)) && t !in s.w.queue
    requires if owner == Readers then !HasW(next) else owner == One(t) && HasW(next)
    ensures WInv(PassW(s, t, next, owner))
  {
    hide WInv, HasW, AtW, At;
    if s.w.value == 0 {
      SamePc(s, PassW(s, t, next, owner));
      WSleeps(s, PassW(s, t, next, owner), t);
    } else {
      GotoAt(s, t, next);
      SamePc(Goto(s, t, next), PassW(s, t, next, owner));
      WPasses(s, PassW(s, t, next, owner), t);
    }
  }

  lemma WSleeps(s: State, s': State, t: Tid)
    requires WInv(s) && AtW(At(s, t)) && t !in s.w.queue && s.w.value == 0
    requires s'.w == TryP(s.w, t) && s'.wOwner == s.wOwner && forall u: Tid :: At(s', u) == At(s, u)
    ensures WInv(s')
  {
    hide SemInv, HasW, AtW, At;
    TryPKeepsInv(s.w, t);
  }

  lemma WPasses(s: State, s': State, t: Tid)
    requires WInv(s) && AtW(At(s, t)) && t !in s.w.queue && s.w.value > 0 && s'.w == TryP(s.w, t)
    requires if s'.wOwner == Readers then !HasW(At(s', t)) else s'.wOwner == One(t) && HasW(At(s', t))
    requires forall u: Tid :: u != t ==> At(s', u) == At(s, u)
    ensures WInv(s')
  {
    hide SemInv, HasW, AtW, At;
    TryPKeepsInv(s.w, t);
  }

  lemma LeaveWKeeps(s: State, t: Tid, next: Pc)
    requires WInv(s) && (HasW(At(s, t)) || (s.wOwner == Readers && At(s, t) == RUnlockW)) && !HasW(next)
    ensures WInv(LeaveW(s, t, next))
  {
    hide SemInv;
    VKeepsInv(s.w);
  }

  lemma KeepsW(s: State, a: Action)
    requires RInv(s) && WInv(s) && GroupInv(s) && Can(s, a)
    ensures WInv(Do(s, a))
  {
    hide WInv, RInv, GroupInv;
    var t := a.t;
    if a.Step? {
      match At(s, t)
      case RLockW => PassWKeeps(s, t, RUnlockR, Readers);
      case WIn => PassWKeeps(s, t, Writing, One(t));
      case SInW => PassWKeeps(s, t, Seeking, One(t));
      case RUnlockW => LastHolds(s, t); LeaveWKeeps(s, t, RLeave);
      case WOut => LeaveWKeeps(s, t, Idle);
      case SOutW => LeaveWKeeps(s, t, Idle);
      case _ => WFrame(s, Do(s, a), t);
    } else {
      WFrame(s, Do(s, a), t);
    }
  }

  lemma ROwner(s: State, t: Tid)
    requires RInv(s)
    ensures HasR(At(s, t)) <==> s.rOwner == Some(t)
  {
  }

  lemma WOwner(s: State, t: Tid)
    requires WInv(s)
    ensures HasW(At(s, t)) <==> s.wOwner == One(t)
  {
  }

  lemma LastHolds(s: State, t: Tid)
    requires RInv(s) && GroupInv(s) && At(s, t) == RUnlockW
    ensures s.wOwner == Readers && s.count == 0
  {
    ROwner(s, t);
  }

  lemma IsInside(s: State, t: Tid)
    ensures t in Inside(s) <==> Counted(At(s, t))
  {
  }

  lemma InsideSame(s: State, s': State, t: Tid)
    requires Moved(s, s', t) && (Counted(At(s', t)) <==> Counted(At(s, t)))
    ensures Inside(s') == Inside(s)
  {
    hide At, Counted;
    forall u: Tid
      ensures u in Inside(s') <==> u in Inside(s)
    {
      IsInside(s, u);
      IsInside(s', u);
    }
  }

  lemma InsideMore(s: State, s': State, t: Tid)
    requires Moved(s, s', t) && Counted(At(s', t)) && !Counted(At(s, t))
    ensures |Inside(s')| == |Inside(s)| + 1
  {
    hide At, Counted;
    IsInside(s, t);
    assert Inside(s') == Inside(s) + {t} by {
      forall u: Tid
        ensures u in Inside(s') <==> u in Inside(s) + {t}
      {
        IsInside(s, u);
        IsInside(s', u);
      }
    }
  }

  lemma KeepsCount(s: State, a: Action)
    requires CountInv(s) && Can(s, a)
    ensures CountInv(Do(s, a))
  {
    hide Inside;
    var t, s' := a.t, Do(s, a);
    if a.Step? && At(s, t) == RInc {
      InsideMore(s, s', t);
    } else if a.Step? && At(s, t) == RDec {
      InsideMore(s', s, t);
    } else {
      CountStays(s, a);
      InsideSame(s, s', t);
    }
  }

  lemma CountStays(s: State, a: Action)
    requires Can(s, a) && (a.Step? ==> At(s, a.t) != RInc && At(s, a.t) != RDec)
    ensures Moved(s, Do(s, a), a.t) && Do(s, a).count == s.count
    ensures Counted(At(Do(s, a), a.t)) <==> Counted(At(s, a.t))
  {
    hide TryP, V;
  }

  /** Steps that neither move the owner of the read semaphore nor touch the readers' hold. */
  lemma GroupFrame(s: State, s': State, t: Tid)
    requires GroupInv(s) && Moved(s, s', t) && s'.rOwner == s.rOwner && s.rOwner != Some(t) && s'.count == s.count
    requires s'.wOwner == Readers <==> s.wOwner == Readers
    ensures GroupInv(s')
  {
    hide At;
  }

  /** A client passes the read semaphore. */
  lemma GroupEntered(s: State, s': State, t: Tid)
    requires GroupInv(s) && s'.count == s.count && s'.wOwner == s.wOwner && s.count >= 0
    requires s.rOwner == None && s'.rOwner == Some(t) && (At(s', t) == RInc || At(s', t) == RDec || At(s', t) == SInW)
    ensures GroupInv(s')
  {
    hide At;
  }

  /** A client in the read semaphore moves on. */
  lemma GroupOwner(s: State, t: Tid)
    requires GroupInv(s) && s.rOwner == Some(t) && HasR(At(s, t)) && s.count >= 0
    requires Counted(At(s, t)) ==> s.count >= 1
    requires s.w.value > 0 ==> s.wOwner == Free
    ensures GroupInv(Run(s, t))
  {
    hide TryP, V;
  }

  lemma KeepsGroup(s: State, a: Action)
    requires Inv(s) && Can(s, a)
    ensures GroupInv(Do(s, a))
  {
    hide RInv, WInv, CountInv, GroupInv, TryP, V;
    var t, s' := a.t, Do(s, a);
    ROwner(s, t);
    WOwner(s, t);
    CountOf(s, t);
    if !a.Step? {
      GroupFrame(s, s', t);
    } else if HasR(At(s, t)) {
      FreeW(s);
      GroupOwner(s, t);
    } else if AtR(At(s, t)) && s.r.value > 0 {
      FreeR(s);
      GroupEntered(s, s', t);
    } else {
      FreeW(s);
      GroupFrame(s, s', t);
    }
  }

  lemma CountOf(s: State, t: Tid)
    requires CountInv(s)
    ensures s.count >= 0 && (Counted(At(s, t)) ==> s.count >= 1)
  {
    IsInside(s, t);
    if t in Inside(s) {
      assert Inside(s) != {};
    }
  }

  lemma FreeR(s: State)
    requires RInv(s)
    ensures s.rOwner == None <==> s.r.value > 0
  {
    hide SemInv, HasR, AtR;
  }

  lemma FreeW(s: State)
    requires WInv(s)
    ensures s.wOwner == Free <==> s.w.value > 0
  {
    hide SemInv, HasW, AtW;
  }

  lemma KeepsInv(s: State, a: Action)
    requires Inv(s) && Can(s, a)
    ensures Inv(Do(s, a))
  {
    hide RInv, WInv, CountInv, GroupInv, Can, Do;
    KeepsR(s, a);
    KeepsW(s, a);
    KeepsCount(s, a);
    KeepsGroup(s, a);
  }

  // ---------------------------------------------------------------- every run

  function After(run: seq<Action>): State {
    if run == [] then Init() else Do(After(run[..|run| - 1]), run[|run| - 1])
  }

  predicate IsRun(run: seq<Action>) {
    run == [] || (IsRun(run[..|run| - 1]) && Can(After(run[..|run| - 1]), run[|run| - 1]))
  }

  lemma {:induction false} RunsKeepInv(run: seq<Action>)
    requires IsRun(run)
    ensures Inv(After(run))
  {
    hide Inv, Can, Do;
    if run == [] {
      InitInv();
    } else {
      RunsKeepInv(run[..|run| - 1]);
      KeepsInv(After(run[..|run| - 1]), run[|run| - 1]);
    }
  }

  predicate IsReading(pc: Pc) { pc == Reading }

  /** Writing to the file, or changing its position by name. */
  predicate IsWriting(pc: Pc) { pc == Writing || pc == Seeking }

  /** In every run, with the named Seek among the clients: the read count is the number of readers
      between their increment and their decrement; two clients never write at once; and none writes
      while another reads. */
  lemma Safety(run: seq<Action>, t: Tid, u: Tid)
    requires IsRun(run)
    ensures After(run).count == |Inside(After(run))|
    ensures IsWriting(At(After(run), t)) && IsWriting(At(After(run), u)) ==> t == u
    ensures !(IsWriting(At(After(run), t)) && IsReading(At(After(run), u)))
  {
    hide IsRun, After, RInv, WInv, GroupInv, Inside;
    RunsKeepInv(run);
    var s := After(run);
    WOwner(s, t);
    WOwner(s, u);
    if IsReading(At(s, u)) {
      ReaderHolds(s, u);
    }
  }

  /** A reader that is reading shares the readers' hold of the write semaphore. */
  lemma ReaderHolds(s: State, u: Tid)
    requires Inv(s) && (At(s, u) == Reading || At(s, u) == ROut)
    ensures s.wOwner == Readers
  {
    hide RInv, WInv, Inside;
    CountOf(s, u);
    ROwner(s, u);
    if s.rOwner.Some? {
      var o := s.rOwner.value;
      ROwner(s, o);
      if Counted(At(s, o)) {
        TwoInside(s, o, u);
      }
    }
  }

  lemma TwoInside(s: State, t: Tid, u: Tid)
    requires CountInv(s) && t != u && Counted(At(s, t)) && Counted(At(s, u))
    ensures s.count >= 2
  {
    IsInside(s, t);
    IsInside(s, u);
    assert u in Inside(s) - {t};
    assert |Inside(s) - {t}| == |Inside(s)| - 1;
  }

  // ---------------------------------------------------------------- progress

  /** A seeker has the read semaphore and waits for the write semaphore, which the readers inside
      the file will only give back after passing the read semaphore once more. */
  predicate Doomed(s: State) {
    s.rOwner.Some? && At(s, s.rOwner.value) == SInW && s.wOwner == Readers
  }

  /** `t` can take a step, to its next statement. */
  ghost predicate CanMove(s: State, t: Tid) {
    Can(s, Step(t)) && At(Run(s, t), t) != At(s, t)
  }

  /** Unless the file is doomed, one of the clients in the middle of an operation can go on. */
  lemma Progress(run: seq<Action>, t: Tid) returns (u: Tid)
    requires IsRun(run) && At(After(run), t) != Idle && !Doomed(After(run))
    ensures CanMove(After(run), u)
  {
    hide IsRun, After, Inv, CanMove, Doomed;
    RunsKeepInv(run);
    u := SomeoneMoves(After(run), t);
  }

  lemma SomeoneMoves(s: State, t: Tid) returns (u: Tid)
    requires Inv(s) && At(s, t) != Idle && !Doomed(s)
    ensures CanMove(s, u)
  {
    hide RInv, WInv, CountInv, GroupInv, CanMove;
    FreeR(s);
    FreeW(s);
    if s.rOwner.Some? {
      u := s.rOwner.value;
      ROwner(s, u);
      if AtW(At(s, u)) {
        WaitsForOne(s, u);
        u := WMoves(s, u);
      } else {
        FreeStep(s, u);
      }
    } else if AtR(At(s, t)) {
      u := RMoves(s, t);
    } else if AtW(At(s, t)) {
      if s.wOwner == Readers {
        u := SomeoneInside(s);
        ROwner(s, u);
        if AtR(At(s, u)) {
          u := RMoves(s, u);
        } else {
          FreeStep(s, u);
        }
      } else {
        u := WMoves(s, t);
      }
    } else {
      u := t;
      FreeStep(s, u);
    }
  }

  /** The first reader never waits for the readers. */
  lemma WaitsForOne(s: State, t: Tid)
    requires GroupInv(s) && s.rOwner == Some(t) && AtW(At(s, t)) && At(s, t) != WIn && !Doomed(s)
    ensures s.wOwner != Readers
  {
    hide At;
  }

  lemma FreeStep(s: State, t: Tid)
    requires At(s, t) != Idle && !AtR(At(s, t)) && !AtW(At(s, t))
    ensures CanMove(s, t)
  {
    hide TryP, V;
  }

  lemma RMoves(s: State, t: Tid) returns (u: Tid)
    requires RInv(s) && s.rOwner == None && AtR(At(s, t))
    ensures CanMove(s, u)
  {
    u := t;
    if t in s.r.queue {
      assert s.r.woken != {};
      u :| u in s.r.woken;
    }
    RStep(s, u);
  }

  lemma RStep(s: State, t: Tid)
    requires AtR(At(s, t)) && t !in s.r.queue && s.r.value > 0
    ensures CanMove(s, t)
  {
  }

  lemma WMoves(s: State, t: Tid) returns (u: Tid)
    requires WInv(s) && s.wOwner != Readers && AtW(At(s, t))
    ensures CanMove(s, u)
  {
    hide CanMove;
    if s.wOwner.One? {
      u := s.wOwner.t;
      WOwner(s, u);
      FreeStep(s, u);
    } else {
      u := t;
      if t in s.w.queue {
        assert s.w.woken != {};
        u :| u in s.w.woken;
      }
      WStep(s, u);
    }
  }

  lemma WStep(s: State, t: Tid)
    requires AtW(At(s, t)) && t !in s.w.queue && s.w.value > 0
    ensures CanMove(s, t)
  {
  }

  lemma SomeoneInside(s: State) returns (u: Tid)
    requires CountInv(s) && GroupInv(s) && s.rOwner == None && s.wOwner == Readers
    ensures Counted(At(s, u))
  {
    assert |Inside(s)| >= 1;
    assert Inside(s) != {};
    u :| u in Inside(s);
    IsInside(s, u);
  }

  // ---------------------------------------------------------------- the named Seek can stop the file

  predicate HasSeeks(run: seq<Action>) {
    exists i :: 0 <= i < |run| && run[i].StartSeek?
  }

  predicate IsSeek(pc: Pc) { pc == SInR || pc == SInW || pc == Seeking || pc == SOutR || pc == SOutW }

  lemma {:induction false} NoSeekers(run: seq<Action>, t: Tid)
    requires IsRun(run) && !HasSeeks(run)
    ensures !IsSeek(At(After(run), t))
  {
    if run != [] {
      var before, a := run[..|run| - 1], run[|run| - 1];
      forall i | 0 <= i < |before|
        ensures !before[i].StartSeek?
      {
        assert run[i] == before[i];
      }
      NoSeekers(before, t);
      SeekStays(After(before), a, t);
    }
  }

  lemma SeekStays(s: State, a: Action, t: Tid)
    requires !a.StartSeek? && !IsSeek(At(s, t))
    ensures !IsSeek(At(Do(s, a), t))
  {
    hide TryP, V;
  }

  /** With `Read` and `Write` alone no run gets stuck: as long as some client is in the middle of an
      operation, one of them can go on. */
  lemma NoDeadlock(run: seq<Action>, t: Tid) returns (u: Tid)
    requires IsRun(run) && !HasSeeks(run) && At(After(run), t) != Idle
    ensures CanMove(After(run), u)
  {
    hide IsRun, After, HasSeeks, CanMove, At;
    if After(run).rOwner.Some? {
      NoSeekers(run, After(run).rOwner.value);
    }
    u := Progress(run, t);
  }

  /** A file becomes doomed exactly when a seeker passes the read semaphore while readers are in
      the file. */
  lemma DoomBegins(s: State, a: Action)
    requires Inv(s) && Can(s, a) && !Doomed(s)
    ensures Doomed(Do(s, a)) <==> a.Step? && At(s, a.t) == SInR && s.rOwner == None && s.count >= 1
  {
    hide RInv, WInv, CountInv, GroupInv, Doomed, Can, At;
    if a.Step? && At(s, a.t) == SInR {
      SeekerPasses(s, a.t);
    } else {
      NoSeekerPasses(s, a);
    }
  }

  lemma SeekerPasses(s: State, t: Tid)
    requires Inv(s) && Can(s, Step(t)) && !Doomed(s) && At(s, t) == SInR
    ensures Doomed(Run(s, t)) <==> s.rOwner == None && s.count >= 1
  {
    hide RInv, WInv, CountInv, TryP;
    FreeR(s);
    ROwner(s, t);
    if s.rOwner.Some? {
      ROwner(s, s.rOwner.value);
    }
  }

  lemma NoSeekerPasses(s: State, a: Action)
    requires Inv(s) && Can(s, a) && !Doomed(s) && !(a.Step? && At(s, a.t) == SInR)
    ensures !Doomed(Do(s, a))
  {
    hide RInv, WInv, CountInv, GroupInv, Can, Do, At;
    var s' := Do(s, a);
    KeepsR(s, a);
    if s'.rOwner.Some? && At(s', s'.rOwner.value) == SInW {
      ROwner(s', s'.rOwner.value);
      OwnerBefore(s, a, s'.rOwner.value);
      ROwner(s, s'.rOwner.value);
    }
  }

  /** Whoever waits for the write semaphore in Seek did so before, and nobody else has become the readers'. */
  lemma OwnerBefore(s: State, a: Action, u: Tid)
    requires Inv(s) && Can(s, a) && !(a.Step? && At(s, a.t) == SInR) && At(Do(s, a), u) == SInW
    ensures At(s, u) == SInW && (Do(s, a).wOwner == Readers ==> s.wOwner == Readers)
  {
    hide RInv, WInv, CountInv, GroupInv, TryP, V;
    ROwner(s, u);
    ROwner(s, a.t);
  }

  /** In the middle of an operation that needs a semaphore no one will give back. */
  ghost predicate Waits(pc: Pc) {
    pc == RIn || pc == Reading || pc == ROut || pc == WIn || pc == SInR || pc == SInW
  }

  lemma DoomedWait(s: State, t: Tid)
    requires Inv(s) && Doomed(s) && At(s, t) != Idle
    ensures Waits(At(s, t))
  {
    hide CountInv, GroupInv;
    ROwner(s, t);
    WOwner(s, t);
  }

  /** Once doomed, always doomed: no operation under way ends, and no read count changes. */
  lemma DoomStays(s: State, a: Action, t: Tid)
    requires Inv(s) && Doomed(s) && Can(s, a)
    ensures Doomed(Do(s, a)) && Do(s, a).count == s.count
    ensures At(s, t) != Idle ==> At(Do(s, a), t) != Idle
  {
    hide RInv, WInv, CountInv, GroupInv;
    FreeR(s);
    FreeW(s);
    if At(s, a.t) != Idle {
      DoomedWait(s, a.t);
    }
  }

  /** However the run of a doomed file goes on, the operations under way never end. */
  lemma {:induction false} DoomedForever(run: seq<Action>, more: seq<Action>, t: Tid)
    requires IsRun(run + more) && Doomed(After(run)) && At(After(run), t) != Idle
    ensures Doomed(After(run + more)) && At(After(run + more), t) != Idle
  {
    hide Doomed, Can, Do, At, Inv;
    if more == [] {
      assert run + more == run;
    } else {
      var shorter := more[..|more| - 1];
      assert (run + more)[..|run + more| - 1] == run + shorter;
      DoomedForever(run, shorter, t);
      RunsKeepInv(run + shorter);
      DoomStays(After(run + shorter), more[|more| - 1], t);
    }
  }

  lemma Extended(run: seq<Action>, a: Action)
    requires IsRun(run) && Can(After(run), a)
    ensures IsRun(run + [a]) && After(run + [a]) == Do(After(run), a)
  {
    hide Can, Do;
    assert (run + [a])[..|run + [a]| - 1] == run;
  }

  /** It does happen: a client starts to read, and another seeks by name before the first is done. */
  lemma SeekDooms(reader: Tid, seeker: Tid) returns (run: seq<Action>)
    requires reader != seeker
    ensures IsRun(run) && Doomed(After(run))
    ensures At(After(run), reader) == Reading && At(After(run), seeker) == SInW
  {
    hide IsRun, After;
    run := StartsReading(reader);
    run := Advance(run, StartSeek(seeker));
    run := Advance(run, Step(seeker));
  }

  lemma StartsReading(reader: Tid) returns (run: seq<Action>)
    ensures IsRun(run)
    ensures var s := After(run);
      && s.rOwner == None && s.wOwner == Readers && s.count == 1 && s.r.value == 1 && s.r.queue == []
      && s.pc == map[reader := Reading]
  {
    hide IsRun, After;
    run := [];
    assert IsRun(run) && After(run) == Init() by { Empty(); }
    run := Advance(run, StartRead(reader));
    run := Advance(run, Step(reader));
    run := Advance(run, Step(reader));
    run := Advance(run, Step(reader));
    run := Advance(run, Step(reader));
    run := Advance(run, Step(reader));
  }

  lemma Empty()
    ensures IsRun([]) && After([]) == Init()
  {
  }

  lemma Advance(run: seq<Action>, a: Action) returns (longer: seq<Action>)
    requires IsRun(run) && Can(After(run), a)
    ensures IsRun(longer) && After(longer) == Do(After(run), a)
  {
    Extended(run, a);
    longer := run + [a];
  }
}
