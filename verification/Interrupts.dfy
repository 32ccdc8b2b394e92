/** Simulated time and hardware interrupts (machine/interrupt.cc). Pending interrupts are kept in a
    sorted list; a handler may schedule more of them and ask for a context switch, and is otherwise
    not part of this model: what the handlers do is any function of what has fired before. */
module Interrupts {
  import opened Lists

  const USER_TICK := 1
  const SYSTEM_TICK := 10

  /** `id` tells pending interrupts apart, as their addresses do. */
  datatype Pending = Pending(id: nat, when: int, toCall: nat)

  datatype Fired = Fired(interrupt: Pending, at: int)

  datatype Request = Request(toCall: nat, fromNow: int)

  datatype Reaction = Reaction(requests: seq<Request>, yieldOnReturn: bool)

  type Handlers = (seq<Fired>, Pending) -> Reaction

  function PendingCompare(x: Pending, y: Pending): int {
    if x.when < y.when then -1 else if x.when > y.when then 1 else 0
  }

  lemma PendingOrdering()
    ensures Ordering(PendingCompare)
  {
  }

  // ---------------------------------------------------------------- the queue of interrupts

  /** `fired` and `scheduled` are history. */
  datatype Queue = Queue(now: int, pending: seq<Pending>, fired: seq<Fired>, scheduled: seq<Pending>, asked: bool)

  /** Handlers may only ask for later interrupts: Schedule asserts it. */
  ghost predicate Later(requests: seq<Request>) {
    forall i :: 0 <= i < |requests| ==> requests[i].fromNow > 0
  }

  ghost predicate Sound(handlers: Handlers) {
    forall before: seq<Fired>, p: Pending :: Later(handlers(before, p).requests)
  }

  function Scheduled(q: Queue, r: Request): Queue {
    var p := Pending(|q.scheduled|, q.now + r.fromNow, r.toCall);
    q.(pending := Inserted(PendingCompare, p, q.pending), scheduled := q.scheduled + [p])
  }

  function ScheduledAll(q: Queue, rs: seq<Request>): Queue {
    if rs == [] then q else Scheduled(ScheduledAll(q, rs[..|rs| - 1]), rs[|rs| - 1])
  }

  /** The first pending interrupt is taken off; its handler may ask for a context switch. */
  function Popped(q: Queue, asked: bool): Queue
    requires q.pending != []
  {
    q.(pending := q.pending[1..], fired := q.fired + [Fired(q.pending[0], q.now)], asked := q.asked || asked)
  }

  /** The first pending interrupt fires, and its handler schedules what it wants. */
  function FireFirst(q: Queue, handlers: Handlers): Queue
    requires q.pending != []
  {
    var reaction := handlers(q.fired, q.pending[0]);
    ScheduledAll(Popped(q, reaction.yieldOnReturn), reaction.requests)
  }

  function Due(s: seq<Pending>, now: int): nat {
    if s == [] then 0 else (if s[0].when <= now then 1 else 0) + Due(s[1..], now)
  }

  /** Everything due fires, handlers scheduling more as they go. */
  ghost function FireDue(q: Queue, handlers: Handlers): Queue
    requires Sound(handlers)
    decreases Due(q.pending, q.now)
  {
    if q.pending == [] || q.pending[0].when > q.now then q
    else
      FireFirstUsesUp(q, handlers);
      FireDue(FireFirst(q, handlers), handlers)
  }

  lemma {:induction false} DueInserted(p: Pending, s: seq<Pending>, now: int)
    requires p.when > now
    ensures Due(Inserted(PendingCompare, p, s), now) == Due(s, now)
  {
    if s != [] && PendingCompare(p, s[0]) >= 0 {
      DueInserted(p, s[1..], now);
    } else {
      assert ([p] + s)[1..] == s;
    }
  }

  lemma {:induction false} DueScheduled(q: Queue, rs: seq<Request>)
    requires Later(rs)
    ensures Due(ScheduledAll(q, rs).pending, q.now) == Due(q.pending, q.now)
    ensures ScheduledAll(q, rs).now == q.now && ScheduledAll(q, rs).fired == q.fired
  {
    if rs != [] {
      DueScheduled(q, rs[..|rs| - 1]);
      var before, r := ScheduledAll(q, rs[..|rs| - 1]), rs[|rs| - 1];
      DueInserted(Pending(|before.scheduled|, before.now + r.fromNow, r.toCall), before.pending, q.now);
    }
  }

  /** What makes the firing loop end: a handler never adds to what is due. */
  lemma FireFirstUsesUp(q: Queue, handlers: Handlers)
    requires Sound(handlers) && q.pending != [] && q.pending[0].when <= q.now
    ensures Due(FireFirst(q, handlers).pending, q.now) == Due(q.pending, q.now) - 1
    ensures FireFirst(q, handlers).now == q.now
  {
    var reaction := handlers(q.fired, q.pending[0]);
    assert Later(reaction.requests);
    DueScheduled(Popped(q, reaction.yieldOnReturn), reaction.requests);
  }

  // ---------------------------------------------------------------- what every run keeps

  /** Nothing has fired before its time, and nothing fires before what came earlier. */
  ghost predicate FiredInOrder(q: Queue) {
    && (forall i :: 0 <= i < |q.fired| ==> q.fired[i].interrupt.when <= q.fired[i].at <= q.now)
    && (forall i, j :: 0 <= i < j < |q.fired| ==>
          q.fired[i].interrupt.when <= q.fired[j].interrupt.when && q.fired[i].at <= q.fired[j].at)
    && (forall i, j :: 0 <= i < |q.fired| && 0 <= j < |q.pending| ==> q.fired[i].interrupt.when <= q.pending[j].when)
  }

  ghost function Interrupts(fired: seq<Fired>): multiset<Pending> {
    if fired == [] then multiset{} else Interrupts(fired[..|fired| - 1]) + multiset{fired[|fired| - 1].interrupt}
  }

  /** Whatever has been scheduled either is pending or has fired, once. */
  ghost predicate NoneLost(q: Queue) {
    && multiset(q.scheduled) == multiset(q.pending) + Interrupts(q.fired)
    && (forall i :: 0 <= i < |q.scheduled| ==> q.scheduled[i].id == i)
  }

  ghost predicate QueueInv(q: Queue) {
    && Sorted(PendingCompare, q.pending) && NoDuplicates(q.pending)
    && (forall i :: 0 <= i < |q.pending| ==> q.pending[i].id < |q.scheduled|)
    && FiredInOrder(q) && NoneLost(q)
  }

  /** Between operations nothing pending is due. */
  ghost predicate NothingDue(q: Queue) {
    forall i :: 0 <= i < |q.pending| ==> q.pending[i].when > q.now
  }

  lemma NewIsNotPending(q: Queue, p: Pending)
    requires QueueInv(q) && p.id == |q.scheduled|
    ensures p !in q.pending
  {
  }

  lemma ScheduledKeepsOrder(q: Queue, r: Request)
    requires FiredInOrder(q) && r.fromNow > 0
    ensures FiredInOrder(Scheduled(q, r))
    ensures NothingDue(q) ==> NothingDue(Scheduled(q, r))
  {
    var p := Pending(|q.scheduled|, q.now + r.fromNow, r.toCall);
    var q' := Scheduled(q, r);
    InsertedItems(PendingCompare, p, q.pending);
    forall j | 0 <= j < |q'.pending|
      ensures q'.pending[j] == p || q'.pending[j] in q.pending
    {
      assert q'.pending[j] in q'.pending;
    }
  }

  lemma ScheduledLosesNone(q: Queue, r: Request)
    requires NoneLost(q)
    ensures NoneLost(Scheduled(q, r))
  {
    hide Inserted, Interrupts;
    InsertedItems(PendingCompare, Pending(|q.scheduled|, q.now + r.fromNow, r.toCall), q.pending);
  }

  lemma ScheduledKeepsInv(q: Queue, r: Request)
    requires QueueInv(q) && r.fromNow > 0
    ensures QueueInv(Scheduled(q, r)) && (NothingDue(q) ==> NothingDue(Scheduled(q, r)))
  {
    hide FiredInOrder, NothingDue, NoneLost, Sorted, NoDuplicates, Ordering, Inserted;
    ScheduledLosesNone(q, r);
    var p := Pending(|q.scheduled|, q.now + r.fromNow, r.toCall);
    var q' := Scheduled(q, r);
    PendingOrdering();
    NewIsNotPending(q, p);
    InsertedSorted(PendingCompare, p, q.pending);
    InsertedNoDuplicates(PendingCompare, p, q.pending);
    InsertedItems(PendingCompare, p, q.pending);
    ScheduledKeepsOrder(q, r);
    forall j | 0 <= j < |q'.pending|
      ensures q'.pending[j].id < |q'.scheduled|
    {
      assert q'.pending[j] in q'.pending;
    }
  }

  lemma {:induction false} ScheduledAllKeepsInv(q: Queue, rs: seq<Request>)
    requires QueueInv(q) && Later(rs)
    ensures QueueInv(ScheduledAll(q, rs))
  {
    hide QueueInv;
    if rs != [] {
      ScheduledAllKeepsInv(q, rs[..|rs| - 1]);
      ScheduledKeepsInv(ScheduledAll(q, rs[..|rs| - 1]), rs[|rs| - 1]);
    }
  }

  lemma PoppedKeepsInv(q: Queue, asked: bool)
    requires QueueInv(q) && q.pending != [] && q.pending[0].when <= q.now
    ensures QueueInv(Popped(q, asked))
  {
    hide Interrupts;
    assert NoneLost(Popped(q, asked)) by {
      assert q.pending == [q.pending[0]] + q.pending[1..];
      FiredOne(q.fired, Fired(q.pending[0], q.now));
    }
    PoppedInOrder(q, asked);
  }

  lemma FiredOne(fired: seq<Fired>, f: Fired)
    ensures Interrupts(fired + [f]) == Interrupts(fired) + multiset{f.interrupt}
  {
    assert (fired + [f])[..|fired + [f]| - 1] == fired;
  }

  lemma PoppedInOrder(q: Queue, asked: bool)
    requires FiredInOrder(q) && Sorted(PendingCompare, q.pending) && q.pending != [] && q.pending[0].when <= q.now
    ensures FiredInOrder(Popped(q, asked))
  {
    forall j | 0 <= j < |q.pending[1..]|
      ensures q.pending[0].when <= q.pending[1..][j].when
    {
      assert PendingCompare(q.pending[0], q.pending[j + 1]) <= 0;
    }
  }

  lemma FireFirstKeepsInv(q: Queue, handlers: Handlers)
    requires Sound(handlers) && QueueInv(q) && q.pending != [] && q.pending[0].when <= q.now
    ensures QueueInv(FireFirst(q, handlers))
    ensures q.fired <= FireFirst(q, handlers).fired
  {
    hide QueueInv;
    var reaction := handlers(q.fired, q.pending[0]);
    PoppedKeepsInv(q, reaction.yieldOnReturn);
    assert Later(reaction.requests);
    ScheduledAllKeepsInv(Popped(q, reaction.yieldOnReturn), reaction.requests);
    DueScheduled(Popped(q, reaction.yieldOnReturn), reaction.requests);
  }

  /** The firing loop ends with nothing due, however much its handlers schedule, and keeps the
      order of firing over the whole run. */
  lemma {:induction false} FireDueKeepsInv(q: Queue, handlers: Handlers)
    requires Sound(handlers) && QueueInv(q)
    ensures QueueInv(FireDue(q, handlers)) && NothingDue(FireDue(q, handlers))
    ensures FireDue(q, handlers).now == q.now && q.fired <= FireDue(q, handlers).fired
    decreases Due(q.pending, q.now)
  {
    hide Interrupts, FireFirst, FiredInOrder, NoneLost, NoDuplicates;
    if q.pending != [] && q.pending[0].when <= q.now {
      FireFirstUsesUp(q, handlers);
      FireFirstKeepsInv(q, handlers);
      FireDueKeepsInv(FireFirst(q, handlers), handlers);
    } else {
      forall i | 0 <= i < |q.pending|
        ensures q.pending[i].when > q.now
      {
        if i > 0 {
          assert PendingCompare(q.pending[0], q.pending[i]) <= 0;
        }
      }
    }
  }

  /** Time may pass before the loop runs. */
  lemma TimePasses(q: Queue, now: int)
    requires QueueInv(q) && now >= q.now
    ensures QueueInv(q.(now := now))
  {
  }

  // ---------------------------------------------------------------- what fires

  /** The entries due are the first ones. */
  lemma {:induction false} DueAreFirst(s: seq<Pending>, now: int)
    requires Sorted(PendingCompare, s)
    ensures Due(s, now) <= |s|
    ensures forall i :: 0 <= i < |s| ==> (i < Due(s, now) <==> s[i].when <= now)
  {
    if s != [] {
      assert Sorted(PendingCompare, s[1..]);
      DueAreFirst(s[1..], now);
      forall i | 0 <= i < |s|
        ensures i < Due(s, now) <==> s[i].when <= now
      {
        if i > 0 {
          assert s[i] == s[1..][i - 1];
          assert PendingCompare(s[0], s[i]) <= 0;
        }
      }
    }
  }

  lemma DueFirstInserted(p: Pending, s: seq<Pending>, now: int)
    requires p.when > now && Sorted(PendingCompare, s)
    ensures Due(s, now) <= |s| < |Inserted(PendingCompare, p, s)|
    ensures Inserted(PendingCompare, p, s)[..Due(s, now)] == s[..Due(s, now)]
  {
    hide Sorted, Inserted, Due;
    DueAreFirst(s, now);
    var k := PlaceOf(PendingCompare, p, s);
    InsertedAt(PendingCompare, p, s, k);
    assert Due(s, now) <= k;
  }

  lemma {:induction false} DueFirstScheduled(q: Queue, rs: seq<Request>)
    requires Later(rs) && QueueInv(q)
    ensures Due(q.pending, q.now) <= |q.pending| && Due(q.pending, q.now) <= |ScheduledAll(q, rs).pending|
    ensures ScheduledAll(q, rs).pending[..Due(q.pending, q.now)] == q.pending[..Due(q.pending, q.now)]
  {
    hide FiredInOrder, NoneLost, NoDuplicates, Sorted, Inserted;
    DueAreFirst(q.pending, q.now);
    if rs != [] {
      var init := rs[..|rs| - 1];
      DueFirstScheduled(q, init);
      DueScheduled(q, init);
      ScheduledAllKeepsInv(q, init);
      var before, r := ScheduledAll(q, init), rs[|rs| - 1];
      var p := Pending(|before.scheduled|, before.now + r.fromNow, r.toCall);
      DueFirstInserted(p, before.pending, q.now);
      InsertedItems(PendingCompare, p, before.pending);
    }
  }

  /** Exactly the interrupts that were due when the loop began fire, in their order and all at the
      current time; what handlers add waits for a later loop. */
  lemma {:induction false} FiresWhatIsDue(q: Queue, handlers: Handlers)
    requires Sound(handlers) && QueueInv(q)
    ensures var n := Due(q.pending, q.now);
      && n <= |q.pending|
      && FireDue(q, handlers).fired == q.fired + seq(n, i requires 0 <= i < n => Fired(q.pending[i], q.now))
    decreases Due(q.pending, q.now)
  {
    hide QueueInv, FireFirst, Later;
    SortedQueue(q);
    DueAreFirst(q.pending, q.now);
    var n := Due(q.pending, q.now);
    if q.pending != [] && q.pending[0].when <= q.now {
      FireFirstUsesUp(q, handlers);
      FireFirstKeepsInv(q, handlers);
      FireFirstPrefix(q, handlers);
      var q' := FireFirst(q, handlers);
      FiresWhatIsDue(q', handlers);
      var rest := seq(n - 1, i requires 0 <= i < n - 1 => Fired(q'.pending[i], q.now));
      forall i | 0 <= i < n - 1
        ensures rest[i] == Fired(q.pending[i + 1], q.now)
      {
        assert q'.pending[i] == q'.pending[..n - 1][i];
        assert q.pending[i + 1] == q.pending[1..n][i];
      }
      assert [Fired(q.pending[0], q.now)] + rest == seq(n, i requires 0 <= i < n => Fired(q.pending[i], q.now));
    } else {
      assert n == 0;
    }
  }

  lemma SortedQueue(q: Queue)
    requires QueueInv(q)
    ensures Sorted(PendingCompare, q.pending)
  {
  }

  lemma FireFirstPrefix(q: Queue, handlers: Handlers)
    requires Sound(handlers) && QueueInv(q) && q.pending != [] && q.pending[0].when <= q.now
    ensures var n := Due(q.pending, q.now);
      && 1 <= n <= |q.pending| && n - 1 <= |FireFirst(q, handlers).pending|
      && FireFirst(q, handlers).pending[..n - 1] == q.pending[1..n]
      && FireFirst(q, handlers).fired == q.fired + [Fired(q.pending[0], q.now)]
  {
    hide QueueInv, Inserted;
    var reaction := handlers(q.fired, q.pending[0]);
    var popped := Popped(q, reaction.yieldOnReturn);
    PoppedKeepsInv(q, reaction.yieldOnReturn);
    assert Later(reaction.requests);
    DueFirstScheduled(popped, reaction.requests);
    DueScheduled(popped, reaction.requests);
    SortedQueue(q);
    DueAreFirst(q.pending, q.now);
    assert q.pending[1..][..Due(q.pending, q.now) - 1] == q.pending[1..Due(q.pending, q.now)];
  }

  datatype Status = IdleMode | SystemMode | UserMode

  function TickOf(status: Status): int {
    if status == SystemMode then SYSTEM_TICK else USER_TICK
  }

  function OneTickOn(q: Queue, status: Status): Queue {
    q.(now := q.now + TickOf(status))
  }

  /** Idling advances the clock to the first pending interrupt. */
  function Advanced(q: Queue, advanceClock: bool): Queue {
    if advanceClock && q.pending != [] && q.pending[0].when > q.now then q.(now := q.pending[0].when) else q
  }

  lemma Unyielded(q: Queue)
    requires QueueInv(q) && NothingDue(q)
    ensures QueueInv(q.(asked := false)) && NothingDue(q.(asked := false))
  {
  }

  lemma FirstIsEarliest(q: Queue)
    requires QueueInv(q)
    ensures forall p :: p in q.pending ==> q.pending[0].when <= p.when
  {
    forall i | 0 <= i < |q.pending|
      ensures q.pending[0].when <= q.pending[i].when
    {
      assert i > 0 ==> PendingCompare(q.pending[0], q.pending[i]) <= 0;
    }
  }

  lemma FireDueKeepsInvAfter(q: Queue, handlers: Handlers)
    requires Sound(handlers) && QueueInv(q) && NothingDue(q)
    ensures FireDue(Advanced(q, true), handlers).now == if q.pending == [] then q.now else q.pending[0].when
  {
    hide Sound, FireDue;
    TimePasses(q, Advanced(q, true).now);
    FireDueKeepsInv(Advanced(q, true), handlers);
  }

  // ---------------------------------------------------------------- every run

  /** Devices schedule interrupts, time moves on a tick, or the machine idles; the handlers may be
      others each time. */
  datatype Op = Device(request: Request) | Tick(status: Status, handlers: Handlers) | Idling(handlers: Handlers)

  ghost predicate Legal(op: Op) {
    match op
    case Device(r) => r.fromNow > 0
    case Tick(_, handlers) => Sound(handlers)
    case Idling(handlers) => Sound(handlers)
  }

  ghost function Apply(q: Queue, op: Op): Queue
    requires Legal(op)
  {
    match op
    case Device(r) => Scheduled(q, r)
    case Tick(status, handlers) => FireDue(OneTickOn(q, status), handlers).(asked := false)
    case Idling(handlers) => FireDue(Advanced(q, true), handlers)
  }

  ghost predicate AllLegal(ops: seq<Op>) {
    forall i :: 0 <= i < |ops| ==> Legal(ops[i])
  }

  ghost function After(ops: seq<Op>): Queue
    requires AllLegal(ops)
  {
    if ops == [] then Queue(0, [], [], [], false) else Apply(After(ops[..|ops| - 1]), ops[|ops| - 1])
  }

  lemma ApplyKeepsInv(q: Queue, op: Op)
    requires QueueInv(q) && NothingDue(q) && Legal(op)
    ensures QueueInv(Apply(q, op)) && NothingDue(Apply(q, op)) && Apply(q, op).now >= q.now &&
            q.fired <= Apply(q, op).fired
  {
    hide QueueInv, NothingDue, Sound, FireDue, Inserted;
    match op
    case Device(r) => ScheduledKeepsInv(q, r);
    case Tick(status, handlers) =>
      TimePasses(q, q.now + TickOf(status));
      FireDueKeepsInv(OneTickOn(q, status), handlers);
      Unyielded(FireDue(OneTickOn(q, status), handlers));
    case Idling(handlers) =>
      TimePasses(q, Advanced(q, true).now);
      FireDueKeepsInv(Advanced(q, true), handlers);
  }

  /** Over every run, whatever the handlers do: an interrupt never fires before its time, the times
      for which interrupts were scheduled come up in order, every interrupt scheduled is pending or
      has fired exactly once, and between operations nothing is overdue. */
  lemma {:induction false} RunsKeepOrder(ops: seq<Op>)
    requires AllLegal(ops)
    ensures FiredInOrder(After(ops)) && NoneLost(After(ops)) && NothingDue(After(ops)) && QueueInv(After(ops))
  {
    hide Legal, Apply;
    if ops != [] {
      RunsKeepOrder(ops[..|ops| - 1]);
      ApplyKeepsInv(After(ops[..|ops| - 1]), ops[|ops| - 1]);
    } else {
      assert Interrupts([]) == multiset{};
    }
  }

  // ---------------------------------------------------------------- every request is served once, on time

  /** A request, and the time at which it was made. */
  datatype Made = Made(at: int, request: Request)

  /** What the handlers of the interrupts fired from number `from` on ask for, each called with what has
      fired before. */
  ghost function MadeBy(fired: seq<Fired>, from: nat, handlers: Handlers): seq<Request>
    decreases |fired| - from
  {
    if from >= |fired| then []
    else handlers(fired[..from], fired[from].interrupt).requests + MadeBy(fired, from + 1, handlers)
  }

  ghost function AllAt(now: int, rs: seq<Request>): seq<Made> {
    seq(|rs|, m requires 0 <= m < |rs| => Made(now, rs[m]))
  }

  /** All requests of a run in their order: those of the devices, and those that handlers make at the time
      at which they are called. */
  ghost function Requests(ops: seq<Op>): seq<Made>
    requires AllLegal(ops)
  {
    if ops == [] then []
    else
      var rest, op := ops[..|ops| - 1], ops[|ops| - 1];
      var q, q' := After(rest), After(ops);
      Requests(rest) +
      match op
      case Device(r) => [Made(q.now, r)]
      case Tick(_, handlers) => AllAt(q'.now, MadeBy(q'.fired, |q.fired|, handlers))
      case Idling(handlers) => AllAt(q'.now, MadeBy(q'.fired, |q.fired|, handlers))
  }

  /** There is one entry for each request: for its own handler, and for the time of the request and the
      delay asked for. */
  ghost predicate Recorded(made: seq<Made>, scheduled: seq<Pending>) {
    && |scheduled| == |made|
    && forall i :: 0 <= i < |made| ==>
         scheduled[i] == Pending(i, made[i].at + made[i].request.fromNow, made[i].request.toCall)
  }

  lemma {:induction false} ScheduledAllRecorded(q: Queue, rs: seq<Request>, made: seq<Made>)
    requires Recorded(made, q.scheduled)
    ensures Recorded(made + AllAt(q.now, rs), ScheduledAll(q, rs).scheduled) && ScheduledAll(q, rs).now == q.now
  {
    hide Inserted;
    if rs != [] {
      ScheduledAllRecorded(q, rs[..|rs| - 1], made);
    } else {
      assert made + AllAt(q.now, rs) == made;
    }
  }

  lemma {:induction false} FireDueRecorded(q: Queue, handlers: Handlers, made: seq<Made>)
    requires Sound(handlers) && QueueInv(q) && Recorded(made, q.scheduled)
    ensures var q' := FireDue(q, handlers);
            q.fired <= q'.fired && Recorded(made + AllAt(q.now, MadeBy(q'.fired, |q.fired|, handlers)), q'.scheduled)
    decreases Due(q.pending, q.now)
  {
    hide QueueInv, Inserted, Later, Recorded, FireFirst;
    var q' := FireDue(q, handlers);
    if q.pending != [] && q.pending[0].when <= q.now {
      FireFirstUsesUp(q, handlers);
      FireFirstKeepsInv(q, handlers);
      var rs := handlers(q.fired, q.pending[0]).requests;
      FireFirstRecorded(q, handlers, made);
      var q1 := FireFirst(q, handlers);
      FireDueRecorded(q1, handlers, made + AllAt(q.now, rs));
      var later := MadeBy(q'.fired, |q1.fired|, handlers);
      assert q'.fired[..|q.fired|] == q.fired && q'.fired[|q.fired|].interrupt == q.pending[0];
      assert made + AllAt(q.now, rs + later) == made + AllAt(q.now, rs) + AllAt(q.now, later);
    } else {
      assert made + AllAt(q.now, MadeBy(q'.fired, |q.fired|, handlers)) == made;
    }
  }

  lemma FireFirstRecorded(q: Queue, handlers: Handlers, made: seq<Made>)
    requires Sound(handlers) && q.pending != [] && Recorded(made, q.scheduled)
    ensures var q1 := FireFirst(q, handlers);
      && q1.fired == q.fired + [Fired(q.pending[0], q.now)]
      && Recorded(made + AllAt(q.now, handlers(q.fired, q.pending[0]).requests), q1.scheduled)
  {
    hide Recorded, ScheduledAll, Later;
    var reaction := handlers(q.fired, q.pending[0]);
    assert Later(reaction.requests);
    DueScheduled(Popped(q, reaction.yieldOnReturn), reaction.requests);
    ScheduledAllRecorded(Popped(q, reaction.yieldOnReturn), reaction.requests, made);
  }

  lemma {:induction false} RunsRecord(ops: seq<Op>)
    requires AllLegal(ops)
    ensures Recorded(Requests(ops), After(ops).scheduled)
  {
    hide QueueInv, NothingDue, FiredInOrder, NoneLost, Sound, FireDue, Inserted;
    if ops != [] {
      var rest := ops[..|ops| - 1];
      RunsRecord(rest);
      RunsKeepOrder(rest);
      ApplyRecords(After(rest), ops[|ops| - 1], Requests(rest));
    }
  }

  lemma ApplyRecords(q: Queue, op: Op, made: seq<Made>)
    requires Legal(op) && QueueInv(q) && NothingDue(q) && Recorded(made, q.scheduled)
    ensures var q' := Apply(q, op);
      match op
      case Device(r) => Recorded(made + [Made(q.now, r)], q'.scheduled)
      case Tick(_, handlers) => Recorded(made + AllAt(q'.now, MadeBy(q'.fired, |q.fired|, handlers)), q'.scheduled)
      case Idling(handlers) => Recorded(made + AllAt(q'.now, MadeBy(q'.fired, |q.fired|, handlers)), q'.scheduled)
  {
    hide QueueInv, NothingDue, Sound, FireDue, Inserted;
    match op
    case Device(r) =>
    case Tick(status, handlers) =>
      TimePasses(q, q.now + TickOf(status));
      FireDueKeepsInv(OneTickOn(q, status), handlers);
      FireDueRecorded(OneTickOn(q, status), handlers, made);
    case Idling(handlers) =>
      TimePasses(q, Advanced(q, true).now);
      FireDueKeepsInv(Advanced(q, true), handlers);
      FireDueRecorded(Advanced(q, true), handlers, made);
  }

  lemma {:induction false} HasFired(fired: seq<Fired>, p: Pending)
    ensures p in Interrupts(fired) <==> exists j :: 0 <= j < |fired| && fired[j].interrupt == p
    ensures Interrupts(fired)[p] <= 1 ==>
              forall j, k :: 0 <= j < k < |fired| ==> !(fired[j].interrupt == p && fired[k].interrupt == p)
  {
    if fired != [] {
      var n := |fired| - 1;
      var before := fired[..n];
      HasFired(before, p);
      assert forall j :: 0 <= j < n ==> fired[j] == before[j];
      if p in Interrupts(before) {
        var j :| 0 <= j < n && before[j].interrupt == p;
        assert fired[j].interrupt == p;
      }
    }
  }

  lemma {:induction false} OnceInList(s: seq<Pending>, i: nat)
    requires i < |s| && forall k :: 0 <= k < |s| ==> s[k].id == k
    ensures multiset(s)[s[i]] == 1
  {
    var n := |s| - 1;
    assert s == s[..n] + [s[n]];
    if i < n {
      assert forall k :: 0 <= k < n ==> s[..n][k].id == k;
      OnceInList(s[..n], i);
    } else {
      assert s[i] !in s[..n];
    }
  }

  /** Request number `id` has been answered: its handler was called, once, and not before `due`. */
  ghost predicate Answered(fired: seq<Fired>, id: nat, toCall: nat, due: int) {
    exists j :: 0 <= j < |fired| && AnsweredBy(fired, id, toCall, due, j)
  }

  ghost predicate AnsweredBy(fired: seq<Fired>, id: nat, toCall: nat, due: int, j: int) {
    && 0 <= j < |fired| && fired[j].interrupt.id == id && fired[j].interrupt.toCall == toCall && fired[j].at >= due
    && forall k :: 0 <= k < |fired| && fired[k].interrupt.id == id ==> k == j
  }

  /** Over every run, whoever makes it: a request made at time t with delay d has not been answered while
      the clock is before t + d, and has been answered once and by its own handler when, after an
      operation, the clock has reached t + d. */
  lemma RequestsAreAnswered(ops: seq<Op>, id: nat)
    requires AllLegal(ops) && id < |Requests(ops)|
    ensures var q, m := After(ops), Requests(ops)[id];
      var due := m.at + m.request.fromNow;
      if q.now < due then forall j :: 0 <= j < |q.fired| ==> q.fired[j].interrupt.id != id
      else Answered(q.fired, id, m.request.toCall, due)
  {
    hide AllLegal, QueueInv, FiredInOrder, NoneLost, NothingDue, After, Requests, Answered;
    RunsRecord(ops);
    RunsKeepOrder(ops);
    EntryIsAnswered(After(ops), id);
  }

  lemma EntryIsAnswered(q: Queue, id: nat)
    requires QueueInv(q) && NothingDue(q) && id < |q.scheduled|
    ensures var p := q.scheduled[id];
      if q.now < p.when then forall j :: 0 <= j < |q.fired| ==> q.fired[j].interrupt.id != id
      else Answered(q.fired, id, p.toCall, p.when)
  {
    hide Sorted, NoDuplicates, Interrupts;
    var p := q.scheduled[id];
    OnceInList(q.scheduled, id);
    HasFired(q.fired, p);
    forall j | 0 <= j < |q.fired| && q.fired[j].interrupt.id == id
      ensures q.fired[j].interrupt == p
    {
      HasFired(q.fired, q.fired[j].interrupt);
      assert q.fired[j].interrupt in multiset(q.scheduled);
    }
    if p.when <= q.now {
      assert p !in multiset(q.pending);
      assert Interrupts(q.fired)[p] == 1;
      var j :| 0 <= j < |q.fired| && q.fired[j].interrupt == p;
      assert AnsweredBy(q.fired, id, p.toCall, p.when, j);
    }
  }

  /** A handler called from number `from` on asks for a context switch. */
  ghost predicate YieldAsked(fired: seq<Fired>, from: nat, handlers: Handlers) {
    exists j :: from <= j < |fired| && handlers(fired[..j], fired[j].interrupt).yieldOnReturn
  }

  /** The flag for a context switch says whether some handler has asked for it. */
  lemma {:induction false} YieldIsAskedFor(q: Queue, handlers: Handlers)
    requires Sound(handlers) && QueueInv(q)
    ensures FireDue(q, handlers).asked <==> q.asked || YieldAsked(FireDue(q, handlers).fired, |q.fired|, handlers)
    decreases Due(q.pending, q.now)
  {
    hide QueueInv, FireFirst;
    if q.pending != [] && q.pending[0].when <= q.now {
      FireFirstUsesUp(q, handlers);
      FireFirstKeepsInv(q, handlers);
      FireFirstAsks(q, handlers);
      var q1 := FireFirst(q, handlers);
      FireDueKeepsInv(q1, handlers);
      YieldIsAskedFor(q1, handlers);
      var fired, n := FireDue(q, handlers).fired, |q.fired|;
      assert fired[..n] == q.fired && fired[n].interrupt == q.pending[0];
      if YieldAsked(fired, n, handlers) {
        var j :| n <= j < |fired| && handlers(fired[..j], fired[j].interrupt).yieldOnReturn;
        assert j == n || YieldAsked(fired, n + 1, handlers);
      }
    }
  }

  lemma FireFirstAsks(q: Queue, handlers: Handlers)
    requires Sound(handlers) && q.pending != []
    ensures var q1 := FireFirst(q, handlers);
      && q1.fired == q.fired + [Fired(q.pending[0], q.now)]
      && q1.asked == (q.asked || handlers(q.fired, q.pending[0]).yieldOnReturn)
  {
    hide ScheduledAll, Later;
    var reaction := handlers(q.fired, q.pending[0]);
    assert Later(reaction.requests);
    DueScheduled(Popped(q, reaction.yieldOnReturn), reaction.requests);
    ScheduledAllAsks(Popped(q, reaction.yieldOnReturn), reaction.requests);
  }

  lemma {:induction false} ScheduledAllAsks(q: Queue, rs: seq<Request>)
    ensures ScheduledAll(q, rs).asked == q.asked
  {
    if rs != [] {
      ScheduledAllAsks(q, rs[..|rs| - 1]);
    }
  }

  // ---------------------------------------------------------------- the class

  class Interrupt {
    var level: bool
    const pending: List<Pending>
    var inHandler: bool
    var yieldOnReturn: bool
    var status: Status
    var serial: nat
    // kernel->stats
    var totalTicks: int
    var idleTicks: int
    var systemTicks: int
    var userTicks: int
    var fired: seq<Fired>
    ghost var scheduled: seq<Pending>

    ghost function View(): Queue
      reads this, pending
    {
      Queue(totalTicks, pending.contents, fired, scheduled, yieldOnReturn)
    }

    /** The list is intact, time is accounted for, and the order of firing is kept. */
    ghost predicate Intact()
      reads this, pending, pending.elements
    {
      pending.Valid() && QueueInv(View()) && serial == |scheduled| && totalTicks == idleTicks + systemTicks + userTicks
    }

    /** Between operations no handler is running and nothing is due. */
    ghost predicate Valid()
      reads this, pending, pending.elements
    {
      Intact() && NothingDue(View()) && !inHandler
    }

    constructor ()
      ensures Valid() && fresh(pending) && fresh(pending.elements)
      ensures View() == Queue(0, [], [], [], false) && !level && status == SystemMode
    {
      level, inHandler, yieldOnReturn, status, serial := false, false, false, SystemMode, 0;
      totalTicks, idleTicks, systemTicks, userTicks := 0, 0, 0, 0;
      fired, scheduled := [], [];
      pending := new List();
      new;
      assert pending.elements == [];
    }

    method Schedule(toCall: nat, fromNow: int)
      requires Intact() && fromNow > 0
      modifies this`serial, this`scheduled, pending, pending.elements
      ensures Intact() && View() == Scheduled(old(View()), Request(toCall, fromNow))
      ensures multiset(pending.contents) ==
              old(multiset(pending.contents)) + multiset{Pending(old(serial), totalTicks + fromNow, toCall)}
      ensures serial == old(serial) + 1 &&
              scheduled == old(scheduled) + [Pending(old(serial), totalTicks + fromNow, toCall)]
      ensures forall k :: 0 <= k < |pending.elements| ==>
        pending.elements[k] in old(pending.elements) || fresh(pending.elements[k])
    {
      hide QueueInv, NothingDue, Inserted, Ordering, Sorted;
      ghost var r, q := Request(toCall, fromNow), View();
      var when := totalTicks + fromNow;
      var toOccur := Pending(serial, when, toCall);
      NewIsNotPending(q, toOccur);
      ScheduledKeepsInv(q, r);
      InsertedItems(PendingCompare, toOccur, pending.contents);
      pending.Insert(PendingCompare, toOccur);
      serial := serial + 1;
      scheduled := scheduled + [toOccur];
    }

    /** A handler runs: it schedules what it asks for, in order. */
    method CallBack(requests: seq<Request>)
      requires Intact() && Later(requests)
      modifies this`serial, this`scheduled, pending, pending.elements
      ensures Intact() && View() == ScheduledAll(old(View()), requests)
      ensures forall k :: 0 <= k < |pending.elements| ==>
        pending.elements[k] in old(pending.elements) || fresh(pending.elements[k])
    {
      hide Scheduled, QueueInv;
      assert requests[..0] == [];
      for i := 0 to |requests|
        invariant Intact() && View() == ScheduledAll(old(View()), requests[..i])
        invariant forall k :: 0 <= k < |pending.elements| ==>
          pending.elements[k] in old(pending.elements) || fresh(pending.elements[k])
      {
        assert requests[..i + 1][..i] == requests[..i];
        Schedule(requests[i].toCall, requests[i].fromNow);
      }
      assert requests[..|requests|] == requests;
    }

    /** One round of the firing loop: the first pending interrupt is taken off the list and its
        handler called. */
    method FireNext(handlers: Handlers)
      requires Sound(handlers) && Intact() && pending.contents != [] && pending.contents[0].when <= totalTicks
      modifies this`serial, this`scheduled, this`fired, this`yieldOnReturn, pending, pending.elements
      ensures Intact() && View() == FireFirst(old(View()), handlers)
      ensures forall k :: 0 <= k < |pending.elements| ==>
        pending.elements[k] in old(pending.elements) || fresh(pending.elements[k])
    {
      hide QueueInv, FireDue, ScheduledAll;
      var reaction := handlers(fired, pending.Front());
      PoppedKeepsInv(View(), reaction.yieldOnReturn);
      var next := pending.RemoveFront();
      fired := fired + [Fired(next, totalTicks)];
      yieldOnReturn := yieldOnReturn || reaction.yieldOnReturn;
      assert Later(reaction.requests);
      CallBack(reaction.requests);
    }

    /** The firing loop: it ends, with nothing due. */
    method FireAllDue(handlers: Handlers)
      requires Sound(handlers) && Intact() && pending.contents != [] && pending.contents[0].when <= totalTicks
      modifies this`serial, this`scheduled, this`fired, this`yieldOnReturn, pending, pending.elements
      ensures Intact() && NothingDue(View()) && View() == FireDue(old(View()), handlers)
      ensures forall k :: 0 <= k < |pending.elements| ==>
        pending.elements[k] in old(pending.elements) || fresh(pending.elements[k])
    {
      hide QueueInv, FireFirst, Sound;
      var more := true;
      FireDueKeepsInv(View(), handlers);
      while more
        invariant Intact() && FireDue(View(), handlers) == FireDue(old(View()), handlers)
        invariant more == (pending.contents != [] && pending.contents[0].when <= totalTicks)
        invariant forall k :: 0 <= k < |pending.elements| ==>
          pending.elements[k] in old(pending.elements) || fresh(pending.elements[k])
        decreases Due(pending.contents, totalTicks)
      {
        FireFirstUsesUp(View(), handlers);
        FireNext(handlers);
        more := !pending.IsEmpty() && pending.Front().when <= totalTicks;
      }
    }

    /** `advanceClock` skips the time until the first pending interrupt. */
    method CheckIfDue(advanceClock: bool, handlers: Handlers) returns (any: bool)
      requires Sound(handlers) && Intact() && !level && !inHandler
      modifies this`totalTicks, this`idleTicks, this`inHandler
      modifies this`serial, this`scheduled, this`fired, this`yieldOnReturn, pending, pending.elements
      ensures Valid() && View() == FireDue(Advanced(old(View()), advanceClock), handlers)
      ensures any <==> old(pending.contents) != [] && (advanceClock || old(pending.contents[0].when <= totalTicks))
      ensures idleTicks - old(idleTicks) == totalTicks - old(totalTicks)
      ensures forall k :: 0 <= k < |pending.elements| ==>
        pending.elements[k] in old(pending.elements) || fresh(pending.elements[k])
    {
      hide QueueInv, Sound, pending.Valid;
      FireDueKeepsInv(View(), handlers);
      if pending.IsEmpty() {
        return false;
      }
      var next := pending.Front();
      if next.when > totalTicks {
        if !advanceClock {
          return false;
        }
        TimePasses(View(), next.when);
        idleTicks := idleTicks + (next.when - totalTicks);
        totalTicks := next.when;
      }
      inHandler := true;
      FireAllDue(handlers);
      inHandler := false;
      return true;
    }

    /** Simulated time moves on. */
    method AdvanceTime()
      requires Intact()
      modifies this`totalTicks, this`systemTicks, this`userTicks
      ensures Intact() && View() == OneTickOn(old(View()), status)
      ensures systemTicks == old(systemTicks) + if old(status) == SystemMode then SYSTEM_TICK else 0
      ensures userTicks == old(userTicks) + if old(status) == SystemMode then 0 else USER_TICK
    {
      hide QueueInv, pending.Valid;
      TimePasses(View(), totalTicks + TickOf(status));
      if status == SystemMode {
        totalTicks := totalTicks + SYSTEM_TICK;
        systemTicks := systemTicks + SYSTEM_TICK;
      } else {
        totalTicks := totalTicks + USER_TICK;
        userTicks := userTicks + USER_TICK;
      }
    }

    /** Simulated time moves on, by a system or a user tick, and what has become due fires. `yieldNow` asks
        the caller to give up the processor. */
    method OneTick(handlers: Handlers) returns (yieldNow: bool)
      requires Sound(handlers) && Valid()
      modifies this, pending, pending.elements
      ensures Valid() && level && status == old(status)
      ensures var q := FireDue(OneTickOn(old(View()), status), handlers);
              View() == q.(asked := false) && yieldNow == q.asked
      ensures yieldNow <==> old(yieldOnReturn) || YieldAsked(fired, |old(fired)|, handlers)
      ensures idleTicks == old(idleTicks)
      ensures systemTicks == old(systemTicks) + if old(status) == SystemMode then SYSTEM_TICK else 0
      ensures userTicks == old(userTicks) + if old(status) == SystemMode then 0 else USER_TICK
    {
      hide QueueInv, Sound, FireDue, NothingDue, YieldAsked, pending.Valid;
      AdvanceTime();
      level := false;
      FireDueKeepsInv(View(), handlers);
      YieldIsAskedFor(View(), handlers);
      var _ := CheckIfDue(false, handlers);
      level := true;
      yieldNow := yieldOnReturn;
      Unyielded(View());
      yieldOnReturn := false;
    }

    method SetLevel(now: bool, handlers: Handlers) returns (oldLevel: bool, yieldNow: bool)
      requires Sound(handlers) && Valid()
      modifies this, pending, pending.elements
      ensures Valid() && level == now && oldLevel == old(level) && status == old(status)
      ensures !(now && !oldLevel) ==>
        View() == old(View()) && !yieldNow && systemTicks == old(systemTicks) && userTicks == old(userTicks)
      ensures now && !oldLevel ==>
        var q := FireDue(OneTickOn(old(View()), status), handlers); View() == q.(asked := false) && yieldNow == q.asked
      ensures now && !oldLevel ==> (yieldNow <==> old(yieldOnReturn) || YieldAsked(fired, |old(fired)|, handlers))
      ensures idleTicks == old(idleTicks)
      ensures now && !oldLevel ==>
        && systemTicks == old(systemTicks) + (if old(status) == SystemMode then SYSTEM_TICK else 0)
        && userTicks == old(userTicks) + if old(status) == SystemMode then 0 else USER_TICK
    {
      hide QueueInv, Sound, FireDue;
      oldLevel, yieldNow := level, false;
      level := now;
      if now && !oldLevel {
        yieldNow := OneTick(handlers);
      }
    }

    /** Nothing to run: time jumps to the next interrupt, or the machine halts. */
    method Idle(handlers: Handlers) returns (halt: bool)
      requires Sound(handlers) && Valid() && !level
      modifies this, pending, pending.elements
      ensures Valid() && (halt <==> old(pending.contents) == [])
      ensures View() == FireDue(Advanced(old(View()), true), handlers)
      ensures !halt ==> status == SystemMode && totalTicks == old(pending.contents[0].when)
      ensures forall p :: p in old(pending.contents) ==> totalTicks <= p.when
      ensures systemTicks == old(systemTicks) && userTicks == old(userTicks)
    {
      hide QueueInv, Sound, FireDue;
      status := IdleMode;
      ghost var q := View();
      FireDueKeepsInvAfter(q, handlers);
      FirstIsEarliest(q);
      var any := CheckIfDue(true, handlers);
      if any {
        status := SystemMode;
        return false;
      }
      return true;
    }
  }
}
