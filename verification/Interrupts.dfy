// The simulation of hardware interrupts: time advances in ticks, and devices
// schedule interrupts for later times.
module Interrupts {
  import opened Lists
  import Refinement
  import Steps

  const SYSTEM_TICK := 10
  const USER_TICK := 1

  type Delay = d: int | d > 0 witness 1

  // The id stands for the identity of the object.
  datatype Pending = Pending(id: nat, kind: nat, when: int)

  // Device numbers of IntType.
  const DISK_INT := 1
  const NETWORK_RECV_INT := 5

  // What a handler does: schedule interrupts, and maybe ask for a yield.
  datatype Request = Request(fromNow: Delay, kind: nat)
  datatype Answer = Answer(requests: seq<Request>, asksYield: bool)

  // What the handlers do, given all the interrupts fired so far.
  type Handlers = seq<Pending> -> Answer

  function PendingCompare(x: Pending, y: Pending): int {
    if x.when < y.when then -1 else if x.when > y.when then 1 else 0
  }

  // What was asked of Schedule, and when.
  datatype Asked = Asked(at: int, fromNow: Delay, kind: nat)

  // The pending interrupts, the clock, the interrupts fired so far with the
  // time each one fired, and all that was ever asked for.
  datatype Sim = Sim(pending: seq<Pending>, nextId: nat, yieldOnReturn: bool,
                     total: int, idle: int, system: int, user: int,
                     fired: seq<Pending>, times: seq<int>, asked: seq<Asked>)

  function Scheduled(s: Sim, r: Request): Sim {
    var toOccur := Pending(s.nextId, r.kind, s.total + r.fromNow);
    s.(pending := Inserted(s.pending, toOccur, PendingCompare), nextId := s.nextId + 1,
       asked := s.asked + [Asked(s.total, r.fromNow, r.kind)])
  }

  function ScheduleAll(s: Sim, rs: seq<Request>): Sim
    decreases |rs|
  {
    if rs == [] then s else ScheduleAll(Scheduled(s, rs[0]), rs[1..])
  }

  // The first pending interrupt is taken off the list and its handler called.
  function Taken(s: Sim): Sim
    requires s.pending != []
  {
    s.(pending := s.pending[1..], fired := s.fired + [s.pending[0]], times := s.times + [s.total])
  }

  function Fire(s: Sim, h: Handlers): Sim
    requires s.pending != []
  {
    var s1 := Taken(s);
    var a := h(s1.fired);
    ScheduleAll(s1.(yieldOnReturn := s1.yieldOnReturn || a.asksYield), a.requests)
  }

  predicate FrontDue(s: Sim) { s.pending != [] && s.pending[0].when <= s.total }

  function DueCount(q: seq<Pending>, now: int): nat {
    if q == [] then 0 else (if q[0].when <= now then 1 else 0) + DueCount(q[1..], now)
  }

  // What firing everything that is due comes to.
  function Drain(s: Sim, h: Handlers): Sim
    decreases DueCount(s.pending, s.total)
  {
    if FrontDue(s) then FireIsProgress(s, h); Drain(Fire(s, h), h) else s
  }

  // A handler cannot schedule anything for now, so one fewer is due.
  lemma FireIsProgress(s: Sim, h: Handlers)
    requires FrontDue(s)
    ensures DueCount(Fire(s, h).pending, Fire(s, h).total) == DueCount(s.pending, s.total) - 1
  {
    var s1 := Taken(s);
    var a := h(s1.fired);
    ScheduleNotDue(s1.(yieldOnReturn := s1.yieldOnReturn || a.asksYield), a.requests);
  }

  lemma {:induction false} ScheduleNotDue(s: Sim, rs: seq<Request>)
    ensures DueCount(ScheduleAll(s, rs).pending, s.total) == DueCount(s.pending, s.total)
    ensures ScheduleAll(s, rs).total == s.total
    decreases |rs|
  {
    if rs != [] {
      InsertedNotDue(s.pending, Pending(s.nextId, rs[0].kind, s.total + rs[0].fromNow), s.total);
      ScheduleNotDue(Scheduled(s, rs[0]), rs[1..]);
    }
  }

  lemma InsertedNotDue(q: seq<Pending>, x: Pending, now: int)
    requires x.when > now
    ensures DueCount(Inserted(q, x, PendingCompare), now) == DueCount(q, now)
  {
    var p := Place(q, x, PendingCompare);
    DueCountJoin(q[..p], q[p..], now);
    DueCountJoin(q[..p], [x] + q[p..], now);
    assert q[..p] + q[p..] == q && q[..p] + ([x] + q[p..]) == q[..p] + [x] + q[p..];
  }

  lemma {:induction false} DueCountJoin(a: seq<Pending>, b: seq<Pending>, now: int)
    ensures DueCount(a + b, now) == DueCount(a, now) + DueCount(b, now)
  {
    if a == [] {
      assert a + b == b;
    } else {
      assert (a + b)[1..] == a[1..] + b;
      DueCountJoin(a[1..], b, now);
    }
  }

  // ------------------------------------------------------------ invariants

  predicate Before(a: Pending, b: Pending) { a.when < b.when || (a.when == b.when && a.id < b.id) }

  ghost predicate Ordered(q: seq<Pending>) {
    forall i, j :: 0 <= i < j < |q| ==> Before(q[i], q[j])
  }

  // Fired ones first, then pending ones, all in order of time and, for equal
  // times, of scheduling.
  ghost predicate InOrder(s: Sim) { Ordered(s.fired + s.pending) }

  ghost predicate OldIds(s: Sim) { forall i :: 0 <= i < |s.pending| ==> s.pending[i].id < s.nextId }

  // Each one fired no earlier than its time and less than a tick later.
  ghost predicate OnTime(s: Sim) {
    && |s.times| == |s.fired|
    && (forall i :: 0 <= i < |s.fired| ==>
          s.fired[i].when <= s.times[i] <= s.total && s.times[i] < s.fired[i].when + SYSTEM_TICK)
    && forall i :: 0 <= i < |s.pending| ==> s.total < s.pending[i].when + SYSTEM_TICK
  }

  predicate TimeAddsUp(s: Sim) { s.total == s.idle + s.system + s.user }

  ghost predicate Good(s: Sim) { InOrder(s) && OldIds(s) && OnTime(s) && TimeAddsUp(s) }

  // Nothing pending is due.
  ghost predicate NothingDue(s: Sim) { forall i :: 0 <= i < |s.pending| ==> s.pending[i].when > s.total }

  lemma OrderedParts(a: seq<Pending>, b: seq<Pending>)
    requires Ordered(a + b)
    ensures Ordered(a) && Ordered(b)
    ensures forall i, j :: 0 <= i < |a| && 0 <= j < |b| ==> Before(a[i], b[j])
  {
    var ab := a + b;
    forall i, j | 0 <= i < |a| && 0 <= j < |b|
      ensures Before(a[i], b[j])
    {
      assert ab[i] == a[i] && ab[|a| + j] == b[j];
    }
    forall i, j | 0 <= i < j < |b|
      ensures Before(b[i], b[j])
    {
      assert ab[|a| + i] == b[i] && ab[|a| + j] == b[j];
    }
    forall i, j | 0 <= i < j < |a|
      ensures Before(a[i], a[j])
    {
      assert ab[i] == a[i] && ab[j] == a[j];
    }
  }

  lemma OrderedJoin(a: seq<Pending>, b: seq<Pending>)
    requires Ordered(a) && Ordered(b)
    requires forall i, j :: 0 <= i < |a| && 0 <= j < |b| ==> Before(a[i], b[j])
    ensures Ordered(a + b)
  {
  }

  lemma ScheduleKeeps(s: Sim, r: Request)
    requires Good(s)
    ensures Good(Scheduled(s, r)) && (NothingDue(s) ==> NothingDue(Scheduled(s, r)))
    ensures Scheduled(s, r).fired == s.fired && Scheduled(s, r).total == s.total
  {
    hide Before, Place, Inserted;
    var x := Pending(s.nextId, r.kind, s.total + r.fromNow);
    var s' := Scheduled(s, r);
    OrderedParts(s.fired, s.pending);
    InsertedOrdered(s.pending, x);
    forall i, j | 0 <= i < |s.fired| && 0 <= j < |s'.pending|
      ensures Before(s.fired[i], s'.pending[j])
    {
      InsertedFrom(s.pending, x, j);
      if s'.pending[j] == x {
        EarlierBefore(s.fired[i], x);
      }
    }
    OrderedJoin(s.fired, s'.pending);
    forall j | 0 <= j < |s'.pending|
      ensures s'.pending[j].id < s'.nextId && s'.total < s'.pending[j].when + SYSTEM_TICK
      ensures NothingDue(s) ==> s'.pending[j].when > s'.total
    {
      InsertedFrom(s.pending, x, j);
    }
  }

  lemma EarlierBefore(a: Pending, b: Pending)
    requires a.when < b.when
    ensures Before(a, b)
  {
  }

  lemma InsertedFrom(q: seq<Pending>, x: Pending, j: nat)
    requires j < |Inserted(q, x, PendingCompare)|
    ensures var y := Inserted(q, x, PendingCompare)[j]; y == x || exists i :: 0 <= i < |q| && q[i] == y
  {
  }

  // A new interrupt goes after the ones that were scheduled for its time.
  lemma InsertedOrdered(q: seq<Pending>, x: Pending)
    requires Ordered(q) && forall i :: 0 <= i < |q| ==> q[i].id < x.id
    ensures Ordered(Inserted(q, x, PendingCompare))
  {
  }

  lemma OrderedSlices(q: seq<Pending>, p: nat)
    requires Ordered(q) && p <= |q|
    ensures Ordered(q[..p]) && Ordered(q[p..])
    ensures forall i, j :: 0 <= i < p && 0 <= j < |q| - p ==> Before(q[..p][i], q[p..][j])
  {
  }

  lemma {:induction false} ScheduleAllKeeps(s: Sim, rs: seq<Request>)
    requires Good(s)
    ensures Good(ScheduleAll(s, rs)) && (NothingDue(s) ==> NothingDue(ScheduleAll(s, rs)))
    ensures ScheduleAll(s, rs).fired == s.fired && ScheduleAll(s, rs).total == s.total
    decreases |rs|
  {
    if rs != [] {
      ScheduleKeeps(s, rs[0]);
      ScheduleAllKeeps(Scheduled(s, rs[0]), rs[1..]);
    }
  }

  lemma TakenKeeps(s: Sim)
    requires Good(s) && FrontDue(s)
    ensures Good(Taken(s))
  {
    assert s.fired + s.pending == s.fired + [s.pending[0]] + s.pending[1..];
  }

  lemma FireKeeps(s: Sim, h: Handlers)
    requires Good(s) && FrontDue(s)
    ensures Good(Fire(s, h)) && Fire(s, h).fired == s.fired + [s.pending[0]] && Fire(s, h).total == s.total
  {
    hide Good;
    TakenKeeps(s);
    var s1 := Taken(s);
    var a := h(s1.fired);
    YieldKeeps(s1, s1.yieldOnReturn || a.asksYield);
    ScheduleAllKeeps(s1.(yieldOnReturn := s1.yieldOnReturn || a.asksYield), a.requests);
  }

  lemma YieldNothingDue(s: Sim)
    requires NothingDue(s)
    ensures NothingDue(s.(yieldOnReturn := false))
  {
  }

  lemma YieldKeeps(s: Sim, y: bool)
    requires Good(s)
    ensures Good(s.(yieldOnReturn := y))
  {
  }

  // ------------------------------------------------- firing what is due

  // In order, the due ones are the first ones.
  lemma {:induction false} DuePrefix(q: seq<Pending>, now: int)
    requires Ordered(q)
    ensures DueCount(q, now) <= |q|
    ensures forall i :: 0 <= i < |q| ==> (q[i].when <= now <==> i < DueCount(q, now))
  {
    if q != [] {
      OrderedSlices(q, 1);
      DuePrefix(q[1..], now);
      forall i | 0 <= i < |q|
        ensures q[i].when <= now <==> i < DueCount(q, now)
      {
        if i > 0 {
          assert q[i] == q[1..][i - 1];
          assert Before(q[0], q[i]);
          assert q[0].when <= q[i].when;
        } else if q[0].when > now && |q| > 1 {
          assert Before(q[0], q[1]) && q[1..][0] == q[1];
        }
      }
    }
  }

  // What is scheduled goes behind what is due.
  lemma InsertedBehind(q: seq<Pending>, x: Pending, now: int)
    requires Ordered(q) && x.when > now
    ensures DueCount(q, now) <= |q|
    ensures Inserted(q, x, PendingCompare)[..DueCount(q, now)] == q[..DueCount(q, now)]
  {
    hide Place;
    DuePrefix(q, now);
  }

  lemma {:induction false} ScheduledBehind(s: Sim, rs: seq<Request>)
    requires Good(s)
    ensures DueCount(s.pending, s.total) <= |s.pending| && DueCount(s.pending, s.total) <= |ScheduleAll(s, rs).pending|
    ensures ScheduleAll(s, rs).pending[..DueCount(s.pending, s.total)] == s.pending[..DueCount(s.pending, s.total)]
    decreases |rs|
  {
    hide Inserted;
    OrderedParts(s.fired, s.pending);
    DuePrefix(s.pending, s.total);
    if rs != [] {
      var x := Pending(s.nextId, rs[0].kind, s.total + rs[0].fromNow);
      InsertedBehind(s.pending, x, s.total);
      InsertedNotDue(s.pending, x, s.total);
      ScheduleKeeps(s, rs[0]);
      ScheduledBehind(Scheduled(s, rs[0]), rs[1..]);
    }
  }

  lemma FireFrontOnly(s: Sim, h: Handlers)
    requires Good(s) && FrontDue(s)
    ensures var k := DueCount(s.pending, s.total);
            && 1 <= k <= |s.pending| && k - 1 <= |Fire(s, h).pending|
            && Fire(s, h).pending[..k - 1] == s.pending[1..k]
  {
    hide Good, DueCount, ScheduleAll;
    TakenKeeps(s);
    var s1 := Taken(s);
    var a := h(s1.fired);
    var s2 := s1.(yieldOnReturn := s1.yieldOnReturn || a.asksYield);
    YieldKeeps(s1, s2.yieldOnReturn);
    ScheduledBehind(s2, a.requests);
    DueTaken(s.pending, s.total);
    assert s2.pending == s.pending[1..];
  }

  lemma DueTaken(q: seq<Pending>, now: int)
    requires q != [] && q[0].when <= now
    ensures DueCount(q, now) == 1 + DueCount(q[1..], now)
  {
  }

  // Exactly what was due is fired, in its order and at this time; then
  // nothing is due.
  lemma {:induction false} DrainKeeps(s: Sim, h: Handlers)
    requires Good(s)
    ensures Good(Drain(s, h)) && NothingDue(Drain(s, h)) && Drain(s, h).total == s.total
    ensures DueCount(s.pending, s.total) <= |s.pending|
    ensures Drain(s, h).fired == s.fired + s.pending[..DueCount(s.pending, s.total)]
    decreases DueCount(s.pending, s.total)
  {
    hide Good, Fire;
    var k := DueCount(s.pending, s.total);
    GoodPrefix(s);
    if FrontDue(s) {
      FireIsProgress(s, h);
      FireKeeps(s, h);
      FireFrontOnly(s, h);
      DrainKeeps(Fire(s, h), h);
      assert s.pending[..k] == [s.pending[0]] + s.pending[1..k];
    } else {
      assert k == 0;
    }
  }

  lemma GoodPrefix(s: Sim)
    requires Good(s)
    ensures DueCount(s.pending, s.total) <= |s.pending|
    ensures forall i :: 0 <= i < |s.pending| ==> (s.pending[i].when <= s.total <==> i < DueCount(s.pending, s.total))
  {
    OrderedParts(s.fired, s.pending);
    DuePrefix(s.pending, s.total);
  }

  // ------------------------------------------------------ time going by

  datatype Mode = IdleMode | SystemMode | UserMode

  function Ticked(s: Sim, mode: Mode): Sim {
    if mode == SystemMode then s.(total := s.total + SYSTEM_TICK, system := s.system + SYSTEM_TICK)
    else s.(total := s.total + USER_TICK, user := s.user + USER_TICK)
  }

  // The clock is moved on to the next interrupt.
  function Advanced(s: Sim): Sim {
    if s.pending != [] && s.pending[0].when > s.total
    then s.(idle := s.idle + (s.pending[0].when - s.total), total := s.pending[0].when)
    else s
  }

  lemma TickKeeps(s: Sim, mode: Mode)
    requires Good(s) && NothingDue(s)
    ensures Good(Ticked(s, mode))
  {
  }

  lemma AdvanceKeeps(s: Sim)
    requires Good(s) && NothingDue(s)
    ensures Good(Advanced(s)) && (s.pending != [] ==> FrontDue(Advanced(s)))
  {
    if s.pending != [] {
      OrderedParts(s.fired, s.pending);
      forall i | 0 <= i < |s.pending|
        ensures s.pending[0].when <= s.pending[i].when
      {
        assert i == 0 || Before(s.pending[0], s.pending[i]);
      }
    }
  }

  // A new simulation.
  const NEW_SIM := Sim([], 0, false, 0, 0, 0, 0, [], [], [])

  lemma StartIsGood(s: Sim)
    requires s == NEW_SIM
    ensures Good(s) && NothingDue(s)
  {
  }

  // Between two observations: a tick, idling, or a device scheduling an
  // interrupt; the handlers may be any.
  ghost predicate TickStep(s: Sim, s': Sim, mode: Mode, h: Handlers) {
    s' == Drain(Ticked(s, mode), h).(yieldOnReturn := false)
  }

  ghost predicate IdleStep(s: Sim, s': Sim, h: Handlers) { s' == Drain(Advanced(s), h) }

  ghost predicate DeviceStep(s: Sim, s': Sim, r: Request) { s' == Scheduled(s, r) }

  ghost predicate Step(s: Sim, s': Sim) {
    || (exists mode, h :: TickStep(s, s', mode, h))
    || (exists h :: IdleStep(s, s', h))
    || (exists r :: DeviceStep(s, s', r))
  }

  lemma StepKeeps(s: Sim, s': Sim)
    requires Good(s) && NothingDue(s) && Step(s, s')
    ensures Good(s') && NothingDue(s')
  {
    hide Good, NothingDue, Drain, Ticked, Advanced, Scheduled;
    if mode, h :| TickStep(s, s', mode, h) {
      TickKeeps(s, mode);
      DrainKeeps(Ticked(s, mode), h);
      YieldKeeps(Drain(Ticked(s, mode), h), false);
      YieldNothingDue(Drain(Ticked(s, mode), h));
    } else if h :| IdleStep(s, s', h) {
      AdvanceKeeps(s);
      DrainKeeps(Advanced(s), h);
    } else {
      var r :| DeviceStep(s, s', r);
      ScheduleKeeps(s, r);
    }
  }

  // Over every run: nothing due is pending, and the time adds up.
  lemma {:induction false} RunsAreGood(run: seq<Sim>)
    requires run != [] && run[0] == NEW_SIM
    requires forall k :: 0 <= k < |run| - 1 ==> Step(run[k], run[k + 1])
    ensures Good(run[|run| - 1]) && NothingDue(run[|run| - 1])
  {
    hide Good, NothingDue, Step;
    if |run| == 1 {
      StartIsGood(run[0]);
    } else {
      RunsAreGood(run[..|run| - 1]);
      StepKeeps(run[|run| - 2], run[|run| - 1]);
    }
  }

  // Over every run: interrupts fire in order of time, those for the same
  // time in the order they were scheduled, never early and less than a tick
  // late.
  lemma FiringOrder(run: seq<Sim>, i: nat, j: nat)
    requires run != [] && run[0] == NEW_SIM
    requires forall k :: 0 <= k < |run| - 1 ==> Step(run[k], run[k + 1])
    requires i < j < |run[|run| - 1].fired|
    ensures var s := run[|run| - 1];
            && s.fired[i].when <= s.fired[j].when
            && (s.fired[i].when == s.fired[j].when ==> s.fired[i].id < s.fired[j].id)
            && |s.times| == |s.fired| && s.fired[i].when <= s.times[i] < s.fired[i].when + SYSTEM_TICK
  {
    hide Step;
    RunsAreGood(run);
    var s := run[|run| - 1];
    OrderedParts(s.fired, s.pending);
  }

  // ---------------------------------------------------- the object itself

  class Statistics {
    var totalTicks: int
    var idleTicks: int
    var systemTicks: int
    var userTicks: int

    constructor ()
      ensures totalTicks == idleTicks == systemTicks == userTicks == 0
    {
      totalTicks, idleTicks, systemTicks, userTicks := 0, 0, 0, 0;
    }
  }

  // The processor, once the kernel has made its machine.
  datatype Processor = NoMachine | Processor(cpu: Steps.CpuState)

  // Before handlers run, a pending load is completed.
  function LoadDone(p: Processor): Processor {
    if p.NoMachine? then p else Processor(Refinement.Commit(p.cpu))
  }

  // The pending load lands in its register, register 0 stays zero, no load is
  // pending any more, and nothing else changes.
  lemma LoadLands(p: Processor)
    requires p.Processor?
    ensures LoadDone(p).Processor?
    ensures var c, c' := p.cpu, LoadDone(p).cpu;
            && (forall r :: 0 <= r < 34 ==>
                  c'.regs[r] == if r == 0 then 0 else if r == c.loadReg then c.loadValue else c.regs[r])
            && c'.loadReg == 0 && c'.loadValue == 0
            && c'.pc == c.pc && c'.nextPc == c.nextPc && c'.prevPc == c.prevPc && c'.badVAddr == c.badVAddr
  {
  }

  class Interrupt {
    var machine: Processor
    var enabled: bool
    const pending: List<Pending>
    const stats: Statistics
    var inHandler: bool
    var yieldOnReturn: bool
    var status: Mode
    var nextId: nat
    var fired: seq<Pending>
    ghost var times: seq<int>
    ghost var asked: seq<Asked>

    ghost predicate Valid()
      reads this, pending, pending.repr, stats
    {
      pending.Valid()
    }

    ghost function State(): Sim
      reads this, pending, stats
    {
      Sim(pending.items, nextId, yieldOnReturn,
          stats.totalTicks, stats.idleTicks, stats.systemTicks, stats.userTicks, fired, times, asked)
    }

    constructor ()
      ensures Valid() && State() == NEW_SIM
      ensures !enabled && !inHandler && status == SystemMode && machine == NoMachine && fresh(pending) && fresh(stats)
    {
      pending := new List<Pending>();
      stats := new Statistics();
      enabled, inHandler, yieldOnReturn, status, machine := false, false, false, SystemMode, NoMachine;
      nextId, fired, times, asked := 0, [], [], [];
    }

    method Schedule(r: Request)
      requires Valid() && OldIds(State())
      modifies this`nextId, this`asked, pending, pending.repr
      ensures Valid() && State() == Scheduled(old(State()), r)
      ensures Pending(old(nextId), r.kind, old(stats.totalTicks) + r.fromNow) in pending.items
      ensures forall p :: p in old(pending.items) ==> p in pending.items
      ensures fresh(pending.repr - old(pending.repr))
    {
      hide List.Valid, Inserted;
      NewIsNew(State(), r.kind, stats.totalTicks + r.fromNow);
      InsertedHas(pending.items, Pending(nextId, r.kind, stats.totalTicks + r.fromNow));
      var toOccur := Pending(nextId, r.kind, stats.totalTicks + r.fromNow);
      nextId := nextId + 1;
      asked := asked + [Asked(stats.totalTicks, r.fromNow, r.kind)];
      pending.Insert(toOccur, PendingCompare);
    }

    // The first pending interrupt is pulled off the list and its handler run.
    method FireFront(h: Handlers)
      requires Valid() && Good(State()) && FrontDue(State())
      modifies this`nextId, this`asked, this`fired, this`times, this`yieldOnReturn, pending, pending.repr
      ensures Valid() && State() == Fire(old(State()), h)
      ensures fresh(pending.repr - old(pending.repr))
    {
      hide Scheduled, Good, List.Valid, OldIds;
      TakenKeeps(State());
      NotEmptyItems();
      var next := pending.RemoveFront();
      fired, times := fired + [next], times + [stats.totalTicks];
      assert State() == Taken(old(State()));
      var answer := h(fired);
      YieldKeeps(State(), yieldOnReturn || answer.asksYield);
      if answer.asksYield {
        yieldOnReturn := true;
      }
      ScheduleEach(answer.requests);
    }

    // What a handler schedules, one after the other.
    method ScheduleEach(requests: seq<Request>)
      requires Valid() && Good(State())
      modifies this`nextId, this`asked, pending, pending.repr
      ensures Valid() && State() == ScheduleAll(old(State()), requests)
      ensures fresh(pending.repr - old(pending.repr))
    {
      hide Scheduled, Good, List.Valid, OldIds;
      var i := 0;
      while i < |requests|
        invariant i <= |requests| && Valid() && Good(State())
        invariant ScheduleAll(State(), requests[i..]) == ScheduleAll(old(State()), requests)
        invariant fresh(pending.repr - old(pending.repr))
      {
        ScheduleKeeps(State(), requests[i]);
        assert requests[i..][1..] == requests[i + 1..];
        GoodIds(State());
        Schedule(requests[i]);
        i := i + 1;
      }
    }

    lemma NotEmptyItems()
      requires Valid()
      ensures pending.IsEmpty() <==> pending.items == []
    {
    }

    // Fires what is due; true if there was anything.
    method CheckIfDue(advanceClock: bool, h: Handlers) returns (any: bool)
      requires Valid() && Good(State()) && !enabled      // the source's ASSERT
      modifies this`nextId, this`asked, this`fired, this`times, this`yieldOnReturn, this`inHandler, this`machine
      modifies pending, pending.repr, stats
      ensures Valid()
      ensures var s := if advanceClock then Advanced(old(State())) else old(State());
              State() == Drain(s, h) && any == FrontDue(s)
      ensures machine == if any then LoadDone(old(machine)) else old(machine)
      ensures inHandler == (if any then false else old(inHandler))
      ensures fresh(pending.repr - old(pending.repr))
    {
      hide Fire, Good, List.Valid;
      NotEmptyItems();
      if pending.IsEmpty() {
        return false;
      }
      var next := Front();
      if next.when > stats.totalTicks {
        if !advanceClock {
          return false;
        }
        AdvanceOnly(State());
        stats.idleTicks := stats.idleTicks + (next.when - stats.totalTicks);
        stats.totalTicks := next.when;
      }
      machine := LoadDone(machine);
      inHandler := true;
      FireAllDue(h);
      inHandler := false;
      return true;
    }

    // Handlers are run as long as the first pending interrupt is due, but one
    // at least.
    method FireAllDue(h: Handlers)
      requires Valid() && Good(State()) && FrontDue(State())
      modifies this`nextId, this`asked, this`fired, this`times, this`yieldOnReturn, pending, pending.repr
      ensures Valid() && State() == Drain(old(State()), h)
      ensures fresh(pending.repr - old(pending.repr))
    {
      hide Fire, Good, List.Valid;
      ghost var s := State();
      FireIsProgress(s, h);
      FireKeeps(s, h);
      FireFront(h);
      var more := MoreDue();
      while more
        invariant Valid() && Good(State()) && more == FrontDue(State()) && Drain(State(), h) == Drain(s, h)
        invariant fresh(pending.repr - old(pending.repr))
        decreases DueCount(State().pending, State().total)
      {
        FireIsProgress(State(), h);
        FireKeeps(State(), h);
        FireFront(h);
        more := MoreDue();
      }
    }

    method MoreDue() returns (more: bool)
      requires Valid()
      ensures more == FrontDue(State())
    {
      NotEmptyItems();
      if pending.IsEmpty() {
        return false;
      }
      var next := Front();
      return next.when <= stats.totalTicks;
    }

    method Front() returns (next: Pending)
      requires Valid() && pending.items != []
      ensures next == pending.items[0]
    {
      next := pending.first.item;
    }

    // The tick of the mode.
    method AdvanceTick()
      requires Valid()
      modifies stats
      ensures Valid() && State() == Ticked(old(State()), status)
    {
      hide List.Valid;
      if status == SystemMode {
        stats.totalTicks := stats.totalTicks + SYSTEM_TICK;
        stats.systemTicks := stats.systemTicks + SYSTEM_TICK;
      } else {
        stats.totalTicks := stats.totalTicks + USER_TICK;
        stats.userTicks := stats.userTicks + USER_TICK;
      }
    }

    // One tick: what came due is fired, and then nothing is due.
    method OneTick(h: Handlers) returns (mustYield: bool)
      requires Valid() && Good(State()) && NothingDue(State()) && !inHandler
      modifies this, pending, pending.repr, stats
      ensures Valid() && Good(State()) && NothingDue(State())
      ensures var s := Drain(Ticked(old(State()), old(status)), h);
              State() == s.(yieldOnReturn := false) && mustYield == s.yieldOnReturn
      ensures enabled && status == old(status) && !inHandler
      ensures machine == if FrontDue(Ticked(old(State()), old(status))) then LoadDone(old(machine)) else old(machine)
      ensures fresh(pending.repr - old(pending.repr))
    {
      hide Good, Drain, List.Valid, NothingDue, LoadDone, Ticked;
      TickKeeps(State(), status);
      AdvanceTick();
      DrainKeeps(State(), h);
      enabled := false;
      var any := CheckIfDue(false, h);
      enabled := true;
      mustYield := yieldOnReturn;
      YieldKeeps(State(), false);
      YieldNothingDue(State());
      yieldOnReturn := false;
    }

    // Interrupts on or off; turning them on takes a tick.
    method SetLevel(now: bool, h: Handlers) returns (before: bool, mustYield: bool)
      requires Valid() && Good(State()) && NothingDue(State())
      requires !now || !inHandler      // the source's ASSERT
      modifies this, pending, pending.repr, stats
      ensures Valid() && Good(State()) && NothingDue(State())
      ensures before == old(enabled) && enabled == now && inHandler == old(inHandler)
      ensures if now && !before then
                var s := Drain(Ticked(old(State()), old(status)), h);
                State() == s.(yieldOnReturn := false) && mustYield == s.yieldOnReturn
              else State() == old(State()) && !mustYield
      ensures machine == if now && !before && FrontDue(Ticked(old(State()), old(status))) then LoadDone(old(machine))
                         else old(machine)
    {
      hide Good, Drain, Ticked, List.Valid;
      before, mustYield := enabled, false;
      enabled := now;
      if now && !before {
        mustYield := OneTick(h);
      }
    }

    // No thread can run: time moves to the next interrupt.  False if there
    // is none, and the machine halts.
    method Idle(h: Handlers) returns (resumed: bool)
      requires Valid() && Good(State()) && NothingDue(State()) && !enabled && !inHandler
      modifies this, pending, pending.repr, stats
      ensures Valid() && Good(State()) && NothingDue(State())
      ensures State() == Drain(Advanced(old(State())), h) && resumed == (old(pending.items) != [])
      ensures resumed ==> status == SystemMode && !inHandler && State().total == old(pending.items)[0].when
      ensures machine == if resumed then LoadDone(old(machine)) else old(machine)
    {
      hide Good, Drain, List.Valid;
      status := IdleMode;
      AdvanceKeeps(State());
      DrainKeeps(Advanced(State()), h);
      resumed := CheckIfDue(true, h);
      if resumed {
        status := SystemMode;
      }
    }
  }

  lemma AdvanceOnly(s: Sim)
    requires Good(s) && s.pending != [] && s.pending[0].when > s.total
    ensures Good(Advanced(s))
  {
    OrderedParts(s.fired, s.pending);
    forall i | 0 <= i < |s.pending|
      ensures s.pending[0].when <= s.pending[i].when
    {
      assert i == 0 || Before(s.pending[0], s.pending[i]);
    }
  }

  lemma InsertedHas(q: seq<Pending>, x: Pending)
    ensures x in Inserted(q, x, PendingCompare)
    ensures forall y :: y in q ==> y in Inserted(q, x, PendingCompare)
  {
    var p := Place(q, x, PendingCompare);
    assert q == q[..p] + q[p..];
  }

  lemma NewIsNew(s: Sim, kind: nat, when: int)
    requires OldIds(s)
    ensures Pending(s.nextId, kind, when) !in s.pending
  {
  }

  lemma GoodIds(s: Sim)
    requires Good(s)
    ensures OldIds(s)
  {
  }
}
