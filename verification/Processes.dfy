// Priority scheduling of processes with a time quantum: the ready list is
// sorted by priority, and processes of equal priority take turns.
module Processes {
  import opened Words
  import opened Lists

  datatype Process = Process(id: int, priority: HostInt)

  // The source's comparison is a difference of host ints, which wraps around.
  function ProcessCompare(x: Process, y: Process): int { Host(y.priority - x.priority) }

  // What it is meant to be.
  function PriorityOrder(x: Process, y: Process): int { y.priority - x.priority }

  lemma OrdersWell()
    ensures TotalPreorder(PriorityOrder)
  {
  }

  predicate Close(x: Process, y: Process) { -0x8000_0000 < x.priority - y.priority < 0x8000_0000 }

  ghost predicate AllClose(ready: seq<Process>, p: Process) { forall i :: 0 <= i < |ready| ==> Close(ready[i], p) }

  // The comparison puts two processes in order, whichever becomes ready
  // first, if and only if their priorities are less than 2^31 apart.
  lemma TwoSortedIff(x: Process, y: Process)
    ensures Close(x, y) <==>
              && Sorted(Inserted([x], y, ProcessCompare), PriorityOrder)
              && Sorted(Inserted([y], x, ProcessCompare), PriorityOrder)
  {
    hide Host, Inserted, Sorted;
    Wraps(x.priority - y.priority);
    Wraps(y.priority - x.priority);
    InsertedInOne(x, y, ProcessCompare);
    InsertedInOne(y, x, ProcessCompare);
    SortedTwo(x, y, PriorityOrder);
    SortedTwo(y, x, PriorityOrder);
  }

  lemma Wraps(d: int)
    requires -0x1_0000_0000 < d < 0x1_0000_0000
    ensures Host(d) == if d >= 0x8000_0000 then d - 0x1_0000_0000 else if d < -0x8000_0000 then d + 0x1_0000_0000 else d
  {
  }

  lemma SameSign(x: Process, y: Process)
    requires Close(x, y)
    ensures ProcessCompare(x, y) == PriorityOrder(x, y)
  {
  }

  // Among close priorities the insertion is the one that is meant.
  lemma InsertedSame(ready: seq<Process>, p: Process)
    requires AllClose(ready, p)
    ensures Place(ready, p, ProcessCompare) == Place(ready, p, PriorityOrder)
    ensures Inserted(ready, p, ProcessCompare) == Inserted(ready, p, PriorityOrder)
  {
    forall i | 0 <= i < |ready|
      ensures ProcessCompare(p, ready[i]) == PriorityOrder(p, ready[i])
    {
      SameSign(p, ready[i]);
    }
    SamePlace(ready, p, ProcessCompare, PriorityOrder);
  }

  // The running process, the ready ones, how long each has run, and which
  // ones wait for their children.  kept is not the kernel's: it counts the
  // timer ticks through which the running process has kept the processor
  // while one of its priority was ready.
  datatype Cpu = Cpu(current: Process, ready: seq<Process>, time: map<Process, int>, waiting: set<Process>,
                     quantum: int, kept: nat)

  function TimeOf(c: Cpu, p: Process): int { if p in c.time then c.time[p] else 0 }

  predicate EqualReady(c: Cpu) { exists i :: 0 <= i < |c.ready| && c.ready[i].priority == c.current.priority }

  // ------------------------------------------------------------- decisions

  function ReadyToRun(c: Cpu, p: Process): Cpu {
    c.(ready := Inserted(c.ready, p, ProcessCompare),
       kept := if EqualReady(c) then c.kept else 0)
  }

  // Process::Yield switches: to the front of the ready list.
  predicate MustSwitch(c: Cpu)
    requires c.ready != []
  {
    || c.current in c.waiting
    || c.ready[0].priority > c.current.priority
    || (TimeOf(c, c.current) >= c.quantum && c.ready[0].priority == c.current.priority)
  }

  predicate Switches(c: Cpu) { c.ready != [] && MustSwitch(c) }

  function Yield(c: Cpu): Cpu {
    if Switches(c) then
      var rest := c.ready[1..];
      c.(current := c.ready[0], time := c.time[c.current := 0], kept := 0,
         ready := if c.current in c.waiting then rest else Inserted(rest, c.current, ProcessCompare))
    else if TimeOf(c, c.current) >= c.quantum then c.(time := c.time[c.current := 0])
    else c
  }

  // Process::Sleep: the running process blocks or terminates.
  function Sleep(c: Cpu): Cpu
    requires c.ready != []
  {
    c.(current := c.ready[0], ready := c.ready[1..], time := c.time[c.ready[0] := -1], kept := 0)
  }

  // Several processes become ready, one after the other.
  function AllReady(c: Cpu, ps: seq<Process>): Cpu {
    if ps == [] then c else ReadyToRun(AllReady(c, ps[..|ps| - 1]), ps[|ps| - 1])
  }

  // One call of Idle: whether the timer is among its interrupts, and which
  // processes they make ready.
  datatype IdleCall = IdleCall(timer: bool, ready: seq<Process>)

  // The timer goes on counting for the process that went to sleep.
  function AfterIdle(c: Cpu, call: IdleCall): Cpu {
    AllReady(if call.timer then Ticked(c) else c, call.ready)
  }

  // The processor idles until an interrupt has made some process ready.
  function IdleUntilReady(c: Cpu, calls: seq<IdleCall>): Cpu
    decreases |calls|
  {
    if c.ready != [] || calls == [] then c else IdleUntilReady(AfterIdle(c, calls[0]), calls[1..])
  }

  // Alarm::CallBack: the process ran for one more tick.
  function Ticked(c: Cpu): Cpu { c.(time := c.time[c.current := TimeOf(c, c.current) + 1]) }

  // A timer interrupt while a process runs: the tick, then a yield.
  function Tick(c: Cpu): Cpu {
    var c' := Yield(Ticked(c));
    if c'.current == c.current && EqualReady(c) then c'.(kept := c.kept + 1) else c'.(kept := 0)
  }

  // ------------------------------------------------------------ invariants

  // No recorded time is below -1, the time a process is given when it wakes or
  // follows one that sleeps, and a process that kept the processor has run at
  // least as long as it kept it.
  ghost predicate Good(c: Cpu) {
    && Sorted(c.ready, PriorityOrder) && NoRepeats(c.ready) && c.current !in c.ready
    && (forall p :: p in c.time ==> c.time[p] >= -1)
    && (EqualReady(c) ==> c.kept <= TimeOf(c, c.current) + 1)
    && (c.kept > 0 ==> c.kept <= c.quantum)
  }

  // The priorities of the processes that run or are ready are close.
  ghost predicate Near(c: Cpu) {
    && AllClose(c.ready, c.current)
    && forall i, j :: 0 <= i < j < |c.ready| ==> Close(c.ready[i], c.ready[j])
  }

  // The running process is of the highest priority.
  ghost predicate HighestRuns(c: Cpu) {
    forall i :: 0 <= i < |c.ready| ==> c.ready[i].priority <= c.current.priority
  }

  lemma FrontHighest(ready: seq<Process>)
    requires Sorted(ready, PriorityOrder)
    ensures forall i :: 0 <= i < |ready| ==> ready[i].priority <= ready[0].priority
  {
  }

  // ----------------------------------------------------- taking turns

  // The ready processes of one priority, in order.
  function Level(ready: seq<Process>, priority: int): seq<Process> {
    if ready == [] then []
    else (if ready[0].priority == priority then [ready[0]] else []) + Level(ready[1..], priority)
  }

  lemma {:induction false} LevelJoin(a: seq<Process>, b: seq<Process>, priority: int)
    ensures Level(a + b, priority) == Level(a, priority) + Level(b, priority)
  {
    if a == [] {
      assert a + b == b;
    } else {
      LevelJoin(a[1..], b, priority);
      assert (a + b)[0] == a[0] && (a + b)[1..] == a[1..] + b;
      var first := if a[0].priority == priority then [a[0]] else [];
      assert first + (Level(a[1..], priority) + Level(b, priority)) ==
               first + Level(a[1..], priority) + Level(b, priority);
    }
  }

  lemma {:induction false} LevelNone(ready: seq<Process>, priority: int)
    requires forall i :: 0 <= i < |ready| ==> ready[i].priority != priority
    ensures Level(ready, priority) == []
  {
    if ready != [] {
      LevelNone(ready[1..], priority);
    }
  }

  // A process that becomes ready goes behind its equals, and the other
  // priorities are not disturbed.
  lemma ReadyBehindEquals(ready: seq<Process>, p: Process, priority: int)
    requires Sorted(ready, PriorityOrder) && AllClose(ready, p)
    ensures Level(Inserted(ready, p, ProcessCompare), priority)
         == Level(ready, priority) + (if p.priority == priority then [p] else [])
  {
    hide Level, Place;
    OrdersWell();
    InsertedSame(ready, p);
    PlaceSplits(ready, p, PriorityOrder);
    var k := Place(ready, p, PriorityOrder);
    var a, b := ready[..k], ready[k..];
    LevelJoin(a, b, priority);
    LevelJoin(a + [p], b, priority);
    LevelJoin(a, [p], priority);
    LevelOne(p, priority);
    assert ready == a + b;
    if p.priority == priority {
      LevelNone(b, priority);
    }
  }

  lemma LevelOne(p: Process, priority: int)
    ensures Level([p], priority) == if p.priority == priority then [p] else []
  {
  }

  // When the quantum is used up and an equal is ready, the running process
  // goes to the end of its equals, and the first of them runs.
  lemma TurnsRotate(c: Cpu)
    requires Good(c) && Near(c) && c.ready != [] && c.current !in c.waiting
    requires c.ready[0].priority == c.current.priority && TimeOf(c, c.current) >= c.quantum
    ensures var equals := Level(c.ready, c.current.priority);
            && equals != [] && Yield(c).current == equals[0]
            && Level(Yield(c).ready, c.current.priority) == equals[1..] + [c.current]
  {
    hide Inserted;
    WithoutFirst(c.ready);
    ReadyBehindEquals(c.ready[1..], c.current, c.current.priority);
  }

  lemma WithoutFirst(ready: seq<Process>)
    requires ready != [] && Sorted(ready, PriorityOrder) && NoRepeats(ready)
    ensures Sorted(ready[1..], PriorityOrder) && NoRepeats(ready[1..]) && ready[0] !in ready[1..]
  {
  }

  // ----------------------------------------------------- the steps keep them

  lemma ReadyToRunKeeps(c: Cpu, p: Process)
    requires Good(c) && AllClose(c.ready, p) && p !in c.ready && p != c.current
    ensures Good(ReadyToRun(c, p))
  {
    hide Inserted, Sorted, NoRepeats;
    var c' := ReadyToRun(c, p);
    OrdersWell();
    InsertedSame(c.ready, p);
    InsertedSorted(c.ready, p, PriorityOrder);
    InsertedUnique(c.ready, p, PriorityOrder);
    InsertedMembers(c.ready, p);
    forall i | 0 <= i < |c'.ready|
      ensures c'.ready[i] != c'.current
    {
      assert c'.ready[i] in c'.ready;
    }
  }

  lemma InsertedMembers(ready: seq<Process>, p: Process)
    ensures forall q :: q in Inserted(ready, p, ProcessCompare) <==> q == p || q in ready
  {
  }

  // After a yield the highest priority runs.
  lemma YieldKeeps(c: Cpu)
    requires Good(c) && Near(c)
    ensures Good(Yield(c))
    ensures HighestRuns(Yield(c))
  {
    hide Inserted, Sorted, NoRepeats;
    FrontHighest(c.ready);
    if c.ready != [] && MustSwitch(c) {
      SwitchKeeps(c);
    }
  }

  lemma SwitchKeeps(c: Cpu)
    requires Good(c) && Near(c) && c.ready != [] && MustSwitch(c)
    ensures Good(Yield(c)) && HighestRuns(Yield(c))
  {
    hide Inserted, Sorted, NoRepeats, Near;
    SwitchedReady(c);
    ReadyAfterSwitch(c);
  }

  lemma SwitchedReady(c: Cpu)
    requires Good(c) && Near(c) && c.ready != [] && MustSwitch(c)
    ensures Sorted(Yield(c).ready, PriorityOrder) && NoRepeats(Yield(c).ready)
  {
    hide Inserted, Sorted, NoRepeats, AllClose, Near, TotalPreorder, ProcessCompare, PriorityOrder;
    WithoutFirst(c.ready);
    var rest := c.ready[1..];
    if c.current !in c.waiting {
      RestClose(c);
      OrdersWell();
      InsertedSame(rest, c.current);
      InsertedSorted(rest, c.current, PriorityOrder);
      InsertedUnique(rest, c.current, PriorityOrder);
    }
  }

  lemma RestClose(c: Cpu)
    requires Near(c) && c.ready != []
    ensures AllClose(c.ready[1..], c.current)
  {
  }

  lemma ReadyAfterSwitch(c: Cpu)
    requires Good(c) && c.ready != [] && MustSwitch(c)
    ensures forall i :: 0 <= i < |Yield(c).ready| ==>
              var p := Yield(c).ready[i];
              p != Yield(c).current && p.priority <= Yield(c).current.priority
  {
    hide Inserted, Sorted, NoRepeats;
    FrontHighest(c.ready);
    WithoutFirst(c.ready);
    InsertedMembers(c.ready[1..], c.current);
    var c' := Yield(c);
    forall i | 0 <= i < |c'.ready|
      ensures c'.ready[i] in c.ready[1..] || c'.ready[i] == c.current
    {
      assert c'.ready[i] in c'.ready;
    }
  }

  lemma SleepKeeps(c: Cpu)
    requires Good(c) && c.ready != []
    ensures Good(Sleep(c)) && HighestRuns(Sleep(c))
  {
  }

  lemma TickKeeps(c: Cpu)
    requires Good(c) && Near(c)
    ensures Good(Tick(c)) && HighestRuns(Tick(c))
  {
    hide Inserted, Sorted, NoRepeats;
    var t := Ticked(c);
    assert TimeOf(t, c.current) == TimeOf(c, c.current) + 1;
    FrontHighest(c.ready);
    if EqualReady(c) {
      KeptForNow(c);
    }
    if c.ready != [] && MustSwitch(t) {
      SwitchKeeps(t.(kept := 0));
    }
  }

  // One more tick uses up the quantum at the latest when it has kept the
  // processor that long from an equal.
  lemma KeptForNow(c: Cpu)
    requires Good(c) && EqualReady(c)
    ensures c.ready != [] && c.ready[0].priority >= c.current.priority
    ensures !MustSwitch(Ticked(c)) ==> c.kept + 1 <= TimeOf(Ticked(c), c.current) + 1 <= c.quantum
  {
  }

  // ---------------------------------------------------------------- runs

  ghost predicate ReadyStep(c: Cpu, c': Cpu, p: Process) {
    p !in c.ready && p != c.current && c' == ReadyToRun(c, p)
  }

  // The last child terminates and makes its waiting parent ready.
  ghost predicate WakeStep(c: Cpu, c': Cpu, p: Process) {
    p !in c.ready && p != c.current && c' == ReadyToRun(c.(time := c.time[p := -1], waiting := c.waiting - {p}), p)
  }

  ghost predicate JoinStep(c: Cpu, c': Cpu, p: Process) { c' == c.(waiting := c.waiting + {p}) }

  ghost predicate Step(c: Cpu, c': Cpu) {
    || c' == Tick(c) || c' == Yield(c) || (c.ready != [] && c' == Sleep(c))
    || (c.ready == [] && c' == Ticked(c))      // the timer while the processor idles
    || (exists p :: ReadyStep(c, c', p)) || (exists p :: WakeStep(c, c', p)) || (exists p :: JoinStep(c, c', p))
  }

  ghost predicate Start(c: Cpu) { c.ready == [] && c.time == map[] && c.kept == 0 }

  lemma WakeKeeps(c: Cpu, p: Process)
    requires Good(c) && AllClose(c.ready, p) && p !in c.ready && p != c.current
    ensures Good(ReadyToRun(c.(time := c.time[p := -1], waiting := c.waiting - {p}), p))
  {
    hide Inserted;
    ReadyToRunKeeps(c.(time := c.time[p := -1], waiting := c.waiting - {p}), p);
  }

  lemma IdleTickKeeps(c: Cpu)
    requires Good(c) && c.ready == []
    ensures Good(Ticked(c))
  {
  }

  lemma CloseToReady(c: Cpu, p: Process)
    requires Near(ReadyToRun(c, p)) && p !in c.ready
    ensures AllClose(c.ready, p)
  {
    var ready := ReadyToRun(c, p).ready;
    InsertedMembers(c.ready, p);
    hide Inserted;
    forall i | 0 <= i < |c.ready|
      ensures Close(c.ready[i], p)
    {
      assert c.ready[i] in ready && p in ready;
    }
  }

  lemma StepKeeps(c: Cpu, c': Cpu)
    requires Good(c) && Step(c, c') && Near(c) && Near(c')
    ensures Good(c')
  {
    hide Tick, Yield, Sleep, ReadyToRun, Sorted, NoRepeats, Near;
    if c' == Tick(c) {
      TickKeeps(c);
    } else if c' == Yield(c) {
      YieldKeeps(c);
    } else if c.ready != [] && c' == Sleep(c) {
      SleepKeeps(c);
    } else if c.ready == [] && c' == Ticked(c) {
      IdleTickKeeps(c);
    } else if p :| ReadyStep(c, c', p) {
      CloseToReady(c, p);
      ReadyToRunKeeps(c, p);
    } else if p :| WakeStep(c, c', p) {
      CloseToReady(c.(time := c.time[p := -1], waiting := c.waiting - {p}), p);
      WakeKeeps(c, p);
    }
  }

  lemma {:induction false} RunsAreGood(run: seq<Cpu>)
    requires run != [] && Start(run[0])
    requires forall k :: 0 <= k < |run| - 1 ==> Step(run[k], run[k + 1])
    requires forall k :: 0 <= k < |run| ==> Near(run[k])
    ensures Good(run[|run| - 1])
  {
    hide Step, Near;
    if |run| > 1 {
      RunsAreGood(run[..|run| - 1]);
      StepKeeps(run[|run| - 2], run[|run| - 1]);
    }
  }

  // While an equal is ready, no process keeps the processor through more
  // timer ticks than the quantum: the tick after that takes it away.
  lemma QuantumBound(run: seq<Cpu>)
    requires run != [] && Start(run[0])
    requires forall k :: 0 <= k < |run| - 1 ==> Step(run[k], run[k + 1])
    requires forall k :: 0 <= k < |run| ==> Near(run[k])
    ensures var c := run[|run| - 1];
            && (c.kept > 0 ==> c.kept <= c.quantum)
            && (EqualReady(c) && c.kept >= c.quantum ==> Tick(c).current != c.current)
            && HighestRuns(Yield(c)) && HighestRuns(Tick(c))
            && (c.ready != [] ==> HighestRuns(Sleep(c)) && Sleep(c).current !in Sleep(c).ready)
            && Yield(c).current !in Yield(c).ready
  {
    hide Step, Tick, Yield, Sleep, Sorted, NoRepeats, Near;
    RunsAreGood(run);
    var c := run[|run| - 1];
    YieldKeeps(c);
    TickKeeps(c);
    if c.ready != [] {
      SleepKeeps(c);
    }
    if EqualReady(c) && c.kept >= c.quantum {
      LosesAtQuantum(c);
    }
  }

  // A run from the start in which a process of priority -2 runs while one of
  // 2^31 - 1 is ready.
  lemma FarPriorities() returns (run: seq<Cpu>)
    ensures run != [] && Start(run[0]) && forall k :: 0 <= k < |run| - 1 ==> Step(run[k], run[k + 1])
    ensures var c := run[|run| - 1]; c.current.priority == -2 && Process(1, 0x7fff_ffff) in c.ready
  {
    var boot, high, low := Process(0, -3), Process(1, 0x7fff_ffff), Process(2, -2);
    var c0 := Cpu(boot, [], map[], {}, 10, 0);
    var c1, c2 := c0.(ready := [high]), c0.(ready := [low, high]);
    assert ReadyStep(c0, c1, high);
    assert ReadyStep(c1, c2, low);
    run := [c0, c1, c2, Yield(c2)];
    InsertedMembers([high], boot);
    assert high in Yield(c2).ready;
  }

  lemma LosesAtQuantum(c: Cpu)
    requires Good(c) && EqualReady(c) && c.kept >= c.quantum
    ensures Tick(c).current != c.current
  {
  }

  lemma {:induction false} AllReadyMembers(c: Cpu, ps: seq<Process>)
    ensures forall q :: q in AllReady(c, ps).ready <==> q in c.ready || q in ps
  {
    hide Inserted;
    if ps != [] {
      var last := |ps| - 1;
      AllReadyMembers(c, ps[..last]);
      InsertedMembers(AllReady(c, ps[..last]).ready, ps[last]);
      assert ps == ps[..last] + [ps[last]];
    }
  }

  lemma NotBefore(ps: seq<Process>, i: nat)
    requires NoRepeats(ps) && i < |ps|
    ensures ps[i] !in ps[..i]
  {
  }

  // ---------------------------------------------------- the object itself

  // The scheduler with the running process, as the kernel object joins them.
  class Scheduler {
    const readyList: List<Process>
    var currentProcess: Process
    var executeTime: map<Process, int>
    var waitingForJoin: set<Process>
    var timeQuantum: int
    var threadFinished: set<Process>
    ghost var kept: nat

    ghost predicate Valid()
      reads this, readyList, readyList.repr
    {
      readyList.Valid()
    }

    ghost function Value(): Cpu
      reads this, readyList
    {
      Cpu(currentProcess, readyList.items, executeTime, waitingForJoin, timeQuantum, kept)
    }

    constructor (first: Process)
      ensures Valid() && Start(Value()) && Value().current == first && timeQuantum == 10
    {
      readyList := new List<Process>();
      currentProcess, executeTime, waitingForJoin, timeQuantum, kept := first, map[], {}, 10, 0;
      threadFinished := {};
    }

    function ExecutionTime(p: Process): int
      reads this
    {
      if p in executeTime then executeTime[p] else 0
    }

    method PutReady(process: Process)
      requires Valid() && process !in readyList.items
      modifies readyList, readyList.repr, this`kept
      ensures Valid() && Value() == ReadyToRun(old(Value()), process) && fresh(readyList.repr - old(readyList.repr))
    {
      hide List.Valid, Inserted;
      kept := if EqualReady(Value()) then kept else 0;
      readyList.Insert(process, ProcessCompare);
    }

    method FindNextToRun() returns (next: Process)
      requires Valid() && readyList.items != []
      modifies readyList
      ensures Valid() && old(readyList.items) == [next] + readyList.items && readyList.repr == old(readyList.repr)
    {
      assert !readyList.IsEmpty();
      next := readyList.RemoveFront();
    }

    method GetNextProcess() returns (next: Process)
      requires Valid() && readyList.items != []
      ensures next == readyList.items[0]
    {
      next := readyList.first.item;
    }

    // currentProcess->Yield; "runThread" tells that the process stays and,
    // as a thread of it has finished, runs another of its threads.
    method YieldProcess() returns (runThread: bool)
      requires Valid() && currentProcess !in readyList.items
      modifies this, readyList, readyList.repr
      ensures Valid() && Value() == Yield(old(Value())) && fresh(readyList.repr - old(readyList.repr))
      ensures runThread == (old(currentProcess in threadFinished) && !Switches(old(Value())))
      ensures threadFinished == if runThread then old(threadFinished) - {old(currentProcess)} else old(threadFinished)
    {
      hide List.Valid, Inserted;
      runThread := false;
      var empty := IsReadyEmpty();
      if !empty {
        var nextProcess := GetNextProcess();
        if currentProcess in waitingForJoin
           || nextProcess.priority > currentProcess.priority
           || (ExecutionTime(currentProcess) >= timeQuantum && nextProcess.priority == currentProcess.priority) {
          SwitchTo(nextProcess);
        } else {
          runThread := Stay();
        }
      } else {
        runThread := Stay();
      }
    }

    // The running process keeps the processor.
    method Stay() returns (runThread: bool)
      modifies this`executeTime, this`threadFinished
      ensures executeTime == if old(ExecutionTime(currentProcess)) >= timeQuantum
                             then old(executeTime)[currentProcess := 0]
                             else old(executeTime)
      ensures runThread == (currentProcess in old(threadFinished))
      ensures threadFinished == if runThread then old(threadFinished) - {currentProcess} else old(threadFinished)
    {
      if ExecutionTime(currentProcess) >= timeQuantum {
        executeTime := executeTime[currentProcess := 0];
      }
      runThread := currentProcess in threadFinished;
      if runThread {
        threadFinished := threadFinished - {currentProcess};
      }
    }

    method IsReadyEmpty() returns (empty: bool)
      requires Valid()
      ensures empty == (readyList.items == [])
    {
      empty := readyList.IsEmpty();
    }

    method SwitchTo(nextProcess: Process)
      requires Valid() && currentProcess !in readyList.items && readyList.items != []
      requires nextProcess == readyList.items[0]
      requires MustSwitch(Value())
      modifies this, readyList, readyList.repr
      ensures Valid() && Value() == Yield(old(Value())) && fresh(readyList.repr - old(readyList.repr))
      ensures threadFinished == old(threadFinished)
    {
      hide List.Valid, Inserted;
      executeTime := executeTime[currentProcess := 0];
      var next := FindNextToRun();
      if currentProcess !in waitingForJoin {
        PutReady(currentProcess);
      }
      kept := 0;
      currentProcess := nextProcess;
    }

    // One call of Idle.
    method IdleOnce(call: IdleCall)
      requires Valid() && readyList.items == [] && NoRepeats(call.ready)
      modifies readyList, readyList.repr, this`kept, this`executeTime
      ensures Valid() && Value() == AfterIdle(old(Value()), call) && fresh(readyList.repr - old(readyList.repr))
    {
      hide List.Valid, Inserted, ReadyToRun, NoRepeats;
      if call.timer {
        executeTime := executeTime[currentProcess := ExecutionTime(currentProcess) + 1];
      }
      ghost var c := Value();
      var ps := call.ready;
      for i := 0 to |ps|
        invariant Valid() && Value() == AllReady(c, ps[..i]) && fresh(readyList.repr - old(readyList.repr))
      {
        AllReadyMembers(c, ps[..i]);
        assert ps[i] !in ps[..i] by { NotBefore(ps, i); }
        PutReady(ps[i]);
        assert ps[..i + 1][..i] == ps[..i];
      }
      assert ps[..|ps|] == ps;
    }

    // Process::Sleep: idles while no process is ready, given what each call
    // of Idle comes to.  If still none is, the processor goes on idling.
    method SleepProcess(calls: seq<IdleCall>) returns (idle: bool)
      requires Valid() && forall k :: 0 <= k < |calls| ==> NoRepeats(calls[k].ready)
      modifies this, readyList, readyList.repr
      ensures Valid()
      ensures var c := IdleUntilReady(old(Value()), calls);
              idle == (c.ready == []) && Value() == if idle then c else Sleep(c)
    {
      hide List.Valid, AfterIdle, NoRepeats;
      var k := 0;
      var empty := IsReadyEmpty();
      while empty && k < |calls|
        invariant Valid() && k <= |calls| && empty == (readyList.items == [])
        invariant fresh(readyList.repr - old(readyList.repr))
        invariant IdleUntilReady(Value(), calls[k..]) == IdleUntilReady(old(Value()), calls)
        decreases |calls| - k
      {
        assert calls[k..][0] == calls[k] && calls[k..][1..] == calls[k + 1..];
        IdleOnce(calls[k]);
        empty := IsReadyEmpty();
        k := k + 1;
      }
      if empty {
        return true;
      }
      var nextProcess := FindNextToRun();
      executeTime := executeTime[nextProcess := -1];
      kept := 0;
      currentProcess := nextProcess;
      return false;
    }

    // The timer interrupt: Alarm::CallBack, then the yield it asks for.
    method TimerTick()
      requires Valid() && currentProcess !in readyList.items
      modifies this, readyList, readyList.repr
      ensures Valid() && Value() == Tick(old(Value()))
    {
      hide List.Valid, Yield;
      ghost var c := Value();
      executeTime := executeTime[currentProcess := ExecutionTime(currentProcess) + 1];
      var _ := YieldProcess();
      kept := if currentProcess == c.current && EqualReady(c) then c.kept + 1 else 0;
    }
  }
}
