// How long a process keeps the processor: never less than a full quantum,
// unless it waits or a higher priority is ready.
module Quanta {
  import opened Processes
  import opened Lists

  // A run watched: the timer ticks since the running process was given the
  // processor.
  datatype Watch = Watch(c: Cpu, ran: nat)

  // The steps of the scheduler.  A process becomes ready for the first time when
  // its first thread is forked, so it has no execution time yet.
  ghost predicate WatchStep(x: Watch, x': Watch) {
    var c, c' := x.c, x'.c;
    || (c' == Tick(c) && x'.ran == if c'.current == c.current then x.ran + 1 else 0)
    || (c' == Yield(c) && x'.ran == if c'.current == c.current then x.ran else 0)
    || (c.ready != [] && c' == Sleep(c) && x'.ran == 0)
    || (c.ready == [] && c' == Ticked(c) && x'.ran == x.ran + 1)
    || (x'.ran == x.ran
        && ((exists p :: ReadyStep(c, c', p) && p !in c.time)
            || (exists p :: WakeStep(c, c', p)) || (exists p :: JoinStep(c, c', p))))
  }

  ghost predicate WatchedRun(run: seq<Watch>) {
    && run != [] && Start(run[0].c) && run[0].ran == 0
    && forall k :: 0 <= k < |run| - 1 ==> WatchStep(run[k], run[k + 1])
  }

  // Whoever is ready starts a new turn, and the running process has run for
  // its execution time at least.
  ghost predicate Counted(x: Watch) {
    && NoRepeats(x.c.ready) && x.c.current !in x.c.ready
    && (forall p :: p in x.c.ready ==> TimeOf(x.c, p) <= 0)
    && TimeOf(x.c, x.c.current) <= x.ran
  }

  lemma SwitchCounted(x: Watch, x': Watch)
    requires Counted(x) && Switches(x.c) && x'.c == Yield(x.c) && x'.ran == 0
    ensures Counted(x')
  {
    hide Inserted, NoRepeats;
    var c, c', rest := x.c, x'.c, x.c.ready[1..];
    WithoutFront(c.ready);
    assert c.ready[0] in c.ready;
    InsertedUnique(rest, c.current, ProcessCompare);
    InsertedMembers(rest, c.current);
    forall p | p in c'.ready
      ensures p != c'.current && TimeOf(c', p) <= 0
    {
      assert p in rest || p == c.current;
    }
  }

  lemma WithoutFront(ready: seq<Process>)
    requires ready != [] && NoRepeats(ready)
    ensures NoRepeats(ready[1..]) && ready[0] !in ready[1..]
    ensures forall p :: p in ready[1..] ==> p in ready
  {
  }

  lemma YieldCounted(x: Watch, x': Watch)
    requires Counted(x) && x'.c == Yield(x.c) && x'.ran == if x'.c.current == x.c.current then x.ran else 0
    ensures Counted(x')
  {
    hide Inserted, NoRepeats;
    if Switches(x.c) {
      SwitchCounted(x, x');
    }
  }

  lemma TickedCounted(x: Watch)
    requires Counted(x)
    ensures Counted(Watch(Ticked(x.c), x.ran + 1))
  {
  }

  lemma SleepCounted(x: Watch, x': Watch)
    requires Counted(x) && x.c.ready != [] && x'.c == Sleep(x.c) && x'.ran == 0
    ensures Counted(x')
  {
    WithoutFront(x.c.ready);
  }

  lemma ReadyCounted(x: Watch, c: Cpu, p: Process)
    requires Counted(x) && p !in c.ready && p != c.current && TimeOf(c, p) <= 0
    requires c.ready == x.c.ready && c.current == x.c.current && forall q :: q != p ==> TimeOf(c, q) == TimeOf(x.c, q)
    ensures Counted(Watch(ReadyToRun(c, p), x.ran))
  {
    hide Inserted, NoRepeats;
    InsertedUnique(c.ready, p, ProcessCompare);
    InsertedMembers(c.ready, p);
  }

  lemma StepCounted(x: Watch, x': Watch)
    requires Counted(x) && WatchStep(x, x')
    ensures Counted(x')
  {
    hide Counted, Yield, Sleep, ReadyToRun, Ticked;
    var c, c' := x.c, x'.c;
    if c' == Tick(c) && x'.ran == (if c'.current == c.current then x.ran + 1 else 0) {
      TickedCounted(x);
      TickCounted(x, x');
    } else if c' == Yield(c) && x'.ran == (if c'.current == c.current then x.ran else 0) {
      YieldCounted(x, x');
    } else if c.ready != [] && c' == Sleep(c) && x'.ran == 0 {
      SleepCounted(x, x');
    } else if c.ready == [] && c' == Ticked(c) && x'.ran == x.ran + 1 {
      TickedCounted(x);
    } else if p :| ReadyStep(c, c', p) && p !in c.time {
      ReadyCounted(x, c, p);
    } else if p :| WakeStep(c, c', p) {
      ReadyCounted(x, c.(time := c.time[p := -1], waiting := c.waiting - {p}), p);
    } else {
      JoinCounted(x, x');
    }
  }

  lemma TickCounted(x: Watch, x': Watch)
    requires Counted(x) && x'.c == Tick(x.c) && x'.ran == if x'.c.current == x.c.current then x.ran + 1 else 0
    ensures Counted(x')
  {
    hide Counted, Yield;
    TickedCounted(x);
    var t := Watch(Ticked(x.c), x.ran + 1);
    var y := Watch(Yield(t.c), x'.ran);
    YieldCounted(t, y);
    KeptApart(y, x');
  }

  lemma KeptApart(x: Watch, x': Watch)
    requires Counted(x) && x'.ran == x.ran && x'.c == x.c.(kept := x'.c.kept)
    ensures Counted(x')
  {
  }

  lemma JoinCounted(x: Watch, x': Watch)
    requires Counted(x) && x'.ran == x.ran && exists p :: JoinStep(x.c, x'.c, p)
    ensures Counted(x')
  {
  }

  lemma {:induction false} RunsCounted(run: seq<Watch>)
    requires WatchedRun(run)
    ensures Counted(run[|run| - 1])
  {
    hide Counted, WatchStep;
    if |run| == 1 {
      StartCounted(run[0]);
    } else {
      RunsCounted(run[..|run| - 1]);
      StepCounted(run[|run| - 2], run[|run| - 1]);
    }
  }

  lemma StartCounted(x: Watch)
    requires Start(x.c) && x.ran == 0
    ensures Counted(x)
  {
  }

  // In every run a process that does not wait, with nobody of higher priority
  // ready, loses the processor at a yield only after the timer ticks of a full
  // quantum since it was given it, and only to an equal.
  lemma FullQuantum(run: seq<Watch>)
    requires WatchedRun(run)
    requires var c := run[|run| - 1].c;
             c.current !in c.waiting && forall p :: p in c.ready ==> p.priority <= c.current.priority
    ensures var x := run[|run| - 1];
            && (Yield(x.c).current != x.c.current ==> x.ran >= x.c.quantum && EqualReady(x.c))
            && (Tick(x.c).current != x.c.current ==> x.ran + 1 >= x.c.quantum && EqualReady(x.c))
  {
    hide WatchStep, Yield;
    RunsCounted(run);
    var x := run[|run| - 1];
    YieldLate(x.c);
    YieldLate(Ticked(x.c));
  }

  lemma YieldLate(c: Cpu)
    requires c.current !in c.waiting && forall p :: p in c.ready ==> p.priority <= c.current.priority
    ensures Yield(c).current != c.current ==> TimeOf(c, c.current) >= c.quantum && EqualReady(c)
  {
  }

  // Exactly when a yield takes the processor away.
  lemma YieldIff(c: Cpu)
    requires Good(c)
    ensures Yield(c).current != c.current <==>
              && c.ready != []
              && (|| c.current in c.waiting
                  || (exists p :: p in c.ready && p.priority > c.current.priority)
                  || (TimeOf(c, c.current) >= c.quantum
                      && exists p :: p in c.ready && p.priority == c.current.priority))
  {
    if c.ready != [] {
      FrontHighest(c.ready);
      assert c.ready[0] in c.ready;
    }
  }

  // What happens to the execution times: the loser's starts again, and so does
  // that of a process that keeps the processor past its quantum.
  lemma YieldTimes(c: Cpu, p: Process)
    requires Good(c)
    ensures TimeOf(Yield(c), p) ==
            if p == c.current && (Yield(c).current != c.current || TimeOf(c, p) >= c.quantum) then 0 else TimeOf(c, p)
    ensures Yield(c).waiting == c.waiting && Yield(c).quantum == c.quantum
  {
    hide Inserted;
    if c.ready != [] {
      assert c.ready[0] in c.ready;
    }
  }

  // A tick counts for the running process alone.
  lemma TickTimes(c: Cpu, p: Process)
    ensures TimeOf(Ticked(c), p) == TimeOf(c, p) + (if p == c.current then 1 else 0)
    ensures Ticked(c).current == c.current && Ticked(c).ready == c.ready && Ticked(c).waiting == c.waiting
  {
  }

  // When the running process sleeps the first ready one runs, with a time of
  // -1, so that the tick it shares with the sleeper does not count.
  lemma SleepTimes(c: Cpu, p: Process)
    requires c.ready != []
    ensures c.ready == [Sleep(c).current] + Sleep(c).ready
    ensures TimeOf(Sleep(c), p) == if p == Sleep(c).current then -1 else TimeOf(c, p)
    ensures Sleep(c).waiting == c.waiting
  {
  }

  // While the processor idles the timer goes on counting for the process that
  // went to sleep, and exactly the processes the interrupts make ready become
  // ready.
  lemma IdleTimes(c: Cpu, call: IdleCall, p: Process)
    ensures TimeOf(AfterIdle(c, call), p) == TimeOf(c, p) + (if call.timer && p == c.current then 1 else 0)
    ensures p in AfterIdle(c, call).ready <==> p in c.ready || p in call.ready
    ensures AfterIdle(c, call).current == c.current
  {
    hide ReadyToRun, AllReady, Ticked;
    TickTimes(c, p);
    var t := if call.timer then Ticked(c) else c;
    AllReadyMembers(t, call.ready);
    AllReadyTimes(t, call.ready, p);
  }

  lemma {:induction false} AllReadyTimes(c: Cpu, ps: seq<Process>, p: Process)
    ensures TimeOf(AllReady(c, ps), p) == TimeOf(c, p) && AllReady(c, ps).current == c.current
  {
    hide Inserted;
    if ps != [] {
      AllReadyTimes(c, ps[..|ps| - 1], p);
    }
  }
}
