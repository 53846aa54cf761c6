// Semaphores.  A thread may lose the processor only where interrupts are
// turned on again or where it goes to sleep, so P is a loop whose turns are
// atomic and V is atomic.
module Semaphores {
  import Lists
  import opened Queues

  type Thread = nat

  datatype Sem = Sem(value: nat, queue: seq<Thread>)

  // One turn of the loop in P: consume a unit, or join the queue and sleep.
  function Turn(s: Sem, t: Thread): Sem {
    if s.value == 0 then Sem(0, s.queue + [t]) else Sem(s.value - 1, s.queue)
  }

  function Post(s: Sem): Sem {
    Sem(s.value + 1, if s.queue == [] then [] else s.queue[1..])
  }

  datatype Woken = Nobody | Thread(t: Thread)

  class Semaphore {
    var value: nat
    var queue: seq<Thread>

    ghost function Value(): Sem
      reads this
    {
      Sem(value, queue)
    }

    constructor (initialValue: nat)
      ensures Value() == Sem(initialValue, [])
    {
      value, queue := initialValue, [];
    }

    // One turn of P's loop by the current thread; if not done, the thread
    // sleeps, and takes another turn when it runs again.
    method TurnOfP(current: Thread) returns (done: bool)
      modifies this
      ensures Value() == Turn(old(Value()), current) && done == (old(value) > 0)
    {
      if value == 0 {
        queue := queue + [current];
        return false;
      }
      value := value - 1;
      return true;
    }

    // Wakes the thread that has slept longest, if any.
    method V() returns (woken: Woken)
      modifies this
      ensures Value() == Post(old(Value()))
      ensures woken == if old(queue) == [] then Nobody else Woken.Thread(old(queue)[0])
    {
      woken := Nobody;
      if queue != [] {
        woken := Woken.Thread(queue[0]);
        queue := queue[1..];
      }
      value := value + 1;
    }
  }

  // ------------------------------------------------------------------ runs

  // A semaphore and the threads that V has woken and that have not taken
  // their next turn yet, with the counts of completed Vs and Ps.
  datatype State = State(sem: Sem, woken: set<Thread>, initial: nat, vs: nat, ps: nat)

  ghost predicate Start(s: State) {
    s.sem == Sem(s.initial, []) && s.woken == {} && s.vs == 0 && s.ps == 0
  }

  // A turn of P by a thread that is not asleep: one that just called P (it
  // may overtake the woken ones) or one that was woken.
  ghost predicate PStep(s: State, s': State, t: Thread) {
    && t !in s.sem.queue
    && s' == State(Turn(s.sem, t), s.woken - {t}, s.initial, s.vs, if s.sem.value == 0 then s.ps else s.ps + 1)
  }

  ghost predicate VStep(s: State, s': State) {
    s' == State(Post(s.sem), if s.sem.queue == [] then s.woken else s.woken + {s.sem.queue[0]},
                s.initial, s.vs + 1, s.ps)
  }

  ghost predicate Step(s: State, s': State) {
    VStep(s, s') || exists t :: PStep(s, s', t)
  }

  // Units are conserved; nobody both sleeps and is woken; and while somebody
  // sleeps, there is a woken thread for every unit to be had.
  ghost predicate Good(s: State) {
    && s.sem.value == s.initial + s.vs - s.ps
    && Lists.NoRepeats(s.sem.queue)
    && (forall i :: 0 <= i < |s.sem.queue| ==> s.sem.queue[i] !in s.woken)
    && (s.sem.queue != [] ==> |s.woken| >= s.sem.value)
  }

  lemma PKeepsGood(s: State, s': State, t: Thread)
    requires Good(s) && PStep(s, s', t)
    ensures Good(s')
  {
  }

  lemma VKeepsGood(s: State, s': State)
    requires Good(s) && VStep(s, s')
    ensures Good(s')
  {
  }

  // Every state of every run of any threads calling P and V is good.
  lemma {:induction false} RunsAreGood(run: seq<State>)
    requires run != [] && Start(run[0])
    requires forall k :: 0 <= k < |run| - 1 ==> Step(run[k], run[k + 1])
    ensures Good(run[|run| - 1])
  {
    hide Good, VStep, PStep;
    if |run| == 1 {
      StartIsGood(run[0]);
    } else {
      RunsAreGood(run[..|run| - 1]);
      var s, s' := run[|run| - 2], run[|run| - 1];
      assert Step(s, s');
      if VStep(s, s') {
        VKeepsGood(s, s');
      } else {
        var t :| PStep(s, s', t);
        PKeepsGood(s, s', t);
      }
    }
  }

  lemma StartIsGood(s: State)
    requires Start(s)
    ensures Good(s)
  {
  }

  // No wakeup is lost: with a unit to be had and somebody asleep, some woken
  // thread is about to take a turn, and the first to do so gets the unit.
  lemma NoLostWakeup(run: seq<State>)
    requires run != [] && Start(run[0])
    requires forall k :: 0 <= k < |run| - 1 ==> Step(run[k], run[k + 1])
    requires var s := run[|run| - 1]; s.sem.queue != [] && s.sem.value > 0
    ensures var s := run[|run| - 1];
            exists t :: t in s.woken && t !in s.sem.queue && Turn(s.sem, t).value == s.sem.value - 1
  {
    RunsAreGood(run);
    var s := run[|run| - 1];
    var t :| t in s.woken;
    assert t !in s.sem.queue && Turn(s.sem, t).value == s.sem.value - 1;
  }

  // ------------------------------------------------------- first in, first out

  // A run watched: the threads in the order in which they went to sleep, and
  // those woken in the order in which they were.
  datatype Watch = Watch(s: State, slept: seq<Thread>, woken: seq<Thread>)

  ghost predicate WatchStep(x: Watch, x': Watch) {
    Step(x.s, x'.s) && Watched(x.s.sem.queue, x'.s.sem.queue, x.slept, x'.slept, x.woken, x'.woken)
  }

  ghost predicate WatchedRun(run: seq<Watch>) {
    && run != [] && Start(run[0].s) && run[0].slept == run[0].woken == []
    && forall k :: 0 <= k < |run| - 1 ==> WatchStep(run[k], run[k + 1])
  }

  lemma WatchStepKeeps(x: Watch, x': Watch)
    requires Good(x.s) && InOrder(x.s.sem.queue, x.slept, x.woken) && WatchStep(x, x')
    ensures Good(x'.s) && InOrder(x'.s.sem.queue, x'.slept, x'.woken)
  {
    hide Watched, InOrder, Lists.NoRepeats;
    var s, s' := x.s, x'.s;
    var q := s.sem.queue;
    if VStep(s, s') {
      VKeepsGood(s, s');
      if q != [] {
        FirstLeaves(q, x.slept, x'.slept, x.woken, x'.woken);
      } else {
        NobodyMoves(q, x.slept, x'.slept, x.woken, x'.woken);
      }
    } else {
      var t :| PStep(s, s', t);
      PKeepsGood(s, s', t);
      if s.sem.value == 0 {
        OneJoins(q, t, x.slept, x'.slept, x.woken, x'.woken);
      } else {
        NobodyMoves(q, x.slept, x'.slept, x.woken, x'.woken);
      }
    }
  }

  lemma {:induction false} WatchedIsGood(run: seq<Watch>)
    requires WatchedRun(run)
    ensures var x := run[|run| - 1]; Good(x.s) && InOrder(x.s.sem.queue, x.slept, x.woken)
  {
    hide Good, WatchStep;
    if |run| == 1 {
      StartIsGood(run[0].s);
    } else {
      WatchedIsGood(run[..|run| - 1]);
      WatchStepKeeps(run[|run| - 2], run[|run| - 1]);
    }
  }

  // In every state of every run those asleep are those who went to sleep less
  // those woken, in the order of going to sleep: of two threads the one that
  // went to sleep first is woken first, and a V wakes the one that has slept
  // longest and nobody else.
  lemma WokenInOrder(run: seq<Watch>, s': State)
    requires WatchedRun(run)
    ensures var x := run[|run| - 1];
            && |x.woken| <= |x.slept| && (forall i :: 0 <= i < |x.woken| ==> x.woken[i] == x.slept[i])
            && (forall t :: t in x.s.sem.queue <==> exists i :: |x.woken| <= i < |x.slept| && x.slept[i] == t)
            && (VStep(x.s, s') && |x.woken| < |x.slept| ==>
                  var t := x.slept[|x.woken|];
                  && t in x.s.sem.queue && t !in s'.sem.queue && s'.woken == x.s.woken + {t}
                  && forall u :: u in x.s.sem.queue && u != t ==> u in s'.sem.queue)
  {
    hide Good, VStep;
    WatchedIsGood(run);
    var x := run[|run| - 1];
    var q, n := x.s.sem.queue, |x.woken|;
    forall t
      ensures t in q <==> exists i :: n <= i < |x.slept| && x.slept[i] == t
    {
      if t in q {
        var k :| 0 <= k < |q| && q[k] == t;
        assert x.slept[n + k] == t;
      }
      if i :| n <= i < |x.slept| && x.slept[i] == t {
        assert q[i - n] == t;
      }
    }
    if VStep(x.s, s') && n < |x.slept| {
      LongestLeaves(x.s, s');
      assert x.slept[n] == q[0];
    }
  }

  lemma LongestLeaves(s: State, s': State)
    requires Good(s) && VStep(s, s') && s.sem.queue != []
    ensures var t := s.sem.queue[0];
            && t !in s'.sem.queue && s'.woken == s.woken + {t}
            && forall u :: u in s.sem.queue && u != t ==> u in s'.sem.queue
  {
    var q := s.sem.queue;
    assert q == [q[0]] + q[1..];
  }
}
