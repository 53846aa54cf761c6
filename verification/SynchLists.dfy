// A list shared between threads, guarded by a monitor: every statement that
// runs under the lock is a step of its own.
module SynchLists {
  import opened Semaphores
  import opened Monitors

  // What a thread is doing in Append or RemoveFront.
  //   Adding, Added, Signalled: before the append, before the signal, before the release
  //   Testing: in RemoveFront, up to the test of the loop
  //   Empty, Found, Removed: before the wait, before the removal, before the release
  datatype Job = Idle | Adding(item: int) | Added | Signalled | Testing | Empty | Found | Removed

  datatype State = State(m: Monitor, list: seq<int>, appended: seq<int>, removed: seq<int>, jobs: map<Thread, Job>)

  predicate Doing(s: State, t: Thread, job: Job) { t in s.jobs && s.jobs[t] == job }

  predicate Holds(s: State, t: Thread) { At(s.m, t, Holding) }

  // The steps of Append.
  ghost predicate AppendStep(s: State, s': State, t: Thread) {
    || (exists x :: CallAppend(s, s', t, x))
    || (Holds(s, t) && t in s.jobs && s.jobs[t].Adding? && s' == s.(list := s.list + [s.jobs[t].item],
                           appended := s.appended + [s.jobs[t].item], jobs := s.jobs[t := Added]))
    || (Holds(s, t) && Doing(s, t, Added) && SignalStep(s.m, s'.m)
        && s' == s.(m := s'.m, jobs := s.jobs[t := Signalled]))
    || (Holds(s, t) && Doing(s, t, Signalled) && s' == s.(m := Release(s.m, t), jobs := s.jobs[t := Idle]))
  }

  ghost predicate CallAppend(s: State, s': State, t: Thread, x: int) {
    At(s.m, t, Outside) && Doing(s, t, Idle) && s' == s.(m := Acquire(s.m, t), jobs := s.jobs[t := Adding(x)])
  }

  // The steps of RemoveFront.
  ghost predicate RemoveStep(s: State, s': State, t: Thread) {
    || (At(s.m, t, Outside) && Doing(s, t, Idle) && s' == s.(m := Acquire(s.m, t), jobs := s.jobs[t := Testing]))
    || (Holds(s, t) && Doing(s, t, Testing) && s' == s.(jobs := s.jobs[t := if s.list == [] then Empty else Found]))
    || (Holds(s, t) && Doing(s, t, Empty) && exists w :: StartsWait(s, s', t, w))
    || (Holds(s, t) && Doing(s, t, Found) && s' == TakeFront(s, t))
    || (Holds(s, t) && Doing(s, t, Removed) && s' == s.(m := Release(s.m, t), jobs := s.jobs[t := Idle]))
  }

  ghost predicate StartsWait(s: State, s': State, t: Thread, w: nat) {
    WaitStep(s.m, s'.m, t, w) && s' == s.(m := s'.m, jobs := s.jobs[t := Testing])
  }

  // list->RemoveFront; on an empty list the item would be garbage.
  ghost function TakeFront(s: State, t: Thread): State {
    if s.list == [] then s.(removed := s.removed + [0], jobs := s.jobs[t := Removed])
    else s.(list := s.list[1..], removed := s.removed + [s.list[0]], jobs := s.jobs[t := Removed])
  }

  // The steps inside the lock and the condition variable.
  ghost predicate LockStep(s: State, s': State, t: Thread) {
    s' == s.(m := s'.m) &&
    ((WantsLock(s.m, t) && s'.m == TryLock(s.m, t))
     || (PastP(s.m, t) && s'.m == Enter(s.m, t))
     || (Awake(s.m, t) && s'.m == TryWake(s.m, t)))
  }

  ghost predicate StepOf(s: State, s': State, t: Thread) {
    AppendStep(s, s', t) || RemoveStep(s, s', t) || LockStep(s, s', t)
  }

  ghost predicate Step(s: State, s': State) { exists t :: StepOf(s, s', t) }

  ghost predicate Start(s: State) {
    && Monitors.Start(s.m) && s.list == [] && s.appended == [] && s.removed == []
    && s.jobs.Keys == s.m.places.Keys && forall t :: t in s.jobs ==> s.jobs[t] == Idle
  }

  // ------------------------------------------------------------ invariants

  // The job tells what the thread may be doing with the monitor.
  predicate Fits(job: Job, p: Place) {
    match job
    case Idle => p == Outside
    case Adding(_) => p.Acquiring? || p.Past? || p.Holding?
    case Testing => p != Outside
    case _ => p == Holding
  }

  ghost predicate JobsFit(s: State) {
    s.jobs.Keys == s.m.places.Keys && forall t :: t in s.jobs ==> Fits(s.jobs[t], s.m.places[t])
  }

  // What a thread found under the lock still holds.
  ghost predicate FindingsHold(s: State) {
    && (forall t :: Doing(s, t, Found) ==> s.list != [])
    && (forall t :: Doing(s, t, Empty) ==> s.list == [])
  }

  ghost predicate Conserved(s: State) { s.appended == s.removed + s.list }

  // A thread that will yet look at the list, or is about to signal: not one
  // that waits unsignalled.
  predicate IsComing(s: State, t: Thread) {
    && t in s.jobs && t in s.m.places
    && (s.jobs[t] == Added || s.jobs[t] == Found
        || (s.jobs[t] == Testing && !(s.m.places[t].Waiting? && s.m.places[t].w in s.m.waitQueue)))
  }

  function Coming(s: State): set<Thread> { set t | t in s.jobs && IsComing(s, t) }

  // While somebody waits unsignalled, there is somebody coming for each item.
  ghost predicate NotStranded(s: State) { s.m.waitQueue != [] ==> |s.list| <= |Coming(s)| }

  ghost predicate Good(s: State) {
    Monitors.Good(s.m) && JobsFit(s) && FindingsHold(s) && Conserved(s) && NotStranded(s)
  }

  // ----------------------------------------------------- the steps keep them

  // Only t works on the list under the lock.
  lemma Alone(s: State, t: Thread, u: Thread)
    requires Monitors.Good(s.m) && JobsFit(s) && Holds(s, t) && u in s.jobs && u != t
    ensures !Doing(s, u, Found) && !Doing(s, u, Empty) && !Holds(s, u)
  {
    hide Monitors.Good;
    MutualExclusion(s.m, t, u);
  }

  // A thread joins or leaves those coming; the others stay.
  lemma ComingMoves(s: State, s': State, t: Thread)
    requires s'.jobs.Keys == s.jobs.Keys && t in s.jobs
    requires forall u :: u in s.jobs && u != t ==> (IsComing(s', u) <==> IsComing(s, u))
    ensures |Coming(s')| == |Coming(s)| + (if IsComing(s', t) then 1 else 0) - (if IsComing(s, t) then 1 else 0)
  {
    var c, c' := Coming(s), Coming(s');
    assert c' == if IsComing(s', t) then c + {t} else c - {t};
    if IsComing(s', t) && IsComing(s, t) {
      assert c + {t} == c;
    } else if IsComing(s', t) {
      assert |c + {t}| == |c| + 1;
    } else if IsComing(s, t) {
      assert |c - {t}| == |c| - 1;
    } else {
      assert c - {t} == c;
    }
  }

  // Steps that leave the list and the wait queue alone, and at most bring
  // somebody in.
  lemma QuietStep(s: State, s': State, t: Thread)
    requires Good(s) && t in s.jobs && s'.jobs.Keys == s.jobs.Keys && Monitors.Good(s'.m)
    requires s'.list == s.list && s'.appended == s.appended && s'.removed == s.removed
    requires s'.m.waitQueue == s.m.waitQueue && s'.m.places.Keys == s.m.places.Keys
    requires forall u :: u in s.jobs && u != t ==> s'.jobs[u] == s.jobs[u] && s'.m.places[u] == s.m.places[u]
    requires Fits(s'.jobs[t], s'.m.places[t])
    requires s'.jobs[t] != Found && s'.jobs[t] != Empty && (IsComing(s, t) ==> IsComing(s', t))
    ensures Good(s')
  {
    hide Monitors.Good, Fits, IsComing;
    SameComing(s, s', t);
    ComingMoves(s, s', t);
    FindingsStay(s, s', t);
  }

  lemma FindingsStay(s: State, s': State, t: Thread)
    requires FindingsHold(s) && s'.list == s.list && s'.jobs.Keys == s.jobs.Keys && t in s.jobs
    requires forall u :: u in s.jobs && u != t ==> s'.jobs[u] == s.jobs[u]
    requires (s'.jobs[t] == Found ==> s.list != []) && (s'.jobs[t] == Empty ==> s.list == [])
    ensures FindingsHold(s')
  {
    assert forall u :: u != t && Doing(s', u, Found) ==> Doing(s, u, Found);
    assert forall u :: u != t && Doing(s', u, Empty) ==> Doing(s, u, Empty);
  }

  lemma SameComing(s: State, s': State, t: Thread)
    requires s'.jobs.Keys == s.jobs.Keys && s'.m.waitQueue == s.m.waitQueue && s'.m.places.Keys == s.m.places.Keys
    requires forall u :: u in s.jobs && u != t && u in s.m.places ==>
               s'.jobs[u] == s.jobs[u] && s'.m.places[u] == s.m.places[u]
    ensures forall u :: u in s.jobs && u != t ==> (IsComing(s', u) <==> IsComing(s, u))
  {
  }

  lemma LockStepKeeps(s: State, s': State, t: Thread)
    requires Good(s) && LockStep(s, s', t)
    ensures Good(s')
  {
    hide Monitors.Good, NotStranded, FindingsHold, Conserved, TryLock, Enter;
    assert Monitors.StepOf(s.m, s'.m, t);
    StepKeepsGood(s.m, s'.m, t);
    LockStepFits(s, s', t);
    QuietStep(s, s', t);
  }

  lemma LockStepFits(s: State, s': State, t: Thread)
    requires Good(s) && LockStep(s, s', t) && s'.m.places.Keys == s.m.places.Keys
    ensures t in s.jobs && s'.m.waitQueue == s.m.waitQueue
    ensures forall u :: u in s.jobs && u != t ==> s'.m.places[u] == s.m.places[u]
    ensures Fits(s'.jobs[t], s'.m.places[t]) && s'.jobs[t] != Found && s'.jobs[t] != Empty
    ensures IsComing(s, t) ==> IsComing(s', t)
  {
  }

  lemma CallKeeps(s: State, s': State, t: Thread, job: Job)
    requires Good(s) && At(s.m, t, Outside) && Doing(s, t, Idle) && (job.Adding? || job == Testing)
    requires s' == s.(m := Acquire(s.m, t), jobs := s.jobs[t := job])
    ensures Good(s')
  {
    hide Monitors.Good;
    AcquireKeeps(s.m, t);
    QuietStep(s, s', t);
  }

  lemma AddKeeps(s: State, s': State, t: Thread)
    requires Good(s) && Holds(s, t) && t in s.jobs && s.jobs[t].Adding?
    requires s' == s.(list := s.list + [s.jobs[t].item], appended := s.appended + [s.jobs[t].item],
                      jobs := s.jobs[t := Added])
    ensures Good(s')
  {
    hide Monitors.Good;
    forall u | u in s.jobs && u != t
      ensures !Doing(s', u, Found) && !Doing(s', u, Empty)
    {
      Alone(s, t, u);
    }
    ComingMoves(s, s', t);
  }

  lemma SignalStepKeeps(s: State, s': State, t: Thread)
    requires Good(s) && Holds(s, t) && Doing(s, t, Added) && SignalStep(s.m, s'.m)
    requires s' == s.(m := s'.m, jobs := s.jobs[t := Signalled])
    ensures Good(s')
  {
    hide Monitors.Good, Signal;
    SignalKeeps(s.m);
    SignalSame(s.m);
    FindingsStay(s, s', t);
    if s.m.waitQueue != [] {
      SignalComes(s, s', t);
    }
  }

  lemma SignalSame(m: Monitor)
    requires m.waitQueue != [] ==> m.waitQueue[0] in m.sems
    ensures Signal(m).places == m.places && Signal(m).waitQueue == if m.waitQueue == [] then [] else m.waitQueue[1..]
  {
  }

  // The signaller no longer counts, the waiter it woke does.
  lemma SignalComes(s: State, s': State, t: Thread)
    requires Good(s) && Holds(s, t) && Doing(s, t, Added) && s.m.waitQueue != []
    requires s'.m.waitQueue == s.m.waitQueue[1..] && s'.m.places == s.m.places && s'.jobs == s.jobs[t := Signalled]
    ensures |Coming(s')| == |Coming(s)|
  {
    var u := FrontWaiter(s.m);
    var w := s.m.waitQueue[0];
    assert JobsFit(s);
    assert s.jobs[u] == Testing && !IsComing(s, u) && u != t;
    forall v | v in s.jobs && v != u && v != t
      ensures IsComing(s', v) <==> IsComing(s, v)
    {
      OtherWaiter(s.m, u, v);
    }
    var c, c' := Coming(s), Coming(s');
    assert c' == c - {t} + {u};
    assert t in c && u !in c;
  }

  lemma FrontWaiter(m: Monitor) returns (u: Thread)
    requires Monitors.Good(m) && m.waitQueue != []
    ensures u in m.places && m.places[u] == Waiting(m.waitQueue[0])
    ensures m.waitQueue[0] !in m.waitQueue[1..]
  {
    hide OneInside, HolderRight, LockQueue, LockNotLost, Signalling;
    FrontExists(m);
    u :| At(m, u, Waiting(m.waitQueue[0]));
  }

  // Another waiter's semaphore is another one.
  lemma OtherWaiter(m: Monitor, u: Thread, v: Thread)
    requires Monitors.Good(m) && m.waitQueue != [] && At(m, u, Waiting(m.waitQueue[0])) && u != v && v in m.places
    ensures m.places[v].Waiting? ==> (m.places[v].w in m.waitQueue <==> m.places[v].w in m.waitQueue[1..])
  {
    hide OneInside, HolderRight, LockQueue, LockNotLost, Signalling, QueueOfWaiters;
    if m.places[v].Waiting? {
      assert HasTicket(m, u, m.waitQueue[0]) && HasTicket(m, v, m.places[v].w);
      assert m.places[v].w != m.waitQueue[0];
    }
  }

  lemma ReleaseStepKeeps(s: State, s': State, t: Thread)
    requires Good(s) && Holds(s, t) && (Doing(s, t, Signalled) || Doing(s, t, Removed))
    requires s' == s.(m := Release(s.m, t), jobs := s.jobs[t := Idle])
    ensures Good(s')
  {
    hide Monitors.Good;
    ReleaseKeeps(s.m, t);
    QuietStep(s, s', t);
  }

  lemma TestKeeps(s: State, s': State, t: Thread)
    requires Good(s) && Holds(s, t) && Doing(s, t, Testing)
    requires s' == s.(jobs := s.jobs[t := if s.list == [] then Empty else Found])
    ensures Good(s')
  {
    hide Monitors.Good;
    FindingsStay(s, s', t);
    SameComing(s, s', t);
    ComingMoves(s, s', t);
  }

  lemma TakeKeeps(s: State, s': State, t: Thread)
    requires Good(s) && Holds(s, t) && Doing(s, t, Found) && s' == TakeFront(s, t)
    ensures s.list != [] && Good(s')
  {
    hide Monitors.Good;
    forall u | u in s.jobs && u != t
      ensures !Doing(s', u, Found) && !Doing(s', u, Empty)
    {
      Alone(s, t, u);
    }
    ComingMoves(s, s', t);
  }

  lemma StartsWaitKeeps(s: State, s': State, t: Thread, w: nat)
    requires Good(s) && Holds(s, t) && Doing(s, t, Empty) && StartsWait(s, s', t, w)
    ensures Good(s')
  {
    hide Monitors.Good;
    WaitKeeps(s.m, t, w);
    FindingsStay(s, s', t);
    assert forall u :: Doing(s, u, Empty) ==> s.list == [];
  }

  lemma StepKeeps(s: State, s': State, t: Thread)
    requires Good(s) && StepOf(s, s', t)
    ensures Good(s')
  {
    hide Good, LockStep;
    if AppendStep(s, s', t) {
      AppendStepKeeps(s, s', t);
    } else if RemoveStep(s, s', t) {
      RemoveStepKeeps(s, s', t);
    } else {
      LockStepKeeps(s, s', t);
    }
  }

  lemma AppendStepKeeps(s: State, s': State, t: Thread)
    requires Good(s) && AppendStep(s, s', t)
    ensures Good(s')
  {
    hide Good;
    if x :| CallAppend(s, s', t, x) {
      CallKeeps(s, s', t, Adding(x));
    } else if Doing(s, t, Added) {
      SignalStepKeeps(s, s', t);
    } else if Doing(s, t, Signalled) {
      ReleaseStepKeeps(s, s', t);
    } else {
      AddKeeps(s, s', t);
    }
  }

  lemma RemoveStepKeeps(s: State, s': State, t: Thread)
    requires Good(s) && RemoveStep(s, s', t)
    ensures Good(s')
  {
    hide Good, TakeFront;
    if Doing(s, t, Idle) {
      CallKeeps(s, s', t, Testing);
    } else if Doing(s, t, Testing) {
      TestKeeps(s, s', t);
    } else if Doing(s, t, Empty) {
      var w :| StartsWait(s, s', t, w);
      StartsWaitKeeps(s, s', t, w);
    } else if Doing(s, t, Found) {
      TakeKeeps(s, s', t);
    } else {
      ReleaseStepKeeps(s, s', t);
    }
  }

  lemma StartIsGood(s: State)
    requires Start(s)
    ensures Good(s)
  {
  }

  // Over every interleaving, what was appended is what was removed followed
  // by what is in the list, in order; and nobody waits for an item that is
  // there with nobody on the way to take it.
  lemma {:induction false} RunsAreGood(run: seq<State>)
    requires run != [] && Start(run[0])
    requires forall k :: 0 <= k < |run| - 1 ==> Step(run[k], run[k + 1])
    ensures Good(run[|run| - 1])
  {
    hide Good, StepOf, Start;
    if |run| == 1 {
      StartIsGood(run[0]);
    } else {
      RunsAreGood(run[..|run| - 1]);
      assert Step(run[|run| - 2], run[|run| - 1]);
      var t :| StepOf(run[|run| - 2], run[|run| - 1], t);
      StepKeeps(run[|run| - 2], run[|run| - 1], t);
    }
  }

  // RemoveFront never takes from an empty list.
  lemma NeverFromEmpty(run: seq<State>, t: Thread)
    requires run != [] && Start(run[0])
    requires forall k :: 0 <= k < |run| - 1 ==> Step(run[k], run[k + 1])
    requires Doing(run[|run| - 1], t, Found)
    ensures run[|run| - 1].list != [] && run[|run| - 1].m.holder == By(t)
  {
    hide Monitors.Good;
    RunsAreGood(run);
    MutualExclusion(run[|run| - 1].m, t, t);
  }

  // Items and unsignalled waiters together: some thread is on its way.
  lemma NobodyStranded(run: seq<State>) returns (t: Thread)
    requires run != [] && Start(run[0])
    requires forall k :: 0 <= k < |run| - 1 ==> Step(run[k], run[k + 1])
    requires var s := run[|run| - 1]; s.list != [] && s.m.waitQueue != []
    ensures IsComing(run[|run| - 1], t)
  {
    hide Monitors.Good, IsComing;
    RunsAreGood(run);
    var s := run[|run| - 1];
    assert |Coming(s)| > 0;
    t :| t in Coming(s);
  }

  // ---------------------------------------------------- the object itself

  datatype Outcome = Item(item: int) | Waits(waiter: Semaphore)

  class SynchList {
    var list: seq<int>
    const lock: Lock
    const listEmpty: Condition

    constructor ()
      ensures list == [] && listEmpty.waitQueue == [] && fresh(lock) && fresh(lock.semaphore) && fresh(listEmpty)
      ensures lock.semaphore.Value() == Sem(1, []) && lock.lockHolder == Holder.Nobody
    {
      list := [];
      lock := new Lock();
      listEmpty := new Condition();
    }

    // Append from where it is past P of the lock.
    method FinishAppend(current: Thread, item: int)
      requires lock.semaphore !in listEmpty.waitQueue
      modifies this, lock, lock.semaphore, listEmpty, listEmpty.waitQueue
      ensures list == old(list) + [item] && lock.lockHolder == Holder.Nobody
      ensures lock.semaphore.Value() == Post(old(lock.semaphore.Value()))
      ensures var q := old(listEmpty.waitQueue);
              if q == [] then listEmpty.waitQueue == []
              else listEmpty.waitQueue == q[1..] && q[0].Value() == Post(old(listEmpty.waitQueue[0].Value()))
      ensures forall s :: s in old(listEmpty.waitQueue) && s != old(listEmpty.waitQueue)[0] ==>
                s.Value() == old(s.Value())
    {
      lock.TakeHold(current);
      list := list + [item];
      listEmpty.Signal(lock, current);
      lock.Release(current);
    }

    // One turn of RemoveFront's loop, from where it is past P of the lock.
    method TurnOfRemove(current: Thread) returns (outcome: Outcome)
      requires lock.semaphore !in listEmpty.waitQueue
      modifies this, lock, lock.semaphore, listEmpty
      ensures lock.lockHolder == Holder.Nobody && lock.semaphore.Value() == Post(old(lock.semaphore.Value()))
      ensures if old(list) == [] then
                && list == [] && outcome.Waits? && fresh(outcome.waiter) && outcome.waiter.Value() == Sem(0, [])
                && listEmpty.waitQueue == old(listEmpty.waitQueue) + [outcome.waiter]
              else
                && outcome.Item? && old(list) == [outcome.item] + list
                && listEmpty.waitQueue == old(listEmpty.waitQueue)
    {
      lock.TakeHold(current);
      if list == [] {
        var waiter := listEmpty.StartWait(lock, current);
        return Waits(waiter);
      }
      var item := list[0];
      list := list[1..];
      lock.Release(current);
      return Item(item);
    }
  }
}
