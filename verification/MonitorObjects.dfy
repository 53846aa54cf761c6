// The Lock, Condition and SynchList objects are the state machines: each
// method does to the objects what its step does to the state.
module MonitorObjects {
  import opened Semaphores
  import opened Monitors
  import SynchLists

  // Which semaphore object the state machine's w stands for.
  type Naming = map<nat, Semaphore>

  // The lock's semaphore is apart from the waiters', and those are different
  // objects.
  ghost predicate Apart(lock: Lock, names: Naming) {
    && lock.semaphore !in names.Values
    && forall v, w :: v in names && w in names && names[v] == names[w] ==> v == w
  }

  ghost predicate QueueShows(queue: seq<nat>, objects: seq<Semaphore>, names: Naming) {
    && |objects| == |queue|
    && forall i :: 0 <= i < |queue| ==> queue[i] in names && objects[i] == names[queue[i]]
  }

  ghost predicate SemsShow(sems: map<nat, Sem>, names: Naming)
    reads names.Values
  {
    sems.Keys == names.Keys && forall w :: w in sems ==> names[w].Value() == sems[w]
  }

  // The objects are in this state.  Where each thread stands is not in the
  // objects.
  ghost predicate Shows(m: Monitor, lock: Lock, condition: Condition, names: Naming)
    reads lock, lock.semaphore, condition, names.Values
  {
    && Apart(lock, names)
    && lock.semaphore.Value() == m.lock && lock.lockHolder == m.holder
    && QueueShows(m.waitQueue, condition.waitQueue, names)
    && SemsShow(m.sems, names)
  }

  // A turn of P on the lock.
  method TryLockShows(lock: Lock, condition: Condition, ghost m: Monitor, ghost names: Naming, t: Thread)
    returns (passed: bool)
    requires Shows(m, lock, condition, names) && WantsLock(m, t)
    modifies lock.semaphore
    ensures Shows(TryLock(m, t), lock, condition, names)
    ensures passed <==> PastP(TryLock(m, t), t)
  {
    passed := lock.semaphore.TurnOfP(t);
  }

  lemma QueuedExist(m: Monitor)
    requires Monitors.Good(m)
    ensures forall i :: 0 <= i < |m.waitQueue| ==> m.waitQueue[i] in m.sems
  {
    hide OneInside, HolderRight, LockQueue, LockNotLost, Signalling;
    forall i | 0 <= i < |m.waitQueue|
      ensures m.waitQueue[i] in m.sems
    {
      var w := m.waitQueue[i];
      assert w in m.waitQueue;
      var t :| At(m, t, Waiting(w));
      assert HasTicket(m, t, w);
    }
  }

  // The names that are left when a thread enters.
  ghost function NamesAfter(m: Monitor, names: Naming, t: Thread): Naming
    requires PastP(m, t)
  {
    var ticket := m.places[t].ticket;
    if ticket.Ticket? then names - {ticket.w} else names
  }

  // Acquire past P; a waiter's semaphore is then deleted, which is to say that
  // its name is given up.
  method EnterShows(lock: Lock, condition: Condition, ghost m: Monitor, ghost names: Naming, t: Thread)
    requires Monitors.Good(m) && Shows(m, lock, condition, names) && PastP(m, t)
    modifies lock
    ensures Shows(Enter(m, t), lock, condition, NamesAfter(m, names, t))
  {
    hide Monitors.Good;
    EnterKeeps(m, t);
    QueuedExist(Enter(m, t));
    lock.TakeHold(t);
  }

  method ReleaseShows(lock: Lock, condition: Condition, ghost m: Monitor, ghost names: Naming, t: Thread)
    requires Shows(m, lock, condition, names) && m.holder == By(t)
    modifies lock, lock.semaphore
    ensures Shows(Release(m, t), lock, condition, names)
  {
    lock.Release(t);
  }

  // Wait up to its P, with a name that is not in use for the new semaphore.
  method WaitShows(lock: Lock, condition: Condition, ghost m: Monitor, ghost names: Naming, t: Thread, ghost w: nat)
    returns (ghost names': Naming)
    requires Shows(m, lock, condition, names) && m.holder == By(t) && w !in m.sems
    modifies lock, lock.semaphore, condition
    ensures Shows(Wait(m, t, w), lock, condition, names')
  {
    var waiter := condition.StartWait(lock, t);
    names' := names[w := waiter];
  }

  // A turn of P on the waiter's own semaphore.
  method TryWakeShows(lock: Lock, condition: Condition, ghost m: Monitor, ghost names: Naming, t: Thread,
                      waiter: Semaphore)
    returns (passed: bool)
    requires Shows(m, lock, condition, names) && Awake(m, t) && waiter == names[m.places[t].w]
    modifies waiter
    ensures Shows(TryWake(m, t), lock, condition, names)
    ensures passed <==> TryWake(m, t).places[t].Acquiring?
  {
    passed := waiter.TurnOfP(t);
  }

  method SignalShows(lock: Lock, condition: Condition, ghost m: Monitor, ghost names: Naming, t: Thread)
    requires Shows(m, lock, condition, names) && m.holder == By(t)
    requires m.waitQueue != [] ==> m.waitQueue[0] in m.sems
    modifies condition, condition.waitQueue
    ensures Shows(Signal(m), lock, condition, names)
  {
    condition.Signal(lock, t);
  }

  // Append on the objects, from past P: enter, append, signal, release.
  method AppendShows(sl: SynchLists.SynchList, ghost m: Monitor, ghost names: Naming, t: Thread, item: int)
    requires Monitors.Good(m) && Shows(m, sl.lock, sl.listEmpty, names) && PastP(m, t)
    modifies sl, sl.lock, sl.lock.semaphore, sl.listEmpty, sl.listEmpty.waitQueue
    ensures sl.list == old(sl.list) + [item]
    ensures Monitors.Good(Enter(m, t)) && (m.waitQueue != [] ==> m.waitQueue[0] in Enter(m, t).sems)
    ensures Shows(Release(Signal(Enter(m, t)), t), sl.lock, sl.listEmpty, NamesAfter(m, names, t))
  {
    hide Monitors.Good;
    EnterKeeps(m, t);
    QueuedExist(Enter(m, t));
    sl.FinishAppend(t, item);
  }

  // A turn of RemoveFront on the objects: enter, then wait, or take the first
  // item and release.
  method RemoveShows(sl: SynchLists.SynchList, ghost m: Monitor, ghost names: Naming, t: Thread, ghost w: nat)
    returns (outcome: SynchLists.Outcome)
    requires Monitors.Good(m) && Shows(m, sl.lock, sl.listEmpty, names) && PastP(m, t) && w !in m.sems
    modifies sl, sl.lock, sl.lock.semaphore, sl.listEmpty
    ensures outcome.Waits? <==> old(sl.list) == []
    ensures old(sl.list) == if outcome.Waits? then sl.list else [outcome.item] + sl.list
    ensures if outcome.Waits?
            then Shows(Wait(Enter(m, t), t, w), sl.lock, sl.listEmpty, NamesAfter(m, names, t)[w := outcome.waiter])
            else Shows(Release(Enter(m, t), t), sl.lock, sl.listEmpty, NamesAfter(m, names, t))
  {
    hide Monitors.Good;
    EnterKeeps(m, t);
    QueuedExist(Enter(m, t));
    outcome := sl.TurnOfRemove(t);
  }
}
