// Locks and condition variables built from semaphores, as a state machine
// whose steps are the stretches of code between two points where the running
// thread may change.
module Monitors {
  import opened Semaphores
  import Lists
  import opened Queues

  datatype Holder = Nobody | By(t: Thread)

  // The semaphore a waiter allocated, until it deletes it.
  datatype Ticket = NoTicket | Ticket(w: nat)

  // Where a thread stands: outside; in lock->P; past P, with lockHolder not
  // yet set; holding the lock; in P on its own semaphore in Wait.
  datatype Place = Outside | Acquiring(ticket: Ticket) | Past(ticket: Ticket) | Holding | Waiting(w: nat)

  datatype Monitor = Monitor(lock: Sem, holder: Holder, sems: map<nat, Sem>, waitQueue: seq<nat>,
                             places: map<Thread, Place>)

  // ----------------------------------------------------------------- steps

  predicate At(m: Monitor, t: Thread, p: Place) { t in m.places && m.places[t] == p }

  predicate WantsLock(m: Monitor, t: Thread) { t in m.places && m.places[t].Acquiring? && t !in m.lock.queue }

  predicate PastP(m: Monitor, t: Thread) { t in m.places && m.places[t].Past? }

  // In P of its own semaphore and not asleep.
  predicate Awake(m: Monitor, t: Thread) {
    && t in m.places && m.places[t].Waiting?
    && m.places[t].w in m.sems && t !in m.sems[m.places[t].w].queue
  }

  function Acquire(m: Monitor, t: Thread): Monitor { m.(places := m.places[t := Acquiring(NoTicket)]) }

  // A turn of lock->P.
  function TryLock(m: Monitor, t: Thread): Monitor
    requires WantsLock(m, t)
  {
    m.(lock := Turn(m.lock, t),
       places := if m.lock.value == 0 then m.places else m.places[t := Past(m.places[t].ticket)])
  }

  // lockHolder = currentThread; a waiter then deletes its semaphore.
  function Enter(m: Monitor, t: Thread): Monitor
    requires PastP(m, t)
  {
    var ticket := m.places[t].ticket;
    m.(holder := By(t), places := m.places[t := Holding],
       sems := if ticket.Ticket? then m.sems - {ticket.w} else m.sems)
  }

  // lockHolder = NULL; lock->V
  function Unlock(m: Monitor, t: Thread, to: Place): Monitor {
    m.(holder := Holder.Nobody, lock := Post(m.lock), places := m.places[t := to])
  }

  function Release(m: Monitor, t: Thread): Monitor { Unlock(m, t, Outside) }

  // Queues a new semaphore w with value 0 and releases the lock.
  function Wait(m: Monitor, t: Thread, w: nat): Monitor {
    Unlock(m.(sems := m.sems[w := Sem(0, [])], waitQueue := m.waitQueue + [w]), t, Waiting(w))
  }

  // A turn of waiter->P; past it the thread acquires the lock again.
  function TryWake(m: Monitor, t: Thread): Monitor
    requires Awake(m, t)
  {
    var w := m.places[t].w;
    m.(sems := m.sems[w := Turn(m.sems[w], t)],
       places := if m.sems[w].value == 0 then m.places else m.places[t := Acquiring(Ticket(w))])
  }

  function Signal(m: Monitor): Monitor
    requires m.waitQueue != [] ==> m.waitQueue[0] in m.sems
  {
    if m.waitQueue == [] then m
    else
      var w := m.waitQueue[0];
      m.(waitQueue := m.waitQueue[1..], sems := m.sems[w := Post(m.sems[w])])
  }

  // What thread t can do; the guards say only where t stands.
  ghost predicate StepOf(m: Monitor, m': Monitor, t: Thread) {
    || (At(m, t, Outside) && m' == Acquire(m, t))
    || (WantsLock(m, t) && m' == TryLock(m, t))
    || (PastP(m, t) && m' == Enter(m, t))
    || (At(m, t, Holding) && m' == Release(m, t))
    || (At(m, t, Holding) && exists w :: WaitStep(m, m', t, w))
    || (Awake(m, t) && m' == TryWake(m, t))
    || (At(m, t, Holding) && SignalStep(m, m'))
  }

  // The allocator hands out a semaphore that is not in use.
  ghost predicate WaitStep(m: Monitor, m': Monitor, t: Thread, w: nat) { w !in m.sems && m' == Wait(m, t, w) }

  ghost predicate SignalStep(m: Monitor, m': Monitor) {
    (m.waitQueue != [] ==> m.waitQueue[0] in m.sems) && m' == Signal(m)
  }

  ghost predicate Start(m: Monitor) {
    && m.lock == Sem(1, []) && m.holder == Holder.Nobody && m.sems == map[] && m.waitQueue == []
    && forall t :: t in m.places ==> m.places[t] == Outside
  }

  // ------------------------------------------------------------ invariants

  predicate InsidePlace(p: Place) { p.Past? || p.Holding? }

  // The threads past P in Acquire and not yet past V in Release.
  function Inside(m: Monitor): set<Thread> { set t | t in m.places && InsidePlace(m.places[t]) }

  ghost predicate OneInside(m: Monitor) { m.lock.value + |Inside(m)| == 1 }

  ghost predicate HolderRight(m: Monitor) { forall t :: m.holder == By(t) <==> At(m, t, Holding) }

  ghost predicate LockQueue(m: Monitor) {
    && Lists.NoRepeats(m.lock.queue)
    && forall t :: t in m.lock.queue ==> t in m.places && m.places[t].Acquiring?
  }

  // A free lock with sleepers has somebody about to take it.
  ghost predicate LockNotLost(m: Monitor) {
    m.lock.queue != [] && m.lock.value > 0 ==> exists t :: WantsLock(m, t)
  }

  function TicketOf(p: Place): Ticket {
    match p
    case Acquiring(ticket) => ticket
    case Past(ticket) => ticket
    case Waiting(w) => Ticket(w)
    case Outside => NoTicket
    case Holding => NoTicket
  }

  predicate HasTicket(m: Monitor, t: Thread, w: nat) { t in m.places && TicketOf(m.places[t]) == Ticket(w) }

  // Every thread's semaphore exists, and no two threads share one.
  ghost predicate TicketsOwned(m: Monitor) {
    && (forall t, w :: HasTicket(m, t, w) ==> w in m.sems)
    && forall t, u, w :: HasTicket(m, t, w) && HasTicket(m, u, w) ==> t == u
  }

  // The wait queue holds the semaphores of waiting threads, each once; so no
  // deleted semaphore is in it.
  ghost predicate QueueOfWaiters(m: Monitor) {
    && Lists.NoRepeats(m.waitQueue)
    && forall w :: w in m.waitQueue ==> exists t :: At(m, t, Waiting(w))
  }

  // A waiter's semaphore is 0 until it is signalled and then 1, and only a
  // waiter not signalled can be asleep.
  ghost predicate WaiterSem(m: Monitor, t: Thread, w: nat)
    requires w in m.sems
  {
    if w in m.waitQueue then m.sems[w].value == 0 && (m.sems[w].queue == [] || m.sems[w].queue == [t])
    else m.sems[w] == Sem(1, [])
  }

  ghost predicate Signalling(m: Monitor) {
    forall t, w :: At(m, t, Waiting(w)) ==> w in m.sems && WaiterSem(m, t, w)
  }

  ghost predicate Good(m: Monitor) {
    && OneInside(m) && HolderRight(m) && LockQueue(m) && LockNotLost(m)
    && TicketsOwned(m) && QueueOfWaiters(m) && Signalling(m)
  }

  // ----------------------------------------------------- the steps keep them

  lemma Moves(m: Monitor, m': Monitor, t: Thread, p: Place)
    requires t in m.places && m'.places == m.places[t := p]
    ensures Inside(m') == if InsidePlace(p) then Inside(m) + {t} else Inside(m) - {t}
    ensures |Inside(m')| ==
            |Inside(m)| + (if InsidePlace(p) then 1 else 0) - (if InsidePlace(m.places[t]) then 1 else 0)
  {
    assert Inside(m') == if InsidePlace(p) then Inside(m) + {t} else Inside(m) - {t};
    assert t in Inside(m) <==> InsidePlace(m.places[t]);
    if InsidePlace(p) && InsidePlace(m.places[t]) {
      assert Inside(m) + {t} == Inside(m);
    } else if !InsidePlace(p) && !InsidePlace(m.places[t]) {
      assert Inside(m) - {t} == Inside(m);
    } else if InsidePlace(p) {
      assert |Inside(m) + {t}| == |Inside(m)| + 1;
    } else {
      assert |Inside(m) - {t}| == |Inside(m)| - 1;
    }
  }

  // Only one thread is inside.
  lemma OnlyOne(m: Monitor, t: Thread, u: Thread)
    requires OneInside(m) && t in m.places && u in m.places
    requires InsidePlace(m.places[t]) && InsidePlace(m.places[u])
    ensures t == u && m.lock.value == 0
  {
    assert {t, u} <= Inside(m);
    if t != u {
      assert |{t, u}| == 2;
      Subset({t, u}, Inside(m));
    } else {
      Subset({t}, Inside(m));
    }
  }

  lemma {:induction false} Subset(a: set<Thread>, b: set<Thread>)
    requires a <= b
    ensures |a| <= |b|
    decreases a
  {
    if a != {} {
      var x :| x in a;
      Subset(a - {x}, b - {x});
    }
  }

  lemma AcquireKeeps(m: Monitor, t: Thread)
    requires Good(m) && At(m, t, Outside)
    ensures Good(Acquire(m, t))
  {
    var m' := Acquire(m, t);
    Moves(m, m', t, Acquiring(NoTicket));
    OthersStay(m, m', t);
    if m.lock.queue != [] && m.lock.value > 0 {
      var u :| WantsLock(m, u);
      assert WantsLock(m', u);
    }
    forall w | w in m'.waitQueue
      ensures exists u :: At(m', u, Waiting(w))
    {
      var u :| At(m, u, Waiting(w));
      assert At(m', u, Waiting(w));
    }
  }

  // Every thread but t is where it was.
  lemma OthersStay(m: Monitor, m': Monitor, t: Thread)
    requires t in m.places && m'.places.Keys == m.places.Keys
    requires forall u :: u in m.places && u != t ==> m'.places[u] == m.places[u]
    ensures forall u, p :: u != t ==> (At(m', u, p) <==> At(m, u, p))
    ensures forall u, w :: u != t ==> (HasTicket(m', u, w) <==> HasTicket(m, u, w))
  {
  }

  // A thread that moves keeps the other threads' waiting as it was.
  lemma WaitersStay(m: Monitor, m': Monitor, t: Thread)
    requires QueueOfWaiters(m) && t in m.places && !m.places[t].Waiting? && m'.waitQueue == m.waitQueue
    requires m'.places.Keys == m.places.Keys
    requires forall u :: u in m.places && u != t ==> m'.places[u] == m.places[u]
    ensures QueueOfWaiters(m')
  {
    forall w | w in m'.waitQueue
      ensures exists u :: At(m', u, Waiting(w))
    {
      var u :| At(m, u, Waiting(w));
      assert At(m', u, Waiting(w));
    }
  }

  lemma TryLockKeeps(m: Monitor, t: Thread)
    requires Good(m) && WantsLock(m, t)
    ensures Good(TryLock(m, t))
  {
    hide QueueOfWaiters;
    var m' := TryLock(m, t);
    if m.lock.value == 0 {
      SleepKeeps(m, t);
    } else {
      Moves(m, m', t, Past(m.places[t].ticket));
      OthersStay(m, m', t);
      WaitersStay(m, m', t);
      assert forall w :: HasTicket(m', t, w) <==> HasTicket(m, t, w);
      assert !At(m, t, Holding) && !At(m', t, Holding);
    }
  }

  lemma SleepKeeps(m: Monitor, t: Thread)
    requires Good(m) && WantsLock(m, t) && m.lock.value == 0
    ensures Good(TryLock(m, t))
  {
    var m' := TryLock(m, t);
    assert Inside(m') == Inside(m);
    assert forall u, p :: At(m', u, p) <==> At(m, u, p);
    assert forall u, w :: HasTicket(m', u, w) <==> HasTicket(m, u, w);
  }

  lemma EnterKeeps(m: Monitor, t: Thread)
    requires Good(m) && PastP(m, t)
    ensures Good(Enter(m, t))
  {
    hide QueueOfWaiters, OneInside, HolderRight, LockQueue, LockNotLost, Signalling;
    var m' := Enter(m, t);
    EnterKeepsLock(m, t);
    OthersStay(m, m', t);
    WaitersStay(m, m', t);
    EnterKeepsWaiters(m, t);
  }

  lemma EnterKeepsLock(m: Monitor, t: Thread)
    requires OneInside(m) && HolderRight(m) && LockQueue(m) && LockNotLost(m) && PastP(m, t)
    ensures var m' := Enter(m, t); OneInside(m') && HolderRight(m') && LockQueue(m') && LockNotLost(m')
  {
    var m' := Enter(m, t);
    Moves(m, m', t, Holding);
    forall u
      ensures m'.holder == By(u) <==> At(m', u, Holding)
    {
      if u != t && At(m', u, Holding) {
        OnlyOne(m, t, u);
      }
    }
    assert m'.lock.value == 0 by {
      OnlyOne(m, t, t);
    }
  }

  lemma EnterKeepsWaiters(m: Monitor, t: Thread)
    requires TicketsOwned(m) && QueueOfWaiters(m) && Signalling(m) && PastP(m, t)
    ensures TicketsOwned(Enter(m, t)) && Signalling(Enter(m, t))
  {
    var m', ticket := Enter(m, t), m.places[t].ticket;
    assert ticket.Ticket? ==> HasTicket(m, t, ticket.w);
    forall u, w | HasTicket(m', u, w)
      ensures HasTicket(m, u, w) && w in m'.sems && m'.sems[w] == m.sems[w]
    {
      assert HasTicket(m, u, w);
    }
    forall u, w | At(m', u, Waiting(w))
      ensures w in m'.sems && WaiterSem(m', u, w)
    {
      assert At(m, u, Waiting(w)) && HasTicket(m', u, w);
    }
  }

  // Leaving the lock, to wait or for good.
  lemma UnlockKeepsLock(m: Monitor, t: Thread, to: Place)
    requires OneInside(m) && HolderRight(m) && LockQueue(m) && At(m, t, Holding) && (to == Outside || to.Waiting?)
    ensures var m' := Unlock(m, t, to); OneInside(m') && HolderRight(m') && LockQueue(m') && LockNotLost(m')
  {
    var m' := Unlock(m, t, to);
    Moves(m, m', t, to);
    OthersStay(m, m', t);
    forall u
      ensures m'.holder != By(u) && !At(m', u, Holding)
    {
      if u != t && At(m, u, Holding) {
        OnlyOne(m, t, u);
      }
    }
    if m'.lock.queue != [] {
      var u := m.lock.queue[0];
      assert u in m.lock.queue && u !in m'.lock.queue;
      assert WantsLock(m', u);
    }
  }

  lemma ReleaseKeeps(m: Monitor, t: Thread)
    requires Good(m) && At(m, t, Holding)
    ensures Good(Release(m, t))
  {
    hide QueueOfWaiters, OneInside, HolderRight, LockQueue, LockNotLost;
    var m' := Release(m, t);
    UnlockKeepsLock(m, t, Outside);
    OthersStay(m, m', t);
    WaitersStay(m, m', t);
  }

  lemma WaitKeeps(m: Monitor, t: Thread, w: nat)
    requires Good(m) && At(m, t, Holding) && w !in m.sems
    ensures Good(Wait(m, t, w))
  {
    hide OneInside, HolderRight, LockQueue, LockNotLost, QueueOfWaiters, Signalling;
    var m0 := m.(sems := m.sems[w := Sem(0, [])], waitQueue := m.waitQueue + [w]);
    SameLock(m, m0);
    UnlockKeepsLock(m0, t, Waiting(w));
    OthersStay(m, Wait(m, t, w), t);
    WaitKeepsWaiters(m, t, w);
  }

  // The lock's invariants do not speak of the waiters.
  lemma SameLock(m: Monitor, m0: Monitor)
    requires m0.lock == m.lock && m0.holder == m.holder && m0.places == m.places
    ensures OneInside(m0) == OneInside(m) && HolderRight(m0) == HolderRight(m)
    ensures LockQueue(m0) == LockQueue(m) && LockNotLost(m0) == LockNotLost(m)
  {
    assert Inside(m0) == Inside(m);
    assert forall t, p :: At(m0, t, p) <==> At(m, t, p);
    assert forall t :: WantsLock(m0, t) <==> WantsLock(m, t);
  }

  lemma WaitKeepsWaiters(m: Monitor, t: Thread, w: nat)
    requires TicketsOwned(m) && QueueOfWaiters(m) && Signalling(m) && At(m, t, Holding) && w !in m.sems
    ensures QueueOfWaiters(Wait(m, t, w)) && Signalling(Wait(m, t, w))
  {
    var m' := Wait(m, t, w);
    OthersStay(m, m', t);
    forall v | v in m.waitQueue
      ensures v != w && exists u :: At(m', u, Waiting(v))
    {
      var u :| At(m, u, Waiting(v));
      assert HasTicket(m, u, v);
      assert At(m', u, Waiting(v));
    }
    assert At(m', t, Waiting(w));
    forall u, v | At(m', u, Waiting(v))
      ensures v in m'.sems && WaiterSem(m', u, v)
    {
      if u != t {
        assert HasTicket(m, u, v);
      }
    }
  }

  lemma TryWakeKeeps(m: Monitor, t: Thread)
    requires Good(m) && Awake(m, t)
    ensures Good(TryWake(m, t))
  {
    hide OneInside, HolderRight, LockQueue, LockNotLost, QueueOfWaiters, Signalling;
    WakeKeepsLock(m, t);
    WakeKeepsWaiters(m, t);
    WakeKeepsTickets(m, t);
  }

  lemma WakeKeepsLock(m: Monitor, t: Thread)
    requires OneInside(m) && HolderRight(m) && LockQueue(m) && LockNotLost(m) && Awake(m, t)
    ensures var m' := TryWake(m, t); OneInside(m') && HolderRight(m') && LockQueue(m') && LockNotLost(m')
  {
    var m', w := TryWake(m, t), m.places[t].w;
    if m.sems[w].value == 0 {
      SameLock(m, m');
    } else {
      Moves(m, m', t, Acquiring(Ticket(w)));
      OthersStay(m, m', t);
      if m.lock.queue != [] && m.lock.value > 0 {
        var u :| WantsLock(m, u);
        assert WantsLock(m', u);
      }
    }
  }

  lemma WakeKeepsTickets(m: Monitor, t: Thread)
    requires TicketsOwned(m) && Awake(m, t)
    ensures TicketsOwned(TryWake(m, t))
  {
    assert forall u, w :: HasTicket(TryWake(m, t), u, w) <==> HasTicket(m, u, w);
  }

  lemma WakeKeepsWaiters(m: Monitor, t: Thread)
    requires TicketsOwned(m) && QueueOfWaiters(m) && Signalling(m) && Awake(m, t)
    ensures QueueOfWaiters(TryWake(m, t)) && Signalling(TryWake(m, t))
  {
    var m', w := TryWake(m, t), m.places[t].w;
    assert At(m, t, Waiting(w)) && WaiterSem(m, t, w);
    forall v | v in m'.waitQueue
      ensures exists u :: At(m', u, Waiting(v))
    {
      var u :| At(m, u, Waiting(v));
      assert At(m', u, Waiting(v));
    }
    forall u, v | At(m', u, Waiting(v))
      ensures v in m'.sems && WaiterSem(m', u, v)
    {
      assert At(m, u, Waiting(v));
      if u != t {
        assert HasTicket(m, u, v) && HasTicket(m, t, w);
      }
    }
  }

  lemma SignalKeeps(m: Monitor)
    requires Good(m)
    ensures (m.waitQueue != [] ==> m.waitQueue[0] in m.sems) && Good(Signal(m))
  {
    hide OneInside, HolderRight, LockQueue, LockNotLost, QueueOfWaiters, Signalling;
    FrontExists(m);
    if m.waitQueue != [] {
      SameLock(m, Signal(m));
      SignalKeepsWaiters(m);
      assert forall t, w :: HasTicket(Signal(m), t, w) <==> HasTicket(m, t, w);
    }
  }

  lemma FrontExists(m: Monitor)
    requires TicketsOwned(m) && QueueOfWaiters(m)
    ensures m.waitQueue != [] ==> m.waitQueue[0] in m.sems
    ensures m.waitQueue != [] ==> exists t :: At(m, t, Waiting(m.waitQueue[0]))
  {
    if m.waitQueue != [] {
      assert m.waitQueue[0] in m.waitQueue;
      var t :| At(m, t, Waiting(m.waitQueue[0]));
      assert HasTicket(m, t, m.waitQueue[0]);
    }
  }

  lemma SignalKeepsWaiters(m: Monitor)
    requires TicketsOwned(m) && QueueOfWaiters(m) && Signalling(m) && m.waitQueue != [] && m.waitQueue[0] in m.sems
    ensures QueueOfWaiters(Signal(m)) && Signalling(Signal(m))
  {
    var m', w := Signal(m), m.waitQueue[0];
    forall v | v in m'.waitQueue
      ensures v != w && exists u :: At(m', u, Waiting(v))
    {
      assert v in m.waitQueue;
      var u :| At(m, u, Waiting(v));
      assert At(m', u, Waiting(v));
    }
    forall u, v | At(m', u, Waiting(v))
      ensures v in m'.sems && WaiterSem(m', u, v)
    {
      assert At(m, u, Waiting(v)) && WaiterSem(m, u, v);
      assert v == w || (v in m'.waitQueue <==> v in m.waitQueue);
    }
  }

  lemma StepKeepsGood(m: Monitor, m': Monitor, t: Thread)
    requires Good(m) && StepOf(m, m', t)
    ensures Good(m') && m'.places.Keys == m.places.Keys
  {
    hide Good;
    if At(m, t, Outside) && m' == Acquire(m, t) {
      AcquireKeeps(m, t);
    } else if WantsLock(m, t) && m' == TryLock(m, t) {
      TryLockKeeps(m, t);
    } else if PastP(m, t) && m' == Enter(m, t) {
      EnterKeeps(m, t);
    } else if At(m, t, Holding) && m' == Release(m, t) {
      ReleaseKeeps(m, t);
    } else if w :| At(m, t, Holding) && WaitStep(m, m', t, w) {
      WaitKeeps(m, t, w);
    } else if Awake(m, t) && m' == TryWake(m, t) {
      TryWakeKeeps(m, t);
    } else {
      SignalKeeps(m);
    }
  }

  ghost predicate Step(m: Monitor, m': Monitor) { exists t :: StepOf(m, m', t) }

  lemma StartIsGood(m: Monitor)
    requires Start(m)
    ensures Good(m)
  {
  }

  // Over every interleaving of any threads using the lock and the condition.
  lemma {:induction false} RunsAreGood(run: seq<Monitor>)
    requires run != [] && Start(run[0])
    requires forall k :: 0 <= k < |run| - 1 ==> Step(run[k], run[k + 1])
    ensures Good(run[|run| - 1])
  {
    hide Good, StepOf, Start;
    if |run| == 1 {
      StartIsGood(run[0]);
    } else {
      RunsAreGood(run[..|run| - 1]);
      assert Step(run[|run| - 2], run[|run| - 1]);
      var t :| StepOf(run[|run| - 2], run[|run| - 1], t);
      StepKeepsGood(run[|run| - 2], run[|run| - 1], t);
    }
  }

  // ---------------------------------------------------------- consequences

  // Mutual exclusion, and the assertions that the caller holds the lock.
  lemma MutualExclusion(m: Monitor, t: Thread, u: Thread)
    requires Good(m) && At(m, t, Holding)
    ensures m.holder == By(t)
    ensures At(m, u, Holding) ==> u == t
    ensures !PastP(m, u)
  {
    if u in m.places && InsidePlace(m.places[u]) {
      OnlyOne(m, t, u);
    }
  }

  // What the holder does to the wait queue no other thread disturbs.
  lemma HolderAlone(m: Monitor, m': Monitor, t: Thread, u: Thread)
    requires Good(m) && At(m, t, Holding) && StepOf(m, m', u) && u != t
    ensures At(m', t, Holding) && m'.waitQueue == m.waitQueue && m'.holder == m.holder
  {
    hide Good;
    MutualExclusion(m, t, u);
  }

  // A run watched: the waiters' semaphores in the order in which they began to
  // wait, and in the order in which they were signalled.
  datatype WaitWatch = WaitWatch(m: Monitor, waited: seq<nat>, signalled: seq<nat>)

  ghost predicate WaitWatchStep(x: WaitWatch, x': WaitWatch) {
    Step(x.m, x'.m) && Watched(x.m.waitQueue, x'.m.waitQueue, x.waited, x'.waited, x.signalled, x'.signalled)
  }

  ghost predicate WaitWatchedRun(run: seq<WaitWatch>) {
    && run != [] && Start(run[0].m) && run[0].waited == run[0].signalled == []
    && forall k :: 0 <= k < |run| - 1 ==> WaitWatchStep(run[k], run[k + 1])
  }

  lemma WaitQueueChanges(m: Monitor, m': Monitor, t: Thread)
    requires Good(m) && StepOf(m, m', t)
    ensures || m'.waitQueue == m.waitQueue
            || (m.waitQueue != [] && m'.waitQueue == m.waitQueue[1..])
            || (m'.waitQueue != [] && m'.waitQueue == m.waitQueue + [m'.waitQueue[|m'.waitQueue| - 1]]
                && m'.waitQueue[|m'.waitQueue| - 1] !in m.waitQueue)
  {
    hide OneInside, HolderRight, LockQueue, LockNotLost, WaiterSem;
    forall w | w in m.waitQueue
      ensures w in m.sems
    {
      var u :| At(m, u, Waiting(w));
    }
  }

  lemma WaitWatchStepKeeps(x: WaitWatch, x': WaitWatch)
    requires Good(x.m) && InOrder(x.m.waitQueue, x.waited, x.signalled) && WaitWatchStep(x, x')
    ensures Good(x'.m) && InOrder(x'.m.waitQueue, x'.waited, x'.signalled)
  {
    hide Watched, InOrder, Lists.NoRepeats, StepOf, OneInside, HolderRight, LockQueue, LockNotLost, Signalling,
      TicketsOwned;
    var t :| StepOf(x.m, x'.m, t);
    StepKeepsGood(x.m, x'.m, t);
    WaitQueueChanges(x.m, x'.m, t);
    var q, q' := x.m.waitQueue, x'.m.waitQueue;
    if q' == q {
      NobodyMoves(q, x.waited, x'.waited, x.signalled, x'.signalled);
    } else if q != [] && q' == q[1..] {
      FirstLeaves(q, x.waited, x'.waited, x.signalled, x'.signalled);
    } else {
      OneJoins(q, q'[|q'| - 1], x.waited, x'.waited, x.signalled, x'.signalled);
    }
  }

  // Over every run waiters are signalled in the order in which they began to
  // wait.
  lemma {:induction false} SignalledInOrder(run: seq<WaitWatch>)
    requires WaitWatchedRun(run)
    ensures var x := run[|run| - 1];
            Good(x.m) && x.waited == x.signalled + x.m.waitQueue
  {
    hide Good, WaitWatchStep, Start;
    if |run| == 1 {
      StartIsGood(run[0].m);
      NobodyWaits(run[0].m);
    } else {
      SignalledInOrder(run[..|run| - 1]);
      WaitWatchStepKeeps(run[|run| - 2], run[|run| - 1]);
    }
  }

  lemma NobodyWaits(m: Monitor)
    requires Start(m)
    ensures m.waitQueue == []
  {
  }

  // Signal wakes exactly one waiter, the one that has waited longest, even
  // if that waiter has not reached its P yet: its next turn of P succeeds.
  lemma SignalWakesOne(m: Monitor) returns (t: Thread)
    requires Good(m) && m.waitQueue != []
    ensures m.waitQueue[0] in m.sems && At(m, t, Waiting(m.waitQueue[0]))
    ensures Awake(Signal(m), t)
    ensures At(TryWake(Signal(m), t), t, Acquiring(Ticket(m.waitQueue[0])))
    ensures forall u, v :: At(m, u, Waiting(v)) && u != t ==>
              && v in m.sems && At(Signal(m), u, Waiting(v))
              && Signal(m).sems[v] == m.sems[v] && (v in Signal(m).waitQueue <==> v in m.waitQueue)
  {
    hide OneInside, HolderRight, LockQueue, LockNotLost;
    FrontExists(m);
    SignalKeeps(m);
    var w := m.waitQueue[0];
    t :| At(m, t, Waiting(w));
    assert WaiterSem(Signal(m), t, w);
    forall u, v | At(m, u, Waiting(v)) && u != t
      ensures v in m.sems && v != w && (v in Signal(m).waitQueue <==> v in m.waitQueue)
    {
      assert HasTicket(m, u, v) && HasTicket(m, t, w);
    }
  }

  // A waiter that was signalled stays so until it takes its turn.
  lemma SignalNotLost(m: Monitor, m': Monitor, t: Thread, w: nat, u: Thread)
    requires Good(m) && At(m, t, Waiting(w)) && w !in m.waitQueue && StepOf(m, m', u)
    ensures if u == t then At(m', t, Acquiring(Ticket(w))) else At(m', t, Waiting(w)) && w !in m'.waitQueue
  {
    hide OneInside, HolderRight, LockQueue, LockNotLost;
    assert HasTicket(m, t, w) && WaiterSem(m, t, w);
  }

  // --------------------------------------------------- the objects themselves

  class Lock {
    const semaphore: Semaphore
    var lockHolder: Holder

    constructor ()
      ensures fresh(semaphore) && semaphore.Value() == Sem(1, []) && lockHolder == Holder.Nobody
    {
      semaphore := new Semaphore(1);
      lockHolder := Holder.Nobody;
    }

    predicate IsHeldBy(current: Thread)
      reads this
    {
      lockHolder == By(current)
    }

    // What Acquire does once it is past P.
    method TakeHold(current: Thread)
      modifies this
      ensures lockHolder == By(current)
    {
      lockHolder := By(current);
    }

    method Release(current: Thread)
      requires IsHeldBy(current)      // the source's ASSERT
      modifies this, semaphore
      ensures lockHolder == Holder.Nobody && semaphore.Value() == Post(old(semaphore.Value()))
    {
      lockHolder := Holder.Nobody;
      var woken := semaphore.V();
    }
  }

  class Condition {
    var waitQueue: seq<Semaphore>

    constructor ()
      ensures waitQueue == []
    {
      waitQueue := [];
    }

    // Wait as far as the P on the new semaphore.
    method StartWait(conditionLock: Lock, current: Thread) returns (waiter: Semaphore)
      requires conditionLock.IsHeldBy(current)      // the source's ASSERT
      requires conditionLock.semaphore !in waitQueue
      modifies this, conditionLock, conditionLock.semaphore
      ensures fresh(waiter) && waiter.Value() == Sem(0, []) && waitQueue == old(waitQueue) + [waiter]
      ensures conditionLock.lockHolder == Holder.Nobody
      ensures conditionLock.semaphore.Value() == Post(old(conditionLock.semaphore.Value()))
    {
      waiter := new Semaphore(0);
      waitQueue := waitQueue + [waiter];
      conditionLock.Release(current);
    }

    method Signal(conditionLock: Lock, current: Thread)
      requires conditionLock.IsHeldBy(current)      // the source's ASSERT
      modifies this, waitQueue
      ensures waitQueue == if old(waitQueue) == [] then [] else old(waitQueue)[1..]
      ensures old(waitQueue) != [] ==> old(waitQueue)[0].Value() == Post(old(waitQueue[0].Value()))
      ensures forall s :: s in waitQueue && s != old(waitQueue)[0] ==> s.Value() == old(s.Value())
    {
      if waitQueue != [] {
        var waiter := waitQueue[0];
        waitQueue := waitQueue[1..];
        var woken := waiter.V();
      }
    }

    // Everybody is woken, once.
    method Broadcast(conditionLock: Lock, current: Thread)
      requires conditionLock.IsHeldBy(current) && Lists.NoRepeats(waitQueue)
      modifies this, waitQueue
      ensures waitQueue == []
      ensures forall i :: 0 <= i < |old(waitQueue)| ==> old(waitQueue)[i].Value() == Post(old(waitQueue[i].Value()))
    {
      ghost var all, n := waitQueue, 0;
      while waitQueue != []
        invariant n + |waitQueue| == |all| && waitQueue == all[n..]
        invariant forall i :: 0 <= i < n ==> all[i].Value() == Post(old(waitQueue[i].Value()))
        invariant forall i :: n <= i < |all| ==> all[i].Value() == old(waitQueue[i].Value())
        decreases |waitQueue|
      {
        Signal(conditionLock, current);
        n := n + 1;
      }
    }
  }
}
