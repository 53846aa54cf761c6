// The sending half of the post office: one lock, one semaphore, and the
// interrupt that says the network can take the next packet.
module Sending {
  import opened Semaphores
  import opened Monitors

  // Ready: on the way to the network.  Sent: in P on messageSent.
  datatype Phase = NotSending | Ready | Sent | Finished

  // pending counts the send interrupts that are scheduled.
  datatype State = State(m: Monitor, messageSent: Sem, pending: nat, phases: map<Thread, Phase>)

  predicate In(s: State, t: Thread, p: Phase) { t in s.phases && s.phases[t] == p }

  ghost predicate CallStep(s: State, s': State, t: Thread) {
    At(s.m, t, Outside) && In(s, t, NotSending) && s' == s.(m := Acquire(s.m, t), phases := s.phases[t := Ready])
  }

  ghost predicate LockStep(s: State, s': State, t: Thread) {
    s' == s.(m := s'.m) &&
    ((WantsLock(s.m, t) && s'.m == TryLock(s.m, t)) || (PastP(s.m, t) && s'.m == Enter(s.m, t)))
  }

  // network->Send schedules the interrupt, whether the packet is lost or not.
  ghost predicate SendStep(s: State, s': State, t: Thread) {
    At(s.m, t, Holding) && In(s, t, Ready) && s' == s.(pending := s.pending + 1, phases := s.phases[t := Sent])
  }

  // The interrupt handler: messageSent->V
  ghost predicate InterruptStep(s: State, s': State) {
    s.pending > 0 && s' == s.(pending := s.pending - 1, messageSent := Post(s.messageSent))
  }

  // A turn of messageSent->P.
  ghost predicate WaitStep(s: State, s': State, t: Thread) {
    && In(s, t, Sent) && t !in s.messageSent.queue
    && s' == s.(messageSent := Turn(s.messageSent, t),
                phases := if s.messageSent.value == 0 then s.phases else s.phases[t := Finished])
  }

  ghost predicate ReleaseStep(s: State, s': State, t: Thread) {
    At(s.m, t, Holding) && In(s, t, Finished) && s' == s.(m := Release(s.m, t), phases := s.phases[t := NotSending])
  }

  ghost predicate StepOf(s: State, s': State, t: Thread) {
    CallStep(s, s', t) || LockStep(s, s', t) || SendStep(s, s', t) || WaitStep(s, s', t) || ReleaseStep(s, s', t)
  }

  ghost predicate Step(s: State, s': State) {
    InterruptStep(s, s') || exists t :: StepOf(s, s', t)
  }

  ghost predicate Start(s: State) {
    && Monitors.Start(s.m) && s.messageSent == Sem(0, []) && s.pending == 0
    && s.phases.Keys == s.m.places.Keys && forall t :: t in s.phases ==> s.phases[t] == NotSending
  }

  // ------------------------------------------------------------ invariants

  predicate Fits(p: Phase, at: Place) {
    match p
    case NotSending => at == Outside
    case Ready => at.Acquiring? || at.Past? || at.Holding?
    case Sent => at == Holding
    case Finished => at == Holding
  }

  ghost predicate PhasesFit(s: State) {
    s.phases.Keys == s.m.places.Keys && forall t :: t in s.phases ==> Fits(s.phases[t], s.m.places[t])
  }

  ghost predicate Busy(s: State) { exists t :: In(s, t, Sent) }

  // A packet is out, its interrupt scheduled or its token not yet taken,
  // exactly while a sender waits for it; only that sender can be asleep.
  ghost predicate OneOut(s: State) {
    && s.pending + s.messageSent.value == (if Busy(s) then 1 else 0)
    && (s.messageSent.queue != [] ==>
          |s.messageSent.queue| == 1 && In(s, s.messageSent.queue[0], Sent) && s.messageSent.value == 0)
  }

  ghost predicate Good(s: State) { Monitors.Good(s.m) && PhasesFit(s) && OneOut(s) }

  // Only one thread is past the lock.
  lemma OneSender(s: State, t: Thread, u: Thread)
    requires Monitors.Good(s.m) && PhasesFit(s) && At(s.m, t, Holding) && u in s.phases
    requires s.phases[u] == Sent || s.phases[u] == Finished
    ensures u == t
  {
    hide Monitors.Good;
    MutualExclusion(s.m, t, u);
  }

  lemma MonitorStepKeeps(s: State, s': State, t: Thread)
    requires Good(s) && t in s.phases && t in s.m.places && Monitors.StepOf(s.m, s'.m, t)
    requires s'.messageSent == s.messageSent && s'.pending == s.pending && s'.phases.Keys == s.phases.Keys
    requires forall u :: u in s.phases && u != t && u in s.m.places && u in s'.m.places ==>
               s'.phases[u] == s.phases[u] && s'.m.places[u] == s.m.places[u]
    requires t in s'.m.places ==> Fits(s'.phases[t], s'.m.places[t])
    requires s.phases[t] != Sent && s'.phases[t] != Sent
    ensures Good(s')
  {
    hide Monitors.Good, Monitors.StepOf;
    StepKeepsGood(s.m, s'.m, t);
    assert forall u :: In(s', u, Sent) <==> In(s, u, Sent);
  }

  lemma CallKeeps(s: State, s': State, t: Thread)
    requires Good(s) && CallStep(s, s', t)
    ensures Good(s')
  {
    hide Monitors.Good, OneOut;
    assert Monitors.StepOf(s.m, s'.m, t);
    MonitorStepKeeps(s, s', t);
  }

  lemma LockKeeps(s: State, s': State, t: Thread)
    requires Good(s) && LockStep(s, s', t)
    ensures Good(s')
  {
    hide Monitors.Good, OneOut;
    assert Monitors.StepOf(s.m, s'.m, t);
    MonitorStepKeeps(s, s', t);
  }

  lemma ReleaseStepKeeps(s: State, s': State, t: Thread)
    requires Good(s) && ReleaseStep(s, s', t)
    ensures Good(s')
  {
    hide Monitors.Good, OneOut;
    assert Monitors.StepOf(s.m, s'.m, t);
    MonitorStepKeeps(s, s', t);
  }

  lemma SendKeeps(s: State, s': State, t: Thread)
    requires Good(s) && SendStep(s, s', t)
    ensures s.pending == 0 && Good(s')
  {
    hide Monitors.Good;
    if u :| In(s, u, Sent) {
      OneSender(s, t, u);
    }
    assert In(s', t, Sent);
  }

  lemma WaitKeeps(s: State, s': State, t: Thread)
    requires Good(s) && WaitStep(s, s', t)
    ensures Good(s')
  {
    hide Monitors.Good;
    if s.messageSent.value == 0 {
      if s.messageSent.queue != [] {
        OneSender(s, t, s.messageSent.queue[0]);
      }
      assert forall u :: In(s', u, Sent) <==> In(s, u, Sent);
    } else {
      forall u | In(s', u, Sent)
        ensures false
      {
        OneSender(s, t, u);
      }
    }
  }

  lemma InterruptKeeps(s: State, s': State)
    requires Good(s) && InterruptStep(s, s')
    ensures Good(s')
  {
    hide Monitors.Good;
    assert forall u :: In(s', u, Sent) <==> In(s, u, Sent);
  }

  lemma StepKeeps(s: State, s': State)
    requires Good(s) && Step(s, s')
    ensures Good(s')
  {
    hide Good, CallStep, LockStep, SendStep, WaitStep, ReleaseStep, InterruptStep;
    if InterruptStep(s, s') {
      InterruptKeeps(s, s');
    } else {
      var t :| StepOf(s, s', t);
      if CallStep(s, s', t) {
        CallKeeps(s, s', t);
      } else if LockStep(s, s', t) {
        LockKeeps(s, s', t);
      } else if SendStep(s, s', t) {
        SendKeeps(s, s', t);
      } else if WaitStep(s, s', t) {
        WaitKeeps(s, s', t);
      } else {
        ReleaseStepKeeps(s, s', t);
      }
    }
  }

  lemma StartIsGood(s: State)
    requires Start(s)
    ensures Good(s)
  {
  }

  // Over every interleaving of senders and interrupts.
  lemma {:induction false} RunsAreGood(run: seq<State>)
    requires run != [] && Start(run[0])
    requires forall k :: 0 <= k < |run| - 1 ==> Step(run[k], run[k + 1])
    ensures Good(run[|run| - 1])
  {
    hide Good, Start, Step;
    if |run| == 1 {
      StartIsGood(run[0]);
    } else {
      RunsAreGood(run[..|run| - 1]);
      StepKeeps(run[|run| - 2], run[|run| - 1]);
    }
  }

  // A packet is given to the network only when none is out, and a sender
  // gets past its wait only after its own packet's interrupt.
  lemma OnePacketAtATime(run: seq<State>, s': State, t: Thread)
    requires run != [] && Start(run[0])
    requires forall k :: 0 <= k < |run| - 1 ==> Step(run[k], run[k + 1])
    ensures run[|run| - 1].pending <= 1
    ensures SendStep(run[|run| - 1], s', t) ==> run[|run| - 1].pending == 0
    ensures WaitStep(run[|run| - 1], s', t) && In(s', t, Finished) ==> run[|run| - 1].pending == 0
  {
    hide Monitors.Good, Step;
    RunsAreGood(run);
    if SendStep(run[|run| - 1], s', t) {
      SendKeeps(run[|run| - 1], s', t);
    }
  }
}
