// What becomes of the interrupts that are asked for: each one fires exactly
// once, at its time; and what handlers ask for is done.
module Requests {
  import opened Interrupts
  import opened Lists

  // The interrupt is the one asked for under its number.
  predicate Tracks(p: Pending, asked: seq<Asked>) {
    p.id < |asked| && p.kind == asked[p.id].kind && p.when == asked[p.id].at + asked[p.id].fromNow
  }

  ghost predicate Listed(q: seq<Pending>, id: nat) { exists p :: p in q && p.id == id }

  // Every interrupt is one that was asked for, and every one that was asked
  // for is there, fired or pending.
  ghost predicate Promised(s: Sim) {
    && s.nextId == |s.asked|
    && (forall p :: p in s.fired || p in s.pending ==> Tracks(p, s.asked))
    && forall id: nat :: id < |s.asked| ==> Listed(s.fired, id) || Listed(s.pending, id)
  }

  lemma ScheduledPromised(s: Sim, r: Request)
    requires Promised(s)
    ensures Promised(Scheduled(s, r))
  {
    hide Inserted;
    var s', x := Scheduled(s, r), Pending(s.nextId, r.kind, s.total + r.fromNow);
    InsertedHas(s.pending, x);
    forall p | p in s'.pending
      ensures p == x || p in s.pending
    {
      var j :| 0 <= j < |s'.pending| && s'.pending[j] == p;
      InsertedFrom(s.pending, x, j);
    }
    forall id: nat | id < |s'.asked|
      ensures Listed(s'.fired, id) || Listed(s'.pending, id)
    {
      if id == s.nextId {
        assert x in s'.pending;
      } else if Listed(s.pending, id) {
        var p :| p in s.pending && p.id == id;
        assert p in s'.pending;
      }
    }
  }

  // The requests as they go on record at one time.
  function AskedAt(now: int, rs: seq<Request>): (asked: seq<Asked>)
    ensures |asked| == |rs|
  {
    if rs == [] then [] else [Asked(now, rs[0].fromNow, rs[0].kind)] + AskedAt(now, rs[1..])
  }

  lemma {:induction false} AskedJoin(now: int, a: seq<Request>, b: seq<Request>)
    ensures AskedAt(now, a + b) == AskedAt(now, a) + AskedAt(now, b)
  {
    if a == [] {
      assert a + b == b;
    } else {
      AskedJoin(now, a[1..], b);
      assert (a + b)[1..] == a[1..] + b;
    }
  }

  lemma {:induction false} ScheduleAllPromised(s: Sim, rs: seq<Request>)
    requires Promised(s)
    ensures Promised(ScheduleAll(s, rs))
    ensures ScheduleAll(s, rs).asked == s.asked + AskedAt(s.total, rs)
    ensures ScheduleAll(s, rs).yieldOnReturn == s.yieldOnReturn && ScheduleAll(s, rs).total == s.total
    decreases |rs|
  {
    hide Promised;
    if rs != [] {
      ScheduledPromised(s, rs[0]);
      ScheduleAllPromised(Scheduled(s, rs[0]), rs[1..]);
    }
  }

  lemma TakenPromised(s: Sim, y: bool)
    requires Promised(s) && s.pending != []
    ensures Promised(Taken(s).(yieldOnReturn := y))
  {
    var s', p := Taken(s), s.pending[0];
    assert s.pending == [p] + s.pending[1..];
    forall id: nat | id < |s.asked|
      ensures Listed(s'.fired, id) || Listed(s'.pending, id)
    {
      if Listed(s.fired, id) {
        var q :| q in s.fired && q.id == id;
        assert q in s'.fired;
      } else {
        var q :| q in s.pending && q.id == id;
        assert q in s'.fired || q in s'.pending;
      }
    }
  }

  // The handler of the interrupt fired is given what it asks for.
  lemma FirePromised(s: Sim, h: Handlers)
    requires Promised(s) && s.pending != []
    ensures var s', a := Fire(s, h), h(s.fired + [s.pending[0]]);
            && Promised(s') && s'.asked == s.asked + AskedAt(s.total, a.requests) && s'.total == s.total
            && (s'.yieldOnReturn <==> s.yieldOnReturn || a.asksYield)
  {
    hide Promised, ScheduleAll;
    var s1 := Taken(s);
    var a := h(s1.fired);
    TakenPromised(s, s1.yieldOnReturn || a.asksYield);
    ScheduleAllPromised(s1.(yieldOnReturn := s1.yieldOnReturn || a.asksYield), a.requests);
  }

  // What the handlers of the interrupts fired since then ask for.
  function Answers(h: Handlers, fired: seq<Pending>, from: nat): seq<Request>
    requires from <= |fired|
    decreases |fired| - from
  {
    if from == |fired| then [] else h(fired[..from + 1]).requests + Answers(h, fired, from + 1)
  }

  // The handler of number k asks for a yield.
  predicate AsksYield(h: Handlers, fired: seq<Pending>, k: nat)
    requires k < |fired|
  {
    h(fired[..k + 1]).asksYield
  }

  ghost predicate YieldAsked(h: Handlers, fired: seq<Pending>, from: nat) {
    exists k :: from <= k < |fired| && AsksYield(h, fired, k)
  }

  lemma AnswersNext(h: Handlers, fired: seq<Pending>, from: nat)
    requires from < |fired|
    ensures Answers(h, fired, from) == h(fired[..from + 1]).requests + Answers(h, fired, from + 1)
    ensures YieldAsked(h, fired, from) <==> h(fired[..from + 1]).asksYield || YieldAsked(h, fired, from + 1)
  {
    assert AsksYield(h, fired, from) <==> h(fired[..from + 1]).asksYield;
  }

  // Everything the handlers ask for is scheduled, for times counted from now,
  // and a yield is asked for if and only if one of them does.
  lemma {:induction false} DrainPromised(s: Sim, h: Handlers)
    requires Good(s) && Promised(s)
    ensures var s' := Drain(s, h);
            && Promised(s') && s.fired <= s'.fired && s'.total == s.total
            && s'.asked == s.asked + AskedAt(s.total, Answers(h, s'.fired, |s.fired|))
            && (s'.yieldOnReturn <==> s.yieldOnReturn || YieldAsked(h, s'.fired, |s.fired|))
    decreases DueCount(s.pending, s.total)
  {
    hide Good, Promised, Fire, YieldAsked, Answers;
    if FrontDue(s) {
      FireIsProgress(s, h);
      FireKeeps(s, h);
      FirePromised(s, h);
      var s1 := Fire(s, h);
      DrainPromised(s1, h);
      var fired := Drain(s, h).fired;
      assert fired[..|s.fired| + 1] == s1.fired;
      AnswersNext(h, fired, |s.fired|);
      AskedJoin(s.total, h(s1.fired).requests, Answers(h, fired, |s1.fired|));
    } else {
      NoAnswers(h, s.fired);
    }
  }

  lemma NoAnswers(h: Handlers, fired: seq<Pending>)
    ensures Answers(h, fired, |fired|) == [] && !YieldAsked(h, fired, |fired|)
  {
  }

  lemma SamePromised(s: Sim, s': Sim)
    requires Promised(s) && s'.pending == s.pending && s'.fired == s.fired && s'.asked == s.asked
    requires s'.nextId == s.nextId
    ensures Promised(s')
  {
  }

  lemma StepPromised(s: Sim, s': Sim)
    requires Good(s) && NothingDue(s) && Promised(s) && Step(s, s')
    ensures Promised(s')
  {
    hide Good, NothingDue, Promised, Drain, Scheduled;
    if mode, h :| TickStep(s, s', mode, h) {
      TickKeeps(s, mode);
      SamePromised(s, Ticked(s, mode));
      DrainPromised(Ticked(s, mode), h);
      SamePromised(Drain(Ticked(s, mode), h), s');
    } else if h :| IdleStep(s, s', h) {
      AdvanceKeeps(s);
      SamePromised(s, Advanced(s));
      DrainPromised(Advanced(s), h);
    } else {
      var r :| DeviceStep(s, s', r);
      ScheduledPromised(s, r);
    }
  }

  lemma {:induction false} RunsPromised(run: seq<Sim>)
    requires run != [] && run[0] == NEW_SIM
    requires forall k :: 0 <= k < |run| - 1 ==> Step(run[k], run[k + 1])
    ensures Promised(run[|run| - 1])
  {
    hide Promised, Step;
    if |run| == 1 {
      NewPromised();
    } else {
      RunsPromised(run[..|run| - 1]);
      RunsAreGood(run[..|run| - 1]);
      StepPromised(run[|run| - 2], run[|run| - 1]);
    }
  }

  lemma NewPromised()
    ensures Promised(NEW_SIM)
  {
  }

  // Request number id is pending, as asked for, and its time has not come.
  ghost predicate PendsAs(s: Sim, i: int, id: nat)
    requires id < |s.asked|
  {
    var a := s.asked[id];
    && 0 <= i < |s.pending| && s.pending[i] == Pending(id, a.kind, a.at + a.fromNow)
    && s.total < a.at + a.fromNow
  }

  // It fired, as asked for, at its time or less than ten ticks later.
  ghost predicate FiredAs(s: Sim, i: int, id: nat)
    requires id < |s.asked|
  {
    var a := s.asked[id];
    && 0 <= i < |s.fired| && s.fired[i] == Pending(id, a.kind, a.at + a.fromNow)
    && i < |s.times| && a.at + a.fromNow <= s.times[i] < a.at + a.fromNow + 10
  }

  // In every state of every run each interrupt ever asked for either pends and
  // its time is still to come, or has fired exactly once, with the kind asked
  // for, never before fromNow ticks had gone by since it was asked for, and
  // less than ten ticks later.
  lemma EachFiresOnce(run: seq<Sim>, id: nat)
    requires run != [] && run[0] == NEW_SIM
    requires forall k :: 0 <= k < |run| - 1 ==> Step(run[k], run[k + 1])
    requires id < |run[|run| - 1].asked|
    ensures var s := run[|run| - 1];
            && ((exists i :: PendsAs(s, i, id)) <==> !exists i :: FiredAs(s, i, id))
            && (forall i :: 0 <= i < |s.pending| && s.pending[i].id == id ==> PendsAs(s, i, id))
            && (forall i :: 0 <= i < |s.fired| && s.fired[i].id == id ==> FiredAs(s, i, id))
            && (forall i, j :: FiredAs(s, i, id) && FiredAs(s, j, id) ==> i == j)
            && (forall i, j :: PendsAs(s, i, id) && PendsAs(s, j, id) ==> i == j)
  {
    hide Step, Good, NothingDue, Promised, Ordered, InOrder;
    RunsPromised(run);
    RunsAreGood(run);
    var s := run[|run| - 1];
    GoodOrder(s);
    OneOf(s, id);
    forall i: nat | i < |s.pending| && s.pending[i].id == id
      ensures PendsAs(s, i, id)
    {
      AllPend(s, id, i);
    }
    forall i: nat | i < |s.fired| && s.fired[i].id == id
      ensures FiredAs(s, i, id)
    {
      AllFired(s, id, i);
    }
    forall i, j | FiredAs(s, i, id) && FiredAs(s, j, id)
      ensures i == j
    {
      NotTwice(s.fired, i, j);
    }
    forall i, j | PendsAs(s, i, id) && PendsAs(s, j, id)
      ensures i == j
    {
      NotTwice(s.pending, i, j);
    }
  }

  lemma AllPend(s: Sim, id: nat, i: nat)
    requires NothingDue(s) && Promised(s) && id < |s.asked| && i < |s.pending| && s.pending[i].id == id
    ensures PendsAs(s, i, id)
  {
    assert s.pending[i] in s.pending;
  }

  lemma AllFired(s: Sim, id: nat, i: nat)
    requires Good(s) && Promised(s) && id < |s.asked| && i < |s.fired| && s.fired[i].id == id
    ensures FiredAs(s, i, id)
  {
    assert s.fired[i] in s.fired;
  }

  lemma NotTwice(q: seq<Pending>, i: int, j: int)
    requires Ordered(q) && 0 <= i < |q| && 0 <= j < |q| && q[i] == q[j]
    ensures i == j
  {
  }

  lemma NotBoth(s: Sim, i: int, j: int)
    requires InOrder(s) && 0 <= i < |s.fired| && 0 <= j < |s.pending|
    ensures s.fired[i] != s.pending[j]
  {
    OrderedParts(s.fired, s.pending);
  }

  lemma OneOf(s: Sim, id: nat)
    requires Good(s) && NothingDue(s) && Promised(s) && id < |s.asked|
    ensures (exists i :: PendsAs(s, i, id)) <==> !exists i :: FiredAs(s, i, id)
  {
    hide Good, NothingDue, Before;
    if i, j :| PendsAs(s, i, id) && FiredAs(s, j, id) {
      NotBoth(s, j, i) by { GoodOrder(s); }
    }
    if Listed(s.fired, id) {
      var p :| p in s.fired && p.id == id;
      var i :| 0 <= i < |s.fired| && s.fired[i] == p;
      AllFired(s, id, i);
    } else {
      var p :| p in s.pending && p.id == id;
      var i :| 0 <= i < |s.pending| && s.pending[i] == p;
      AllPend(s, id, i);
    }
  }

  lemma GoodOrder(s: Sim)
    requires Good(s)
    ensures InOrder(s) && Ordered(s.fired) && Ordered(s.pending)
  {
    OrderedParts(s.fired, s.pending);
  }

  // ------------------------------------------------------------ what a step does

  // A tick is ten in system mode and one in user mode; no time goes by while
  // handlers run.
  lemma TickAmounts(s: Sim, s': Sim, mode: Mode, h: Handlers)
    requires Good(s) && NothingDue(s) && TickStep(s, s', mode, h)
    ensures s'.total == s.total + if mode == SystemMode then 10 else 1
    ensures s'.system == s.system + (if mode == SystemMode then 10 else 0)
    ensures s'.user == s.user + (if mode == SystemMode then 0 else 1)
    ensures s'.idle == s.idle && !s'.yieldOnReturn
  {
    hide Good, NothingDue, Drain;
    DrainTimes(Ticked(s, mode), h);
  }

  // Idling moves the clock to the first interrupt, if it is still to come.
  lemma IdleAmounts(s: Sim, s': Sim, h: Handlers)
    requires Good(s) && NothingDue(s) && IdleStep(s, s', h)
    ensures s'.total == if s.pending == [] then s.total else s.pending[0].when
    ensures s'.idle - s.idle == s'.total - s.total && s'.system == s.system && s'.user == s.user
  {
    hide Good, Drain;
    DrainTimes(Advanced(s), h);
  }

  lemma {:induction false} ScheduleAllTimes(s: Sim, rs: seq<Request>)
    ensures var s' := ScheduleAll(s, rs);
            s'.total == s.total && s'.idle == s.idle && s'.system == s.system && s'.user == s.user
    decreases |rs|
  {
    if rs != [] {
      ScheduleAllTimes(Scheduled(s, rs[0]), rs[1..]);
    }
  }

  lemma {:induction false} DrainTimes(s: Sim, h: Handlers)
    ensures var s' := Drain(s, h);
            s'.total == s.total && s'.idle == s.idle && s'.system == s.system && s'.user == s.user
    decreases DueCount(s.pending, s.total)
  {
    hide ScheduleAll;
    if FrontDue(s) {
      FireIsProgress(s, h);
      var s1 := Taken(s);
      var a := h(s1.fired);
      ScheduleAllTimes(s1.(yieldOnReturn := s1.yieldOnReturn || a.asksYield), a.requests);
      DrainTimes(Fire(s, h), h);
    }
  }
}
