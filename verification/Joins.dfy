// A process that waits for its children: Join, and what the termination of a
// child does to its parent.  Children are counted only while the parent waits.
module Joins {

  // A parent's counters, and two numbers that the kernel does not keep: the
  // children that have not terminated, and those that did while the parent
  // was not waiting.
  datatype Parent = Parent(children: nat, finished: nat, waiting: bool, alive: nat, missed: nat)

  function Forked(p: Parent): Parent { p.(children := p.children + 1, alive := p.alive + 1) }

  function Joined(p: Parent): Parent { p.(waiting := true) }

  // The termination of a child makes its parent ready.
  predicate Wakes(p: Parent) { p.waiting && p.finished + 1 == p.children }

  function ChildGone(p: Parent): Parent
    requires p.alive > 0
  {
    if p.waiting then p.(finished := p.finished + 1, waiting := !Wakes(p), alive := p.alive - 1)
    else p.(missed := p.missed + 1, alive := p.alive - 1)
  }

  predicate Step(p: Parent, p': Parent) {
    p' == Forked(p) || p' == Joined(p) || (p.alive > 0 && p' == ChildGone(p))
  }

  const START := Parent(0, 0, false, 0, 0)

  predicate IsRun(run: seq<Parent>) {
    run != [] && forall k :: 0 <= k < |run| - 1 ==> Step(run[k], run[k + 1])
  }

  // Every child is alive, counted or missed.
  predicate Good(p: Parent) { p.children == p.alive + p.finished + p.missed }

  lemma {:induction false} RunsAreGood(run: seq<Parent>, k: nat)
    requires IsRun(run) && Good(run[0]) && k < |run|
    ensures Good(run[k])
  {
    hide Step;
    if k > 0 {
      RunsAreGood(run, k - 1);
      StepKeeps(run[k - 1], run[k]);
    }
  }

  lemma StepKeeps(p: Parent, p': Parent)
    requires Good(p) && Step(p, p')
    ensures Good(p')
  {
  }

  // In every state of every run: the termination of a child wakes the parent
  // if and only if the parent waits, it is the last child, and no child
  // terminated while the parent was not waiting.
  lemma {:induction false} WokenIff(run: seq<Parent>)
    requires IsRun(run) && run[0] == START && run[|run| - 1].alive > 0
    ensures var p := run[|run| - 1]; Wakes(p) <==> p.waiting && p.alive == 1 && p.missed == 0
  {
    hide Step, Good, Wakes;
    assert Good(START) by { GoodStart(); }
    RunsAreGood(run, |run| - 1);
    CountedAll(run[|run| - 1]);
  }

  lemma GoodStart()
    ensures Good(START)
  {
  }

  lemma CountedAll(p: Parent)
    requires Good(p) && p.alive > 0
    ensures Wakes(p) <==> p.waiting && p.alive == 1 && p.missed == 0
  {
  }

  // How many children terminate, in the first n steps, while the parent is
  // not waiting.
  function Unseen(run: seq<Parent>, n: nat): nat
    requires n < |run|
  {
    if n == 0 then 0
    else Unseen(run, n - 1) + if run[n].alive < run[n - 1].alive && !run[n - 1].waiting then 1 else 0
  }

  lemma {:induction false} MissedIsUnseen(run: seq<Parent>, n: nat)
    requires IsRun(run) && n < |run|
    ensures run[n].missed == run[0].missed + Unseen(run, n)
  {
    if n > 0 {
      MissedIsUnseen(run, n - 1);
      assert Step(run[n - 1], run[n]);
    }
  }

  // So, of a parent that waits when its last child terminates: it is woken
  // if and only if no child of the run terminated before a Join.
  lemma {:induction false} LastChildWakesIff(run: seq<Parent>)
    requires IsRun(run) && run[0] == START
    requires var p := run[|run| - 1]; p.waiting && p.alive == 1
    ensures var p := run[|run| - 1]; !ChildGone(p).waiting <==> Unseen(run, |run| - 1) == 0
  {
    WokenIff(run);
    MissedIsUnseen(run, |run| - 1);
  }

  // Once a child has been missed, a parent that waits does so for ever,
  // whatever it forks and whoever terminates.
  lemma {:induction false} WaitsForEver(run: seq<Parent>, k: nat)
    requires IsRun(run) && Good(run[0]) && run[0].missed > 0 && run[0].waiting && k < |run|
    ensures run[k].waiting && run[k].missed > 0
  {
    if k > 0 {
      WaitsForEver(run, k - 1);
      RunsAreGood(run, k - 1);
      assert Step(run[k - 1], run[k]);
    }
  }

  // The shortest such run: a child terminates before its parent joins.
  lemma JoinTooLate() returns (run: seq<Parent>)
    ensures IsRun(run) && run[0] == START
    ensures var p := run[|run| - 1]; p.waiting && p.alive == 0 && p.children == 1 && p.missed == 1
  {
    var a := Forked(START);
    var b := ChildGone(a);
    run := [START, a, b, Joined(b)];
  }

  // ---------------------------------------------------- the object itself

  class ParentProcess {
    var numberOfChildren: nat
    var finishedChildren: nat
    var waitingForJoin: bool
    ghost var alive: nat
    ghost var missed: nat

    ghost function Value(): Parent
      reads this
    {
      Parent(numberOfChildren, finishedChildren, waitingForJoin, alive, missed)
    }

    constructor ()
      ensures Value() == START
    {
      numberOfChildren, finishedChildren, waitingForJoin, alive, missed := 0, 0, false, 0, 0;
    }

    method ForkProcess()
      modifies this
      ensures Value() == Forked(old(Value()))
    {
      numberOfChildren := numberOfChildren + 1;
      alive := alive + 1;
    }

    method Join()
      modifies this
      ensures Value() == Joined(old(Value()))
    {
      waitingForJoin := true;
    }

    // What the termination of a child does to this process; true if it
    // becomes ready.
    method ChildTerminates() returns (ready: bool)
      requires alive > 0
      modifies this
      ensures Value() == ChildGone(old(Value())) && ready == Wakes(old(Value()))
    {
      alive := alive - 1;
      ready := false;
      if waitingForJoin {
        finishedChildren := finishedChildren + 1;
        if finishedChildren == numberOfChildren {
          ready := true;
          waitingForJoin := false;
        }
      } else {
        missed := missed + 1;
      }
    }
  }
}
