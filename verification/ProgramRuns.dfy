// Whole programs: any number of address spaces, each with its own CPU state,
// run on the paged machine with context switches, page faults and interrupts
// at arbitrary points, against each space running alone on a flat memory.
module ProgramRuns {
  import opened Words
  import opened Paging
  import opened Memory
  import opened Mips
  import opened Steps
  import opened Refinement
  import opened PagingRuns
  import opened Hazards

  // ------------------------------------------------------- the paged machine

  // The current space's CPU state is in the machine, the others' are saved.
  datatype Sys = Sys(vm: Vm, cpus: seq<CpuState>)

  ghost predicate Ready(sys: Sys) { Inv(sys.vm) && Shape(sys.vm) && |sys.cpus| == |sys.vm.spaces| }

  datatype Happening =
    | Starts(swap: seq<Page>, cpu: CpuState)
    | Switches(s: nat)
    | Attempts
    | Interrupts
    | Ends(s: nat)

  // What the kernel does to the registers for a system call or any other
  // exception that is no page fault, given the registers it finds.
  type Handler = (Exception, CpuState) -> CpuState

  function AfterHandling<M>(h: Handler, out: Outcome<M>): CpuState {
    if out.Raised? then h(out.exc, out.cpu) else out.cpu
  }

  // An attempt at an instruction, with the service of its page fault or of
  // any other exception.
  ghost predicate AttemptStep(h: Handler, sys: Sys, sys': Sys)
    requires Ready(sys)
  {
    var out := PagedStep(sys.cpus[sys.vm.cur], sys.vm);
    if IsFault(out) then
      AttemptRefines(sys.cpus[sys.vm.cur], sys.vm);
      sys' == Sys(AllocatePage(out.mem, out.cpu.badVAddr / 128), sys.cpus[sys.vm.cur := out.cpu])
    else
      sys' == Sys(out.mem, sys.cpus[sys.vm.cur := AfterHandling(h, out)])
  }

  // An interrupt completes the pending load of the running program.
  ghost predicate InterruptStep(sys: Sys, sys': Sys)
    requires Ready(sys)
  {
    sys' == sys.(cpus := sys.cpus[sys.vm.cur := Commit(sys.cpus[sys.vm.cur])])
  }

  ghost predicate Step(h: Handler, sys: Sys, e: Happening, sys': Sys) {
    Ready(sys) ==>
      match e
      case Starts(swap, cpu) => sys' == Sys(LoadProgram(sys.vm, swap), sys.cpus + [cpu])
      case Switches(s) => s < |sys.cpus| && sys' == sys.(vm := SwitchTo(sys.vm, s))
      case Attempts => AttemptStep(h, sys, sys')
      case Interrupts => InterruptStep(sys, sys')
      case Ends(s) => s < |sys.cpus| && s != sys.vm.cur && sys' == sys.(vm := Release(sys.vm, s))
  }

  ghost predicate IsRun(h: Handler, states: seq<Sys>, events: seq<Happening>) {
    && |states| == |events| + 1
    && forall k :: 0 <= k < |events| ==> Step(h, states[k], events[k], states[k + 1])
  }

  // Space s is done with an instruction.
  ghost predicate Completes(sys: Sys, e: Happening, s: nat) {
    e == Attempts && Ready(sys) && s == sys.vm.cur && !IsFault(PagedStep(sys.cpus[s], sys.vm))
  }

  // How many instructions space s gets done in a run.
  ghost function Completed(states: seq<Sys>, events: seq<Happening>, s: nat): nat
    requires |events| <= |states|
  {
    if events == [] then 0
    else
      var k := |events| - 1;
      Completed(states, events[..k], s) + if Completes(states[k], events[k], s) then 1 else 0
  }

  // -------------------------------------------------------- the flat machine

  datatype Program = Program(cpu: CpuState, mem: seq<Byte>)

  // A pending load may complete early, at a landing.
  datatype Move = Executes | Lands

  function Moved(h: Handler, t: Program, m: Move): Program {
    match m
    case Executes => var out := FlatStep(t.cpu, t.mem); Program(AfterHandling(h, out), out.mem)
    case Lands => Program(Commit(t.cpu), t.mem)
  }

  function FlatRun(h: Handler, t: Program, moves: seq<Move>): Program {
    if moves == [] then t else Moved(h, FlatRun(h, t, moves[..|moves| - 1]), moves[|moves| - 1])
  }

  function Count(moves: seq<Move>): nat {
    if moves == [] then 0 else Count(moves[..|moves| - 1]) + if moves[|moves| - 1] == Executes then 1 else 0
  }

  // The program running alone, with no landings.
  function Alone(h: Handler, t: Program, n: nat): Program {
    if n == 0 then t else Moved(h, Alone(h, t, n - 1), Executes)
  }

  ghost function ProgramOf(sys: Sys, s: nat): Program
    requires Ready(sys) && s < |sys.cpus|
  {
    Program(sys.cpus[s], Flat(sys.vm, s))
  }

  predicate SameProgram(t: Program, u: Program) { Same(t.cpu, u.cpu) && t.mem == u.mem }

  // ------------------------------------------------------------- one event

  lemma FlatByContent(vm: Vm, vm': Vm, s: nat)
    requires Shape(vm) && Shape(vm') && s < |vm.spaces| && s < |vm'.spaces|
    requires |vm'.spaces[s].table| == |vm.spaces[s].table|
    requires forall v :: InTable(vm, s, v) ==> InTable(vm', s, v) && Content(vm', s, v) == Content(vm, s, v)
    ensures Flat(vm', s) == Flat(vm, s)
  {
    hide Content;
    forall a | 0 <= a < |Flat(vm, s)|
      ensures Flat(vm', s)[a] == Flat(vm, s)[a]
    {
      FlatAt(vm, s, a);
      FlatAt(vm', s, a);
    }
  }

  lemma StartKeepsFlat(vm: Vm, swap: seq<Page>, s: nat)
    requires Inv(vm) && Shape(vm) && s < |vm.spaces|
    ensures Inv(LoadProgram(vm, swap)) && Shape(LoadProgram(vm, swap)) && Flat(LoadProgram(vm, swap), s) == Flat(vm, s)
  {
    hide InvBut, Flat;
    LoadKeepsInv(vm, swap);
    InvShape(LoadProgram(vm, swap));
    FlatByContent(vm, LoadProgram(vm, swap), s);
  }

  lemma SwitchKeepsFlat(vm: Vm, s: nat, t: nat)
    requires Inv(vm) && Shape(vm) && s < |vm.spaces| && t < |vm.spaces|
    ensures Inv(SwitchTo(vm, t)) && Shape(SwitchTo(vm, t)) && Flat(SwitchTo(vm, t), s) == Flat(vm, s)
  {
    hide InvBut, Flat;
    SwitchKeepsInv(vm, t);
    InvShape(SwitchTo(vm, t));
    FlatByContent(vm, SwitchTo(vm, t), s);
  }

  lemma EndKeepsFlat(vm: Vm, s: nat, t: nat)
    requires Inv(vm) && Shape(vm) && s < |vm.spaces| && t < |vm.spaces| && t != s && t != vm.cur
    ensures Inv(Release(vm, t)) && Shape(Release(vm, t)) && Flat(Release(vm, t), s) == Flat(vm, s)
    ensures |Release(vm, t).spaces| == |vm.spaces|
  {
    hide InvBut, Flat, Content, Release;
    ReleaseKeepsInv(vm, t);
    InvShape(Release(vm, t));
    ReleaseTables(vm, t);
    FlatByContent(vm, Release(vm, t), s);
  }

  lemma ReleaseTables(vm: Vm, t: nat)
    requires Shape(vm) && t < |vm.spaces|
    ensures |Release(vm, t).spaces| == |vm.spaces|
    ensures forall s :: 0 <= s < |vm.spaces| && s != t ==> Release(vm, t).spaces[s] == vm.spaces[s]
  {
  }

  lemma AttemptProgram(h: Handler, sys: Sys, sys': Sys, s: nat)
    requires Ready(sys) && AttemptStep(h, sys, sys') && s < |sys.cpus|
    ensures Ready(sys') && |sys'.cpus| == |sys.cpus|
    ensures s != sys.vm.cur ==> ProgramOf(sys', s) == ProgramOf(sys, s)
    ensures s == sys.vm.cur && !IsFault(PagedStep(sys.cpus[s], sys.vm)) ==>
              ProgramOf(sys', s) == Moved(h, ProgramOf(sys, s), Executes)
    ensures s == sys.vm.cur && IsFault(PagedStep(sys.cpus[s], sys.vm)) ==>
              SameProgram(Moved(h, ProgramOf(sys, s), Lands), ProgramOf(sys', s))
  {
    hide Flat, InvBut, PagedStep, FlatStep, AllocatePage, Commit, Trapped, Same;
    var c := sys.cpus[sys.vm.cur];
    AttemptRefines(c, sys.vm);
    var out := PagedStep(c, sys.vm);
    if IsFault(out) {
      ServiceKeepsView(c, sys.vm);
      CommitSame(c, out.cpu.badVAddr);
      SameSymmetric(Trapped(c, out.cpu.badVAddr), Commit(c));
    }
    InvShape(sys'.vm);
  }

  // What an event is to space s: an instruction, a landing, or nothing.
  ghost function MovesOf(sys: Sys, e: Happening, s: nat): seq<Move> {
    if Completes(sys, e, s) then [Executes]
    else if (e == Attempts || e == Interrupts) && s == sys.vm.cur then [Lands]
    else []
  }

  lemma EventProgram(h: Handler, sys: Sys, e: Happening, sys': Sys, s: nat)
    requires Ready(sys) && Step(h, sys, e, sys') && s < |sys.cpus| && e != Ends(s)
    ensures Ready(sys') && s < |sys'.cpus|
    ensures MovesOf(sys, e, s) == [] ==> ProgramOf(sys', s) == ProgramOf(sys, s)
    ensures MovesOf(sys, e, s) != [] ==>
              SameProgram(Moved(h, ProgramOf(sys, s), MovesOf(sys, e, s)[0]), ProgramOf(sys', s))
  {
    hide Flat, InvBut, PagedStep, FlatStep, Commit, Release, Shape, Same;
    match e
    case Starts(swap, cpu) => StartKeepsFlat(sys.vm, swap, s);
    case Switches(t) => SwitchKeepsFlat(sys.vm, s, t);
    case Ends(t) => EndKeepsFlat(sys.vm, s, t);
    case Attempts =>
      AttemptProgram(h, sys, sys', s);
      SameSelf(ProgramOf(sys', s));
    case Interrupts =>
      CurrentRuns(sys);
      SameSelf(ProgramOf(sys', s));
  }

  lemma CurrentRuns(sys: Sys)
    requires Ready(sys)
    ensures sys.vm.cur < |sys.cpus|
  {
  }

  lemma SameSelf(t: Program)
    ensures SameProgram(t, t)
  {
  }

  // --------------------------------------------------------------- runs

  lemma MovedSame(h: Handler, t: Program, u: Program, m: Move)
    requires SameProgram(t, u)
    ensures SameProgram(Moved(h, t, m), Moved(h, u, m))
  {
    hide FlatStep;
    FlatStepSame(t.cpu, u.cpu, t.mem);
    CommitOfSame(t.cpu, u.cpu);
  }

  lemma CommitOfSame(c: CpuState, d: CpuState)
    requires Same(c, d)
    ensures Same(Commit(c), Commit(d))
  {
  }

  lemma SameTrans(t: Program, u: Program, w: Program)
    requires SameProgram(t, u) && SameProgram(u, w)
    ensures SameProgram(t, w)
  {
  }

  // For arbitrary programs: over every run of the paged machine, each space
  // that is not ended does what it does alone on a flat memory, one
  // instruction for each it completes, but for some landings: its pending
  // load may complete early at a page fault or an interrupt.
  lemma {:induction false} SpaceRunsAlone(h: Handler, states: seq<Sys>, events: seq<Happening>, s: nat)
    returns (moves: seq<Move>)
    requires IsRun(h, states, events) && Ready(states[0]) && s < |states[0].cpus|
    requires forall k :: 0 <= k < |events| ==> events[k] != Ends(s)
    ensures Ready(states[|events|]) && s < |states[|events|].cpus|
    ensures Count(moves) == Completed(states, events, s)
    ensures SameProgram(FlatRun(h, ProgramOf(states[0], s), moves), ProgramOf(states[|events|], s))
    decreases |events|
  {
    hide Ready, Step, FlatStep, Moved, SameProgram, Completes;
    if events == [] {
      moves := [];
      SameSelf(ProgramOf(states[0], s));
    } else {
      var k := |events| - 1;
      moves := SpaceRunsAlone(h, states[..k + 1], events[..k], s);
      CompletedPrefix(states, events[..k], s);
      assert Step(h, states[k], events[k], states[k + 1]);
      moves := RunGoesOn(h, ProgramOf(states[0], s), moves, states[k], events[k], states[k + 1], s);
    }
  }

  lemma {:induction false} CompletedPrefix(states: seq<Sys>, events: seq<Happening>, s: nat)
    requires |events| + 2 == |states|
    ensures Completed(states[..|events| + 1], events, s) == Completed(states, events, s)
  {
    CompletedCut(states, |events| + 1, events, s);
  }

  lemma {:induction false} CompletedCut(states: seq<Sys>, n: nat, events: seq<Happening>, s: nat)
    requires |events| <= n <= |states|
    ensures Completed(states[..n], events, s) == Completed(states, events, s)
    decreases |events|
  {
    hide Completes;
    if events != [] {
      CompletedCut(states, n, events[..|events| - 1], s);
    }
  }

  lemma RunGoesOn(h: Handler, t: Program, before: seq<Move>, sys: Sys, e: Happening, sys': Sys, s: nat)
    returns (moves: seq<Move>)
    requires Ready(sys) && Step(h, sys, e, sys') && s < |sys.cpus| && e != Ends(s)
    requires SameProgram(FlatRun(h, t, before), ProgramOf(sys, s))
    ensures Ready(sys') && s < |sys'.cpus|
    ensures SameProgram(FlatRun(h, t, moves), ProgramOf(sys', s))
    ensures Count(moves) == Count(before) + if Completes(sys, e, s) then 1 else 0
  {
    hide Ready, Step, FlatStep, Moved, SameProgram, Flat;
    EventProgram(h, sys, e, sys', s);
    moves := before + MovesOf(sys, e, s);
    if MovesOf(sys, e, s) == [] {
      assert moves == before;
    } else {
      var m := MovesOf(sys, e, s)[0];
      assert moves[..|moves| - 1] == before && moves[|moves| - 1] == m;
      MovedSame(h, FlatRun(h, t, before), ProgramOf(sys, s), m);
      SameTrans(FlatRun(h, t, moves), Moved(h, ProgramOf(sys, s), m), ProgramOf(sys', s));
    }
  }

  // ------------------------------------------------- programs without hazard

  // In its first n instructions alone the program never names a register
  // that is being loaded, but to merge with it.
  predicate HazardFree(h: Handler, t: Program, n: nat) {
    n == 0 || (HazardFree(h, t, n - 1) && NoHazardAt(Alone(h, t, n - 1).cpu, Alone(h, t, n - 1).mem))
  }

  // The same, or the same but for a load that has landed.
  predicate UpToLanding(t: Program, u: Program) {
    u.mem == t.mem && (Same(t.cpu, u.cpu) || Same(Commit(t.cpu), u.cpu))
  }

  lemma LandingUpTo(h: Handler, t: Program, u: Program)
    requires UpToLanding(t, u)
    ensures UpToLanding(t, Moved(h, u, Lands))
  {
  }

  lemma InstructionUpTo(h: Handler, t: Program, u: Program)
    requires UpToLanding(t, u) && NoHazardAt(t.cpu, t.mem)
    ensures UpToLanding(Moved(h, t, Executes), Moved(h, u, Executes))
  {
    hide FlatStep, NoHazardAt, Commit;
    if Same(t.cpu, u.cpu) {
      FlatStepSame(t.cpu, u.cpu, t.mem);
    } else {
      NoHazardSame(t.cpu, t.mem);
      FlatStepSame(Commit(t.cpu), u.cpu, t.mem);
    }
  }

  // Without hazards the landings do not show.
  lemma {:induction false} LandingsDoNotShow(h: Handler, t: Program, moves: seq<Move>)
    requires HazardFree(h, t, Count(moves))
    ensures UpToLanding(Alone(h, t, Count(moves)), FlatRun(h, t, moves))
    decreases |moves|
  {
    hide Moved, UpToLanding, NoHazardAt;
    if moves == [] {
      UpToSelf(t);
    } else {
      var k := |moves| - 1;
      LandingsDoNotShow(h, t, moves[..k]);
      var a, u := Alone(h, t, Count(moves[..k])), FlatRun(h, t, moves[..k]);
      if moves[k] == Lands {
        LandingUpTo(h, a, u);
      } else {
        InstructionUpTo(h, a, u);
      }
    }
  }

  lemma UpToSelf(t: Program)
    ensures UpToLanding(t, t)
  {
  }

  lemma UpToSettles(t: Program, u: Program, w: Program)
    requires UpToLanding(t, u) && SameProgram(u, w)
    ensures w.mem == t.mem && Same(Commit(t.cpu), Commit(w.cpu))
    ensures t.cpu.loadReg == 0 ==> SameProgram(t, w)
  {
  }

  // For programs without such hazards: whatever the switches, faults and
  // interrupts, and whatever the other spaces do, a space has the memory and,
  // once its pending load has landed, the registers it has after as many
  // instructions alone on a flat memory.
  lemma ProgramsRunAlone(h: Handler, states: seq<Sys>, events: seq<Happening>, s: nat)
    requires IsRun(h, states, events) && Ready(states[0]) && s < |states[0].cpus|
    requires forall k :: 0 <= k < |events| ==> events[k] != Ends(s)
    requires HazardFree(h, ProgramOf(states[0], s), Completed(states, events, s))
    ensures Ready(states[|events|]) && s < |states[|events|].cpus|
    ensures var alone := Alone(h, ProgramOf(states[0], s), Completed(states, events, s));
            var now := ProgramOf(states[|events|], s);
            && now.mem == alone.mem && Same(Commit(alone.cpu), Commit(now.cpu))
            && (alone.cpu.loadReg == 0 ==> Same(alone.cpu, now.cpu))
  {
    hide Ready, Step, Alone, FlatRun, SameProgram, UpToLanding, Completed, HazardFree, Count, Commit, Same;
    var moves := SpaceRunsAlone(h, states, events, s);
    var t := ProgramOf(states[0], s);
    LandingsDoNotShow(h, t, moves);
    UpToSettles(Alone(h, t, Count(moves)), FlatRun(h, t, moves), ProgramOf(states[|events|], s));
    SameParts(Alone(h, t, Count(moves)), ProgramOf(states[|events|], s));
  }

  lemma SameParts(t: Program, u: Program)
    ensures SameProgram(t, u) <==> Same(t.cpu, u.cpu) && t.mem == u.mem
  {
  }
}
