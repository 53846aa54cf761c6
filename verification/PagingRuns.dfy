// Whole runs of the paging system: programs are loaded, threads are switched,
// instructions run and fault, and address spaces end.
module PagingRuns {
  import opened Paging
  import opened PagingProofs
  import opened Steps
  import opened Refinement

  // Kernel::Initialize, with the boot thread in an empty address space.
  ghost function Initial(frames: nat): Vm
    requires frames > 0
  {
    Vm(seq(frames, i => seq(128, j => 0)), seq(frames, i => false), seq(frames, i => Ppe(-1, 0, NoThread)),
       [Space([], [])], 0, 1)
  }

  lemma InitialInv(frames: nat)
    requires frames > 0
    ensures Inv(Initial(frames)) && IsQueue(Initial(frames), [])
  {
  }

  // AddrSpace::Load: a new space whose pages are all in its swap file.
  ghost function LoadProgram(vm: Vm, swap: seq<Page>): Vm {
    vm.(spaces := vm.spaces + [Space(seq(|swap|, v => Pte(v, -1, false, false, false, false)), swap)])
  }

  // AddrSpace::RestoreState on a context switch.
  ghost function SwitchTo(vm: Vm, s: nat): Vm { vm.(cur := s) }

  ghost predicate OwnedBy(vm: Vm, p: int, s: int)
    requires |vm.bits| == |vm.ppt| && 0 <= p < |vm.bits|
  {
    vm.bits[p] && vm.ppt[p].owner == Thread(s)
  }

  // AddrSpace::~AddrSpace: the frames of the space are cleared and freed.
  ghost function Release(vm: Vm, s: nat): Vm
    requires Shape(vm) && s < |vm.spaces|
  {
    var n := |vm.bits|;
    vm.(frames := seq(n, p requires 0 <= p < n => if OwnedBy(vm, p, s) then seq(128, j => 0) else vm.frames[p]),
        bits := seq(n, p requires 0 <= p < n => vm.bits[p] && !OwnedBy(vm, p, s)),
        ppt := seq(n, p requires 0 <= p < n =>
                      if OwnedBy(vm, p, s) then Ppe(-1, vm.ppt[p].pageOrder, NoThread) else vm.ppt[p]),
        spaces := vm.spaces[s := Space([], [])])
  }

  // The destructor's loop over the page table has passed this page.
  ghost predicate Passed(vm: Vm, p: int, s: int, n: int)
    requires |vm.bits| == |vm.ppt| && 0 <= p < |vm.bits|
  {
    OwnedBy(vm, p, s) && vm.ppt[p].virtualPage < n
  }

  // The memory when the loop has passed n pages of space s.
  ghost function ReleasePages(vm: Vm, s: nat, n: nat): Vm
    requires Shape(vm) && s < |vm.spaces|
  {
    var k := |vm.bits|;
    vm.(frames := seq(k, p requires 0 <= p < k => if Passed(vm, p, s, n) then seq(128, j => 0) else vm.frames[p]),
        bits := seq(k, p requires 0 <= p < k => vm.bits[p] && !Passed(vm, p, s, n)),
        ppt := seq(k, p requires 0 <= p < k =>
                      if Passed(vm, p, s, n) then Ppe(-1, vm.ppt[p].pageOrder, NoThread) else vm.ppt[p]))
  }

  // What the loop does to the frame of one valid entry.
  ghost function FreeOne(vm: Vm, p: nat): Vm
    requires Shape(vm) && p < |vm.bits|
  {
    vm.(frames := vm.frames[p := seq(128, j => 0)], bits := vm.bits[p := false],
        ppt := vm.ppt[p := Ppe(-1, vm.ppt[p].pageOrder, NoThread)])
  }

  lemma PassedNext(vm: Vm, s: nat, v: nat, q: nat)
    requires Inv(vm) && InTable(vm, s, v) && q < |vm.bits|
    ensures Passed(vm, q, s, v + 1) <==>
              Passed(vm, q, s, v) || (Entry(vm, s, v).valid && Entry(vm, s, v).physicalPage == q)
    ensures Passed(vm, q, s, v) ==> !(Entry(vm, s, v).valid && Entry(vm, s, v).physicalPage == q)
  {
    hide OrdersDistinct, CleanMatchesSwap;
    if vm.bits[q] {
      assert FrameHasEntry(vm, q);
    }
  }

  // One turn of the loop: nothing else is in the frame of a valid entry.
  lemma ReleaseNext(vm: Vm, s: nat, v: nat)
    requires Inv(vm) && Shape(vm) && InTable(vm, s, v)
    ensures Entry(vm, s, v).valid ==> 0 <= Entry(vm, s, v).physicalPage < |vm.bits|
    ensures Shape(ReleasePages(vm, s, v)) && |ReleasePages(vm, s, v).bits| == |vm.bits|
    ensures ReleasePages(vm, s, v + 1) ==
            if Entry(vm, s, v).valid then FreeOne(ReleasePages(vm, s, v), Entry(vm, s, v).physicalPage)
            else ReleasePages(vm, s, v)
  {
    hide OrdersDistinct, CleanMatchesSwap, Passed;
    forall q: nat | q < |vm.bits|
      ensures Passed(vm, q, s, v + 1) <==>
                Passed(vm, q, s, v) || (Entry(vm, s, v).valid && Entry(vm, s, v).physicalPage == q)
      ensures Passed(vm, q, s, v) ==> !(Entry(vm, s, v).valid && Entry(vm, s, v).physicalPage == q)
    {
      PassedNext(vm, s, v, q);
    }
    ValidInMemory(vm, s, v);
    hide InvBut, Entry;
    var e, a, b := Entry(vm, s, v), ReleasePages(vm, s, v), ReleasePages(vm, s, v + 1);
    if e.valid {
      assert b.bits == FreeOne(a, e.physicalPage).bits;
      assert b.frames == FreeOne(a, e.physicalPage).frames;
      assert b.ppt == FreeOne(a, e.physicalPage).ppt;
    } else {
      assert b.bits == a.bits && b.frames == a.frames && b.ppt == a.ppt;
    }
  }

  lemma ValidInMemory(vm: Vm, s: nat, v: nat)
    requires Inv(vm) && InTable(vm, s, v)
    ensures Entry(vm, s, v).valid ==> 0 <= Entry(vm, s, v).physicalPage < |vm.bits|
  {
  }

  // Before the loop nothing is freed; after it, exactly what the PPT gives to
  // the space.
  lemma ReleaseEnds(vm: Vm, s: nat)
    requires Inv(vm) && Shape(vm) && s < |vm.spaces|
    ensures ReleasePages(vm, s, 0) == vm && ReleasePages(vm, s, |vm.spaces[s].table|).spaces == vm.spaces
    ensures ReleasePages(vm, s, |vm.spaces[s].table|).(spaces := vm.spaces[s := Space([], [])]) == Release(vm, s)
  {
    hide OrdersDistinct, CleanMatchesSwap;
    var n := |vm.spaces[s].table|;
    forall p: nat | p < |vm.bits|
      ensures !Passed(vm, p, s, 0) && (Passed(vm, p, s, n) <==> OwnedBy(vm, p, s))
    {
      if vm.bits[p] {
        assert FrameHasEntry(vm, p);
      }
    }
    hide InvBut;
    var z, a, r := ReleasePages(vm, s, 0), ReleasePages(vm, s, n), Release(vm, s);
    assert z.frames == vm.frames && z.bits == vm.bits && z.ppt == vm.ppt;
    assert a.frames == r.frames && a.bits == r.bits && a.ppt == r.ppt;
  }

  // --------------------------------------------------- what each step keeps

  lemma LoadKeepsInv(vm: Vm, swap: seq<Page>)
    requires Inv(vm)
    ensures Inv(LoadProgram(vm, swap))
    ensures forall q :: IsQueue(vm, q) ==> IsQueue(LoadProgram(vm, swap), q)
  {
    var vm' := LoadProgram(vm, swap);
    assert Shape(vm');
    forall s, v | InTable(vm', s, v)
      ensures !Entry(vm', s, v).readOnly
      ensures Entry(vm', s, v).valid ==> Holds(vm', Entry(vm', s, v).physicalPage, s, v)
      ensures Entry(vm', s, v).valid && !Entry(vm', s, v).dirty ==>
                vm'.frames[Entry(vm', s, v).physicalPage] == vm'.spaces[s].swap[v]
    {
      if s < |vm.spaces| {
        assert InTable(vm, s, v) && Entry(vm', s, v) == Entry(vm, s, v);
      }
    }
    forall p | 0 <= p < |vm'.bits| && vm'.bits[p]
      ensures FrameHasEntry(vm', p)
    {
      assert FrameHasEntry(vm, p);
      assert Entry(vm', vm.ppt[p].owner.id, vm.ppt[p].virtualPage) ==
               Entry(vm, vm.ppt[p].owner.id, vm.ppt[p].virtualPage);
    }
  }

  lemma SwitchKeepsInv(vm: Vm, s: nat)
    requires Inv(vm) && s < |vm.spaces|
    ensures Inv(SwitchTo(vm, s))
    ensures forall q :: IsQueue(vm, q) ==> IsQueue(SwitchTo(vm, s), q)
  {
    var vm' := SwitchTo(vm, s);
    forall t, v | InTable(vm', t, v)
      ensures Entry(vm', t, v) == Entry(vm, t, v) && !Entry(vm, t, v).readOnly
      ensures Entry(vm', t, v).valid ==> Holds(vm', Entry(vm', t, v).physicalPage, t, v)
    {
      assert InTable(vm, t, v);
    }
    forall p | 0 <= p < |vm'.bits| && vm'.bits[p]
      ensures FrameHasEntry(vm', p)
    {
      assert FrameHasEntry(vm, p);
    }
  }

  lemma ReleaseEntry(vm: Vm, s: nat, t: int, v: int)
    requires Shape(vm) && s < |vm.spaces| && t != s
    ensures InTable(Release(vm, s), t, v) <==> InTable(vm, t, v)
    ensures InTable(vm, t, v) ==> Entry(Release(vm, s), t, v) == Entry(vm, t, v)
    ensures InTable(vm, t, v) ==> Release(vm, s).spaces[t] == vm.spaces[t]
  {
  }

  // Ending a space keeps the invariants and every page of the other spaces.
  lemma ReleaseKeepsInv(vm: Vm, s: nat)
    requires Inv(vm) && s < |vm.spaces| && s != vm.cur
    ensures Inv(Release(vm, s))
    ensures forall t, v {:trigger Content(Release(vm, s), t, v)} :: InTable(vm, t, v) && t != s ==>
              InTable(Release(vm, s), t, v) && Content(Release(vm, s), t, v) == Content(vm, t, v)
    ensures forall p :: 0 <= p < |vm.bits| ==>
              (Release(vm, s).bits[p] <==> vm.bits[p] && vm.ppt[p].owner != Thread(s))
  {
    var vm' := Release(vm, s);
    assert Shape(vm');
    forall t, v | InTable(vm', t, v)
      ensures !Entry(vm', t, v).readOnly
      ensures Entry(vm', t, v).valid ==> Holds(vm', Entry(vm', t, v).physicalPage, t, v)
      ensures Entry(vm', t, v).valid && !Entry(vm', t, v).dirty ==>
                vm'.frames[Entry(vm', t, v).physicalPage] == vm'.spaces[t].swap[v]
    {
      assert t != s;
      ReleaseEntry(vm, s, t, v);
    }
    forall p | 0 <= p < |vm'.bits| && vm'.bits[p]
      ensures FrameHasEntry(vm', p)
    {
      assert FrameHasEntry(vm, p);
      ReleaseEntry(vm, s, vm.ppt[p].owner.id, vm.ppt[p].virtualPage);
    }
    forall t, v | InTable(vm, t, v) && t != s
      ensures InTable(vm', t, v) && Content(vm', t, v) == Content(vm, t, v)
    {
      ReleaseEntry(vm, s, t, v);
    }
  }

  // The queue without the frames of space s.
  ghost function Without(vm: Vm, s: nat, q: seq<nat>): (r: seq<nat>)
    requires |vm.bits| == |vm.ppt| && forall i :: 0 <= i < |q| ==> q[i] < |vm.bits|
    ensures forall p :: p in r <==> p in q && !OwnedBy(vm, p, s)
  {
    if q == [] then []
    else
      var rest := Without(vm, s, q[1..]);
      if OwnedBy(vm, q[0], s) then rest else [q[0]] + rest
  }

  ghost predicate Increasing(ppt: seq<Ppe>, q: seq<nat>) {
    && (forall i :: 0 <= i < |q| ==> q[i] < |ppt|)
    && forall i, j :: 0 <= i < j < |q| ==> ppt[q[i]].pageOrder < ppt[q[j]].pageOrder
  }

  lemma {:induction false} WithoutIncreasing(vm: Vm, s: nat, q: seq<nat>)
    requires |vm.bits| == |vm.ppt| && Increasing(vm.ppt, q)
    ensures Increasing(vm.ppt, Without(vm, s, q))
  {
    if q != [] {
      WithoutIncreasing(vm, s, q[1..]);
      var rest := Without(vm, s, q[1..]);
      forall i | 0 <= i < |rest|
        ensures vm.ppt[q[0]].pageOrder < vm.ppt[rest[i]].pageOrder
      {
        assert rest[i] in q[1..];
      }
    }
  }

  lemma ReleaseKeepsQueue(vm: Vm, s: nat, q: seq<nat>)
    requires Inv(vm) && s < |vm.spaces| && s != vm.cur && IsQueue(vm, q)
    ensures Shape(Release(vm, s)) && IsQueue(Release(vm, s), Without(vm, s, q))
  {
    hide EntriesOwnFrames, FramesHaveEntries, CleanMatchesSwap;
    WithoutIncreasing(vm, s, q);
    ReleaseKeepsInv(vm, s);
    var r := Without(vm, s, q);
    forall i | 0 <= i < |r|
      ensures r[i] < |vm.bits| && Release(vm, s).bits[r[i]] && Release(vm, s).ppt[r[i]] == vm.ppt[r[i]]
    {
      assert r[i] in r;
    }
  }

  // ------------------------------------------------------------------ runs

  datatype Event =
    | Load(swap: seq<Page>)
    | Switch(s: nat)
    | Attempt(cpu: CpuState)
    | End(s: nat)

  // An attempt at an instruction by the current thread, with the service of
  // its page fault if it has one.
  ghost function Attempted(vm: Vm, c: CpuState): Vm
    requires Inv(vm)
  {
    var out := PagedStep(c, vm);
    if IsFault(out) then
      AttemptRefines(c, vm);
      AllocatePage(out.mem, out.cpu.badVAddr / 128)
    else out.mem
  }

  // The invariants are needed only for what an attempt comes to to be
  // defined; a step from any other state is not restricted.
  ghost predicate Step(vm: Vm, e: Event, vm': Vm) {
    match e
    case Load(swap) => vm' == LoadProgram(vm, swap)
    case Switch(s) => s < |vm.spaces| && vm' == SwitchTo(vm, s)
    case Attempt(c) => Inv(vm) ==> vm' == Attempted(vm, c)
    case End(s) => s < |vm.spaces| && s != vm.cur && (Shape(vm) ==> vm' == Release(vm, s))
  }

  // A run is the sequence of its states; the events link them.
  ghost predicate IsRun(states: seq<Vm>, events: seq<Event>) {
    && |states| == |events| + 1
    && forall i :: 0 <= i < |events| ==> Step(states[i], events[i], states[i + 1])
  }

  // What holds in every state: the invariants, and a first-in first-out
  // queue of the allocated frames.
  ghost predicate Good(vm: Vm) {
    Inv(vm) && exists q :: IsQueue(vm, q)
  }

  lemma ReadQueue(vm: Vm, vm': Vm, q: seq<nat>)
    requires Shape(vm) && Shape(vm') && LocalChange(vm, vm') && IsQueue(vm, q)
    ensures IsQueue(vm', q)
  {
  }

  lemma StepKeepsGood(vm: Vm, e: Event, vm': Vm)
    requires Good(vm) && Step(vm, e, vm')
    ensures Good(vm')
  {
    hide Inv, IsQueue, Release, AllocatePage, PagedStep, Attempted;
    InvShape(vm);
    var q :| IsQueue(vm, q);
    match e
    case Load(swap) => LoadKeepsInv(vm, swap);
    case Switch(s) => SwitchKeepsInv(vm, s);
    case End(s) =>
      ReleaseKeepsInv(vm, s);
      ReleaseKeepsQueue(vm, s, q);
    case Attempt(c) => AttemptKeepsGood(vm, c, q);
  }

  lemma AttemptKeepsGood(vm: Vm, c: CpuState, q: seq<nat>)
    requires Inv(vm) && Shape(vm) && IsQueue(vm, q)
    ensures Good(Attempted(vm, c))
  {
    hide InvBut, IsQueue, AllocatePage, PagedStep, Shape;
    AttemptRefines(c, vm);
    var out := PagedStep(c, vm);
    StepIsLocal(c, vm);
    ReadQueue(vm, out.mem, q);
    if IsFault(out) {
      var v := out.cpu.badVAddr / 128;
      AllocateCorrect(out.mem, v);
      AllocateIsFifo(out.mem, v, q);
    }
  }

  // In every state of every run from Initialize, all the invariants hold and
  // the allocated frames form a queue.
  lemma {:induction false} RunsAreGood(frames: nat, states: seq<Vm>, events: seq<Event>)
    requires frames > 0 && IsRun(states, events) && states[0] == Initial(frames)
    ensures forall i :: 0 <= i < |states| ==> Good(states[i])
    decreases |events|
  {
    hide Good, Step, Initial;
    if |events| == 0 {
      InitialGood(frames);
    } else {
      var n := |events| - 1;
      RunsAreGood(frames, states[..n + 1], events[..n]);
      StepKeepsGood(states[n], events[n], states[n + 1]);
    }
  }

  lemma InitialGood(frames: nat)
    requires frames > 0
    ensures Good(Initial(frames))
  {
    InitialInv(frames);
  }

  ghost predicate MapsTo(vm: Vm, s: int, v: int, p: int) {
    InTable(vm, s, v) && Entry(vm, s, v).valid && Entry(vm, s, v).physicalPage == p
  }

  // A frame is marked in the bitmap if and only if exactly one valid entry of
  // all the page tables maps to it, and then the PPT names that entry.
  lemma BitIffOneEntry(vm: Vm, p: nat)
    requires Good(vm) && p < |vm.bits|
    ensures |vm.bits| == |vm.ppt|
    ensures vm.bits[p] <==> exists s, v :: MapsTo(vm, s, v, p)
    ensures forall s, v :: MapsTo(vm, s, v, p) ==>
              vm.ppt[p].owner == Thread(s) && vm.ppt[p].virtualPage == v
    ensures forall s, v, s', v' :: MapsTo(vm, s, v, p) && MapsTo(vm, s', v', p) ==> s == s' && v == v'
  {
    hide OrdersDistinct, CleanMatchesSwap;
    if vm.bits[p] {
      assert FrameHasEntry(vm, p);
      assert MapsTo(vm, vm.ppt[p].owner.id, vm.ppt[p].virtualPage, p);
    }
  }
}
