// What page allocation keeps: the ownership, dirty-bit and order invariants,
// the contents of every page, and the queue order of the resident pages.
module PagingProofs {
  import opened Paging

  // ------------------------------------------------------------- evicting

  lemma EvictEntry(vm: Vm, p: nat, s: int, v: int)
    requires Inv(vm) && p < |vm.bits| && vm.bits[p] && InTable(vm, s, v)
    ensures InTable(Evict(vm, p), s, v)
    ensures Entry(vm, s, v).valid && Entry(vm, s, v).physicalPage == p ==>
              Entry(Evict(vm, p), s, v) == Entry(vm, s, v).(valid := false, dirty := false)
    ensures !(Entry(vm, s, v).valid && Entry(vm, s, v).physicalPage == p) ==>
              Entry(Evict(vm, p), s, v) == Entry(vm, s, v) && Evict(vm, p).spaces[s].swap[v] == vm.spaces[s].swap[v]
  {
  }

  lemma EvictShape(vm: Vm, p: nat)
    requires Inv(vm) && p < |vm.bits| && vm.bits[p]
    ensures Shape(Evict(vm, p))
  {
  }

  lemma EvictKeepsInv(vm: Vm, p: nat)
    requires Inv(vm) && p < |vm.bits| && vm.bits[p]
    ensures InvBut(Evict(vm, p), p)
  {
    var vm' := Evict(vm, p);
    EvictShape(vm, p);
    forall s, v | InTable(vm', s, v)
      ensures !Entry(vm', s, v).readOnly
      ensures Entry(vm', s, v).valid ==>
                Entry(vm', s, v).physicalPage != p && Holds(vm', Entry(vm', s, v).physicalPage, s, v)
      ensures Entry(vm', s, v).valid && !Entry(vm', s, v).dirty ==>
                vm'.frames[Entry(vm', s, v).physicalPage] == vm'.spaces[s].swap[v]
    {
      EvictEntry(vm, p, s, v);
    }
    forall q | 0 <= q < |vm'.bits| && vm'.bits[q] && q != p
      ensures FrameHasEntry(vm', q)
    {
      assert FrameHasEntry(vm, q);
      EvictEntry(vm, p, vm.ppt[q].owner.id, vm.ppt[q].virtualPage);
    }
  }

  lemma EvictKeepsContents(vm: Vm, p: nat)
    requires Inv(vm) && p < |vm.bits| && vm.bits[p]
    ensures Shape(Evict(vm, p)) && SameContents(vm, Evict(vm, p))
  {
  }

  // ----------------------------------------------------------- installing

  lemma InstallEntry(vm: Vm, p: nat, v: nat, s: int, w: int)
    requires InvBut(vm, p) && p < |vm.bits| && InTable(vm, vm.cur, v) && InTable(vm, s, w)
    ensures InTable(Install(vm, p, v), s, w)
    ensures s == vm.cur && w == v ==> Entry(Install(vm, p, v), s, w) == Pte(v, p, true, false, false, false)
    ensures !(s == vm.cur && w == v) ==> Entry(Install(vm, p, v), s, w) == Entry(vm, s, w)
    ensures Install(vm, p, v).spaces[s].swap == vm.spaces[s].swap
  {
  }

  lemma InstallKeepsInv(vm: Vm, p: nat, v: nat)
    requires InvBut(vm, p) && p < |vm.bits|
    requires InTable(vm, vm.cur, v) && !Entry(vm, vm.cur, v).valid
    ensures Inv(Install(vm, p, v))
  {
    var vm' := Install(vm, p, v);
    assert Shape(vm');
    forall s, w | InTable(vm', s, w)
      ensures !Entry(vm', s, w).readOnly
      ensures Entry(vm', s, w).valid ==> Holds(vm', Entry(vm', s, w).physicalPage, s, w)
      ensures Entry(vm', s, w).valid && !Entry(vm', s, w).dirty ==>
                vm'.frames[Entry(vm', s, w).physicalPage] == vm'.spaces[s].swap[w]
    {
      InstallEntry(vm, p, v, s, w);
    }
    forall q | 0 <= q < |vm'.bits| && vm'.bits[q]
      ensures FrameHasEntry(vm', q)
    {
      if q != p {
        assert FrameHasEntry(vm, q);
        InstallEntry(vm, p, v, vm.ppt[q].owner.id, vm.ppt[q].virtualPage);
      } else {
        InstallEntry(vm, p, v, vm.cur, v);
      }
    }
  }

  lemma InstallKeepsContents(vm: Vm, p: nat, v: nat)
    requires InvBut(vm, p) && p < |vm.bits|
    requires InTable(vm, vm.cur, v) && !Entry(vm, vm.cur, v).valid
    ensures Shape(Install(vm, p, v)) && SameContents(vm, Install(vm, p, v))
  {
  }

  // ------------------------------------------------------------ allocating

  lemma FreeKeepsInv(vm: Vm)
    requires Inv(vm)
    ensures InvBut(FreeFrame(vm), FrameFor(vm)) && SameContents(vm, FreeFrame(vm))
    ensures FreeFrame(vm).cur == vm.cur && FrameFor(vm) < |FreeFrame(vm).bits|
    ensures forall v :: Faults(vm, v) ==> InTable(FreeFrame(vm), vm.cur, v) && !Entry(FreeFrame(vm), vm.cur, v).valid
  {
    var p := FrameFor(vm);
    if vm.bits[p] {
      EvictKeepsInv(vm, p);
      EvictKeepsContents(vm, p);
      forall v | Faults(vm, v)
        ensures InTable(FreeFrame(vm), vm.cur, v) && !Entry(FreeFrame(vm), vm.cur, v).valid
      {
        EvictEntry(vm, p, vm.cur, v);
      }
    } else {
      TakeFreeFrame(vm, p);
    }
  }

  lemma TakeFreeFrame(vm: Vm, p: nat)
    requires Inv(vm) && p < |vm.bits| && !vm.bits[p]
    ensures var vm' := vm.(bits := vm.bits[p := true]);
            && InvBut(vm', p) && SameContents(vm, vm')
            && forall v :: InTable(vm, vm.cur, v) ==> Entry(vm', vm.cur, v) == Entry(vm, vm.cur, v)
  {
    var vm' := vm.(bits := vm.bits[p := true]);
    assert Shape(vm');
    forall s, v | InTable(vm', s, v)
      ensures Entry(vm', s, v) == Entry(vm, s, v) && !Entry(vm, s, v).readOnly
      ensures Entry(vm, s, v).valid ==>
                Entry(vm, s, v).physicalPage != p && Holds(vm', Entry(vm, s, v).physicalPage, s, v)
      ensures Content(vm', s, v) == Content(vm, s, v)
    {
      assert InTable(vm, s, v);
    }
    forall q | 0 <= q < |vm'.bits| && vm'.bits[q] && q != p
      ensures FrameHasEntry(vm', q)
    {
      assert FrameHasEntry(vm, q);
    }
  }

  // Servicing a fault keeps every invariant and changes the contents of no
  // page of any space; afterwards the faulting page is loaded.
  lemma AllocateCorrect(vm: Vm, v: nat)
    requires Faults(vm, v)
    ensures var vm' := AllocatePage(vm, v);
            Inv(vm') && SameContents(vm, vm') && vm'.cur == vm.cur &&
            InTable(vm', vm'.cur, v) && Entry(vm', vm'.cur, v).valid &&
            Entry(vm', vm'.cur, v).physicalPage == FrameFor(vm)
  {
    hide EntriesOwnFrames, FramesHaveEntries, OrdersDistinct, CleanMatchesSwap, FreeFrame;
    FreeKeepsInv(vm);
    var p, mid := FrameFor(vm), FreeFrame(vm);
    InstallKeepsInv(mid, p, v);
    InstallKeepsContents(mid, p, v);
    InstallEntry(mid, p, v, mid.cur, v);
  }

  // ------------------------------------------------------------ FIFO order

  // q lists the allocated frames from the oldest allocation to the newest.
  ghost predicate IsQueue(vm: Vm, q: seq<nat>)
    requires Shape(vm)
  {
    && (forall i :: 0 <= i < |q| ==> q[i] < |vm.bits| && vm.bits[q[i]])
    && (forall p :: 0 <= p < |vm.bits| && vm.bits[p] ==> p in q)
    && forall i, j :: 0 <= i < j < |q| ==> vm.ppt[q[i]].pageOrder < vm.ppt[q[j]].pageOrder
  }

  // When no frame is free, the victim is the head of the queue.
  lemma VictimIsOldest(vm: Vm, q: seq<nat>)
    requires Inv(vm) && IsQueue(vm, q) && vm.bits[FrameFor(vm)]
    ensures q != [] && FrameFor(vm) == q[0]
  {
  }

  lemma AllocateFrame(vm: Vm, v: nat)
    requires Faults(vm, v)
    ensures var vm' := AllocatePage(vm, v);
            && Shape(vm')
            && vm'.bits == vm.bits[FrameFor(vm) := true]
            && vm'.ppt == vm.ppt[FrameFor(vm) := Ppe(v, vm.nextOrder, Thread(vm.cur))]
            && vm'.nextOrder == vm.nextOrder + 1
  {
  }

  // The frame p of vm' was allocated after everything in vm.
  ghost predicate AllocatedLast(vm: Vm, vm': Vm, p: nat)
    requires Shape(vm) && Shape(vm')
  {
    && p < |vm.bits| && vm'.bits == vm.bits[p := true]
    && (forall r :: 0 <= r < |vm.ppt| && r != p ==> vm'.ppt[r] == vm.ppt[r])
    && vm'.ppt[p].pageOrder == vm.nextOrder
  }

  lemma QueueAppend(vm: Vm, vm': Vm, q: seq<nat>, p: nat)
    requires Shape(vm) && Shape(vm') && IsQueue(vm, q) && OrdersDistinct(vm, -1) && AllocatedLast(vm, vm', p)
    requires !vm.bits[p]
    ensures IsQueue(vm', q + [p])
  {
  }

  lemma QueueRotate(vm: Vm, vm': Vm, q: seq<nat>)
    requires Shape(vm) && Shape(vm') && IsQueue(vm, q) && OrdersDistinct(vm, -1)
    requires q != [] && AllocatedLast(vm, vm', q[0])
    ensures IsQueue(vm', q[1..] + [q[0]])
  {
    forall p | 0 <= p < |vm.bits| && vm.bits[p]
      ensures p in q[1..] + [q[0]]
    {
      assert p in q;
    }
  }

  // Allocation is a queue operation: the new page goes to the tail, and if
  // memory is full it takes the frame of the page at the head.
  lemma AllocateIsFifo(vm: Vm, v: nat, q: seq<nat>)
    requires Faults(vm, v) && IsQueue(vm, q)
    ensures Shape(AllocatePage(vm, v))
    ensures !vm.bits[FrameFor(vm)] ==> IsQueue(AllocatePage(vm, v), q + [FrameFor(vm)])
    ensures vm.bits[FrameFor(vm)] ==>
              q != [] && FrameFor(vm) == q[0] && IsQueue(AllocatePage(vm, v), q[1..] + [q[0]])
  {
    hide AllocatePage, IsQueue, FrameFor;
    AllocateFrame(vm, v);
    if vm.bits[FrameFor(vm)] {
      VictimIsOldest(vm, q);
      QueueRotate(vm, AllocatePage(vm, v), q);
    } else {
      QueueAppend(vm, AllocatePage(vm, v), q, FrameFor(vm));
    }
  }
}
