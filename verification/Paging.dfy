// Demand paging: the page tables, the physical page table (PPT) and the swap
// files, as one value, and what a page fault, a memory access, a context
// switch and the end of an address space do to it.
//
// A page is 128 bytes.  The numbers of frames, of address spaces and of pages
// in a space are arbitrary.
module Paging {
  import opened Words
  import Bitmaps

  type Page = s: seq<Byte> | |s| == 128 witness seq(128, i => 0)

  // machine/translate.h: TranslationEntry
  datatype Pte = Pte(virtualPage: int, physicalPage: int, valid: bool,
                     readOnly: bool, use: bool, dirty: bool)

  datatype Owner = NoThread | Thread(id: int)

  // threads/kernel.h: PhysicalPageEntry
  datatype Ppe = Ppe(virtualPage: int, pageOrder: int, owner: Owner)

  // An address space: its page table and its swap file, page by page.
  datatype Space = Space(table: seq<Pte>, swap: seq<Page>)

  datatype Vm = Vm(frames: seq<Page>, bits: seq<bool>, ppt: seq<Ppe>,
                   spaces: seq<Space>, cur: nat, nextOrder: int)

  // ------------------------------------------------------------ invariants

  ghost predicate Shape(vm: Vm) {
    && |vm.frames| == |vm.bits| == |vm.ppt| > 0
    && vm.cur < |vm.spaces|
    && forall s :: 0 <= s < |vm.spaces| ==> |vm.spaces[s].table| == |vm.spaces[s].swap|
  }

  ghost predicate InTable(vm: Vm, s: int, v: int) {
    0 <= s < |vm.spaces| && 0 <= v < |vm.spaces[s].table|
  }

  ghost function Entry(vm: Vm, s: int, v: int): Pte
    requires InTable(vm, s, v)
  {
    vm.spaces[s].table[v]
  }

  // Frame p is the one that page v of space s is loaded in.
  ghost predicate Holds(vm: Vm, p: int, s: int, v: int) {
    && 0 <= p < |vm.bits| == |vm.ppt|
    && vm.bits[p]
    && vm.ppt[p].owner == Thread(s) && vm.ppt[p].virtualPage == v
  }

  // Every valid entry names a frame whose PPT entry names it back; "hole" is
  // a frame that is being moved from one page to another, or -1.
  ghost predicate EntriesOwnFrames(vm: Vm, hole: int) {
    forall s, v {:trigger Entry(vm, s, v)} :: InTable(vm, s, v) ==>
      && !Entry(vm, s, v).readOnly
      && (Entry(vm, s, v).valid ==>
            Entry(vm, s, v).physicalPage != hole && Holds(vm, Entry(vm, s, v).physicalPage, s, v))
  }

  ghost predicate FrameHasEntry(vm: Vm, p: int)
    requires 0 <= p < |vm.ppt|
  {
    && vm.ppt[p].owner.Thread?
    && InTable(vm, vm.ppt[p].owner.id, vm.ppt[p].virtualPage)
    && Entry(vm, vm.ppt[p].owner.id, vm.ppt[p].virtualPage).valid
    && Entry(vm, vm.ppt[p].owner.id, vm.ppt[p].virtualPage).physicalPage == p
  }

  ghost predicate FramesHaveEntries(vm: Vm, hole: int)
    requires |vm.bits| == |vm.ppt|
  {
    && (0 <= hole < |vm.bits| ==> vm.bits[hole])
    && forall p {:trigger FrameHasEntry(vm, p)} {:trigger vm.bits[p]} ::
         0 <= p < |vm.bits| && vm.bits[p] && p != hole ==> FrameHasEntry(vm, p)
  }

  // Allocated frames carry distinct allocation orders below the next one.
  ghost predicate OrdersDistinct(vm: Vm, hole: int)
    requires |vm.bits| == |vm.ppt|
  {
    && (forall p :: 0 <= p < |vm.bits| && vm.bits[p] && p != hole ==> vm.ppt[p].pageOrder < vm.nextOrder)
    && forall p, q :: 0 <= p < q < |vm.bits| && vm.bits[p] && vm.bits[q] && p != hole && q != hole ==>
         vm.ppt[p].pageOrder != vm.ppt[q].pageOrder
  }

  // A loaded page that has not been written is the same in memory and in the
  // swap file.
  ghost predicate CleanMatchesSwap(vm: Vm)
    requires Shape(vm)
  {
    forall s, v {:trigger Entry(vm, s, v)} :: InTable(vm, s, v) && Entry(vm, s, v).valid && !Entry(vm, s, v).dirty ==>
      0 <= Entry(vm, s, v).physicalPage < |vm.frames| &&
      vm.frames[Entry(vm, s, v).physicalPage] == vm.spaces[s].swap[v]
  }

  ghost predicate InvBut(vm: Vm, hole: int) {
    && Shape(vm)
    && EntriesOwnFrames(vm, hole)
    && FramesHaveEntries(vm, hole)
    && OrdersDistinct(vm, hole)
    && CleanMatchesSwap(vm)
  }

  ghost predicate Inv(vm: Vm) { InvBut(vm, -1) }

  // The contents of a page: its frame if it is loaded, else its swap page.
  ghost function Content(vm: Vm, s: int, v: int): Page
    requires Shape(vm) && InTable(vm, s, v)
  {
    var e := Entry(vm, s, v);
    if e.valid && 0 <= e.physicalPage < |vm.frames| then vm.frames[e.physicalPage] else vm.spaces[s].swap[v]
  }

  // Both states give every page of every space the same contents.
  ghost predicate SameContents(vm: Vm, vm': Vm)
    requires Shape(vm) && Shape(vm')
  {
    && |vm'.spaces| == |vm.spaces|
    && (forall s :: 0 <= s < |vm.spaces| ==> |vm'.spaces[s].table| == |vm.spaces[s].table|)
    && forall s, v {:trigger Content(vm', s, v)} :: InTable(vm, s, v) ==>
         Content(vm', s, v) == Content(vm, s, v)
  }

  // ------------------------------------------------------- page allocation

  // The frame with the smallest allocation order, the first one of several.
  function OldestUpTo(ppt: seq<Ppe>, n: nat): (p: nat)
    requires 0 < n <= |ppt|
    ensures p < n
    ensures forall q :: 0 <= q < n ==> ppt[p].pageOrder <= ppt[q].pageOrder
    ensures forall q :: 0 <= q < p ==> ppt[p].pageOrder < ppt[q].pageOrder
  {
    if n == 1 then 0
    else
      var p := OldestUpTo(ppt, n - 1);
      if ppt[n - 1].pageOrder < ppt[p].pageOrder then n - 1 else p
  }

  function SetEntry(vm: Vm, s: nat, v: nat, e: Pte): Vm
    requires s < |vm.spaces| && v < |vm.spaces[s].table|
  {
    vm.(spaces := vm.spaces[s := vm.spaces[s].(table := vm.spaces[s].table[v := e])])
  }

  // The page in frame p is written back to the swap file of its owner if it
  // is dirty, and its page table entry becomes invalid.
  ghost function Evict(vm: Vm, p: nat): Vm
    requires InvBut(vm, -1) && p < |vm.bits| && vm.bits[p]
  {
    assert FrameHasEntry(vm, p);
    var s, v := vm.ppt[p].owner.id, vm.ppt[p].virtualPage;
    var e := vm.spaces[s].table[v];
    var swap := if e.dirty then vm.spaces[s].swap[v := vm.frames[p]] else vm.spaces[s].swap;
    vm.(spaces := vm.spaces[s := Space(vm.spaces[s].table[v := e.(valid := false, dirty := false)], swap)])
  }

  // Page v of the current space is loaded into frame p.
  ghost function Install(vm: Vm, p: nat, v: nat): Vm
    requires Shape(vm) && p < |vm.frames| && v < |vm.spaces[vm.cur].table|
  {
    SetEntry(vm, vm.cur, v, Pte(v, p, true, false, false, false))
      .(ppt := vm.ppt[p := Ppe(v, vm.nextOrder, Thread(vm.cur))],
        frames := vm.frames[p := vm.spaces[vm.cur].swap[v]],
        nextOrder := vm.nextOrder + 1)
  }

  // A fault on page v of the current space.
  ghost predicate Faults(vm: Vm, v: int) {
    Inv(vm) && InTable(vm, vm.cur, v) && !Entry(vm, vm.cur, v).valid
  }

  ghost function FrameFor(vm: Vm): (p: nat)
    requires Shape(vm)
    ensures p < |vm.bits|
  {
    var i := Bitmaps.FirstClear(vm.bits);
    if i < |vm.bits| then i else OldestUpTo(vm.ppt, |vm.ppt|)
  }

  ghost function FreeFrame(vm: Vm): Vm
    requires Inv(vm)
  {
    var p := FrameFor(vm);
    if vm.bits[p] then Evict(vm, p) else vm.(bits := vm.bits[p := true])
  }

  ghost function AllocatePage(vm: Vm, v: nat): Vm
    requires Faults(vm, v)
  {
    Install(FreeFrame(vm), FrameFor(vm), v)
  }
}
