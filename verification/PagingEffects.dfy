// What one page fault, one new program and the end of an address space change,
// entry by entry and frame by frame.
module PagingEffects {
  import opened Words
  import opened Paging
  import opened PagingProofs
  import opened PagingRuns
  import opened Memory

  // The frame a fault takes: the first free one, or with memory full the one
  // allocated longest ago.
  lemma FrameTaken(vm: Vm)
    requires Shape(vm)
    ensures var p := FrameFor(vm);
            && p < |vm.bits|
            && (!vm.bits[p] ==> forall q :: 0 <= q < p ==> vm.bits[q])
            && (vm.bits[p] ==>
                  forall q :: 0 <= q < |vm.bits| ==> vm.bits[q] && vm.ppt[p].pageOrder <= vm.ppt[q].pageOrder)
  {
  }

  // The page that was in the frame, if any: its entry becomes invalid, and it
  // goes back to its swap file if it was written.
  ghost predicate SentBack(vm: Vm, vm': Vm, p: nat, s: int, w: int)
    requires InTable(vm, s, w) && InTable(vm', s, w) && Shape(vm) && Shape(vm') && p < |vm.frames|
  {
    && !Entry(vm', s, w).valid
    && vm'.spaces[s].swap[w] == if Entry(vm, s, w).dirty then vm.frames[p] else vm.spaces[s].swap[w]
  }

  ghost predicate Untouched(vm: Vm, vm': Vm, s: int, w: int)
    requires InTable(vm, s, w) && InTable(vm', s, w) && Shape(vm) && Shape(vm')
  {
    Entry(vm', s, w) == Entry(vm, s, w) && vm'.spaces[s].swap[w] == vm.spaces[s].swap[w]
  }

  // A fault on page v: its entry, the frame, the frame's entry in the PPT and
  // the page that was in the frame change, and nothing else.
  lemma AllocateExact(vm: Vm, v: nat, s: int, w: int)
    requires Faults(vm, v) && InTable(vm, s, w)
    ensures var vm', p := AllocatePage(vm, v), FrameFor(vm);
            && Shape(vm') && InTable(vm', s, w)
            && vm'.bits == vm.bits[p := true] && vm'.nextOrder == vm.nextOrder + 1 && vm'.cur == vm.cur
            && vm'.ppt == vm.ppt[p := Ppe(v, vm.nextOrder, Thread(vm.cur))]
            && vm'.frames == vm.frames[p := vm.spaces[vm.cur].swap[v]]
            && (if s == vm.cur && w == v then
                  Entry(vm', s, w) == Pte(v, p, true, false, false, false)
                  && vm'.spaces[s].swap[w] == vm.spaces[s].swap[w]
                else if Entry(vm, s, w).valid && Entry(vm, s, w).physicalPage == p then SentBack(vm, vm', p, s, w)
                else Untouched(vm, vm', s, w))
  {
    hide EntriesOwnFrames, FramesHaveEntries, OrdersDistinct, CleanMatchesSwap, Evict, Install, FrameFor, IsQueue;
    var p, mid := FrameFor(vm), FreeFrame(vm);
    AllocateFrame(vm, v);
    FreeKeepsInv(vm);
    FreeEffect(vm, v, s, w);
    InstallEntry(mid, p, v, s, w);
    InstallFrame(mid, p, v);
  }

  // Making room changes the entry of the page that was there alone.
  lemma FreeEffect(vm: Vm, v: nat, s: int, w: int)
    requires Faults(vm, v) && InTable(vm, s, w)
    ensures var mid, p := FreeFrame(vm), FrameFor(vm);
            && Shape(mid) && InTable(mid, s, w) && InTable(mid, vm.cur, v) && mid.frames == vm.frames
            && mid.spaces[vm.cur].swap[v] == vm.spaces[vm.cur].swap[v]
            && (if Entry(vm, s, w).valid && Entry(vm, s, w).physicalPage == p then SentBack(vm, mid, p, s, w)
                else Untouched(vm, mid, s, w))
  {
    hide OrdersDistinct, CleanMatchesSwap;
    var p := FrameFor(vm);
    if vm.bits[p] {
      EvictShape(vm, p);
      EvictEntry(vm, p, s, w);
      EvictEntry(vm, p, vm.cur, v);
    }
  }

  lemma InstallFrame(vm: Vm, p: nat, v: nat)
    requires Shape(vm) && p < |vm.frames| && InTable(vm, vm.cur, v)
    ensures Install(vm, p, v).frames == vm.frames[p := vm.spaces[vm.cur].swap[v]] && Install(vm, p, v).cur == vm.cur
  {
  }

  // A new program's memory is its pages, and none of them is in a frame.
  lemma LoadExact(vm: Vm, swap: seq<Page>, a: nat)
    requires Inv(vm)
    ensures var vm', s := LoadProgram(vm, swap), |vm.spaces|;
            && Shape(vm') && |vm'.spaces| == s + 1 && |Flat(vm', s)| == 128 * |swap|
            && (a < 128 * |swap| ==> Flat(vm', s)[a] == swap[a / 128][a % 128] && !Entry(vm', s, a / 128).valid)
            && vm'.frames == vm.frames && vm'.bits == vm.bits && vm'.ppt == vm.ppt && vm'.cur == vm.cur
            && vm'.spaces[..s] == vm.spaces && vm'.nextOrder == vm.nextOrder
  {
    LoadKeepsInv(vm, swap);
    hide EntriesOwnFrames, FramesHaveEntries, OrdersDistinct, CleanMatchesSwap;
    var vm', s := LoadProgram(vm, swap), |vm.spaces|;
    if a < 128 * |swap| {
      FlatAt(vm', s, a);
    }
  }

  // When a space has ended, each frame that one of its pages was in is zeroed
  // and free and in nobody's name; every other frame is as it was, and so are
  // the other spaces.
  lemma ReleaseExact(vm: Vm, s: nat, p: nat)
    requires Inv(vm) && s < |vm.spaces| && p < |vm.bits|
    ensures var vm' := Release(vm, s);
            && |vm'.frames| == |vm'.bits| == |vm'.ppt| == |vm.bits|
            && (if exists v :: InTable(vm, s, v) && Entry(vm, s, v).valid && Entry(vm, s, v).physicalPage == p then
                  && vm'.frames[p] == seq(128, i => 0) && !vm'.bits[p]
                  && vm'.ppt[p].owner == NoThread && vm'.ppt[p].virtualPage == -1
                else vm'.frames[p] == vm.frames[p] && vm'.bits[p] == vm.bits[p] && vm'.ppt[p] == vm.ppt[p])
            && vm'.spaces == vm.spaces[s := Space([], [])] && vm'.cur == vm.cur && vm'.nextOrder == vm.nextOrder
  {
    hide OrdersDistinct, CleanMatchesSwap;
    if OwnedBy(vm, p, s) {
      assert FrameHasEntry(vm, p);
    }
  }

  // All that an access changes in a page's entry.
  predicate Marked(e: Pte, e': Pte, used: bool, written: bool) {
    && e'.virtualPage == e.virtualPage && e'.physicalPage == e.physicalPage
    && e'.valid == e.valid && e'.readOnly == e.readOnly
    && (e'.use <==> e.use || used) && (e'.dirty <==> e.dirty || written)
  }

  // A read marks its page as used, a write as used and dirty, and neither any
  // other page.
  lemma AccessMarks(vm: Vm, addr: Word, size: Size, value: Word, s: int, w: int)
    requires Inv(vm) && InTable(vm, s, w)
    ensures var here, r := s == vm.cur && w == addr / 128, ReadMem(vm, addr, size);
            r.PagedValue? ==> InTable(r.vm, s, w) && Marked(Entry(vm, s, w), Entry(r.vm, s, w), here, false)
    ensures var here, r := s == vm.cur && w == addr / 128, WriteMem(vm, addr, size, value);
            r.PagedWritten? ==> InTable(r.vm, s, w) && Marked(Entry(vm, s, w), Entry(r.vm, s, w), here, here)
  {
    hide EntriesOwnFrames, FramesHaveEntries, OrdersDistinct, CleanMatchesSwap, LoadedValue, StoredBytes, Splice;
    if InTable(vm, vm.cur, addr / 128) {
      TouchEntry(vm, addr / 128, false, s, w);
      TouchEntry(vm, addr / 128, true, s, w);
    }
  }
}
