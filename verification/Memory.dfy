// Address translation and the memory accesses of the simulated machine, over
// the paged memory and over a flat memory that never faults, and the proof
// that the paged memory behaves as the flat one.
module Memory {
  import opened Words
  import opened Paging

  // machine/machine.h: ExceptionType
  datatype Exception = NoException | SyscallException | PageFaultException
    | ReadOnlyException | BusErrorException | AddressErrorException
    | OverflowException | IllegalInstrException

  datatype Size = One | Two | Four {
    function Bytes(): (n: nat)
      ensures n == 1 || n == 2 || n == 4
    {
      match this
      case One => 1
      case Two => 2
      case Four => 4
    }
  }

  predicate Misaligned(addr: Word, size: Size) {
    (size == Four && addr % 4 != 0) || (size == Two && addr % 2 != 0)
  }

  // The little-endian bytes an access of this size stores.
  function StoredBytes(w: Word, size: Size): (s: seq<Byte>)
    ensures |s| == size.Bytes()
  {
    match size
    case One => [ByteOf(w, 0)]
    case Two => [ByteOf(w, 0), ByteOf(w, 1)]
    case Four => [ByteOf(w, 0), ByteOf(w, 1), ByteOf(w, 2), ByteOf(w, 3)]
  }

  // The register value of the bytes read.  A single byte is read through a
  // plain char, which the host sign-extends.
  function LoadedValue(s: seq<Byte>, size: Size): Word
    requires |s| == size.Bytes()
  {
    match size
    case One => if s[0] >= 0x80 then Join(s[0], 0xff, 0xff, 0xff) else Join(s[0], 0, 0, 0)
    case Two => Join(s[0], s[1], 0, 0)
    case Four => Join(s[0], s[1], s[2], s[3])
  }

  // ------------------------------------------------------- the flat memory

  datatype Read = Value(word: Word) | ReadFails(exc: Exception)
  datatype Write = Written(mem: seq<Byte>) | WriteFails(exc: Exception)

  predicate FlatFails(mem: seq<Byte>, addr: Word, size: Size) {
    Misaligned(addr, size) || addr + size.Bytes() > |mem|
  }

  function FlatRead(mem: seq<Byte>, addr: Word, size: Size): Read {
    if FlatFails(mem, addr, size) then ReadFails(AddressErrorException)
    else Value(LoadedValue(mem[addr..addr + size.Bytes()], size))
  }

  function FlatWrite(mem: seq<Byte>, addr: Word, size: Size, value: Word): Write {
    if FlatFails(mem, addr, size) then WriteFails(AddressErrorException)
    else Written(Splice(mem, addr, StoredBytes(value, size)))
  }

  // What is stored is read back: whole words exactly, shorter stores cut to
  // their size and extended again.
  lemma ReadAfterWrite(mem: seq<Byte>, addr: Word, size: Size, value: Word)
    requires !FlatFails(mem, addr, size)
    ensures var w := FlatWrite(mem, addr, size, value);
            w.Written? && FlatRead(w.mem, addr, size) == Value(LoadedValue(StoredBytes(value, size), size))
    ensures LoadedValue(StoredBytes(value, Four), Four) == value
  {
    var mem' := FlatWrite(mem, addr, size, value).mem;
    assert mem'[addr..addr + size.Bytes()] == StoredBytes(value, size);
    JoinBytes(value);
  }

  // ------------------------------------------------------ the paged memory

  // Machine::Translate with a linear page table.
  ghost function Translate(vm: Vm, addr: Word, size: Size, writing: bool): Exception
    requires Shape(vm)
  {
    if Misaligned(addr, size) then AddressErrorException
    else if addr / 128 >= |vm.spaces[vm.cur].table| then AddressErrorException
    else
      var e := Entry(vm, vm.cur, addr / 128);
      if !e.valid then PageFaultException
      else if e.readOnly && writing then ReadOnlyException
      else if !(0 <= e.physicalPage < |vm.frames|) then BusErrorException
      else NoException
  }

  ghost function Touch(vm: Vm, v: nat, writing: bool): Vm
    requires Shape(vm) && InTable(vm, vm.cur, v)
  {
    var e := Entry(vm, vm.cur, v);
    SetEntry(vm, vm.cur, v, e.(use := true, dirty := e.dirty || writing))
  }

  datatype PagedRead = PagedValue(word: Word, vm: Vm) | PagedReadFails(exc: Exception)
  datatype PagedWrite = PagedWritten(vm: Vm) | PagedWriteFails(exc: Exception)

  lemma FitsPage(addr: Word, size: Size)
    requires !Misaligned(addr, size)
    ensures addr % 128 + size.Bytes() <= 128
  {
  }

  ghost function ReadMem(vm: Vm, addr: Word, size: Size): PagedRead
    requires Shape(vm)
  {
    var exc := Translate(vm, addr, size, false);
    if exc != NoException then PagedReadFails(exc)
    else
      FitsPage(addr, size);
      var frame := vm.frames[Entry(vm, vm.cur, addr / 128).physicalPage];
      PagedValue(LoadedValue(frame[addr % 128..addr % 128 + size.Bytes()], size), Touch(vm, addr / 128, false))
  }

  ghost function WriteMem(vm: Vm, addr: Word, size: Size, value: Word): PagedWrite
    requires Shape(vm)
  {
    var exc := Translate(vm, addr, size, true);
    if exc != NoException then PagedWriteFails(exc)
    else
      FitsPage(addr, size);
      var p := Entry(vm, vm.cur, addr / 128).physicalPage;
      PagedWritten(Touch(vm, addr / 128, true)
                     .(frames := vm.frames[p := Splice(vm.frames[p], addr % 128, StoredBytes(value, size))]))
  }

  // ----------------------------------------------------- the refinement

  // The memory a space sees: its pages one after the other.
  ghost function Flat(vm: Vm, s: int): (mem: seq<Byte>)
    requires Shape(vm) && 0 <= s < |vm.spaces|
    ensures |mem| == 128 * |vm.spaces[s].table|
  {
    seq(128 * |vm.spaces[s].table|, a requires 0 <= a < 128 * |vm.spaces[s].table| => Content(vm, s, a / 128)[a % 128])
  }

  lemma FlatAt(vm: Vm, s: int, a: int)
    requires Shape(vm) && 0 <= s < |vm.spaces| && 0 <= a < |Flat(vm, s)|
    ensures InTable(vm, s, a / 128) && Flat(vm, s)[a] == Content(vm, s, a / 128)[a % 128]
  {
  }

  // Only a page that is in the table but not loaded can fault; every other
  // failure is the failure of the flat memory.
  lemma TranslateCases(vm: Vm, addr: Word, size: Size, writing: bool)
    requires Inv(vm)
    ensures var exc := Translate(vm, addr, size, writing);
            && (exc == NoException || exc == PageFaultException || exc == AddressErrorException)
            && (exc == AddressErrorException <==> FlatFails(Flat(vm, vm.cur), addr, size))
            && (exc == PageFaultException ==> Faults(vm, addr / 128))
            && (exc == NoException ==> InTable(vm, vm.cur, addr / 128) && Entry(vm, vm.cur, addr / 128).valid)
  {
    var v := addr / 128;
    if !Misaligned(addr, size) {
      FitsPage(addr, size);
      if InTable(vm, vm.cur, v) {
        assert !Entry(vm, vm.cur, v).readOnly;
      }
    }
  }

  lemma TouchEntry(vm: Vm, v: nat, writing: bool, s: int, w: int)
    requires Shape(vm) && InTable(vm, vm.cur, v) && InTable(vm, s, w)
    ensures InTable(Touch(vm, v, writing), s, w)
    ensures var e, e' := Entry(vm, s, w), Entry(Touch(vm, v, writing), s, w);
            e' == if s == vm.cur && w == v then e.(use := true, dirty := e.dirty || writing) else e
    ensures Touch(vm, v, writing).spaces[s].swap == vm.spaces[s].swap
  {
  }

  lemma TouchKeeps(vm: Vm, v: nat, writing: bool)
    requires Inv(vm) && InTable(vm, vm.cur, v)
    ensures Inv(Touch(vm, v, writing)) && SameContents(vm, Touch(vm, v, writing))
  {
    var vm' := Touch(vm, v, writing);
    assert Shape(vm');
    forall s, w | InTable(vm', s, w)
      ensures !Entry(vm', s, w).readOnly
      ensures Entry(vm', s, w).valid ==> Holds(vm', Entry(vm', s, w).physicalPage, s, w)
      ensures Entry(vm', s, w).valid && !Entry(vm', s, w).dirty ==>
                vm'.frames[Entry(vm', s, w).physicalPage] == vm'.spaces[s].swap[w]
      ensures Content(vm', s, w) == Content(vm, s, w)
    {
      TouchEntry(vm, v, writing, s, w);
    }
    forall q | 0 <= q < |vm'.bits| && vm'.bits[q]
      ensures FrameHasEntry(vm', q)
    {
      assert FrameHasEntry(vm, q);
      TouchEntry(vm, v, writing, vm.ppt[q].owner.id, vm.ppt[q].virtualPage);
    }
  }

  lemma SamePage(addr: nat, a: nat, n: nat)
    requires addr % 128 + n <= 128 && addr <= a < addr + n
    ensures a / 128 == addr / 128 && a % 128 == addr % 128 + (a - addr)
  {
  }

  lemma PageEnd(addr: nat, n: nat, pages: nat)
    requires addr / 128 < pages && addr % 128 + n <= 128
    ensures addr + n <= 128 * pages
  {
  }

  // The slice of a loaded page is the slice of the flat memory.
  lemma FrameSlice(vm: Vm, addr: Word, n: nat)
    requires Inv(vm) && InTable(vm, vm.cur, addr / 128) && Entry(vm, vm.cur, addr / 128).valid
    requires addr % 128 + n <= 128
    ensures 0 <= Entry(vm, vm.cur, addr / 128).physicalPage < |vm.frames|
    ensures addr + n <= |Flat(vm, vm.cur)|
    ensures Flat(vm, vm.cur)[addr..addr + n] ==
            vm.frames[Entry(vm, vm.cur, addr / 128).physicalPage][addr % 128..addr % 128 + n]
  {
    var v, off := addr / 128, addr % 128;
    assert Holds(vm, Entry(vm, vm.cur, v).physicalPage, vm.cur, v);
    var page := vm.frames[Entry(vm, vm.cur, v).physicalPage];
    var mem := Flat(vm, vm.cur);
    PageEnd(addr, n, |vm.spaces[vm.cur].table|);
    hide EntriesOwnFrames, FramesHaveEntries, OrdersDistinct, CleanMatchesSwap, Flat;
    forall a | addr <= a < addr + n
      ensures mem[a] == page[off + (a - addr)]
    {
      FlatAt(vm, vm.cur, a);
      SamePage(addr, a, n);
    }
  }

  lemma ReadMemRefines(vm: Vm, addr: Word, size: Size)
    requires Inv(vm)
    ensures match ReadMem(vm, addr, size)
            case PagedValue(w, vm') =>
              FlatRead(Flat(vm, vm.cur), addr, size) == Value(w) && Inv(vm') && SameContents(vm, vm')
            case PagedReadFails(exc) =>
              if exc == PageFaultException then Faults(vm, addr / 128) && FlatRead(Flat(vm, vm.cur), addr, size).Value?
              else FlatRead(Flat(vm, vm.cur), addr, size) == ReadFails(exc)
  {
    hide EntriesOwnFrames, FramesHaveEntries, OrdersDistinct, CleanMatchesSwap, LoadedValue, Touch, Translate,
      FlatFails;
    TranslateCases(vm, addr, size, false);
    if Translate(vm, addr, size, false) == NoException {
      assert !Misaligned(addr, size) by { hide *; NoExceptionAligned(vm, addr, size, false); }
      FitsPage(addr, size);
      FrameSlice(vm, addr, size.Bytes());
      TouchKeeps(vm, addr / 128, false);
    }
  }

  lemma NoExceptionAligned(vm: Vm, addr: Word, size: Size, writing: bool)
    requires Shape(vm)
    ensures Translate(vm, addr, size, writing) == NoException ==> !Misaligned(addr, size)
  {
  }

  // --------------------------------------------------------------- writing

  // A new contents for the frame of a dirty page of the current space.
  ghost function SetFrame(vm: Vm, v: int, page: Page): Vm
    requires Inv(vm) && InTable(vm, vm.cur, v) && Entry(vm, vm.cur, v).valid
  {
    vm.(frames := vm.frames[Entry(vm, vm.cur, v).physicalPage := page])
  }

  // No other loaded page is in the same frame.
  lemma OwnFrame(vm: Vm, v: int, s: int, w: int)
    requires Inv(vm) && InTable(vm, vm.cur, v) && InTable(vm, s, w)
    requires Entry(vm, vm.cur, v).valid && Entry(vm, s, w).valid
    ensures Entry(vm, vm.cur, v).physicalPage == Entry(vm, s, w).physicalPage ==> s == vm.cur && w == v
  {
  }

  lemma SetFrameKeeps(vm: Vm, v: int, page: Page)
    requires Inv(vm) && InTable(vm, vm.cur, v) && Entry(vm, vm.cur, v).valid && Entry(vm, vm.cur, v).dirty
    ensures var vm' := SetFrame(vm, v, page);
            && Inv(vm')
            && forall s, w {:trigger Content(vm', s, w)} :: InTable(vm, s, w) ==>
                 Content(vm', s, w) == if s == vm.cur && w == v then page else Content(vm, s, w)
  {
    var vm' := SetFrame(vm, v, page);
    assert Shape(vm');
    forall s, w | InTable(vm', s, w)
      ensures Entry(vm', s, w) == Entry(vm, s, w) && !Entry(vm, s, w).readOnly
      ensures Entry(vm', s, w).valid ==> Holds(vm', Entry(vm', s, w).physicalPage, s, w)
      ensures Entry(vm', s, w).valid && !Entry(vm', s, w).dirty ==>
                vm'.frames[Entry(vm', s, w).physicalPage] == vm'.spaces[s].swap[w]
      ensures Content(vm', s, w) == if s == vm.cur && w == v then page else Content(vm, s, w)
    {
      assert InTable(vm, s, w);
      if Entry(vm, s, w).valid {
        OwnFrame(vm, v, s, w);
      }
    }
    forall q | 0 <= q < |vm'.bits| && vm'.bits[q]
      ensures FrameHasEntry(vm', q)
    {
      assert FrameHasEntry(vm, q);
    }
  }

  // The contents of vm' are those of vm but for some bytes of one page of
  // the current space.
  ghost predicate PageChanged(vm: Vm, vm': Vm, v: int, off: nat, bytes: seq<Byte>) {
    && Shape(vm) && Shape(vm') && vm'.cur == vm.cur && InTable(vm, vm.cur, v)
    && |vm'.spaces| == |vm.spaces|
    && (forall s :: 0 <= s < |vm.spaces| ==> |vm'.spaces[s].table| == |vm.spaces[s].table|)
    && off + |bytes| <= 128
    && forall s, w {:trigger Content(vm', s, w)} :: InTable(vm, s, w) ==>
         Content(vm', s, w) ==
         if s == vm.cur && w == v then Splice(Content(vm, s, w), off, bytes) else Content(vm, s, w)
  }

  lemma ByteAfterWrite(vm: Vm, vm': Vm, addr: Word, bytes: seq<Byte>, a: int)
    requires PageChanged(vm, vm', addr / 128, addr % 128, bytes) && 0 <= a < |Flat(vm, vm.cur)|
    ensures a < |Flat(vm', vm.cur)|
    ensures Flat(vm', vm.cur)[a] == if addr <= a < addr + |bytes| then bytes[a - addr] else Flat(vm, vm.cur)[a]
  {
    hide Content, Flat;
    FlatAt(vm, vm.cur, a);
    FlatAt(vm', vm.cur, a);
    if a / 128 == addr / 128 {
      SamePageOffsets(addr, a);
    } else {
      OtherPage(addr, a, |bytes|);
    }
  }

  lemma PageFits(vm: Vm, vm': Vm, addr: Word, bytes: seq<Byte>)
    requires PageChanged(vm, vm', addr / 128, addr % 128, bytes)
    ensures 0 <= vm.cur < |vm.spaces| == |vm'.spaces| && Shape(vm) && Shape(vm') && vm'.cur == vm.cur
    ensures addr + |bytes| <= |Flat(vm, vm.cur)| == |Flat(vm', vm.cur)|
  {
    hide Flat, Content;
    PageEnd(addr, |bytes|, |vm.spaces[vm.cur].table|);
  }

  // Writing inside one page is writing the same slice of the flat memory.
  lemma PageSplice(vm: Vm, vm': Vm, addr: Word, bytes: seq<Byte>)
    requires PageChanged(vm, vm', addr / 128, addr % 128, bytes)
    ensures addr + |bytes| <= |Flat(vm, vm.cur)|
    ensures Flat(vm', vm.cur) == Splice(Flat(vm, vm.cur), addr, bytes)
  {
    hide Flat, Content, Splice, PageChanged;
    PageFits(vm, vm', addr, bytes);
    forall a | 0 <= a < |Flat(vm, vm.cur)|
      ensures Flat(vm', vm.cur)[a] == Splice(Flat(vm, vm.cur), addr, bytes)[a]
    {
      ByteAfterWrite(vm, vm', addr, bytes, a);
    }
  }

  lemma OtherSpacesKeep(vm: Vm, vm': Vm, v: int, off: nat, bytes: seq<Byte>)
    requires PageChanged(vm, vm', v, off, bytes)
    ensures forall s :: 0 <= s < |vm.spaces| && s != vm.cur ==> Flat(vm', s) == Flat(vm, s)
  {
    hide Content;
    forall s | 0 <= s < |vm.spaces| && s != vm.cur
      ensures Flat(vm', s) == Flat(vm, s)
    {
      forall a | 0 <= a < |Flat(vm, s)|
        ensures Flat(vm', s)[a] == Flat(vm, s)[a]
      {
        FlatAt(vm, s, a);
        FlatAt(vm', s, a);
      }
    }
  }

  lemma SamePageOffsets(addr: nat, a: nat)
    requires a / 128 == addr / 128
    ensures a % 128 - addr % 128 == a - addr
  {
  }

  lemma OtherPage(addr: nat, a: nat, n: nat)
    requires a / 128 != addr / 128 && addr % 128 + n <= 128
    ensures !(addr <= a < addr + n)
  {
  }

  // A write either fails as the flat memory does, or faults on a page that
  // is not loaded, or changes exactly the addressed bytes of the current
  // space and nothing of any other space.
  lemma WriteMemRefines(vm: Vm, addr: Word, size: Size, value: Word)
    requires Inv(vm)
    ensures match WriteMem(vm, addr, size, value)
            case PagedWritten(vm') =>
              && Inv(vm') && vm'.cur == vm.cur && |vm'.spaces| == |vm.spaces|
              && FlatWrite(Flat(vm, vm.cur), addr, size, value) == Written(Flat(vm', vm.cur))
              && forall s :: 0 <= s < |vm.spaces| && s != vm.cur ==> Flat(vm', s) == Flat(vm, s)
            case PagedWriteFails(exc) =>
              if exc == PageFaultException
              then Faults(vm, addr / 128) && FlatWrite(Flat(vm, vm.cur), addr, size, value).Written?
              else FlatWrite(Flat(vm, vm.cur), addr, size, value) == WriteFails(exc)
  {
    hide EntriesOwnFrames, FramesHaveEntries, OrdersDistinct, CleanMatchesSwap, StoredBytes, Translate, FlatFails,
      Splice, Content;
    TranslateCases(vm, addr, size, true);
    if Translate(vm, addr, size, true) == NoException {
      NoExceptionAligned(vm, addr, size, true);
      FitsPage(addr, size);
      WriteInPage(vm, addr, StoredBytes(value, size));
    }
  }

  lemma WriteInPage(vm: Vm, addr: Word, bytes: seq<Byte>)
    requires Inv(vm) && InTable(vm, vm.cur, addr / 128) && Entry(vm, vm.cur, addr / 128).valid
    requires addr % 128 + |bytes| <= 128
    ensures var p := Entry(vm, vm.cur, addr / 128).physicalPage;
            && 0 <= p < |vm.frames|
            && var vm' := Touch(vm, addr / 128, true)
                 .(frames := vm.frames[p := Splice(vm.frames[p], addr % 128, bytes)]);
            && Inv(vm') && vm'.cur == vm.cur && |vm'.spaces| == |vm.spaces|
            && addr + |bytes| <= |Flat(vm, vm.cur)|
            && Flat(vm', vm.cur) == Splice(Flat(vm, vm.cur), addr, bytes)
            && forall s :: 0 <= s < |vm.spaces| && s != vm.cur ==> Flat(vm', s) == Flat(vm, s)
  {
    var v := addr / 128;
    var p := Entry(vm, vm.cur, v).physicalPage;
    assert Holds(vm, p, vm.cur, v);
    hide EntriesOwnFrames, FramesHaveEntries, OrdersDistinct, CleanMatchesSwap, Splice, Touch;
    TouchKeeps(vm, v, true);
    TouchEntry(vm, v, true, vm.cur, v);
    var mid := Touch(vm, v, true);
    TouchFrame(vm, v, true);
    var page := Splice(vm.frames[p], addr % 128, bytes);
    SetFrameKeeps(mid, v, page);
    var vm' := SetFrame(mid, v, page);
    forall s, w {:trigger Content(vm', s, w)} | InTable(vm, s, w)
      ensures Content(vm', s, w) ==
              if s == vm.cur && w == v then Splice(Content(vm, s, w), addr % 128, bytes) else Content(vm, s, w)
    {
      assert InTable(mid, s, w) && Content(mid, s, w) == Content(vm, s, w);
    }
    PageSplice(vm, vm', addr, bytes);
    OtherSpacesKeep(vm, vm', v, addr % 128, bytes);
  }

  lemma TouchFrame(vm: Vm, v: nat, writing: bool)
    requires Shape(vm) && InTable(vm, vm.cur, v)
    ensures var vm' := Touch(vm, v, writing);
            && vm'.frames == vm.frames && vm'.cur == vm.cur
            && vm'.bits == vm.bits && vm'.ppt == vm.ppt && vm'.nextOrder == vm.nextOrder
  {
  }
}
