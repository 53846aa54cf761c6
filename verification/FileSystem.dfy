// The file system: formatting a disk, creating, opening and removing files.
module FileSystem {
  import opened Words
  import opened Layout
  import opened Files
  import opened Ownership
  import opened Directory
  import opened FileHeader
  import opened Volume
  import Bitmaps

  // The free map read from its file: PersistentBitmap(file, numItems).
  method FetchMap(file: OpenFile) returns (freeMap: Bitmaps.Bitmap)
    requires file.Valid() && file.hdr.numBytes == 128
    ensures fresh(freeMap) && fresh(freeMap.words) && freeMap.Valid() && freeMap.numBits == 1024
    ensures freeMap.bits == DecodeBits(file.Bytes())
  {
    hide DecodeBits, FileBytes, Readable, Separated, Bitmaps.BitAt;
    var bytes := new Byte[128];
    var n, outside := file.ReadAt(bytes, 0, 128, 0);
    assert bytes[..] == file.Bytes();
    freeMap := new Bitmaps.Bitmap(1024);
    var bits := DecodeBits(bytes[..]);
    for i := 0 to 1024
      invariant freeMap.Valid() && fresh(freeMap) && fresh(freeMap.words) && freeMap.numBits == 1024
      invariant freeMap.words as object != bytes
      invariant forall j :: 0 <= j < 1024 ==> freeMap.bits[j] == (j < i && bits[j])
    {
      if bits[i] {
        freeMap.Mark(i);
      }
    }
    assert freeMap.bits == bits;
  }

  // PersistentBitmap::WriteBack
  method StoreMap(freeMap: Bitmaps.Bitmap, file: OpenFile)
    requires freeMap.Valid() && freeMap.numBits == 1024 && file.Valid() && file.hdr.numBytes == 128
    requires file.disk.sectors as object != freeMap.words
    modifies file.disk.sectors
    ensures file.Valid() && file.Bytes() == EncodeBits(freeMap.bits)
    ensures forall s :: 0 <= s < file.disk.sectors.Length && !HasSector(file.hdr, s) ==>
              file.disk.sectors[s] == old(file.disk.sectors[s])
  {
    hide EncodeBits, HasSector, FileBytes;
    var bits := [];
    for i := 0 to 1024
      invariant bits == freeMap.bits[..i]
      modifies {}
    {
      var marked := freeMap.Test(i);
      bits := bits + [marked];
    }
    assert bits == freeMap.bits && |bits| == 1024;
    var n, outside := file.WriteAt(EncodeBits(bits), 128, 0);
  }

  // When Create succeeds: the name is new, the directory has room, and there
  // are sectors for the header and the data.
  ghost predicate CanCreate(disk: seq<Sector>, name: seq<Byte>, size: nat)
    requires SystemFiles(disk)
  {
    && CanAdd(Table(disk), name)
    && Bitmaps.CountClear(MapBits(disk)) >= 1 + SectorsFor(size)
    && SectorsFor(size) <= 30
  }

  // When Create writes past the header it allocates: the file does not fit a
  // header, and nothing else is in its way.
  ghost predicate Overruns(disk: seq<Sector>, name: seq<Byte>, size: nat)
    requires SystemFiles(disk)
  {
    && CanAdd(Table(disk), name)
    && Bitmaps.CountClear(MapBits(disk)) >= 1 + SectorsFor(size)
    && SectorsFor(size) > 30
  }

  // The header and the data are in the first free sectors, in that order.
  ghost predicate PlacedFirst(bits: seq<bool>, h: Header, size: nat) {
    && GoodHeader(h) && h.numBytes == size
    && Bitmaps.CountClear(bits) >= 1 + SectorsFor(size)
    && SectorsOf(Bitmaps.FirstClear(bits), h) == Chosen(bits, 1 + SectorsFor(size))
  }

  lemma PlacedFree(bits: seq<bool>, h: Header, size: nat)
    requires PlacedFirst(bits, h, size)
    ensures GoodHeader(h) && FreeSectors(bits, SectorsOf(Bitmaps.FirstClear(bits), h))
    ensures Bitmaps.FirstClear(bits) < |bits|
  {
  }

  ghost predicate CreateBy(d0: seq<Sector>, d1: seq<Sector>, d2: seq<Sector>, d3: seq<Sector>,
                           name: seq<Byte>, size: nat, h: Header)
    requires SystemFiles(d0)
  {
    && CanCreate(d0, name, size) && PlacedFirst(MapBits(d0), h, size)
    && (PlacedFree(MapBits(d0), h, size);
        CreateWrites(d0, d1, d2, d3, name, Bitmaps.FirstClear(MapBits(d0)), h))
  }

  // Create wrote its three parts.
  ghost predicate CreateStep(d: seq<Sector>, d': seq<Sector>, name: seq<Byte>, size: nat) {
    SystemFiles(d) && exists d1, d2, h :: CreateBy(d, d1, d2, d', name, size, h)
  }

  function AtLeastZero(size: HostInt): nat { if size < 0 then 0 else size }

  // Create made a file of negative size: its header is in the first free
  // sector, and it has no data.
  ghost predicate NegativeStep(d: seq<Sector>, d': seq<Sector>, name: seq<Byte>, size: HostInt) {
    && SystemFiles(d) && CanAdd(Table(d), name) && Bitmaps.FirstClear(MapBits(d)) < 1024
    && SameSystem(d, d') && Table(d') == Added(Table(d), name, Bitmaps.FirstClear(MapBits(d)))
    && MapBits(d') == MapBits(d)[Bitmaps.FirstClear(MapBits(d)) := true]
    && exists h :: PutHeader(d, d', Bitmaps.FirstClear(MapBits(d)), h, size)
  }

  // Of the sectors apart from the system files this one alone has changed.
  ghost predicate PutHeader(d: seq<Sector>, d': seq<Sector>, sector: nat, h: Header, size: HostInt)
    requires |d| == |d'| == 1024 && sector < 1024
  {
    && NegativeHeader(h, size) && d'[sector] == EncodeHeader(h)
    && forall s :: Apart(d, s) && s != sector ==> d'[s] == d[s]
  }

  // Remove wrote its two parts.
  ghost predicate RemoveStep(d: seq<Sector>, d': seq<Sector>, name: seq<Byte>) {
    SystemFiles(d) && IndexOf(Table(d), name) < 10 && exists d1 :: RemoveWrites(d, d1, d', name)
  }

  // Data was written into the listed file number i.
  ghost predicate WriteStep(d: seq<Sector>, d': seq<Sector>, i: nat) {
    && SystemFiles(d) && i < 10 && Table(d)[i].inUse && Table(d)[i].sector < 1024 && |d'| == 1024
    && forall s :: 0 <= s < 1024 && !HasSector(HeaderOf(d, i), s) ==> d'[s] == d[s]
  }

  // ------------------------------------------------------ what a step keeps

  // The new file is listed with the size asked for, everything listed before
  // is still listed with its contents, and ownership holds.
  lemma CreateStepKeeps(d: seq<Sector>, d': seq<Sector>, name: seq<Byte>, size: nat)
    requires Wellformed(d) && CreateStep(d, d', name, size)
    ensures Wellformed(d') && SameSystem(d, d')
    ensures CanAdd(Table(d), name) && Bitmaps.FirstClear(MapBits(d)) < 1024
    ensures Table(d') == Added(Table(d), name, Bitmaps.FirstClear(MapBits(d)))
    ensures Bitmaps.CountClear(MapBits(d)) >= 1 + SectorsFor(size)
    ensures MapBits(d') == SetAll(MapBits(d), Chosen(MapBits(d), 1 + SectorsFor(size)), true)
    ensures forall i :: 0 <= i < 10 && Table(d)[i].inUse ==> FileKept(d, d', i)
  {
    hide CreateWrites, MapBits, Table, Consistent, SystemFiles, SameSystem, Apart, NamesDistinct, Added, CanAdd, SetAll,
      Chosen, SectorsOf, Bitmaps.FirstClear, Bitmaps.CountClear, FreeSectors, GoodHeader, FileKept, Slots;
    var d1, d2, h :| CreateBy(d, d1, d2, d', name, size, h);
    var sector := Bitmaps.FirstClear(MapBits(d));
    PlacedFree(MapBits(d), h, size);
    CreateView(d, d1, d2, d', name, sector, h);
    CreateParts(d, d1, d2, d', name, sector, h);
    SystemOf(d, d');
    forall i: nat | i < 10 && Table(d)[i].inUse
      ensures FileKept(d, d', i)
    {
      ListedKept(d, d', i);
    }
  }

  lemma RemoveStepKeeps(d: seq<Sector>, d': seq<Sector>, name: seq<Byte>)
    requires Wellformed(d) && RemoveStep(d, d', name)
    ensures Wellformed(d') && SameSystem(d, d')
    ensures Table(d') == Dropped(Table(d), name)
    ensures forall i :: 0 <= i < 10 && Table(d)[i].inUse ==> FileKept(d, d', i)
  {
    hide RemoveWrites, MapBits, Table, Consistent, SystemFiles, SameSystem, Apart, NamesDistinct, Dropped, SetAll,
      FileKept, Slots, IndexOf;
    var d1 :| RemoveWrites(d, d1, d', name);
    RemoveView(d, d1, d', name);
    RemoveParts(d, d1, d', name);
    SystemOf(d, d');
    forall i: nat | i < 10 && Table(d)[i].inUse
      ensures FileKept(d, d', i)
    {
      ListedKept(d, d', i);
    }
  }

  // The new file is found under its name, with the size asked for and the
  // first free sectors.
  lemma CreatedIsListed(d: seq<Sector>, d': seq<Sector>, name: seq<Byte>, size: nat)
    requires Wellformed(d) && CreateStep(d, d', name, size)
    ensures SystemFiles(d')
    ensures var i := IndexOf(Table(d'), name);
            && i < 10 && Table(d')[i].inUse && Table(d')[i].sector == Bitmaps.FirstClear(MapBits(d)) < 1024
            && PlacedFirst(MapBits(d), HeaderOf(d', i), size)
  {
    hide CreateWrites, MapBits, Table, Consistent, SystemFiles, SameSystem, Apart, NamesDistinct, SetAll, Chosen,
      IndexOf, SectorsOf, Bitmaps.FirstClear, Bitmaps.CountClear, FreeSectors, GoodHeader, Slots, PlacedFirst,
      DecodeHeader, EncodeHeader;
    var d1, d2, h :| CreateBy(d, d1, d2, d', name, size, h);
    var sector := Bitmaps.FirstClear(MapBits(d));
    PlacedFree(MapBits(d), h, size);
    CreateParts(d, d1, d2, d', name, sector, h);
    SystemOf(d, d');
    AddedFinds(Table(d), name, sector, name);
    GoodShape(h);
    HeaderRoundTrip(h);
  }

  // Creating a file and removing it gives back the free map, every header
  // that was listed, and the contents of every file.
  lemma CreateThenRemoveRestores(d: seq<Sector>, d': seq<Sector>, d'': seq<Sector>, name: seq<Byte>, size: nat)
    requires Wellformed(d) && CreateStep(d, d', name, size) && RemoveStep(d', d'', name)
    ensures Wellformed(d'') && MapBits(d'') == MapBits(d) && Slots(d'') == Slots(d)
    ensures forall i :: 0 <= i < 10 && Table(d)[i].inUse ==> FileKept(d, d'', i)
  {
    hide CreateWrites, RemoveWrites, MapBits, Table, Consistent, SystemFiles, SameSystem, Apart, NamesDistinct, SetAll,
      Chosen, IndexOf, SectorsOf, Bitmaps.FirstClear, Bitmaps.CountClear, FreeSectors, GoodHeader, Slots, PlacedFirst,
      Added, CanAdd, CreateStep, FileKept, Ownership.Created, Removed;
    CreateStepKeeps(d, d', name, size);
    RemoveStepKeeps(d', d'', name);
    RestoredView(d, d', d'', name, size);
    forall i: nat | i < 10 && Table(d)[i].inUse
      ensures FileKept(d, d'', i)
    {
      KeptTwice(d, d', d'', name, size, i);
    }
  }

  lemma RestoredView(d: seq<Sector>, d': seq<Sector>, d'': seq<Sector>, name: seq<Byte>, size: nat)
    requires Wellformed(d) && CreateStep(d, d', name, size) && RemoveStep(d', d'', name)
    ensures SystemFiles(d'') && MapBits(d'') == MapBits(d) && Slots(d'') == Slots(d)
  {
    hide CreateWrites, RemoveWrites, MapBits, Table, Consistent, SystemFiles, SameSystem, Apart, NamesDistinct, SetAll,
      Chosen, IndexOf, SectorsOf, Bitmaps.FirstClear, Bitmaps.CountClear, FreeSectors, GoodHeader, Slots, Added,
      Removed, Ownership.Created;
    var sector, u, h := NewSlot(d, d', name, size);
    var r1 :| RemoveWrites(d', r1, d'', name);
    RemoveView(d', r1, d'', name);
    SystemOf(d', d'');
    CreateThenRemove(View(d), u + 2, sector, h);
  }

  // The slot that a Create fills.
  lemma NewSlot(d: seq<Sector>, d': seq<Sector>, name: seq<Byte>, size: nat) returns (sector: nat, u: nat, h: Header)
    requires Wellformed(d) && CreateStep(d, d', name, size)
    ensures Wellformed(d') && u < 10 && IndexOf(Table(d'), name) == u
    ensures GoodHeader(h) && FreeSectors(MapBits(d), SectorsOf(sector, h)) && Slots(d)[u + 2] == Free
    ensures View(d') == Ownership.Created(View(d), u + 2, sector, h)
  {
    hide CreateWrites, MapBits, Table, Consistent, SystemFiles, SameSystem, Apart, NamesDistinct, SetAll, Chosen,
      IndexOf, SectorsOf, Bitmaps.FirstClear, Bitmaps.CountClear, FreeSectors, GoodHeader, Slots, Added,
      Ownership.Created;
    var d1, d2, h' :| CreateBy(d, d1, d2, d', name, size, h');
    sector, u, h := Bitmaps.FirstClear(MapBits(d)), FirstUnused(Table(d)), h';
    PlacedFree(MapBits(d), h, size);
    CreateView(d, d1, d2, d', name, sector, h);
    SystemOf(d, d');
    AddedFinds(Table(d), name, sector, name);
    FreeSlot(d, u);
  }

  lemma FreeSlot(d: seq<Sector>, u: nat)
    requires SystemFiles(d) && u < 10 && !Table(d)[u].inUse
    ensures Slots(d)[u + 2] == Free
  {
  }

  lemma KeptTwice(d: seq<Sector>, d': seq<Sector>, d'': seq<Sector>, name: seq<Byte>, size: nat, i: nat)
    requires Wellformed(d) && CreateStep(d, d', name, size) && RemoveStep(d', d'', name)
    requires i < 10 && Table(d)[i].inUse
    ensures FileKept(d, d'', i)
  {
    hide MapBits, Table, Consistent, NamesDistinct, SetAll, Chosen, IndexOf, Bitmaps.FirstClear, Bitmaps.CountClear,
      CreateStep, RemoveStep, SameSystem, DecodeHeader, FileBytes, Readable, Separated;
    CreateStepKeeps(d, d', name, size);
    RemoveStepKeeps(d', d'', name);
    AddedKeepsEntry(Table(d), name, Bitmaps.FirstClear(MapBits(d)), i);
    assert FileKept(d, d', i) && FileKept(d', d'', i);
  }

  lemma AddedKeepsEntry(table: seq<DirectoryEntry>, name: seq<Byte>, sector: Word, i: nat)
    requires TableShape(table) && CanAdd(table, name) && i < |table| && table[i].inUse
    ensures Added(table, name, sector)[i] == table[i]
  {
  }

  // ---------------------------------------------------------------- runs

  ghost predicate Step(d: seq<Sector>, d': seq<Sector>) {
    || (exists name, size :: CreateStep(d, d', name, size))
    || (exists name :: RemoveStep(d, d', name))
    || (exists i :: WriteStep(d, d', i))
  }

  lemma StepKeeps(d: seq<Sector>, d': seq<Sector>)
    requires Wellformed(d) && Step(d, d')
    ensures Wellformed(d')
  {
    hide CreateStep, RemoveStep, Wellformed;
    if name, size :| CreateStep(d, d', name, size) {
      CreateStepKeeps(d, d', name, size);
    } else if name :| RemoveStep(d, d', name) {
      RemoveStepKeeps(d, d', name);
    } else {
      var i :| WriteStep(d, d', i);
      WriteStepKeeps(d, d', i);
    }
  }

  lemma WriteStepKeeps(d: seq<Sector>, d': seq<Sector>, i: nat)
    requires Wellformed(d) && WriteStep(d, d', i)
    ensures Wellformed(d')
  {
    hide MapBits, Table, Consistent, NamesDistinct;
    ListedWritten(d, d', i);
  }

  // A disk just formatted: the system files fill sectors 0 to 4, and the
  // directory is empty.
  ghost predicate Formatted(d: seq<Sector>) {
    && SystemFiles(d)
    && MapHeader(d).dataSectors[0] == 2 && DirHeader(d).dataSectors[0] == 3 && DirHeader(d).dataSectors[1] == 4
    && (forall s :: 0 <= s < 1024 ==> MapBits(d)[s] == (s < 5))
    && forall i :: 0 <= i < 10 ==> !Table(d)[i].inUse
  }

  lemma FormattedBlock(d: seq<Sector>, i: int, b: int)
    requires Formatted(d)
    ensures IsBlock(View(d), i, b) <==> (i == 0 && 0 <= b <= 1) || (i == 1 && 0 <= b <= 2)
    ensures IsBlock(View(d), i, b) ==>
              Block(View(d), i, b) == if b == 0 then i else if i == 0 then 2 else if b == 1 then 3 else 4
  {
    hide DecodeHeader, MapBits, Table;
  }

  lemma FormattedWellformed(d: seq<Sector>)
    requires Formatted(d)
    ensures Wellformed(d)
  {
    hide DecodeHeader, MapBits, Table, Readable, Separated;
    var fs := View(d);
    forall i, b
      ensures IsBlock(fs, i, b) <==> (i == 0 && 0 <= b <= 1) || (i == 1 && 0 <= b <= 2)
      ensures IsBlock(fs, i, b) ==>
                Block(fs, i, b) == if b == 0 then i else if i == 0 then 2 else if b == 1 then 3 else 4
    {
      FormattedBlock(d, i, b);
    }
    FormattedGood(d);
    assert Owns(fs, 0, 0, 0) && Owns(fs, 1, 1, 0) && Owns(fs, 2, 0, 1) && Owns(fs, 3, 1, 1) && Owns(fs, 4, 1, 2);
  }

  lemma FormattedGood(d: seq<Sector>)
    requires Formatted(d)
    ensures HeadersGood(View(d))
  {
  }

  // In every state of every run of creating, removing and writing files from
  // a fresh format, every sector is accounted for.
  lemma {:induction false} RunsWellformed(run: seq<seq<Sector>>)
    requires run != [] && Formatted(run[0])
    requires forall k :: 0 <= k < |run| - 1 ==> Step(run[k], run[k + 1])
    ensures Wellformed(run[|run| - 1])
  {
    hide Formatted, Step, Wellformed;
    if |run| == 1 {
      FormattedWellformed(run[0]);
    } else {
      RunsWellformed(run[..|run| - 1]);
      StepKeeps(run[|run| - 2], run[|run| - 1]);
    }
  }

  // On a fresh disk Create overruns its header for every size from 3841 bytes
  // up to what the disk has room for.
  lemma FreshOverruns(d: seq<Sector>, name: seq<Byte>, size: nat)
    requires Formatted(d)
    ensures Overruns(d, name, size) <==> 3840 < size <= 1018 * 128
  {
    hide MapBits, Table, SystemFiles, Bitmaps.CountClear, Bitmaps.FirstClear;
    assert MapBits(d) == FirstTaken(5);
    FirstTakenClear(5);
    EmptyCanAdd(d, name);
  }

  lemma EmptyCanAdd(d: seq<Sector>, name: seq<Byte>)
    requires Formatted(d)
    ensures CanAdd(Table(d), name)
  {
    hide MapBits, SystemFiles;
  }

  // -------------------------------------------------------- the operations

  // Allocating the data after the header's sector was found.
  lemma AllocatedPlace(bits: seq<bool>, h: Header, size: nat)
    requires GoodHeader(h) && h.numBytes == size && Bitmaps.CountClear(bits) >= 1 + SectorsFor(size)
    requires var s := Bitmaps.FirstClear(bits);
             && s < |bits| && Bitmaps.CountClear(bits[s := true]) >= SectorsFor(size)
             && h.dataSectors[..SectorsFor(size)] == Chosen(bits[s := true], SectorsFor(size))
    ensures PlacedFirst(bits, h, size)
    ensures var s := Bitmaps.FirstClear(bits);
            && (forall i :: 0 <= i < |SectorsOf(s, h)| ==> SectorsOf(s, h)[i] < |bits|)
            && SetAll(bits, SectorsOf(s, h), true) ==
                 SetAll(bits[s := true], Chosen(bits[s := true], SectorsFor(size)), true)
  {
    hide Bitmaps.FirstClear, Bitmaps.CountClear, Chosen, SetAll;
    var s := Bitmaps.FirstClear(bits);
    ChosenUnfold(bits, 1 + SectorsFor(size));
    assert SectorsOf(s, h) == [s] + h.dataSectors[..SectorsFor(size)];
    SetAllFirst(bits, s, Chosen(bits[s := true], SectorsFor(size)), true);
  }

  lemma AllocatedPlaces(bits: seq<bool>, h: Header, size: HostInt)
    requires Bitmaps.CountClear(bits) >= 1 + Wanted(size) && HeaderShape(h)
    requires size >= 0 ==> GoodHeader(h) && h.numBytes == size
    requires var s := Bitmaps.FirstClear(bits);
             && s < |bits| && Bitmaps.CountClear(bits[s := true]) >= Wanted(size) && Wanted(size) <= 30
             && h.dataSectors[..Wanted(size)] == Chosen(bits[s := true], Wanted(size))
    ensures var s := Bitmaps.FirstClear(bits);
            var after := SetAll(bits[s := true], Chosen(bits[s := true], Wanted(size)), true);
            && (size < 0 ==> after == bits[s := true])
            && (size >= 0 ==>
                  && PlacedFirst(bits, h, size)
                  && (forall i :: 0 <= i < |SectorsOf(s, h)| ==> SectorsOf(s, h)[i] < |bits|)
                  && SetAll(bits, SectorsOf(s, h), true) == after)
  {
    hide Bitmaps.FirstClear, Bitmaps.CountClear, Chosen, SetAll, GoodHeader, PlacedFirst, SectorsOf;
    if size >= 0 {
      AllocatedPlace(bits, h, size);
    } else {
      NoneChosen(bits[Bitmaps.FirstClear(bits) := true]);
    }
  }

  lemma ClearLeft(bits: seq<bool>)
    ensures Bitmaps.FirstClear(bits) < |bits| <==> Bitmaps.CountClear(bits) >= 1
    ensures Bitmaps.FirstClear(bits) < |bits| ==>
              Bitmaps.CountClear(bits[Bitmaps.FirstClear(bits) := true]) == Bitmaps.CountClear(bits) - 1
  {
    hide Bitmaps.FirstClear, Bitmaps.CountClear;
    var s := Bitmaps.FirstClear(bits);
    if s < |bits| {
      Bitmaps.CountAfterSet(bits, s, true);
    }
  }

  // The first k sectors are taken.
  function FirstTaken(k: nat): (bits: seq<bool>)
    ensures |bits| == 1024
  {
    seq(1024, i => i < k)
  }

  function Consecutive(k: nat, n: nat): (s: seq<nat>)
    ensures |s| == n && forall i :: 0 <= i < n ==> s[i] == k + i
  {
    seq(n, i => k + i)
  }

  lemma {:induction false} FirstTakenClear(k: nat)
    requires k <= 1024
    ensures Bitmaps.CountClear(FirstTaken(k)) == 1024 - k
    ensures k < 1024 ==> Bitmaps.FirstClear(FirstTaken(k)) == k && FirstTaken(k)[k := true] == FirstTaken(k + 1)
    decreases 1024 - k
  {
    hide Bitmaps.CountClear, Bitmaps.FirstClear;
    if k < 1024 {
      assert FirstTaken(k)[k := true] == FirstTaken(k + 1);
      FirstTakenClear(k + 1);
      Bitmaps.CountAfterSet(FirstTaken(k), k, true);
    }
  }

  // The next n sectors are chosen.
  lemma {:induction false} NextTaken(k: nat, n: nat)
    requires k + n <= 1024
    ensures n <= Bitmaps.CountClear(FirstTaken(k))
    ensures Chosen(FirstTaken(k), n) == Consecutive(k, n)
    ensures SetAll(FirstTaken(k), Chosen(FirstTaken(k), n), true) == FirstTaken(k + n)
    decreases n
  {
    hide Bitmaps.CountClear, Bitmaps.FirstClear, SetAll, Chosen, FirstTaken;
    FirstTakenClear(k);
    if n == 0 {
      NoneChosen(FirstTaken(k));
    } else {
      NextTaken(k + 1, n - 1);
      ChosenUnfold(FirstTaken(k), n);
      SetAllFirst(FirstTaken(k), k, Chosen(FirstTaken(k + 1), n - 1), true);
    }
  }

  // The header of a file in consecutive sectors.
  predicate FirstHeader(h: Header, size: nat, first: nat) {
    && GoodHeader(h) && h.numBytes == size
    && forall i :: 0 <= i < h.numSectors ==> h.dataSectors[i] == first + i
  }

  lemma PlacedFrom(h: Header, first: nat)
    requires GoodHeader(h) && h.dataSectors[..SectorsFor(h.numBytes)] == Consecutive(first, SectorsFor(h.numBytes))
    ensures FirstHeader(h, h.numBytes, first)
  {
  }

  lemma HeadersRoundTrip(h0: Header, h1: Header)
    requires FirstHeader(h0, 128, 2) && FirstHeader(h1, 200, 3)
    ensures HeaderShape(h0) && DecodeHeader(EncodeHeader(h0)) == h0
    ensures HeaderShape(h1) && DecodeHeader(EncodeHeader(h1)) == h1
  {
    HeaderRoundTrip(h0);
    HeaderRoundTrip(h1);
  }

  lemma HeadersInPlace(d: seq<Sector>, h0: Header, h1: Header)
    requires FirstHeader(h0, 128, 2) && FirstHeader(h1, 200, 3)
    requires |d| == 1024 && DecodeHeader(d[0]) == h0 && DecodeHeader(d[1]) == h1
    ensures SystemFiles(d) && SystemApart(d)
    ensures MapHeader(d).dataSectors[0] == 2 && DirHeader(d).dataSectors[0] == 3 && DirHeader(d).dataSectors[1] == 4
  {
  }

  // A file in the sectors right after those taken; there is room.
  method AllocateNext(freeMap: Bitmaps.Bitmap, ghost taken: nat, size: nat) returns (hdr: FileHeader)
    requires freeMap.Valid() && freeMap.numBits == 1024 && size <= 3840 && taken + 30 <= 1024
    requires freeMap.bits == FirstTaken(taken)
    modifies freeMap`bits, freeMap.words
    ensures freeMap.Valid() && freeMap.bits == FirstTaken(taken + SectorsFor(size))
    ensures fresh(hdr) && fresh(hdr.dataSectors) && hdr.Valid() && FirstHeader(hdr.Value(), size, taken)
  {
    hide Chosen, SetAll, GoodHeader, Bitmaps.CountClear, Bitmaps.FirstClear, Bitmaps.BitAt, SectorsFor, FirstTaken;
    NextTaken(taken, SectorsFor(size));
    hdr := new FileHeader();
    var success, overrun := hdr.Allocate(freeMap, size);
    assert success;                 // the source's ASSERT
    PlacedFrom(hdr.Value(), taken);
  }

  // The map with the system files' sectors, and their headers on disk.
  method FormatHeaders(d: SynchDisk) returns (freeMap: Bitmaps.Bitmap)
    requires d.sectors.Length == 1024
    modifies d.sectors
    ensures fresh(freeMap) && fresh(freeMap.words) && freeMap.Valid() && freeMap.numBits == 1024
    ensures freeMap.bits == FirstTaken(5)
    ensures SystemFiles(d.sectors[..]) && SystemApart(d.sectors[..])
    ensures MapHeader(d.sectors[..]).dataSectors[0] == 2
    ensures DirHeader(d.sectors[..]).dataSectors[0] == 3 && DirHeader(d.sectors[..]).dataSectors[1] == 4
  {
    hide DecodeHeader, EncodeHeader, GoodHeader, Bitmaps.BitAt, SystemFiles, SystemApart, FirstHeader;
    freeMap := new Bitmaps.Bitmap(1024);
    freeMap.Mark(0);
    freeMap.Mark(1);
    assert freeMap.bits == FirstTaken(2);
    var mapHdr := AllocateNext(freeMap, 2, 128);
    var dirHdr := AllocateNext(freeMap, 3, 200);
    HeadersRoundTrip(mapHdr.Value(), dirHdr.Value());
    mapHdr.WriteBack(d, 0);
    dirHdr.WriteBack(d, 1);
    HeadersInPlace(d.sectors[..], mapHdr.Value(), dirHdr.Value());
  }

  lemma FormattedNow(d0: seq<Sector>, d1: seq<Sector>, d: seq<Sector>, table: seq<DirectoryEntry>)
    requires SameSystem(d0, d1) && SameSystem(d1, d)
    requires MapHeader(d0).dataSectors[0] == 2 && DirHeader(d0).dataSectors[0] == 3 && DirHeader(d0).dataSectors[1] == 4
    requires MapBits(d1) == FirstTaken(5) && MapBits(d) == MapBits(d1)
    requires Table(d) == table && forall i :: 0 <= i < |table| ==> !table[i].inUse
    ensures Formatted(d)
  {
  }

  class FileSystem {
    const disk: SynchDisk
    const freeMapFile: OpenFile
    const directoryFile: OpenFile

    // The two system files are open.
    ghost predicate Opened()
      reads this, disk, disk.sectors, freeMapFile, directoryFile
    {
      && disk.sectors.Length == 1024
      && freeMapFile.disk == disk && directoryFile.disk == disk
      && SystemFiles(disk.sectors[..])
      && freeMapFile.hdr == MapHeader(disk.sectors[..])
      && directoryFile.hdr == DirHeader(disk.sectors[..])
    }

    ghost predicate Valid()
      reads this, disk, disk.sectors, freeMapFile, directoryFile
    {
      Opened() && Wellformed(disk.sectors[..])
    }

    // On a disk that holds a file system already.
    constructor (d: SynchDisk)
      requires d.sectors.Length == 1024 && Wellformed(d.sectors[..])
      ensures Valid() && disk == d
    {
      disk := d;
      freeMapFile := new OpenFile(d, 0);
      directoryFile := new OpenFile(d, 1);
    }

    // Formats the disk; both allocations succeed.
    constructor Format(d: SynchDisk)
      requires d.sectors.Length == 1024
      modifies d.sectors
      ensures Valid() && disk == d && Formatted(d.sectors[..])
    {
      hide DecodeHeader, EncodeHeader, EncodeBits, EncodeTable, Chosen, SetAll, Consistent, NamesDistinct, Table,
        MapBits, FileBytes, HasSector, Bitmaps.BitAt, Bitmaps.CountClear, GoodHeader, Formatted, SystemApart, Readable,
        Separated;
      var directory := new Directory(10);
      var freeMap := FormatHeaders(d);
      ghost var d0 := d.sectors[..];
      var mapFile := new OpenFile(d, 0);
      var dirFile := new OpenFile(d, 1);
      StoreMap(freeMap, mapFile);
      ghost var d1 := d.sectors[..];
      MapWritten(d0, d1, freeMap.bits);
      directory.WriteBack(dirFile);
      TableWritten(d1, d.sectors[..], directory.table[..]);
      FormattedNow(d0, d1, d.sectors[..], directory.table[..]);
      FormattedWellformed(d.sectors[..]);
      disk, freeMapFile, directoryFile := d, mapFile, dirFile;
    }

    method FetchTable() returns (directory: Directory)
      requires Opened()
      ensures fresh(directory) && fresh(directory.table) && directory.table.Length == 10 && directory.Valid()
      ensures directory.table[..] == Table(disk.sectors[..])
    {
      hide DecodeTable, FileBytes;
      directory := new Directory(10);
      directory.FetchFrom(directoryFile);
    }

    // Up to the write past the header's array, if it comes to that.
    // It succeeds for negative sizes too, and then the disk is not well formed.
    method Create(name: seq<Byte>, initialSize: HostInt) returns (success: bool, overrun: bool)
      requires Valid()
      modifies disk.sectors
      ensures Opened()
      ensures Valid() <==> !success || initialSize >= 0
      ensures success == CanCreate(old(disk.sectors[..]), name, AtLeastZero(initialSize))
      ensures overrun == Overruns(old(disk.sectors[..]), name, AtLeastZero(initialSize))
      ensures success && initialSize >= 0 ==> CreateStep(old(disk.sectors[..]), disk.sectors[..], name, initialSize)
      ensures success && initialSize < 0 ==> NegativeStep(old(disk.sectors[..]), disk.sectors[..], name, initialSize)
      ensures !success ==> disk.sectors[..] == old(disk.sectors[..])
    {
      hide DecodeHeader, DecodeBits, Wellformed, Table, MapBits, Chosen, SetAll, CreateStep, Added, NamesDistinct,
        Bitmaps.FirstClear, Bitmaps.CountClear, Readable, Separated, FirstUnused, IndexOf, SectorsOf, SectorsFor,
        PlacedFirst, HasSector, FileBytes, GoodHeader, NegativeHeader, NegativeStep, SameName, PadTo, Bitmaps.BitAt,
        EntryShape;
      ghost var d0 := disk.sectors[..];
      var directory := FetchTable();
      var found := directory.Find(name);
      if found != -1 {
        return false, false;
      }
      var freeMap := FetchMapFile();
      ClearLeft(freeMap.bits);
      var sector := freeMap.FindAndSet();
      if sector == -1 {
        return false, false;
      }
      var added := directory.Add(name, sector);
      if !added {
        return false, false;
      }
      success, overrun := AllocateAndFlush(directory, freeMap, sector, name, initialSize);
    }

    // The rest of Create, with the name in the directory and a sector for the
    // header.
    method AllocateAndFlush(directory: Directory, freeMap: Bitmaps.Bitmap, sector: nat, ghost name: seq<Byte>,
                            initialSize: HostInt) returns (success: bool, overrun: bool)
      requires Valid() && directory.Valid() && freeMap.Valid()
      requires disk.sectors as object != directory.table && disk.sectors as object != freeMap.words
      requires directory.table as object != freeMap.words && directory.table.Length == 10 && freeMap.numBits == 1024
      requires CanAdd(Table(disk.sectors[..]), name) && sector == Bitmaps.FirstClear(MapBits(disk.sectors[..])) < 1024
      requires directory.table[..] == Added(Table(disk.sectors[..]), name, sector)
      requires freeMap.bits == MapBits(disk.sectors[..])[sector := true]
      modifies disk.sectors, freeMap`bits, freeMap.words
      ensures Opened()
      ensures Valid() <==> !success || initialSize >= 0
      ensures success == CanCreate(old(disk.sectors[..]), name, AtLeastZero(initialSize))
      ensures overrun == Overruns(old(disk.sectors[..]), name, AtLeastZero(initialSize))
      ensures success && initialSize >= 0 ==> CreateStep(old(disk.sectors[..]), disk.sectors[..], name, initialSize)
      ensures success && initialSize < 0 ==> NegativeStep(old(disk.sectors[..]), disk.sectors[..], name, initialSize)
      ensures !success ==> disk.sectors[..] == old(disk.sectors[..])
    {
      hide DecodeHeader, DecodeBits, Wellformed, Table, MapBits, Chosen, SetAll, CreateStep, Added, CanAdd,
        NamesDistinct, Bitmaps.FirstClear, Bitmaps.CountClear, Readable, Separated, SectorsOf, PlacedFirst, HasSector,
        FileBytes, GoodHeader, NegativeHeader, NegativeStep, Bitmaps.BitAt, EntryShape;
      ghost var d0 := disk.sectors[..];
      ClearLeft(MapBits(d0));
      var hdr := new FileHeader();
      success, overrun := hdr.Allocate(freeMap, initialSize);
      if success {
        AllocatedPlaces(MapBits(d0), hdr.Value(), initialSize);
        if initialSize >= 0 {
          Flush(hdr, sector, directory, freeMap, name, initialSize);
        } else {
          FlushNegative(hdr, sector, directory, freeMap, name, initialSize);
        }
      }
    }

    method FetchMapFile() returns (freeMap: Bitmaps.Bitmap)
      requires Opened()
      ensures fresh(freeMap) && fresh(freeMap.words) && freeMap.Valid() && freeMap.numBits == 1024
      ensures freeMap.bits == MapBits(disk.sectors[..])
    {
      hide DecodeBits, FileBytes;
      freeMap := FetchMap(freeMapFile);
    }

    method Remove(name: seq<Byte>) returns (success: bool)
      requires Valid()
      modifies disk.sectors
      ensures Valid()
      ensures success == (IndexOf(old(Table(disk.sectors[..])), name) < 10)
      ensures success ==> RemoveStep(old(disk.sectors[..]), disk.sectors[..], name)
      ensures !success ==> disk.sectors[..] == old(disk.sectors[..])
    {
      hide DecodeHeader, DecodeBits, Consistent, Table, MapBits, SetAll, RemoveStep, Dropped, NamesDistinct, Slots,
        Readable, Separated, FirstUnused, IndexOf, SectorsOf, SectorsFor, HasSector, FileBytes, SameName, PadTo,
        Bitmaps.BitAt;
      ghost var d0 := disk.sectors[..];
      var directory := FetchTable();
      var found := directory.Find(name);
      if found == -1 {
        return false;
      }
      var sector: nat := found;
      ghost var i := IndexOf(Table(d0), name);
      ListedSectors(d0, i);
      var fileHdr := new FileHeader();
      fileHdr.FetchFrom(disk, sector);
      var freeMap := FetchMapFile();
      fileHdr.Deallocate(freeMap);
      freeMap.Clear(sector);
      ErasedSectors(MapBits(d0), sector, fileHdr.Value());
      var removed := directory.Remove(name);
      FlushRemoved(directory, freeMap, name);
      return true;
    }

    method FlushRemoved(directory: Directory, freeMap: Bitmaps.Bitmap, ghost name: seq<Byte>)
      requires Valid() && directory.Valid() && freeMap.Valid()
      requires disk.sectors as object != directory.table && disk.sectors as object != freeMap.words
      requires directory.table.Length == 10 && freeMap.numBits == 1024
      requires IndexOf(Table(disk.sectors[..]), name) < 10
      requires var e := Table(disk.sectors[..])[IndexOf(Table(disk.sectors[..]), name)];
               && e.sector < 1024 && GoodHeader(DecodeHeader(disk.sectors[e.sector]))
               && (forall b :: 0 <= b < |SectorsOf(e.sector, DecodeHeader(disk.sectors[e.sector]))| ==>
                     SectorsOf(e.sector, DecodeHeader(disk.sectors[e.sector]))[b] < 1024)
               && freeMap.bits == SetAll(MapBits(disk.sectors[..]),
                                         SectorsOf(e.sector, DecodeHeader(disk.sectors[e.sector])), false)
      requires directory.table[..] == Dropped(Table(disk.sectors[..]), name)
      modifies disk.sectors
      ensures Valid() && RemoveStep(old(disk.sectors[..]), disk.sectors[..], name)
    {
      hide DecodeHeader, EncodeHeader, EncodeTable, EncodeBits, Consistent, Table, MapBits, SetAll, Dropped,
        NamesDistinct, FirstUnused, IndexOf, SectorsOf, SectorsFor, HasSector, FileBytes, RemoveStep,
        Readable, Separated, SystemApart, Apart, GoodHeader, Bitmaps.BitAt;
      ghost var d0 := disk.sectors[..];
      WellformedApart(d0);
      StoreMap(freeMap, freeMapFile);
      ghost var d1 := disk.sectors[..];
      MapWritten(d0, d1, freeMap.bits);
      directory.WriteBack(directoryFile);
      assert RemoveWrites(d0, d1, disk.sectors[..], name);
      RemovedStep(d0, d1, disk.sectors[..], name);
      RemoveStepKeeps(d0, disk.sectors[..], name);
    }

    // The file of that name, or null.
    method Open(name: seq<Byte>) returns (file: OpenFile?)
      requires Valid()
      ensures file == null <==> IndexOf(Table(disk.sectors[..]), name) == 10
      ensures file != null ==>
                var i := IndexOf(Table(disk.sectors[..]), name);
                && Table(disk.sectors[..])[i].inUse && Table(disk.sectors[..])[i].sector < 1024
                && fresh(file) && file.disk == disk && file.Valid() && file.seekPosition == 0
                && file.hdr == HeaderOf(disk.sectors[..], i)
    {
      hide DecodeHeader, DecodeTable, Consistent, Table, MapBits, NamesDistinct, Readable, Separated, IndexOf,
        FileBytes, SameName;
      var directory := FetchTable();
      var sector := directory.Find(name);
      file := null;
      if sector >= 0 {
        ListedReadable(disk.sectors[..], IndexOf(Table(disk.sectors[..]), name));
        file := new OpenFile(disk, sector);
      }
    }

    // The same three writes for a file of negative size.
    method FlushNegative(hdr: FileHeader, sector: nat, directory: Directory, freeMap: Bitmaps.Bitmap,
                         ghost name: seq<Byte>, ghost size: HostInt)
      requires Valid() && hdr.Valid() && directory.Valid() && freeMap.Valid()
      requires disk.sectors as object != hdr.dataSectors && disk.sectors as object != directory.table
      requires disk.sectors as object != freeMap.words && directory.table.Length == 10 && freeMap.numBits == 1024
      requires CanAdd(Table(disk.sectors[..]), name) && size < 0 && NegativeHeader(hdr.Value(), size)
      requires sector == Bitmaps.FirstClear(MapBits(disk.sectors[..])) < 1024
      requires directory.table[..] == Added(Table(disk.sectors[..]), name, sector)
      requires freeMap.bits == MapBits(disk.sectors[..])[sector := true]
      modifies disk.sectors
      ensures Opened() && !Valid() && NegativeStep(old(disk.sectors[..]), disk.sectors[..], name, size)
    {
      hide DecodeHeader, EncodeHeader, EncodeTable, EncodeBits, Consistent, Table, MapBits, Added, NamesDistinct,
        Bitmaps.FirstClear, FirstUnused, IndexOf, HasSector, FileBytes, CanAdd, Readable, Separated, SystemApart,
        Apart, NegativeHeader, Bitmaps.BitAt;
      ghost var d0, h := disk.sectors[..], hdr.Value();
      WellformedApart(d0);
      FreeIsApart(d0, sector);
      hdr.WriteBack(disk, sector);
      ghost var d1 := disk.sectors[..];
      SectorWritten(d0, sector, EncodeHeader(h));
      SystemOf(d0, d1);
      directory.WriteBack(directoryFile);
      ghost var d2 := disk.sectors[..];
      TableWritten(d1, d2, Added(Table(d0), name, sector));
      SystemOf(d1, d2);
      StoreMap(freeMap, freeMapFile);
      ghost var d3 := disk.sectors[..];
      MapWritten(d2, d3, MapBits(d0)[sector := true]);
      SystemOf(d2, d3);
      NegativeWritten(d0, d1, d2, d3, name, sector, h, size);
    }

    // Everything worked: the changes go to disk.
    method Flush(hdr: FileHeader, sector: nat, directory: Directory, freeMap: Bitmaps.Bitmap,
                 ghost name: seq<Byte>, ghost size: nat)
      requires Valid() && hdr.Valid() && directory.Valid() && freeMap.Valid()
      requires disk.sectors as object != hdr.dataSectors && disk.sectors as object != directory.table
      requires disk.sectors as object != freeMap.words && directory.table.Length == 10 && freeMap.numBits == 1024
      requires CanAdd(Table(disk.sectors[..]), name) && PlacedFirst(MapBits(disk.sectors[..]), hdr.Value(), size)
      requires sector == Bitmaps.FirstClear(MapBits(disk.sectors[..])) < 1024
      requires directory.table[..] == Added(Table(disk.sectors[..]), name, sector)
      requires (forall i :: 0 <= i < |SectorsOf(sector, hdr.Value())| ==> SectorsOf(sector, hdr.Value())[i] < 1024)
      requires freeMap.bits == SetAll(MapBits(disk.sectors[..]), SectorsOf(sector, hdr.Value()), true)
      modifies disk.sectors
      ensures Valid() && CreateStep(old(disk.sectors[..]), disk.sectors[..], name, size)
    {
      hide DecodeHeader, EncodeHeader, EncodeTable, EncodeBits, Consistent, Table, MapBits, Chosen, SetAll, CreateStep,
        Added, NamesDistinct, Bitmaps.FirstClear, Bitmaps.CountClear, FirstUnused, IndexOf, SectorsOf, SectorsFor,
        HasSector, FileBytes, CanAdd, Readable, Separated, SystemApart, Apart, GoodHeader, FreeSectors, Bitmaps.BitAt,
        PlacedFirst;
      ghost var d0, h := disk.sectors[..], hdr.Value();
      PlacedFree(MapBits(d0), h, size);
      NewSectorApart(d0, sector, h);
      hdr.WriteBack(disk, sector);
      ghost var d1 := disk.sectors[..];
      SectorWritten(d0, sector, EncodeHeader(h));
      directory.WriteBack(directoryFile);
      ghost var d2 := disk.sectors[..];
      TableWritten(d1, d2, Added(Table(d0), name, sector));
      StoreMap(freeMap, freeMapFile);
      FlushedStep(d0, d1, d2, disk.sectors[..], name, size, h);
      CreateStepKeeps(d0, disk.sectors[..], name, size);
    }
  }

  lemma NegativeWritten(d0: seq<Sector>, d1: seq<Sector>, d2: seq<Sector>, d3: seq<Sector>,
                        name: seq<Byte>, sector: nat, h: Header, size: HostInt)
    requires Wellformed(d0) && CanAdd(Table(d0), name) && sector == Bitmaps.FirstClear(MapBits(d0)) < 1024
    requires NegativeHeader(h, size) && size < 0
    requires Apart(d0, sector) && d1 == d0[sector := EncodeHeader(h)]
    requires SameSystem(d0, d1) && SameSystem(d1, d2) && SameSystem(d2, d3)
    requires forall s :: Apart(d1, s) ==> d2[s] == d1[s]
    requires forall s :: Apart(d2, s) ==> d3[s] == d2[s]
    requires Table(d3) == Added(Table(d0), name, sector) && MapBits(d3) == MapBits(d0)[sector := true]
    ensures NegativeStep(d0, d3, name, size) && !Wellformed(d3)
  {
    hide DecodeHeader, EncodeHeader, Consistent, Table, MapBits, Added, NamesDistinct, Bitmaps.FirstClear, CanAdd,
      Readable, Separated, SystemFiles, SystemApart, Apart, NegativeHeader, SameSystem;
    SameSystemTrans(d0, d1, d2);
    SameSystemTrans(d0, d2, d3);
    SystemOf(d0, d1);
    SystemOf(d0, d2);
    SystemOf(d0, d3);
    SameApart(d0, d1);
    NegativeShape(h, size);
    ClearHere(MapBits(d0));
    assert PutHeader(d0, d3, sector, h, size);
    NegativeBreaks(d0, d3, name, sector, h, size);
  }

  lemma SameApart(d0: seq<Sector>, d1: seq<Sector>)
    requires SameSystem(d0, d1)
    ensures |d0| == |d1| == 1024 && forall s :: Apart(d0, s) <==> Apart(d1, s)
    ensures forall s :: Apart(d0, s) ==> 0 <= s < 1024
  {
    hide HasSector;
  }

  lemma ClearHere(bits: seq<bool>)
    ensures Bitmaps.FirstClear(bits) < |bits| ==> !bits[Bitmaps.FirstClear(bits)]
  {
  }

  // The slot of the new file has no good header.
  lemma NegativeBreaks(d: seq<Sector>, d': seq<Sector>, name: seq<Byte>, sector: nat, h: Header, size: HostInt)
    requires Wellformed(d) && SameSystem(d, d') && CanAdd(Table(d), name) && sector < 1024 && !MapBits(d)[sector]
    requires Table(d') == Added(Table(d), name, sector) && PutHeader(d, d', sector, h, size) && size < 0
    ensures !Wellformed(d')
  {
    hide DecodeHeader, EncodeHeader, BlocksMarked, MarksOwned, BlocksDistinct, Table, MapBits, Added, NamesDistinct,
      CanAdd, Readable, Separated, Apart, Slots, FirstUnused;
    SystemOf(d, d');
    NegativeShape(h, size);
    CreateSlots(d, d', name, sector, h);
    CanAddIndex(Table(d), name);
    var u := FirstUnused(Table(d));
    assert Slots(d')[u + 2] == Used(sector, h);
  }

  lemma NegativeShape(h: Header, size: HostInt)
    requires NegativeHeader(h, size) && size < 0
    ensures HeaderShape(h) && !GoodHeader(h)
  {
    hide Quotient;
  }

  lemma NewSectorApart(d: seq<Sector>, sector: nat, h: Header)
    requires Wellformed(d) && GoodHeader(h) && FreeSectors(MapBits(d), SectorsOf(sector, h)) && sector < 1024
    ensures Apart(d, sector) && SystemApart(d)
  {
    hide MapBits, SectorsOf, Table, Consistent, NamesDistinct, DecodeHeader, Readable, Separated;
    WellformedApart(d);
    FirstIsFree(MapBits(d), sector, h);
    FreeIsApart(d, sector);
  }

  lemma FlushedStep(d0: seq<Sector>, d1: seq<Sector>, d2: seq<Sector>, d3: seq<Sector>, name: seq<Byte>, size: nat,
                    h: Header)
    requires SystemFiles(d0) && CanAdd(Table(d0), name) && PlacedFirst(MapBits(d0), h, size)
    requires var sector := Bitmaps.FirstClear(MapBits(d0));
             && sector < 1024 && FreeSectors(MapBits(d0), SectorsOf(sector, h))
             && CreateWrites(d0, d1, d2, d3, name, sector, h)
    ensures CreateStep(d0, d3, name, size)
  {
    hide CreateWrites, MapBits, Table, SystemFiles, CanAdd, Bitmaps.FirstClear, Bitmaps.CountClear, FreeSectors,
      SectorsOf, GoodHeader, Chosen;
    GoodFits(h);
    assert CreateBy(d0, d1, d2, d3, name, size, h);
  }

  lemma GoodFits(h: Header)
    requires GoodHeader(h)
    ensures SectorsFor(h.numBytes) <= 30
  {
  }

  lemma RemovedStep(d0: seq<Sector>, d1: seq<Sector>, d2: seq<Sector>, name: seq<Byte>)
    requires SystemFiles(d0) && IndexOf(Table(d0), name) < 10 && RemoveWrites(d0, d1, d2, name)
    ensures RemoveStep(d0, d2, name)
  {
    hide RemoveWrites, Table, SystemFiles, IndexOf;
  }

  // What Deallocate asserts holds for every listed file.
  lemma ListedSectors(d: seq<Sector>, i: nat)
    requires Wellformed(d) && i < 10 && Table(d)[i].inUse
    ensures var h := HeaderOf(d, i);
            && GoodHeader(h)
            && (forall b :: 0 <= b < h.numSectors ==> h.dataSectors[b] < 1024 && MapBits(d)[h.dataSectors[b]])
            && (forall b, c :: 0 <= b < c < h.numSectors ==> h.dataSectors[b] != h.dataSectors[c])
            && (forall b :: 0 <= b < |SectorsOf(Table(d)[i].sector, h)| ==> SectorsOf(Table(d)[i].sector, h)[b] < 1024)
  {
    hide MapBits, Consistent, NamesDistinct, DecodeHeader, Table, Readable;
    ListedGood(d, i);
    ListedReadable(d, i);
    var h := HeaderOf(d, i);
    forall b | 0 <= b < h.numSectors
      ensures h.dataSectors[b] < 1024 && MapBits(d)[h.dataSectors[b]]
    {
      ListedBlock(d, i, b);
    }
  }

  // Clearing the data sectors, then the header's.
  lemma ErasedSectors(bits: seq<bool>, sector: nat, h: Header)
    requires GoodHeader(h) && forall b :: 0 <= b < |SectorsOf(sector, h)| ==> SectorsOf(sector, h)[b] < |bits|
    ensures sector < |bits| && forall b :: 0 <= b < h.numSectors ==> h.dataSectors[..h.numSectors][b] < |bits|
    ensures SetAll(bits, h.dataSectors[..h.numSectors], false)[sector := false] ==
              SetAll(bits, SectorsOf(sector, h), false)
  {
    hide SetAll;
    var ss := SectorsOf(sector, h);
    assert ss == [sector] + h.dataSectors[..h.numSectors];
    forall b | 0 <= b < h.numSectors
      ensures h.dataSectors[..h.numSectors][b] < |bits|
    {
      assert ss[b + 1] < |bits|;
    }
    assert ss[0] < |bits|;
  }
}
