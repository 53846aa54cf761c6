// The bytes of a disk read as a file system: the two system files, the free
// map and the directory they hold, and the files the directory lists.
module Volume {
  import opened Words
  import opened Layout
  import opened Files
  import opened Ownership
  import opened Directory

  function MapHeader(disk: seq<Sector>): Header
    requires |disk| == 1024
  {
    DecodeHeader(disk[0])
  }

  function DirHeader(disk: seq<Sector>): Header
    requires |disk| == 1024
  {
    DecodeHeader(disk[1])
  }

  // The free map file has one bit a sector, the directory file ten entries.
  ghost predicate SystemFiles(disk: seq<Sector>) {
    && |disk| == 1024
    && Readable(disk, MapHeader(disk)) && Separated(MapHeader(disk)) && MapHeader(disk).numBytes == 128
    && Readable(disk, DirHeader(disk)) && Separated(DirHeader(disk)) && DirHeader(disk).numBytes == 200
  }

  ghost function MapBits(disk: seq<Sector>): (bits: seq<bool>)
    requires SystemFiles(disk)
    ensures |bits| == 1024
  {
    DecodeBits(FileBytes(disk, MapHeader(disk)))
  }

  ghost function Table(disk: seq<Sector>): (table: seq<DirectoryEntry>)
    requires SystemFiles(disk)
    ensures |table| == 10 && TableShape(table)
  {
    DecodeTable(FileBytes(disk, DirHeader(disk)))
  }

  function SlotOf(disk: seq<Sector>, e: DirectoryEntry): Slot {
    if e.inUse && e.sector < |disk| then Used(e.sector, DecodeHeader(disk[e.sector])) else Free
  }

  ghost function Slots(disk: seq<Sector>): (slots: seq<Slot>)
    requires SystemFiles(disk)
    ensures |slots| == 12
  {
    [Used(0, MapHeader(disk)), Used(1, DirHeader(disk))]
    + seq(10, i requires 0 <= i < 10 => SlotOf(disk, Table(disk)[i]))
  }

  ghost function View(disk: seq<Sector>): Fs
    requires SystemFiles(disk)
  {
    Fs(MapBits(disk), Slots(disk))
  }

  ghost predicate Wellformed(disk: seq<Sector>) {
    && SystemFiles(disk)
    && (forall i :: 0 <= i < 10 && Table(disk)[i].inUse ==> Table(disk)[i].sector < 1024)
    && NamesDistinct(Table(disk))
    && Consistent(View(disk))
  }

  // Sector s is no part of the system files.
  ghost predicate Apart(disk: seq<Sector>, s: int)
    requires |disk| == 1024
  {
    2 <= s < 1024 && !HasSector(MapHeader(disk), s) && !HasSector(DirHeader(disk), s)
  }

  // The system files do not overlap.
  ghost predicate SystemApart(disk: seq<Sector>)
    requires |disk| == 1024
  {
    && !HasSector(MapHeader(disk), 0) && !HasSector(MapHeader(disk), 1)
    && !HasSector(DirHeader(disk), 0) && !HasSector(DirHeader(disk), 1)
    && forall s :: HasSector(MapHeader(disk), s) ==> !HasSector(DirHeader(disk), s)
  }

  // A sector of a system file's data is a block of its slot.
  lemma SystemBlock(disk: seq<Sector>, k: nat, s: int)
    requires SystemFiles(disk) && k < 2
    requires HasSector(if k == 0 then MapHeader(disk) else DirHeader(disk), s)
    ensures exists b :: b > 0 && Owns(View(disk), s, k, b)
  {
    hide MapBits, Table, DecodeHeader;
    var h := if k == 0 then MapHeader(disk) else DirHeader(disk);
    var i :| 0 <= i < h.numSectors <= 30 && h.dataSectors[i] == s;
    assert Owns(View(disk), s, k, i + 1);
  }

  lemma HeaderBlock(disk: seq<Sector>, k: nat)
    requires SystemFiles(disk) && k < 2
    ensures Owns(View(disk), k, k, 0)
  {
  }

  lemma WellformedApart(disk: seq<Sector>)
    requires Wellformed(disk)
    ensures SystemApart(disk)
  {
    hide MapBits, Slots, HeadersGood, BlocksMarked, MarksOwned, DecodeHeader;
    HeaderBlock(disk, 0);
    HeaderBlock(disk, 1);
    forall s | HasSector(MapHeader(disk), s)
      ensures s != 0 && s != 1 && !HasSector(DirHeader(disk), s)
    {
      SystemBlock(disk, 0, s);
      if HasSector(DirHeader(disk), s) {
        SystemBlock(disk, 1, s);
      }
    }
    forall s | HasSector(DirHeader(disk), s)
      ensures s != 0 && s != 1
    {
      SystemBlock(disk, 1, s);
    }
  }

  // A free sector is apart from the system files and from every header.
  lemma FreeIsApart(disk: seq<Sector>, s: nat)
    requires Wellformed(disk) && s < 1024 && !MapBits(disk)[s]
    ensures Apart(disk, s)
    ensures forall i :: 0 <= i < 10 && Table(disk)[i].inUse ==> Table(disk)[i].sector != s
  {
    hide MapBits, HeadersGood, BlocksDistinct, MarksOwned, DecodeHeader;
    HeaderBlock(disk, 0);
    HeaderBlock(disk, 1);
    if HasSector(MapHeader(disk), s) {
      SystemBlock(disk, 0, s);
    }
    if HasSector(DirHeader(disk), s) {
      SystemBlock(disk, 1, s);
    }
    forall i | 0 <= i < 10 && Table(disk)[i].inUse
      ensures Table(disk)[i].sector != s
    {
      EntryBlock(disk, i);
    }
  }

  lemma EntryBlock(disk: seq<Sector>, i: nat)
    requires Wellformed(disk) && i < 10 && Table(disk)[i].inUse
    ensures Owns(View(disk), Table(disk)[i].sector, i + 2, 0)
    ensures Slots(disk)[i + 2] == Used(Table(disk)[i].sector, DecodeHeader(disk[Table(disk)[i].sector]))
  {
  }

  // The header of a listed file is apart from the system files.
  lemma EntryIsApart(disk: seq<Sector>, i: nat)
    requires Wellformed(disk) && i < 10 && Table(disk)[i].inUse
    ensures Apart(disk, Table(disk)[i].sector)
  {
    hide MapBits, HeadersGood, BlocksMarked, MarksOwned, DecodeHeader, Slots;
    var s := Table(disk)[i].sector;
    EntryBlock(disk, i);
    HeaderBlock(disk, 0);
    HeaderBlock(disk, 1);
    if HasSector(MapHeader(disk), s) {
      SystemBlock(disk, 0, s);
    }
    if HasSector(DirHeader(disk), s) {
      SystemBlock(disk, 1, s);
    }
  }

  // ------------------------------------------------- the three writes

  // Both disks have the same system files, with the same contents.
  ghost predicate SameSystem(disk: seq<Sector>, disk': seq<Sector>) {
    && SystemFiles(disk) && SystemApart(disk)
    && SystemFiles(disk') && SystemApart(disk')
    && MapHeader(disk') == MapHeader(disk) && DirHeader(disk') == DirHeader(disk)
  }

  // A sector apart from the system files is written.
  lemma SectorWritten(disk: seq<Sector>, s: nat, data: Sector)
    requires SystemFiles(disk) && SystemApart(disk) && Apart(disk, s)
    ensures SameSystem(disk, disk[s := data])
    ensures MapBits(disk[s := data]) == MapBits(disk) && Table(disk[s := data]) == Table(disk)
  {
    hide DecodeHeader, DecodeBits, DecodeTable, FileBytes, HasSector;
    OtherFilesKeep(disk, disk[s := data], MapHeader(disk));
    OtherFilesKeep(disk, disk[s := data], DirHeader(disk));
  }

  // The file with header h now holds these bytes, and nothing else changed.
  ghost predicate Stored(disk: seq<Sector>, disk': seq<Sector>, h: Header, bytes: seq<Byte>) {
    && |disk'| == |disk| && Readable(disk', h) && FileBytes(disk', h) == bytes
    && forall s :: 0 <= s < |disk| && !HasSector(h, s) ==> disk'[s] == disk[s]
  }

  // The directory file is written.
  lemma TableWritten(disk: seq<Sector>, disk': seq<Sector>, table: seq<DirectoryEntry>)
    requires SystemFiles(disk) && SystemApart(disk) && |table| == 10 && TableShape(table)
    requires Stored(disk, disk', DirHeader(disk), EncodeTable(table))
    ensures SameSystem(disk, disk')
    ensures MapBits(disk') == MapBits(disk) && Table(disk') == table
    ensures forall s :: Apart(disk, s) ==> disk'[s] == disk[s]
  {
    hide DecodeHeader, DecodeBits, DecodeTable, EncodeTable, FileBytes, HasSector;
    OtherFilesKeep(disk, disk', MapHeader(disk));
    TableRoundTrip(table);
  }

  // The free map file is written.
  lemma MapWritten(disk: seq<Sector>, disk': seq<Sector>, bits: seq<bool>)
    requires SystemFiles(disk) && SystemApart(disk) && |bits| == 1024
    requires Stored(disk, disk', MapHeader(disk), EncodeBits(bits))
    ensures SameSystem(disk, disk')
    ensures MapBits(disk') == bits && Table(disk') == Table(disk)
    ensures forall s :: Apart(disk, s) ==> disk'[s] == disk[s]
  {
    hide DecodeHeader, DecodeBits, EncodeBits, DecodeTable, FileBytes, HasSector;
    OtherFilesKeep(disk, disk', DirHeader(disk));
    BitsRoundTrip(bits);
  }

  lemma SameSystemTrans(disk0: seq<Sector>, disk1: seq<Sector>, disk2: seq<Sector>)
    requires SameSystem(disk0, disk1) && SameSystem(disk1, disk2)
    ensures SameSystem(disk0, disk2)
    ensures forall s :: Apart(disk0, s) <==> Apart(disk2, s)
  {
  }

  // ------------------------------------------------------ creating a file

  ghost function MarkedMap(disk: seq<Sector>, sector: nat, h: Header): (bits: seq<bool>)
    requires SystemFiles(disk) && GoodHeader(h) && FreeSectors(MapBits(disk), SectorsOf(sector, h))
    ensures |bits| == 1024 && |bits| % 8 == 0
  {
    SetAll(MapBits(disk), SectorsOf(sector, h), true)
  }

  // What Create writes, in its order: the header, the directory, the map.
  ghost predicate CreateWrites(d0: seq<Sector>, d1: seq<Sector>, d2: seq<Sector>, d3: seq<Sector>,
                               name: seq<Byte>, sector: nat, h: Header)
    requires SystemFiles(d0) && CanAdd(Table(d0), name) && sector < 1024
    requires GoodHeader(h) && FreeSectors(MapBits(d0), SectorsOf(sector, h))
  {
    && d1 == d0[sector := EncodeHeader(h)]
    && Stored(d1, d2, DirHeader(d0), EncodeTable(Added(Table(d0), name, sector)))
    && Stored(d2, d3, MapHeader(d0), EncodeBits(MarkedMap(d0, sector, h)))
  }

  // The three writes change the map, the directory and one sector, and of
  // the sectors apart from the system files only that one.
  lemma CreateParts(d0: seq<Sector>, d1: seq<Sector>, d2: seq<Sector>, d3: seq<Sector>,
                    name: seq<Byte>, sector: nat, h: Header)
    requires Wellformed(d0) && CanAdd(Table(d0), name) && sector < 1024
    requires GoodHeader(h) && FreeSectors(MapBits(d0), SectorsOf(sector, h))
    requires CreateWrites(d0, d1, d2, d3, name, sector, h)
    ensures SameSystem(d0, d3)
    ensures MapBits(d3) == SetAll(MapBits(d0), SectorsOf(sector, h), true)
    ensures Table(d3) == Added(Table(d0), name, sector)
    ensures Apart(d0, sector) && d3[sector] == EncodeHeader(h)
    ensures forall s :: Apart(d0, s) && s != sector ==> d3[s] == d0[s]
  {
    hide DecodeHeader, DecodeBits, EncodeBits, DecodeTable, EncodeTable, EncodeHeader, FileBytes, HasSector, Readable,
      Separated, Consistent, SetAll, Added, NamesDistinct, MapBits, Table;
    WellformedApart(d0);
    assert SectorsOf(sector, h)[0] == sector;
    assert !MapBits(d0)[sector] by { FirstIsFree(MapBits(d0), sector, h); }
    FreeIsApart(d0, sector);
    SectorWritten(d0, sector, EncodeHeader(h));
    TableWritten(d1, d2, Added(Table(d0), name, sector));
    SameSystemTrans(d0, d1, d2);
    MapWritten(d2, d3, MarkedMap(d0, sector, h));
    SameSystemTrans(d0, d2, d3);
    SameSystemTrans(d0, d0, d1);
  }

  lemma FirstIsFree(bits: seq<bool>, sector: nat, h: Header)
    requires GoodHeader(h) && FreeSectors(bits, SectorsOf(sector, h))
    ensures sector < |bits| && !bits[sector]
  {
    assert SectorsOf(sector, h)[0] == sector;
  }

  lemma CreateSlot(d0: seq<Sector>, d3: seq<Sector>, name: seq<Byte>, sector: nat, h: Header, j: nat)
    requires Wellformed(d0) && SystemFiles(d3) && CanAdd(Table(d0), name) && sector < 1024 && HeaderShape(h) && j < 10
    requires Table(d3) == Added(Table(d0), name, sector)
    requires !MapBits(d0)[sector] && d3[sector] == EncodeHeader(h)
    requires forall s :: Apart(d0, s) && s != sector ==> d3[s] == d0[s]
    ensures Slots(d3)[j + 2] == if j == FirstUnused(Table(d0)) then Used(sector, h) else Slots(d0)[j + 2]
    ensures FirstUnused(Table(d0)) == j ==> Slots(d0)[j + 2] == Free
    ensures Table(d3)[j].inUse ==> Table(d3)[j].sector < 1024
  {
    hide DecodeHeader, EncodeHeader, HasSector, Consistent, NamesDistinct, MapBits, Apart, PadTo, IndexOf, SameName;
    HeaderRoundTrip(h);
    if Table(d0)[j].inUse {
      EntryIsApart(d0, j);
      FreeIsApart(d0, sector);
    }
  }

  lemma CreateSlots(d0: seq<Sector>, d3: seq<Sector>, name: seq<Byte>, sector: nat, h: Header)
    requires Wellformed(d0) && SameSystem(d0, d3) && CanAdd(Table(d0), name) && sector < 1024 && HeaderShape(h)
    requires Table(d3) == Added(Table(d0), name, sector)
    requires !MapBits(d0)[sector] && d3[sector] == EncodeHeader(h)
    requires forall s :: Apart(d0, s) && s != sector ==> d3[s] == d0[s]
    ensures var u := FirstUnused(Table(d0));
            Slots(d0)[u + 2] == Free && Slots(d3) == Slots(d0)[u + 2 := Used(sector, h)]
    ensures forall i :: 0 <= i < 10 && Table(d3)[i].inUse ==> Table(d3)[i].sector < 1024
  {
    hide DecodeHeader, EncodeHeader, Apart, Consistent, NamesDistinct, Added, MapBits, Table, Slots, CanAdd,
      FirstUnused, IndexOf;
    var u := FirstUnused(Table(d0));
    CanAddIndex(Table(d0), name);
    SystemSlots(d0, d3);
    CreateSlot(d0, d3, name, sector, h, u);
    forall i | 2 <= i < 12
      ensures Slots(d3)[i] == if i == u + 2 then Used(sector, h) else Slots(d0)[i]
    {
      CreateSlot(d0, d3, name, sector, h, i - 2);
    }
    forall i | 0 <= i < 10 && Table(d3)[i].inUse
      ensures Table(d3)[i].sector < 1024
    {
      CreateSlot(d0, d3, name, sector, h, i);
    }
  }

  lemma CanAddIndex(table: seq<DirectoryEntry>, name: seq<Byte>)
    requires CanAdd(table, name)
    ensures FirstUnused(table) < |table|
  {
  }

  lemma GoodShape(h: Header)
    requires GoodHeader(h)
    ensures HeaderShape(h)
  {
  }

  // Create on the bytes of the disk is Created on the ownership.
  lemma CreateView(d0: seq<Sector>, d1: seq<Sector>, d2: seq<Sector>, d3: seq<Sector>,
                   name: seq<Byte>, sector: nat, h: Header)
    requires Wellformed(d0) && CanAdd(Table(d0), name) && sector < 1024
    requires GoodHeader(h) && FreeSectors(MapBits(d0), SectorsOf(sector, h))
    requires CreateWrites(d0, d1, d2, d3, name, sector, h)
    ensures Wellformed(d3) && SameSystem(d0, d3)
    ensures Table(d3) == Added(Table(d0), name, sector)
    ensures View(d3) == Created(View(d0), FirstUnused(Table(d0)) + 2, sector, h)
  {
    hide CreateWrites, EncodeHeader, SameSystem, SystemFiles, Apart, SetAll, Consistent, NamesDistinct, Added, CanAdd,
      MapBits, Table, FreeSectors, Slots, SectorsOf, GoodHeader;
    CreateParts(d0, d1, d2, d3, name, sector, h);
    SystemOf(d0, d3);
    CanAddIndex(Table(d0), name);
    GoodShape(h);
    FirstIsFree(MapBits(d0), sector, h);
    CreateSlots(d0, d3, name, sector, h);
    AddedFinds(Table(d0), name, sector, name);
    CreateKeeps(View(d0), FirstUnused(Table(d0)) + 2, sector, h);
  }

  lemma SystemOf(d0: seq<Sector>, d: seq<Sector>)
    requires SameSystem(d0, d)
    ensures SystemFiles(d) && |d| == 1024
  {
  }

  lemma SystemSlots(d0: seq<Sector>, d3: seq<Sector>)
    requires SameSystem(d0, d3)
    ensures Slots(d3)[0] == Slots(d0)[0] && Slots(d3)[1] == Slots(d0)[1]
  {
  }

  // ------------------------------------------------------ removing a file

  // What Remove writes, in its order: the map, then the directory.
  ghost predicate RemoveWrites(d0: seq<Sector>, d1: seq<Sector>, d2: seq<Sector>, name: seq<Byte>)
    requires SystemFiles(d0) && IndexOf(Table(d0), name) < 10
  {
    var sector := Table(d0)[IndexOf(Table(d0), name)].sector;
    && sector < 1024 && GoodHeader(DecodeHeader(d0[sector]))
    && (forall b :: 0 <= b < |SectorsOf(sector, DecodeHeader(d0[sector]))| ==>
          SectorsOf(sector, DecodeHeader(d0[sector]))[b] < 1024)
    && Stored(d0, d1, MapHeader(d0),
              EncodeBits(SetAll(MapBits(d0), SectorsOf(sector, DecodeHeader(d0[sector])), false)))
    && Stored(d1, d2, DirHeader(d0), EncodeTable(Dropped(Table(d0), name)))
  }

  lemma RemoveParts(d0: seq<Sector>, d1: seq<Sector>, d2: seq<Sector>, name: seq<Byte>)
    requires Wellformed(d0) && IndexOf(Table(d0), name) < 10 && RemoveWrites(d0, d1, d2, name)
    ensures SameSystem(d0, d2)
    ensures View(d0).slots[IndexOf(Table(d0), name) + 2].Used?
    ensures MapBits(d2) == Removed(View(d0), IndexOf(Table(d0), name) + 2).bits
    ensures Table(d2) == Dropped(Table(d0), name)
    ensures forall s :: Apart(d0, s) ==> d2[s] == d0[s]
  {
    hide DecodeHeader, DecodeBits, EncodeBits, DecodeTable, EncodeTable, FileBytes, HasSector, Readable, Separated,
      Consistent, SetAll, Dropped, NamesDistinct, MapBits, Table, Slots, SectorsOf, GoodHeader;
    WellformedApart(d0);
    EntryBlock(d0, IndexOf(Table(d0), name));
    MapWritten(d0, d1, Removed(View(d0), IndexOf(Table(d0), name) + 2).bits);
    TableWritten(d1, d2, Dropped(Table(d0), name));
    SameSystemTrans(d0, d1, d2);
    SameSystemTrans(d0, d0, d1);
  }

  lemma RemoveSlot(d0: seq<Sector>, d2: seq<Sector>, name: seq<Byte>, j: nat)
    requires Wellformed(d0) && SystemFiles(d2) && IndexOf(Table(d0), name) < 10 && j < 10
    requires Table(d2) == Dropped(Table(d0), name)
    requires forall s :: Apart(d0, s) ==> d2[s] == d0[s]
    ensures Slots(d2)[j + 2] == if j == IndexOf(Table(d0), name) then Free else Slots(d0)[j + 2]
    ensures Table(d2)[j].inUse ==> Table(d2)[j].sector < 1024
  {
    hide DecodeHeader, HasSector, Consistent, MapBits, Apart, SameName, NamesDistinct, Table, Readable, Separated;
    if Table(d0)[j].inUse {
      EntryIsApart(d0, j);
    }
  }

  lemma RemoveSlots(d0: seq<Sector>, d2: seq<Sector>, name: seq<Byte>)
    requires Wellformed(d0) && SameSystem(d0, d2) && IndexOf(Table(d0), name) < 10
    requires Table(d2) == Dropped(Table(d0), name)
    requires forall s :: Apart(d0, s) ==> d2[s] == d0[s]
    ensures Slots(d2) == Slots(d0)[IndexOf(Table(d0), name) + 2 := Free]
    ensures forall i :: 0 <= i < 10 && Table(d2)[i].inUse ==> Table(d2)[i].sector < 1024
  {
    hide DecodeHeader, Apart, Consistent, NamesDistinct, Dropped, MapBits, Table, Slots;
    SystemSlots(d0, d2);
    forall i | 2 <= i < 12
      ensures Slots(d2)[i] == if i == IndexOf(Table(d0), name) + 2 then Free else Slots(d0)[i]
    {
      RemoveSlot(d0, d2, name, i - 2);
    }
    forall i | 0 <= i < 10 && Table(d2)[i].inUse
      ensures Table(d2)[i].sector < 1024
    {
      RemoveSlot(d0, d2, name, i);
    }
  }

  // Remove on the bytes of the disk is Removed on the ownership.
  lemma RemoveView(d0: seq<Sector>, d1: seq<Sector>, d2: seq<Sector>, name: seq<Byte>)
    requires Wellformed(d0) && IndexOf(Table(d0), name) < 10 && RemoveWrites(d0, d1, d2, name)
    ensures Wellformed(d2) && SameSystem(d0, d2)
    ensures Table(d2) == Dropped(Table(d0), name)
    ensures View(d0).slots[IndexOf(Table(d0), name) + 2].Used?
    ensures View(d2) == Removed(View(d0), IndexOf(Table(d0), name) + 2)
  {
    hide RemoveWrites, SameSystem, SystemFiles, Apart, SetAll, Consistent, NamesDistinct, Dropped, MapBits, Table,
      Slots;
    RemoveParts(d0, d1, d2, name);
    SystemOf(d0, d2);
    EntryBlock(d0, IndexOf(Table(d0), name));
    RemoveSlots(d0, d2, name);
    DroppedForgets(Table(d0), name, name);
    RemoveKeeps(View(d0), IndexOf(Table(d0), name) + 2);
  }

  // ------------------------------------------------------ the listed files

  ghost function HeaderOf(disk: seq<Sector>, i: nat): Header
    requires SystemFiles(disk) && i < 10 && Table(disk)[i].sector < 1024
  {
    DecodeHeader(disk[Table(disk)[i].sector])
  }

  lemma ListedBlock(disk: seq<Sector>, i: nat, b: nat)
    requires Wellformed(disk) && i < 10 && Table(disk)[i].inUse && b < HeaderOf(disk, i).numSectors
    ensures GoodHeader(HeaderOf(disk, i))
    ensures Owns(View(disk), HeaderOf(disk, i).dataSectors[b], i + 2, b + 1)
    ensures HeaderOf(disk, i).dataSectors[b] < 1024 && MapBits(disk)[HeaderOf(disk, i).dataSectors[b]]
  {
    hide MapBits, BlocksDistinct, MarksOwned, DecodeHeader, Table, Slots;
    EntryBlock(disk, i);
    assert GoodHeader(View(disk).slots[i + 2].hdr);
    assert IsBlock(View(disk), i + 2, b + 1);
    assert Block(View(disk), i + 2, b + 1) == HeaderOf(disk, i).dataSectors[b];
  }

  lemma ListedGood(disk: seq<Sector>, i: nat)
    requires Wellformed(disk) && i < 10 && Table(disk)[i].inUse
    ensures GoodHeader(HeaderOf(disk, i))
  {
    hide MapBits, BlocksDistinct, MarksOwned, BlocksMarked, DecodeHeader, Table, Slots;
    EntryBlock(disk, i);
    assert GoodHeader(View(disk).slots[i + 2].hdr);
  }

  // A listed file can be read and written whole.
  lemma ListedReadable(disk: seq<Sector>, i: nat)
    requires Wellformed(disk) && i < 10 && Table(disk)[i].inUse
    ensures Readable(disk, HeaderOf(disk, i)) && Separated(HeaderOf(disk, i))
  {
    hide MapBits, BlocksMarked, MarksOwned, HeadersGood, DecodeHeader, Table, Slots;
    ListedGood(disk, i);
    var h := HeaderOf(disk, i);
    forall b | 0 <= b < h.numSectors
      ensures h.dataSectors[b] < 1024 && Owns(View(disk), h.dataSectors[b], i + 2, b + 1)
    {
      ListedBlock(disk, i, b);
    }
  }

  ghost predicate OwnsData(fs: Fs, s: int, i: int) { exists b :: b > 0 && Owns(fs, s, i, b) }

  // Sector s is a data block of the listed file number i.
  lemma ListedSector(disk: seq<Sector>, i: nat, s: int)
    requires Wellformed(disk) && i < 10 && Table(disk)[i].inUse && HasSector(HeaderOf(disk, i), s)
    ensures 0 <= s < 1024 && MapBits(disk)[s]
    ensures OwnsData(View(disk), s, i + 2)
  {
    hide MapBits, Consistent, DecodeHeader, Table, Slots, Owns;
    var h := HeaderOf(disk, i);
    var b :| 0 <= b < h.numSectors <= 30 && h.dataSectors[b] == s;
    ListedBlock(disk, i, b);
  }

  // Two owners of a sector are the same block.
  lemma OneOwner(fs: Fs, s: int, i: int, b: int, j: int, c: int)
    requires BlocksDistinct(fs) && Owns(fs, s, i, b) && Owns(fs, s, j, c)
    ensures i == j && b == c
  {
  }

  // The data of a listed file is apart from the system files, from every
  // header, and from the data of every other listed file.
  lemma ListedIsApart(disk: seq<Sector>, i: nat, s: int, j: nat)
    requires Wellformed(disk) && i < 10 && Table(disk)[i].inUse && HasSector(HeaderOf(disk, i), s)
    requires j < 10 && Table(disk)[j].inUse
    ensures Apart(disk, s) && s != Table(disk)[j].sector
    ensures i != j ==> !HasSector(HeaderOf(disk, j), s)
  {
    hide MapBits, HeadersGood, BlocksMarked, MarksOwned, BlocksDistinct, DecodeHeader, Slots, Table, HasSector, Owns;
    var fs := View(disk);
    ListedSector(disk, i, s);
    var b :| b > 0 && Owns(fs, s, i + 2, b);
    HeaderBlock(disk, 0);
    HeaderBlock(disk, 1);
    NotOwned(fs, s, i + 2, b, 0, 0);
    NotOwned(fs, s, i + 2, b, 1, 0);
    EntryBlock(disk, j);
    if s == Table(disk)[j].sector {
      OneOwner(fs, s, i + 2, b, j + 2, 0);
    }
    if HasSector(MapHeader(disk), s) {
      SystemBlock(disk, 0, s);
      var c :| c > 0 && Owns(fs, s, 0, c);
      OneOwner(fs, s, i + 2, b, 0, c);
    }
    if HasSector(DirHeader(disk), s) {
      SystemBlock(disk, 1, s);
      var c :| c > 0 && Owns(fs, s, 1, c);
      OneOwner(fs, s, i + 2, b, 1, c);
    }
    if i != j && HasSector(HeaderOf(disk, j), s) {
      ListedSector(disk, j, s);
      var c :| c > 0 && Owns(fs, s, j + 2, c);
      OneOwner(fs, s, i + 2, b, j + 2, c);
    }
  }

  lemma NotOwned(fs: Fs, s: int, i: int, b: int, j: int, c: int)
    requires BlocksDistinct(fs) && Owns(fs, s, i, b) && (i != j || b != c)
    ensures !Owns(fs, s, j, c)
  {
  }

  // The listed file number i of disk is there in disk', with its contents.
  ghost predicate FileKept(disk: seq<Sector>, disk': seq<Sector>, i: nat)
    requires SystemFiles(disk) && i < 10 && Table(disk)[i].sector < 1024
  {
    var h := HeaderOf(disk, i);
    && |disk'| == 1024 && disk'[Table(disk)[i].sector] == disk[Table(disk)[i].sector]
    && Readable(disk, h) && Readable(disk', h) && FileBytes(disk', h) == FileBytes(disk, h)
  }

  // Creating and removing files does not touch the files already listed.
  lemma ListedKept(disk: seq<Sector>, disk': seq<Sector>, i: nat)
    requires Wellformed(disk) && i < 10 && Table(disk)[i].inUse && |disk'| == 1024
    requires forall s :: Apart(disk, s) && MapBits(disk)[s] ==> disk'[s] == disk[s]
    ensures FileKept(disk, disk', i)
  {
    hide MapBits, Consistent, NamesDistinct, DecodeHeader, Table, HasSector, Readable, FileBytes, Apart;
    ListedReadable(disk, i);
    EntryIsApart(disk, i);
    EntryMarked(disk, i);
    forall s | 0 <= s < 1024 && HasSector(HeaderOf(disk, i), s)
      ensures disk'[s] == disk[s]
    {
      ListedIsApart(disk, i, s, i);
      ListedSector(disk, i, s);
    }
    OtherFilesKeep(disk, disk', HeaderOf(disk, i));
  }

  lemma EntryMarked(disk: seq<Sector>, i: nat)
    requires Wellformed(disk) && i < 10 && Table(disk)[i].inUse
    ensures Table(disk)[i].sector < 1024 && MapBits(disk)[Table(disk)[i].sector]
  {
    hide MapBits, BlocksDistinct, MarksOwned, HeadersGood, DecodeHeader, Table, Slots;
    EntryBlock(disk, i);
  }

  // Writing the data of a listed file changes no other part of the file
  // system: not the free map, not the directory, not any header, and not the
  // contents of the other files.
  lemma ListedWritten(disk: seq<Sector>, disk': seq<Sector>, i: nat)
    requires Wellformed(disk) && i < 10 && Table(disk)[i].inUse && |disk'| == 1024
    requires forall s :: 0 <= s < 1024 && !HasSector(HeaderOf(disk, i), s) ==> disk'[s] == disk[s]
    ensures Wellformed(disk') && View(disk') == View(disk) && Table(disk') == Table(disk)
    ensures forall j :: 0 <= j < 10 && j != i && Table(disk)[j].inUse ==> FileKept(disk, disk', j)
  {
    hide MapBits, Consistent, NamesDistinct, DecodeHeader, Table, HasSector, Readable, FileBytes, Slots, FileKept,
      Apart;
    WrittenSystem(disk, disk', i);
    WrittenSlots(disk, disk', i);
    forall j: nat | j < 10 && j != i && Table(disk)[j].inUse
      ensures FileKept(disk, disk', j)
    {
      WrittenOther(disk, disk', i, j);
    }
    WellformedSame(disk, disk');
  }

  lemma WellformedSame(disk: seq<Sector>, disk': seq<Sector>)
    requires Wellformed(disk) && SystemFiles(disk') && View(disk') == View(disk) && Table(disk') == Table(disk)
    ensures Wellformed(disk')
  {
  }

  lemma WrittenSystem(disk: seq<Sector>, disk': seq<Sector>, i: nat)
    requires Wellformed(disk) && i < 10 && Table(disk)[i].inUse && |disk'| == 1024
    requires forall s :: 0 <= s < 1024 && !HasSector(HeaderOf(disk, i), s) ==> disk'[s] == disk[s]
    ensures SameSystem(disk, disk') && MapBits(disk') == MapBits(disk) && Table(disk') == Table(disk)
  {
    hide Consistent, NamesDistinct, DecodeHeader, DecodeBits, DecodeTable, HasSector, Readable, FileBytes, Separated;
    WellformedApart(disk);
    forall s | 0 <= s < 1024 && HasSector(HeaderOf(disk, i), s)
      ensures Apart(disk, s)
    {
      ListedIsApart(disk, i, s, i);
    }
    OtherFilesKeep(disk, disk', MapHeader(disk));
    OtherFilesKeep(disk, disk', DirHeader(disk));
  }

  lemma WrittenSlots(disk: seq<Sector>, disk': seq<Sector>, i: nat)
    requires Wellformed(disk) && i < 10 && Table(disk)[i].inUse && SystemFiles(disk')
    requires forall s :: 0 <= s < 1024 && !HasSector(HeaderOf(disk, i), s) ==> disk'[s] == disk[s]
    requires SameSystem(disk, disk') && Table(disk') == Table(disk)
    ensures Slots(disk') == Slots(disk)
  {
    hide Consistent, NamesDistinct, DecodeHeader, Table, HasSector, SystemFiles, SystemApart, Slots;
    SystemSlots(disk, disk');
    forall j | 2 <= j < 12
      ensures Slots(disk')[j] == Slots(disk)[j]
    {
      WrittenSlot(disk, disk', i, j - 2);
    }
  }

  lemma WrittenSlot(disk: seq<Sector>, disk': seq<Sector>, i: nat, j: nat)
    requires Wellformed(disk) && i < 10 && Table(disk)[i].inUse && SystemFiles(disk') && j < 10
    requires forall s :: 0 <= s < 1024 && !HasSector(HeaderOf(disk, i), s) ==> disk'[s] == disk[s]
    requires Table(disk') == Table(disk)
    ensures Slots(disk')[j + 2] == Slots(disk)[j + 2]
  {
    hide Consistent, NamesDistinct, DecodeHeader, Table, HasSector, Readable, Separated;
    var e := Table(disk)[j];
    if e.inUse && HasSector(HeaderOf(disk, i), e.sector) {
      ListedIsApart(disk, i, e.sector, j);
    }
    assert e.inUse ==> disk'[e.sector] == disk[e.sector];
    assert SlotOf(disk', e) == SlotOf(disk, e);
  }

  lemma WrittenOther(disk: seq<Sector>, disk': seq<Sector>, i: nat, j: nat)
    requires Wellformed(disk) && i < 10 && Table(disk)[i].inUse && |disk'| == 1024
    requires forall s :: 0 <= s < 1024 && !HasSector(HeaderOf(disk, i), s) ==> disk'[s] == disk[s]
    requires j < 10 && j != i && Table(disk)[j].inUse
    ensures FileKept(disk, disk', j)
  {
    hide MapBits, Consistent, NamesDistinct, DecodeHeader, Table, HasSector, Readable, FileBytes, Apart;
    ListedReadable(disk, j);
    if HasSector(HeaderOf(disk, i), Table(disk)[j].sector) {
      ListedIsApart(disk, i, Table(disk)[j].sector, j);
    }
    forall s | 0 <= s < 1024 && HasSector(HeaderOf(disk, j), s)
      ensures disk'[s] == disk[s]
    {
      ListedIsApart(disk, j, s, i);
    }
    OtherFilesKeep(disk, disk', HeaderOf(disk, j));
  }
}
