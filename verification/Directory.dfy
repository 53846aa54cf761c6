// The directory: a fixed table of names and header sectors.
module Directory {
  import opened Words
  import opened Layout
  import opened Files

  // The first n characters of a C string, padded with zero bytes: what
  // strncpy stores.
  function PadTo(name: seq<Byte>, n: nat): (r: seq<Byte>)
    ensures |r| == n
    decreases n
  {
    if n == 0 then []
    else if name == [] || name[0] == 0 then seq(n, i => 0)
    else [name[0]] + PadTo(name[1..], n - 1)
  }

  // strncmp(a, b, 9) == 0
  predicate SameName(a: seq<Byte>, b: seq<Byte>) { PadTo(a, 9) == PadTo(b, 9) }

  lemma {:induction false} PadZeros(n: nat, m: nat, more: seq<Byte>)
    requires n <= m
    ensures PadTo(seq(m, i => 0) + more, n) == seq(n, i => 0)
  {
  }

  // A stored name compares as the name it was stored from.
  lemma {:induction false} StoredName(name: seq<Byte>, n: nat, more: seq<Byte>)
    ensures PadTo(PadTo(name, n) + more, n) == PadTo(name, n)
    decreases n
  {
    if n > 0 {
      if name == [] || name[0] == 0 {
        PadZeros(n, n, more);
      } else {
        StoredName(name[1..], n - 1, more);
        assert (PadTo(name, n) + more)[1..] == PadTo(name[1..], n - 1) + more;
      }
    }
  }

  predicate Matches(e: DirectoryEntry, name: seq<Byte>) { e.inUse && SameName(e.name, name) }

  // The first entry in use with this name, or the table's length.
  function IndexOf(table: seq<DirectoryEntry>, name: seq<Byte>): (i: nat)
    ensures i <= |table|
    ensures forall j :: 0 <= j < i ==> !Matches(table[j], name)
    ensures i < |table| ==> Matches(table[i], name)
  {
    if table == [] then 0
    else if Matches(table[0], name) then 0
    else 1 + IndexOf(table[1..], name)
  }

  function FirstUnused(table: seq<DirectoryEntry>): (i: nat)
    ensures i <= |table|
    ensures forall j :: 0 <= j < i ==> table[j].inUse
    ensures i < |table| ==> !table[i].inUse
  {
    if table == [] then 0
    else if !table[0].inUse then 0
    else 1 + FirstUnused(table[1..])
  }

  // No two entries in use have the same name.
  ghost predicate NamesDistinct(table: seq<DirectoryEntry>) {
    forall i, j {:trigger table[i], table[j]} :: 0 <= i < j < |table| && table[i].inUse && table[j].inUse ==>
      !SameName(table[i].name, table[j].name)
  }

  function NewEntry(name: seq<Byte>, sector: Word, before: DirectoryEntry): (e: DirectoryEntry)
    requires EntryShape(before)
    ensures EntryShape(e)
  {
    DirectoryEntry(true, sector, PadTo(name, 9) + before.name[9..])
  }

  predicate CanAdd(table: seq<DirectoryEntry>, name: seq<Byte>) {
    IndexOf(table, name) == |table| && FirstUnused(table) < |table|
  }

  function Added(table: seq<DirectoryEntry>, name: seq<Byte>, sector: Word): (t: seq<DirectoryEntry>)
    requires TableShape(table) && CanAdd(table, name)
    ensures TableShape(t) && |t| == |table|
  {
    var u := FirstUnused(table);
    table[u := NewEntry(name, sector, table[u])]
  }

  function Dropped(table: seq<DirectoryEntry>, name: seq<Byte>): (t: seq<DirectoryEntry>)
    requires TableShape(table)
    ensures TableShape(t) && |t| == |table|
  {
    var i := IndexOf(table, name);
    if i < |table| then table[i := table[i].(inUse := false)] else table
  }

  lemma NewEntryName(name: seq<Byte>, sector: Word, before: DirectoryEntry, other: seq<Byte>)
    requires EntryShape(before)
    ensures SameName(NewEntry(name, sector, before).name, other) == SameName(name, other)
  {
    StoredName(name, 9, before.name[9..]);
  }

  // After an Add the name is found at its sector, other names are found
  // where they were, and names stay distinct.
  lemma AddedFinds(table: seq<DirectoryEntry>, name: seq<Byte>, sector: Word, other: seq<Byte>)
    requires TableShape(table) && CanAdd(table, name) && NamesDistinct(table)
    ensures var t := Added(table, name, sector);
            && NamesDistinct(t)
            && IndexOf(t, name) == FirstUnused(table) && t[IndexOf(t, name)].sector == sector
            && (!SameName(name, other) ==>
                  IndexOf(t, other) == IndexOf(table, other) &&
                  (IndexOf(t, other) < |t| ==> t[IndexOf(t, other)] == table[IndexOf(t, other)]))
  {
    hide PadTo, SameName, NamesDistinct;
    var u, t := FirstUnused(table), Added(table, name, sector);
    forall i | 0 <= i < |t|
      ensures Matches(t[i], name) <==> i == u
      ensures !SameName(name, other) ==> (Matches(t[i], other) <==> Matches(table[i], other))
    {
      AddedMatches(table, name, sector, i, other);
    }
    AddedDistinct(table, name, sector);
  }

  lemma AddedDistinct(table: seq<DirectoryEntry>, name: seq<Byte>, sector: Word)
    requires TableShape(table) && CanAdd(table, name) && NamesDistinct(table)
    ensures NamesDistinct(Added(table, name, sector))
  {
    hide PadTo, SameName, TableShape, CanAdd, Added;
    var t := Added(table, name, sector);
    forall i, j | 0 <= i < j < |t| && t[i].inUse && t[j].inUse
      ensures !SameName(t[i].name, t[j].name)
    {
      AddedNames(table, name, sector, i, j);
    }
  }

  lemma AddedMatches(table: seq<DirectoryEntry>, name: seq<Byte>, sector: Word, i: nat, other: seq<Byte>)
    requires TableShape(table) && CanAdd(table, name) && i < |table|
    ensures var u, t := FirstUnused(table), Added(table, name, sector);
            && (Matches(t[i], name) <==> i == u)
            && (!SameName(name, other) ==> (Matches(t[i], other) <==> Matches(table[i], other)))
  {
    hide PadTo;
    var u := FirstUnused(table);
    NewEntryName(name, sector, table[u], name);
    NewEntryName(name, sector, table[u], other);
  }

  lemma AddedNames(table: seq<DirectoryEntry>, name: seq<Byte>, sector: Word, i: nat, j: nat)
    requires TableShape(table) && CanAdd(table, name) && NamesDistinct(table) && i < j < |table|
    requires Added(table, name, sector)[i].inUse && Added(table, name, sector)[j].inUse
    ensures !SameName(Added(table, name, sector)[i].name, Added(table, name, sector)[j].name)
  {
    hide PadTo;
    var u := FirstUnused(table);
    NewEntryName(name, sector, table[u], table[i].name);
    NewEntryName(name, sector, table[u], table[j].name);
    assert !Matches(table[i], name) && !Matches(table[j], name);
  }

  // After a Remove the name is gone and other names are found where they were.
  lemma DroppedForgets(table: seq<DirectoryEntry>, name: seq<Byte>, other: seq<Byte>)
    requires TableShape(table) && NamesDistinct(table)
    ensures var t := Dropped(table, name);
            && NamesDistinct(t)
            && IndexOf(t, name) == |t|
            && (!SameName(name, other) ==> IndexOf(t, other) == IndexOf(table, other))
  {
    hide PadTo;
    var k, t := IndexOf(table, name), Dropped(table, name);
    forall i | 0 <= i < |t|
      ensures !Matches(t[i], name)
      ensures !SameName(name, other) ==> (Matches(t[i], other) <==> Matches(table[i], other))
    {
    }
  }

  class Directory {
    const table: array<DirectoryEntry>

    ghost predicate Valid()
      reads table
    {
      TableShape(table[..])
    }

    constructor (size: nat)
      ensures Valid() && fresh(table) && table.Length == size
      ensures forall i :: 0 <= i < size ==> !table[i].inUse
    {
      table := new DirectoryEntry[size](i => DirectoryEntry(false, 0, seq(10, k => 0)));
    }

    method FetchFrom(file: OpenFile)
      requires file.Valid() && file.hdr.numBytes == 20 * table.Length
      modifies table
      ensures Valid() && table[..] == DecodeTable(file.Bytes())
    {
      hide DecodeEntry;
      var bytes := new Byte[20 * table.Length];
      var n, outside := file.ReadAt(bytes, 0, 20 * table.Length, 0);
      WholeSplice(n, file.hdr.numBytes);
      assert bytes[..] == file.Bytes();
      var all := DecodeTable(bytes[..]);
      forall i | 0 <= i < table.Length {
        table[i] := all[i];
      }
      assert table[..] == all;
    }

    method WriteBack(file: OpenFile)
      requires Valid() && file.Valid() && file.hdr.numBytes == 20 * table.Length > 0
      modifies file.disk.sectors
      ensures file.Valid() && file.Bytes() == EncodeTable(table[..])
      ensures forall s :: 0 <= s < file.disk.sectors.Length && !HasSector(file.hdr, s) ==>
                file.disk.sectors[s] == old(file.disk.sectors[s])
    {
      var n, outside := file.WriteAt(EncodeTable(table[..]), 20 * table.Length, 0);
    }

    method FindIndex(name: seq<Byte>) returns (index: int)
      ensures var i := IndexOf(table[..], name); index == if i < table.Length then i else -1
    {
      hide SameName;
      for i := 0 to table.Length
        invariant forall j :: 0 <= j < i ==> !Matches(table[j], name)
      {
        if table[i].inUse && SameName(table[i].name, name) {
          return i;
        }
      }
      return -1;
    }

    method Find(name: seq<Byte>) returns (sector: int)
      ensures var i := IndexOf(table[..], name); sector == if i < table.Length then table[i].sector else -1
    {
      var i := FindIndex(name);
      if i != -1 {
        return table[i].sector;
      }
      return -1;
    }

    method Add(name: seq<Byte>, newSector: Word) returns (success: bool)
      requires Valid()
      modifies table
      ensures Valid() && success == CanAdd(old(table[..]), name)
      ensures table[..] == if success then Added(old(table[..]), name, newSector) else old(table[..])
    {
      hide PadTo, SameName;
      var found := FindIndex(name);
      if found != -1 {
        return false;
      }
      for i := 0 to table.Length
        invariant table[..] == old(table[..])
        invariant forall j :: 0 <= j < i ==> table[j].inUse
      {
        if !table[i].inUse {
          table[i] := DirectoryEntry(true, newSector, PadTo(name, 9) + table[i].name[9..]);
          return true;
        }
      }
      return false;
    }

    method Remove(name: seq<Byte>) returns (success: bool)
      requires Valid()
      modifies table
      ensures Valid() && success == (IndexOf(old(table[..]), name) < table.Length)
      ensures table[..] == Dropped(old(table[..]), name)
    {
      hide PadTo, SameName;
      var i := FindIndex(name);
      if i == -1 {
        return false;
      }
      table[i] := table[i].(inUse := false);
      return true;
    }
  }

  lemma WholeSplice(n: nat, length: nat)
    requires n == Transferred(length, length, 0)
    ensures n == length
  {
  }
}
