// File names: which ones are the same, and what files of two names that are
// not have to do with each other.
module FileNames {
  import opened Words
  import opened Layout
  import opened Files
  import opened Ownership
  import opened Directory
  import opened Volume
  import opened FileSystem
  import Bitmaps

  // Character j of a C string; its end is a zero.
  function At(name: seq<Byte>, j: nat): Byte { if j < |name| then name[j] else 0 }

  // The string has not ended before position j.
  predicate Within(name: seq<Byte>, j: nat) { forall k: nat :: k < j ==> At(name, k) != 0 }

  lemma {:induction false} PadAt(name: seq<Byte>, n: nat, j: nat)
    requires j < n
    ensures PadTo(name, n)[j] == if Within(name, j) then At(name, j) else 0
    decreases n
  {
    if name == [] || name[0] == 0 {
      assert At(name, 0) == 0;
    } else {
      assert At(name, 0) != 0;
      forall k: nat
        ensures k > 0 ==> At(name, k) == At(name[1..], k - 1)
      {
      }
      if j > 0 {
        PadAt(name[1..], n - 1, j - 1);
        WithinRest(name, j);
      }
    }
  }

  lemma WithinRest(name: seq<Byte>, j: nat)
    requires name != [] && name[0] != 0 && j > 0
    ensures Within(name, j) <==> Within(name[1..], j - 1)
  {
    if Within(name, j) {
      forall k: nat | k < j - 1
        ensures At(name[1..], k) != 0
      {
        assert At(name, k + 1) != 0;
      }
    }
    if Within(name[1..], j - 1) {
      forall k: nat | k < j
        ensures At(name, k) != 0
      {
        assert k > 0 ==> At(name[1..], k - 1) != 0;
      }
    }
  }

  // No difference shows in nine characters, up to the end of the names.
  predicate Agree(a: seq<Byte>, b: seq<Byte>) { forall j: nat :: j < 9 && Within(a, j) ==> At(a, j) == At(b, j) }

  lemma {:induction false} AgreeWithin(a: seq<Byte>, b: seq<Byte>, j: nat)
    requires Agree(a, b) && j <= 9
    ensures Within(a, j) <==> Within(b, j)
  {
    if j > 0 {
      AgreeWithin(a, b, j - 1);
      WithinNext(a, j - 1);
      WithinNext(b, j - 1);
    }
  }

  lemma WithinNext(a: seq<Byte>, j: nat)
    ensures Within(a, j + 1) <==> Within(a, j) && At(a, j) != 0
  {
  }

  lemma {:induction false} SameWithin(a: seq<Byte>, b: seq<Byte>, j: nat)
    requires SameName(a, b) && j <= 9
    ensures Within(a, j) <==> Within(b, j)
  {
    hide SameName, At, PadTo;
    if j > 0 {
      SameWithin(a, b, j - 1);
      WithinNext(a, j - 1);
      WithinNext(b, j - 1);
      PaddedSame(a, b);
      PadAt(a, 9, j - 1);
      PadAt(b, 9, j - 1);
    }
  }

  lemma PaddedSame(a: seq<Byte>, b: seq<Byte>)
    ensures SameName(a, b) <==> PadTo(a, 9) == PadTo(b, 9)
  {
  }

  // Names are the same if and only if they agree character by character, up to
  // the end of one of them but no further than nine characters.
  lemma SameNameExact(a: seq<Byte>, b: seq<Byte>)
    ensures SameName(a, b) <==> Agree(a, b)
  {
    hide SameName, At, PadTo, Within;
    PaddedSame(a, b);
    if SameName(a, b) {
      forall j: nat | j < 9 && Within(a, j)
        ensures At(a, j) == At(b, j)
      {
        SameWithin(a, b, j);
        PadAt(a, 9, j);
        PadAt(b, 9, j);
      }
    }
    if Agree(a, b) {
      forall j | 0 <= j < 9
        ensures PadTo(a, 9)[j] == PadTo(b, 9)[j]
      {
        AgreeWithin(a, b, j);
        PadAt(a, 9, j);
        PadAt(b, 9, j);
      }
    }
  }

  // The entry made for a name holds its first nine characters, and zeros from
  // its end on; the tenth byte is what it was.
  lemma EntryExact(name: seq<Byte>, sector: Word, before: DirectoryEntry, j: nat)
    requires EntryShape(before) && j < 10
    ensures var e := NewEntry(name, sector, before);
            && e.inUse && e.sector == sector
            && e.name[j] == if j == 9 then before.name[9] else if Within(name, j) then At(name, j) else 0
  {
    hide PadTo, At, Within;
    if j < 9 {
      PadAt(name, 9, j);
    }
  }

  // ------------------------------------------------------------ two files

  // No file is listed under this name.
  ghost predicate NameIsNew(d: seq<Sector>, name: seq<Byte>)
    requires SystemFiles(d)
  {
    forall i :: 0 <= i < 10 && Table(d)[i].inUse ==> !Agree(Table(d)[i].name, name)
  }

  lemma NewNotFound(d: seq<Sector>, name: seq<Byte>)
    requires SystemFiles(d)
    ensures NameIsNew(d, name) <==> IndexOf(Table(d), name) == 10
  {
    hide SameName, Agree, Table;
    var table := Table(d);
    forall i | 0 <= i < 10
      ensures Matches(table[i], name) <==> table[i].inUse && Agree(table[i].name, name)
    {
      SameNameExact(table[i].name, name);
    }
  }

  ghost predicate TwoUnused(table: seq<DirectoryEntry>) {
    exists i, j :: 0 <= i < j < |table| && !table[i].inUse && !table[j].inUse
  }

  lemma StillUnused(table: seq<DirectoryEntry>, name: seq<Byte>, sector: Word)
    requires TableShape(table) && CanAdd(table, name)
    ensures FirstUnused(Added(table, name, sector)) < |table| <==> TwoUnused(table)
  {
    hide IndexOf, PadTo;
    var t, u := Added(table, name, sector), FirstUnused(table);
    if FirstUnused(t) < |t| {
      var j := FirstUnused(t);
      assert j != u && !table[j].inUse && !table[u].inUse && u < j;
    }
    if i, j :| 0 <= i < j < |table| && !table[i].inUse && !table[j].inUse {
      assert u <= i && !t[j].inUse;
    }
  }

  // n searches leave n fewer clear bits.
  lemma {:induction false} ChosenCount(bits: seq<bool>, n: nat)
    requires n <= Bitmaps.CountClear(bits)
    ensures Bitmaps.CountClear(SetAll(bits, Chosen(bits, n), true)) == Bitmaps.CountClear(bits) - n
    decreases n
  {
    hide Bitmaps.FirstClear, Bitmaps.CountClear, Chosen, SetAll;
    if n == 0 {
      NoneChosen(bits);
    } else {
      var s := Bitmaps.FirstClear(bits);
      ChosenUnfold(bits, n);
      ChosenCount(bits[s := true], n - 1);
      SetAllFirst(bits, s, Chosen(bits[s := true], n - 1), true);
    }
  }

  // After a file was created another one can be if and only if the two names
  // differ, no file of that name was there, two entries of the directory were
  // unused, and there was room for both.
  lemma SecondCreateIff(d: seq<Sector>, d': seq<Sector>, a: seq<Byte>, n: nat, b: seq<Byte>, m: nat)
    requires Wellformed(d) && CreateStep(d, d', a, n)
    ensures SystemFiles(d')
    ensures CanCreate(d', b, m) <==>
              && !Agree(a, b) && NameIsNew(d, b) && TwoUnused(Table(d))
              && Bitmaps.CountClear(MapBits(d)) >= 1 + SectorsFor(n) + 1 + SectorsFor(m) && SectorsFor(m) <= 30
  {
    hide CreateStep, MapBits, Table, Consistent, SameSystem, NamesDistinct, SetAll, Chosen, IndexOf, Bitmaps.FirstClear,
      Bitmaps.CountClear, FileKept, FirstUnused, SameName, Agree, TwoUnused, NameIsNew, Added, SectorsFor, SystemFiles;
    CreateStepKeeps(d, d', a, n);
    SystemOf(d, d');
    ChosenCount(MapBits(d), 1 + SectorsFor(n));
    var sector := Bitmaps.FirstClear(MapBits(d));
    SameNameExact(a, b);
    NewNotFound(d, b);
    StillUnused(Table(d), a, sector);
    AddedFinds(Table(d), a, sector, b);
    if Agree(a, b) {
      AddedFinds(Table(d), a, sector, a);
      FoundUnder(Table(d'), a, b);
    }
  }

  // A file found under one name is found under any that is the same.
  lemma FoundUnder(table: seq<DirectoryEntry>, a: seq<Byte>, b: seq<Byte>)
    requires SameName(a, b)
    ensures IndexOf(table, a) == IndexOf(table, b)
  {
    hide PadTo;
    forall i | 0 <= i < |table|
      ensures Matches(table[i], a) <==> Matches(table[i], b)
    {
      PaddedSame(a, b);
      PaddedSame(table[i].name, a);
      PaddedSame(table[i].name, b);
    }
  }

  // On a fresh disk two files of different names, each of a size that a header
  // can describe, can be created one after the other.
  lemma FreshTakesTwo(d: seq<Sector>, d': seq<Sector>, a: seq<Byte>, n: nat, b: seq<Byte>, m: nat)
    requires Formatted(d) && !Agree(a, b) && n <= 3840 && m <= 3840
    ensures SystemFiles(d) && CanCreate(d, a, n)
    ensures CreateStep(d, d', a, n) ==> SystemFiles(d') && CanCreate(d', b, m)
  {
    hide MapBits, Table, SystemFiles, Bitmaps.CountClear, Bitmaps.FirstClear, CreateStep, Agree, Wellformed;
    assert MapBits(d) == FirstTaken(5);
    FirstTakenClear(5);
    EmptyCanAdd(d, a);
    FormattedWellformed(d);
    if CreateStep(d, d', a, n) {
      assert 0 < 1 < |Table(d)| && !Table(d)[0].inUse && !Table(d)[1].inUse;
      SecondCreateIff(d, d', a, n, b, m);
    }
  }

  // Of two files created one after the other each is found under its own name,
  // with its own size, in its own sectors, and the second does not touch the
  // first.
  lemma EachItsOwn(d: seq<Sector>, d1: seq<Sector>, d2: seq<Sector>, a: seq<Byte>, n: nat, b: seq<Byte>, m: nat)
    requires Wellformed(d) && CreateStep(d, d1, a, n) && CreateStep(d1, d2, b, m)
    ensures !Agree(a, b) && Wellformed(d1) && Wellformed(d2)
    ensures var i, j := IndexOf(Table(d2), a), IndexOf(Table(d2), b);
            && i < 10 && j < 10 && i != j && Table(d2)[i].inUse && Table(d2)[j].inUse
            && Table(d2)[i].sector == Bitmaps.FirstClear(MapBits(d)) < 1024
            && Table(d2)[j].sector == Bitmaps.FirstClear(MapBits(d1)) < 1024
            && PlacedFirst(MapBits(d), HeaderOf(d2, i), n) && PlacedFirst(MapBits(d1), HeaderOf(d2, j), m)
            && i == IndexOf(Table(d1), a) && FileKept(d1, d2, i)
  {
    hide CreateStep, MapBits, Table, Consistent, SameSystem, NamesDistinct, SetAll, Chosen, IndexOf, Bitmaps.FirstClear,
      Bitmaps.CountClear, SameName, Agree, Added, SectorsFor, SystemFiles, DecodeHeader, PlacedFirst, Readable,
      FileBytes;
    CreateStepKeeps(d, d1, a, n);
    CreateStepKeeps(d1, d2, b, m);
    CreatedIsListed(d, d1, a, n);
    CreatedIsListed(d1, d2, b, m);
    SystemOf(d, d1);
    SystemOf(d1, d2);
    SameNameExact(a, b);
    if SameName(a, b) {
      FoundUnder(Table(d1), a, b);
    }
    PaddedSame(a, b);
    PaddedSame(b, a);
    AddedFinds(Table(d1), b, Bitmaps.FirstClear(MapBits(d1)), a);
  }
}
