// A file header in memory: allocating and giving back the blocks of a file.
module FileHeader {
  import opened Words
  import opened Layout
  import opened Files
  import opened Ownership
  import Bitmaps

  class FileHeader {
    var numBytes: Word
    var numSectors: Word
    const dataSectors: array<Word>

    ghost predicate Valid()
      reads this
    {
      dataSectors.Length == 30
    }

    ghost function Value(): (h: Header)
      requires Valid()
      reads this, dataSectors
      ensures HeaderShape(h)
    {
      Header(numBytes, numSectors, dataSectors[..])
    }

    constructor ()
      ensures Valid() && fresh(dataSectors)
    {
      dataSectors := new Word[30];
    }

    // The header of a new file; no success if there are not enough free
    // sectors.  The source does not check the size.  "overrun" is a write past
    // the array of data sectors: it comes exactly when a file of more than 30
    // sectors finds room.  A file of negative size is a success, with a header
    // that says so and no sectors.
    method Allocate(freeMap: Bitmaps.Bitmap, fileSize: HostInt) returns (success: bool, overrun: bool)
      requires Valid() && freeMap.Valid() && freeMap.numBits <= 0x1_0000_0000
      requires dataSectors as object != freeMap.words
      modifies this`numBytes, this`numSectors, dataSectors, freeMap`bits, freeMap.words
      ensures Valid() && freeMap.Valid()
      ensures overrun == (Wanted(fileSize) > 30 && Bitmaps.CountClear(old(freeMap.bits)) >= Wanted(fileSize))
      ensures success == (Wanted(fileSize) <= 30 && Bitmaps.CountClear(old(freeMap.bits)) >= Wanted(fileSize))
      ensures !success && !overrun ==> freeMap.bits == old(freeMap.bits)
      ensures success && fileSize < 0 ==> NegativeHeader(Value(), fileSize)
      ensures success && fileSize >= 0 ==> GoodHeader(Value()) && numBytes == fileSize
      ensures success ==>
                && dataSectors[..Wanted(fileSize)] == Chosen(old(freeMap.bits), Wanted(fileSize))
                && freeMap.bits == SetAll(old(freeMap.bits), Chosen(old(freeMap.bits), Wanted(fileSize)), true)
    {
      hide Bitmaps.CountClear, Bitmaps.FirstClear, Bitmaps.BitAt, Chosen, SetAll, DivRoundUp, Wanted, GoodHeader,
        NegativeHeader;
      RoundedUp(fileSize);
      var count := DivRoundUp(fileSize);
      numBytes, numSectors := Wrap(fileSize), Wrap(count);
      var free := freeMap.NumClear();
      if free < count {
        return false, false;
      }
      ghost var bits := freeMap.bits;
      NoneChosen(bits);
      var i := 0;
      while i < count
        invariant Valid() && freeMap.Valid() && numSectors == Wrap(count) && numBytes == Wrap(fileSize)
        invariant i <= Wanted(fileSize) <= Bitmaps.CountClear(bits)
        invariant i <= 30 && dataSectors[..i] == Chosen(bits, i)
        invariant freeMap.bits == SetAll(bits, Chosen(bits, i), true)
        decreases count - i
      {
        overrun := TakeSector(freeMap, i, bits);
        if overrun {
          return false, true;
        }
        i := i + 1;
      }
      HeaderOfSize(Value(), fileSize);
      return true, false;
    }

    // One more sector, unless the array is full.
    method TakeSector(freeMap: Bitmaps.Bitmap, i: nat, ghost bits: seq<bool>) returns (overrun: bool)
      requires Valid() && freeMap.Valid() && freeMap.numBits <= 0x1_0000_0000
      requires dataSectors as object != freeMap.words
      requires i < Bitmaps.CountClear(bits) && i <= 30
      requires dataSectors[..i] == Chosen(bits, i) && freeMap.bits == SetAll(bits, Chosen(bits, i), true)
      modifies dataSectors, freeMap`bits, freeMap.words
      ensures Valid() && freeMap.Valid() && overrun == (i == 30)
      ensures !overrun ==> dataSectors[..i + 1] == Chosen(bits, i + 1)
      ensures !overrun ==> freeMap.bits == SetAll(bits, Chosen(bits, i + 1), true)
    {
      hide Bitmaps.CountClear, Bitmaps.FirstClear, Bitmaps.BitAt, Chosen, SetAll;
      ChosenNext(bits, i);
      var sector := freeMap.FindAndSet();
      assert sector >= 0;             // the source's ASSERT
      if i == 30 {
        return true;                  // dataSectors[30] is past the array
      }
      dataSectors[i] := sector;
      SetAllLast(bits, Chosen(bits, i), sector, true);
      assert dataSectors[..i + 1] == dataSectors[..i] + [sector];
      return false;
    }

    // Gives the data sectors back; each one ought to be marked.
    method Deallocate(freeMap: Bitmaps.Bitmap)
      requires Valid() && freeMap.Valid() && numSectors <= 30
      requires forall i :: 0 <= i < numSectors ==> dataSectors[i] < freeMap.numBits && freeMap.bits[dataSectors[i]]
      requires forall i, j :: 0 <= i < j < numSectors ==> dataSectors[i] != dataSectors[j]
      requires dataSectors as object != freeMap.words
      modifies freeMap`bits, freeMap.words
      ensures freeMap.Valid() && freeMap.bits == SetAll(old(freeMap.bits), dataSectors[..numSectors], false)
    {
      hide SetAll;
      ghost var bits, data := freeMap.bits, dataSectors[..];
      assert SetAll(bits, [], false) == bits;
      for i := 0 to numSectors
        invariant freeMap.Valid() && dataSectors[..] == data
        invariant freeMap.bits == SetAll(bits, data[..i], false)
      {
        assert data[i] !in data[..i];
        var marked := freeMap.Test(dataSectors[i]);
        assert marked;                // the source's ASSERT
        freeMap.Clear(dataSectors[i]);
        SetAllLast(bits, data[..i], data[i], false);
        assert data[..i + 1] == data[..i] + [data[i]];
      }
    }

    method FetchFrom(disk: SynchDisk, sector: nat)
      requires Valid() && sector < disk.sectors.Length
      modifies this`numBytes, this`numSectors, dataSectors
      ensures Valid() && Value() == DecodeHeader(disk.sectors[sector])
    {
      var data := disk.ReadSector(sector);
      var h := DecodeHeader(data);
      numBytes, numSectors := h.numBytes, h.numSectors;
      forall i | 0 <= i < 30 {
        dataSectors[i] := h.dataSectors[i];
      }
      assert dataSectors[..] == h.dataSectors;
    }

    method WriteBack(disk: SynchDisk, sector: nat)
      requires Valid() && sector < disk.sectors.Length
      modifies disk.sectors
      ensures disk.sectors[..] == old(disk.sectors[..])[sector := EncodeHeader(Value())]
    {
      disk.WriteSector(sector, EncodeHeader(Header(numBytes, numSectors, dataSectors[..])));
    }
  }

  // divRoundUp(fileSize, SectorSize), which for a negative size rounds
  // towards zero.
  function DivRoundUp(size: HostInt): int {
    Quotient(size, 128) + if Remainder(size, 128) > 0 then 1 else 0
  }

  // The sectors that are taken for a file of this size.
  function Wanted(size: HostInt): nat { if size < 0 then 0 else SectorsFor(size) }

  predicate NegativeHeader(h: Header, size: HostInt) {
    HeaderShape(h) && h.numBytes == Wrap(size) && h.numSectors == Wrap(Quotient(size, 128))
  }

  lemma RoundedUp(size: HostInt)
    ensures size >= 0 ==> DivRoundUp(size) == Wanted(size)
    ensures size < 0 ==> DivRoundUp(size) <= 0 == Wanted(size)
  {
  }

  lemma HeaderOfSize(h: Header, size: HostInt)
    requires HeaderShape(h) && h.numBytes == Wrap(size) && h.numSectors == Wrap(DivRoundUp(size)) && Wanted(size) <= 30
    ensures if size < 0 then NegativeHeader(h, size) else GoodHeader(h) && h.numBytes == size
  {
    hide DivRoundUp, Quotient, SectorsFor;
    RoundedUp(size);
    if size < 0 {
      NegativeRounds(size);
    } else {
      SmallSize(size);
    }
  }

  lemma NegativeRounds(size: HostInt)
    requires size < 0
    ensures DivRoundUp(size) == Quotient(size, 128)
  {
    assert Remainder(size, 128) <= 0;
  }

  lemma SmallSize(size: HostInt)
    requires size >= 0 && Wanted(size) <= 30
    ensures size <= 3840 && Wrap(size) == size && Wrap(Wanted(size)) == Wanted(size) == SectorsFor(size)
  {
  }

  lemma SetAllLast(bits: seq<bool>, sectors: seq<nat>, s: nat, b: bool)
    requires s < |bits| && forall i :: 0 <= i < |sectors| ==> sectors[i] < |bits|
    ensures forall i :: 0 <= i < |sectors| + 1 ==> (sectors + [s])[i] < |bits|
    ensures SetAll(bits, sectors + [s], b) == SetAll(bits, sectors, b)[s := b]
  {
  }
}
