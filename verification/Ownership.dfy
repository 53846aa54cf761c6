// Which file owns which sector.  A sector is marked in the free map if and
// only if it is exactly one block of exactly one file, a file's block 0 being
// the sector of its header.
module Ownership {
  import opened Layout
  import opened Files
  import Bitmaps

  datatype Slot = Free | Used(sector: nat, hdr: Header)

  datatype Fs = Fs(bits: seq<bool>, slots: seq<Slot>)

  predicate IsBlock(fs: Fs, i: int, b: int) {
    && 0 <= i < |fs.slots| && fs.slots[i].Used?
    && HeaderShape(fs.slots[i].hdr) && fs.slots[i].hdr.numSectors <= 30
    && 0 <= b <= fs.slots[i].hdr.numSectors
  }

  function Block(fs: Fs, i: int, b: int): nat
    requires IsBlock(fs, i, b)
  {
    if b == 0 then fs.slots[i].sector else fs.slots[i].hdr.dataSectors[b - 1]
  }

  predicate GoodHeader(h: Header) {
    HeaderShape(h) && h.numBytes <= 3840 && h.numSectors == SectorsFor(h.numBytes)
  }

  ghost predicate HeadersGood(fs: Fs) {
    forall i :: 0 <= i < |fs.slots| && fs.slots[i].Used? ==> GoodHeader(fs.slots[i].hdr)
  }

  ghost predicate BlocksMarked(fs: Fs) {
    forall i, b {:trigger Block(fs, i, b)} :: IsBlock(fs, i, b) ==>
      Block(fs, i, b) < |fs.bits| && fs.bits[Block(fs, i, b)]
  }

  ghost predicate Owns(fs: Fs, s: int, i: int, b: int) { IsBlock(fs, i, b) && Block(fs, i, b) == s }

  ghost predicate MarksOwned(fs: Fs) {
    forall s :: 0 <= s < |fs.bits| && fs.bits[s] ==> exists i, b :: Owns(fs, s, i, b)
  }

  ghost predicate BlocksDistinct(fs: Fs) {
    forall i, b, j, c {:trigger Block(fs, i, b), Block(fs, j, c)} ::
      IsBlock(fs, i, b) && IsBlock(fs, j, c) && Block(fs, i, b) == Block(fs, j, c) ==> i == j && b == c
  }

  ghost predicate Consistent(fs: Fs) {
    HeadersGood(fs) && BlocksMarked(fs) && MarksOwned(fs) && BlocksDistinct(fs)
  }

  // ------------------------------------------------------- changing the map

  function SetAll(bits: seq<bool>, sectors: seq<nat>, b: bool): (r: seq<bool>)
    requires forall i :: 0 <= i < |sectors| ==> sectors[i] < |bits|
    ensures |r| == |bits|
    ensures forall s :: 0 <= s < |bits| ==> r[s] == if s in sectors then b else bits[s]
  {
    if sectors == [] then bits
    else
      var last := |sectors| - 1;
      SetAll(bits, sectors[..last], b)[sectors[last] := b]
  }

  // The sectors that n calls of FindAndSet find.
  function Chosen(bits: seq<bool>, n: nat): (sectors: seq<nat>)
    requires n <= Bitmaps.CountClear(bits)
    ensures |sectors| == n
    ensures forall i :: 0 <= i < n ==> sectors[i] < |bits| && !bits[sectors[i]]
    ensures forall i, j :: 0 <= i < j < n ==> sectors[i] != sectors[j]
    decreases n
  {
    if n == 0 then []
    else
      var s := Bitmaps.FirstClear(bits);
      Bitmaps.CountAfterSet(bits, s, true);
      [s] + Chosen(bits[s := true], n - 1)
  }

  lemma SetAllFirst(bits: seq<bool>, s: nat, rest: seq<nat>, b: bool)
    requires s < |bits| && forall i :: 0 <= i < |rest| ==> rest[i] < |bits|
    ensures forall i :: 0 <= i < |rest| + 1 ==> ([s] + rest)[i] < |bits|
    ensures SetAll(bits, [s] + rest, b) == SetAll(bits[s := b], rest, b)
  {
  }

  lemma ChosenUnfold(bits: seq<bool>, n: nat)
    requires 0 < n <= Bitmaps.CountClear(bits)
    ensures Bitmaps.FirstClear(bits) < |bits|
    ensures Bitmaps.CountClear(bits[Bitmaps.FirstClear(bits) := true]) == Bitmaps.CountClear(bits) - 1
    ensures Chosen(bits, n) == [Bitmaps.FirstClear(bits)] + Chosen(bits[Bitmaps.FirstClear(bits) := true], n - 1)
  {
    Bitmaps.CountAfterSet(bits, Bitmaps.FirstClear(bits), true);
  }

  // One more FindAndSet after n of them.
  lemma {:induction false} ChosenNext(bits: seq<bool>, n: nat)
    requires n < Bitmaps.CountClear(bits)
    ensures Bitmaps.FirstClear(SetAll(bits, Chosen(bits, n), true)) < |bits|
    ensures Chosen(bits, n + 1) == Chosen(bits, n) + [Bitmaps.FirstClear(SetAll(bits, Chosen(bits, n), true))]
    decreases n
  {
    hide Bitmaps.FirstClear, Bitmaps.CountClear, Chosen, SetAll;
    var s := Bitmaps.FirstClear(bits);
    ChosenUnfold(bits, n + 1);
    if n == 0 {
      NoneChosen(bits);
      NoneChosen(bits[s := true]);
    } else {
      ChosenUnfold(bits, n);
      ChosenNext(bits[s := true], n - 1);
      SetAllFirst(bits, s, Chosen(bits[s := true], n - 1), true);
    }
  }

  // They are the lowest clear ones, in ascending order.
  lemma {:induction false} ChosenLowest(bits: seq<bool>, n: nat)
    requires n <= Bitmaps.CountClear(bits)
    ensures forall i, j :: 0 <= i < j < n ==> Chosen(bits, n)[i] < Chosen(bits, n)[j]
    ensures forall s, i :: 0 <= s < |bits| && !bits[s] && s !in Chosen(bits, n) && 0 <= i < n ==> Chosen(bits, n)[i] < s
    decreases n
  {
    hide Bitmaps.CountClear;
    if n > 0 {
      var first := Bitmaps.FirstClear(bits);
      ChosenUnfold(bits, n);
      ChosenLowest(bits[first := true], n - 1);
    }
  }

  lemma NoneChosen(bits: seq<bool>)
    ensures Chosen(bits, 0) == [] && SetAll(bits, [], true) == bits
  {
  }

  // ------------------------------------------------------- creating a file

  // The sectors of a file, header first.
  function SectorsOf(sector: nat, h: Header): (s: seq<nat>)
    requires GoodHeader(h)
    ensures |s| == h.numSectors + 1
  {
    [sector] + seq(h.numSectors, i requires 0 <= i < h.numSectors => h.dataSectors[i])
  }

  ghost predicate FreeSectors(bits: seq<bool>, sectors: seq<nat>) {
    && (forall i :: 0 <= i < |sectors| ==> sectors[i] < |bits| && !bits[sectors[i]])
    && forall i, j :: 0 <= i < j < |sectors| ==> sectors[i] != sectors[j]
  }

  ghost function Created(fs: Fs, i: nat, sector: nat, h: Header): Fs
    requires i < |fs.slots| && GoodHeader(h) && FreeSectors(fs.bits, SectorsOf(sector, h))
  {
    Fs(SetAll(fs.bits, SectorsOf(sector, h), true), fs.slots[i := Used(sector, h)])
  }

  lemma CreatedBlock(fs: Fs, i: nat, sector: nat, h: Header, j: int, b: int)
    requires i < |fs.slots| && fs.slots[i] == Free && GoodHeader(h) && FreeSectors(fs.bits, SectorsOf(sector, h))
    ensures j == i ==> (IsBlock(Created(fs, i, sector, h), j, b) <==> 0 <= b <= h.numSectors)
    ensures j == i && 0 <= b <= h.numSectors ==> Block(Created(fs, i, sector, h), j, b) == SectorsOf(sector, h)[b]
    ensures j != i ==> (IsBlock(Created(fs, i, sector, h), j, b) <==> IsBlock(fs, j, b))
    ensures j != i && IsBlock(fs, j, b) ==> Block(Created(fs, i, sector, h), j, b) == Block(fs, j, b)
  {
  }

  // Creating a file in free sectors keeps the ownership.
  lemma CreateKeeps(fs: Fs, i: nat, sector: nat, h: Header)
    requires Consistent(fs) && i < |fs.slots| && fs.slots[i] == Free
    requires GoodHeader(h) && FreeSectors(fs.bits, SectorsOf(sector, h))
    ensures Consistent(Created(fs, i, sector, h))
  {
    var fs' := Created(fs, i, sector, h);
    var new_ := SectorsOf(sector, h);
    forall j, b | IsBlock(fs', j, b)
      ensures Block(fs', j, b) < |fs'.bits| && fs'.bits[Block(fs', j, b)]
      ensures j != i ==> IsBlock(fs, j, b) && fs.bits[Block(fs', j, b)]
    {
      CreatedBlock(fs, i, sector, h, j, b);
      if j != i {
        assert fs.bits[Block(fs, j, b)];
      }
    }
    CreateDistinct(fs, i, sector, h);
    forall s | 0 <= s < |fs'.bits| && fs'.bits[s]
      ensures exists j, b :: Owns(fs', s, j, b)
    {
      if s in new_ {
        var b :| 0 <= b < |new_| && new_[b] == s;
        CreatedBlock(fs, i, sector, h, i, b);
        assert Owns(fs', s, i, b);
      } else {
        var j, b :| Owns(fs, s, j, b);
        CreatedBlock(fs, i, sector, h, j, b);
        assert Owns(fs', s, j, b);
      }
    }
  }

  lemma CreateDistinct(fs: Fs, i: nat, sector: nat, h: Header)
    requires Consistent(fs) && i < |fs.slots| && fs.slots[i] == Free
    requires GoodHeader(h) && FreeSectors(fs.bits, SectorsOf(sector, h))
    ensures BlocksDistinct(Created(fs, i, sector, h))
  {
    hide MarksOwned, HeadersGood;
    var fs' := Created(fs, i, sector, h);
    forall j, b, k, c | IsBlock(fs', j, b) && IsBlock(fs', k, c) && Block(fs', j, b) == Block(fs', k, c)
      ensures j == k && b == c
    {
      CreatedBlock(fs, i, sector, h, j, b);
      CreatedBlock(fs, i, sector, h, k, c);
      if j != i {
        assert fs.bits[Block(fs, j, b)];
      }
      if k != i {
        assert fs.bits[Block(fs, k, c)];
      }
    }
  }

  // ------------------------------------------------------- removing a file

  ghost function Removed(fs: Fs, i: nat): Fs
    requires Consistent(fs) && i < |fs.slots| && fs.slots[i].Used?
  {
    RemovedSectors(fs, i);
    Fs(SetAll(fs.bits, SectorsOf(fs.slots[i].sector, fs.slots[i].hdr), false), fs.slots[i := Free])
  }

  lemma RemovedSectors(fs: Fs, i: nat)
    requires Consistent(fs) && i < |fs.slots| && fs.slots[i].Used?
    ensures var ss := SectorsOf(fs.slots[i].sector, fs.slots[i].hdr);
            && (forall b :: 0 <= b < |ss| ==>
                  IsBlock(fs, i, b) && ss[b] == Block(fs, i, b) && ss[b] < |fs.bits| && fs.bits[ss[b]])
            && forall b, c :: 0 <= b < c < |ss| ==> ss[b] != ss[c]
  {
    hide MarksOwned;
    var ss := SectorsOf(fs.slots[i].sector, fs.slots[i].hdr);
    forall b | 0 <= b < |ss|
      ensures IsBlock(fs, i, b) && ss[b] == Block(fs, i, b)
    {
    }
  }

  lemma RemoveKeeps(fs: Fs, i: nat)
    requires Consistent(fs) && i < |fs.slots| && fs.slots[i].Used?
    ensures Consistent(Removed(fs, i))
  {
    RemovedSectors(fs, i);
    var fs', ss := Removed(fs, i), SectorsOf(fs.slots[i].sector, fs.slots[i].hdr);
    forall j, b | IsBlock(fs', j, b)
      ensures j != i && IsBlock(fs, j, b) && Block(fs', j, b) == Block(fs, j, b)
      ensures Block(fs', j, b) < |fs'.bits| && fs'.bits[Block(fs', j, b)]
    {
      assert IsBlock(fs, j, b) && Block(fs', j, b) == Block(fs, j, b);
    }
    forall s | 0 <= s < |fs'.bits| && fs'.bits[s]
      ensures exists j, b :: Owns(fs', s, j, b)
    {
      var j, b :| Owns(fs, s, j, b);
      assert Owns(fs', s, j, b);
    }
  }

  // Removing the file just created gives the free map back.
  lemma CreateThenRemove(fs: Fs, i: nat, sector: nat, h: Header)
    requires Consistent(fs) && i < |fs.slots| && fs.slots[i] == Free
    requires GoodHeader(h) && FreeSectors(fs.bits, SectorsOf(sector, h))
    ensures var fs' := Created(fs, i, sector, h);
            Consistent(fs') && Removed(fs', i).bits == fs.bits && Removed(fs', i).slots == fs.slots
  {
    hide MarksOwned, BlocksMarked, BlocksDistinct, HeadersGood;
    CreateKeeps(fs, i, sector, h);
    var fs', ss := Created(fs, i, sector, h), SectorsOf(sector, h);
    forall s | 0 <= s < |fs.bits|
      ensures Removed(fs', i).bits[s] == fs.bits[s]
    {
    }
  }
}
