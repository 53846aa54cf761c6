// A bitmap packed into 32-bit words: bit i lives in word i/32 at position
// i%32.  The class keeps the packed words and, as its abstract value, the
// sequence of bits.
module Bitmaps {

  function Mask(k: nat): bv32
    requires k < 32
  {
    1 << k
  }

  predicate Hits(w: bv32, mask: bv32) {
    Meet(w, mask) != 0
  }

  // Bit k of a packed word.
  predicate BitAt(w: bv32, k: nat)
    requires k < 32
  {
    Hits(w, Mask(k))
  }

  lemma MasksDisjoint(k: nat, j: nat)
    requires k < 32 && j < 32 && j != k
    ensures Meet(Mask(k), Mask(j)) == 0
  {
  }

  lemma MaskNonzero(k: nat)
    requires k < 32
    ensures Mask(k) != 0
  {
  }

  function Marked(w: bv32, mask: bv32): bv32 { w | mask }

  function Cleared(w: bv32, mask: bv32): bv32 { w & !mask }

  function Meet(a: bv32, b: bv32): bv32 { a & b }

  lemma MeetMarked(w: bv32, a: bv32, b: bv32)
    requires Meet(a, b) == 0
    ensures Meet(Marked(w, a), b) == Meet(w, b)
  {
  }

  lemma MeetCleared(w: bv32, a: bv32, b: bv32)
    requires Meet(a, b) == 0
    ensures Meet(Cleared(w, a), b) == Meet(w, b)
  {
  }

  lemma ChangeElsewhere(w: bv32, a: bv32, b: bv32)
    requires Meet(a, b) == 0
    ensures Hits(Marked(w, a), b) == Hits(w, b)
    ensures Hits(Cleared(w, a), b) == Hits(w, b)
  {
    hide Marked, Cleared, Meet;
    MeetMarked(w, a, b);
    MeetCleared(w, a, b);
  }

  lemma ChangeHere(w: bv32, a: bv32)
    requires a != 0
    ensures Hits(Marked(w, a), a) && !Hits(Cleared(w, a), a)
  {
  }

  // Marking and clearing touch one bit and no other.
  lemma ChangeBit(w: bv32, k: nat, j: nat)
    requires k < 32 && j < 32
    ensures BitAt(Marked(w, Mask(k)), j) == (j == k || BitAt(w, j))
    ensures BitAt(Cleared(w, Mask(k)), j) == (j != k && BitAt(w, j))
  {
    hide Mask, Hits, Marked, Cleared;
    if j == k {
      MaskNonzero(k);
      ChangeHere(w, Mask(k));
    } else {
      MasksDisjoint(k, j);
      ChangeElsewhere(w, Mask(k), Mask(j));
    }
  }

  lemma Position(i: nat, which: nat)
    ensures i / 32 == which / 32 && i % 32 == which % 32 ==> i == which
  {
  }

  // The smallest clear position, or the length if every bit is set.
  function FirstClear(bits: seq<bool>): (i: nat)
    ensures i <= |bits|
    ensures forall j :: 0 <= j < i ==> bits[j]
    ensures i < |bits| ==> !bits[i]
  {
    if |bits| == 0 then 0
    else if !bits[0] then 0
    else 1 + FirstClear(bits[1..])
  }

  function CountClear(bits: seq<bool>): (n: nat)
    ensures n <= |bits|
    ensures n > 0 <==> exists i :: 0 <= i < |bits| && !bits[i]
  {
    if |bits| == 0 then 0
    else
      var last := |bits| - 1;
      CountClear(bits[..last]) + (if bits[last] then 0 else 1)
  }

  // Setting a clear bit takes exactly one from the number of clear bits.
  lemma {:induction false} CountAfterSet(bits: seq<bool>, i: nat, b: bool)
    requires i < |bits| && bits[i] != b
    ensures CountClear(bits[i := b]) == CountClear(bits) + (if b then -1 else 1)
  {
    var last := |bits| - 1;
    if i == last {
      assert bits[i := b][..last] == bits[..last];
    } else {
      assert bits[i := b][..last] == bits[..last][i := b];
      CountAfterSet(bits[..last], i, b);
    }
  }

  function WordsFor(numBits: nat): nat {
    numBits / 32 + if numBits % 32 > 0 then 1 else 0
  }

  class Bitmap {
    const numBits: nat
    const words: array<bv32>
    ghost var bits: seq<bool>

    ghost predicate Valid()
      reads this, words
    {
      && numBits > 0
      && words.Length == WordsFor(numBits)
      && |bits| == numBits
      && forall i :: 0 <= i < numBits ==> bits[i] == BitAt(words[i / 32], i % 32)
    }

    constructor (numItems: nat)
      requires numItems > 0
      ensures Valid() && fresh(words) && numBits == numItems
      ensures bits == seq(numItems, i => false)
    {
      numBits := numItems;
      words := new bv32[WordsFor(numItems)](i => 0);
      bits := seq(numItems, i => false);
    }

    method Mark(which: nat)
      requires Valid() && which < numBits
      modifies this`bits, words
      ensures Valid() && bits == old(bits)[which := true]
    {
      hide BitAt, Mask, Marked, Cleared;
      var w, k := which / 32, which % 32;
      ghost var before := words[w];
      words[w] := Marked(words[w], Mask(k));
      bits := bits[which := true];
      forall i | 0 <= i < numBits
        ensures bits[i] == BitAt(words[i / 32], i % 32)
      {
        ChangeBit(before, k, i % 32);
        Position(i, which);
      }
    }

    method Clear(which: nat)
      requires Valid() && which < numBits
      modifies this`bits, words
      ensures Valid() && bits == old(bits)[which := false]
    {
      hide BitAt, Mask, Marked, Cleared;
      var w, k := which / 32, which % 32;
      ghost var before := words[w];
      words[w] := Cleared(words[w], Mask(k));
      bits := bits[which := false];
      forall i | 0 <= i < numBits
        ensures bits[i] == BitAt(words[i / 32], i % 32)
      {
        ChangeBit(before, k, i % 32);
        Position(i, which);
      }
    }

    method Test(which: nat) returns (marked: bool)
      requires Valid() && which < numBits
      ensures marked == bits[which]
    {
      marked := Hits(words[which / 32], Mask(which % 32));
    }

    method FindAndSet() returns (found: int)
      requires Valid()
      modifies this`bits, words
      ensures Valid()
      ensures var i := FirstClear(old(bits));
              if i < numBits then found == i && bits == old(bits)[i := true]
              else found == -1 && bits == old(bits)
    {
      for i := 0 to numBits
        invariant Valid() && bits == old(bits)
        invariant forall j :: 0 <= j < i ==> bits[j]
      {
        var marked := Test(i);
        if !marked {
          Mark(i);
          return i;
        }
      }
      return -1;
    }

    method NumClear() returns (count: nat)
      requires Valid()
      ensures count == CountClear(bits)
    {
      count := 0;
      for i := 0 to numBits
        invariant count == CountClear(bits[..i])
      {
        assert bits[..i + 1][..i] == bits[..i];
        var marked := Test(i);
        if !marked {
          count := count + 1;
        }
      }
      assert bits[..numBits] == bits;
    }
  }
}
