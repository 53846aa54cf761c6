// The R2000 multiplier: a 32-step shift-and-add loop over host 32-bit
// integers, followed by a two's complement correction of the double word.
module Multiply {
  import opened Words

  // What the instruction promises: the exact product of the operands, read
  // as signed or as unsigned numbers, as a 64-bit two's complement number.
  function Product(a: Word, b: Word, signedArith: bool): (p: int) {
    if signedArith then Signed(a) * Signed(b) else a * b
  }

  // The number held by the register pair HI:LO.
  function Reading(hi: Word, lo: Word, signedArith: bool): int {
    (if signedArith then Signed(hi) else hi) * 0x1_0000_0000 + lo
  }

  // The two halves of a 64-bit number.
  function HighWord(p: int): Word { Wrap(p / 0x1_0000_0000) }

  function LowWord(p: int): Word { Wrap(p) }

  lemma ReadingDetermines(hi: Word, lo: Word, signedArith: bool)
    ensures var p := Reading(hi, lo, signedArith); hi == HighWord(p) && lo == LowWord(p)
  {
  }

  lemma Pow2Facts()
    ensures Pow2(31) == 0x8000_0000 && Pow2(32) == 0x1_0000_0000
  {
    assert Pow2(8) == 0x100;
    assert Pow2(16) == 0x1_0000;
    assert Pow2(24) == 0x100_0000;
    assert Pow2(31) == 0x8000_0000;
  }

  lemma MulMono(x: nat, y: nat, z: nat)
    requires x <= y
    ensures x * z <= y * z
  {
  }

  // One multiplier step keeps total + shifted * rest.
  lemma StepKeeps(total: nat, s: nat, rest: nat)
    ensures rest % 2 == 1 ==> total + s * rest == (total + s) + (2 * s) * (rest / 2)
    ensures rest % 2 == 0 ==> total + s * rest == total + (2 * s) * (rest / 2)
  {
  }

  lemma ProductBelow64(x: nat, y: nat)
    requires x < 0x1_0000_0000 && y < 0x1_0000_0000
    ensures x * y < 0x1_0000_0000_0000_0000
  {
    MulMono(x, 0x1_0000_0000, y);
    MulMono(y, 0x1_0000_0000, 0x1_0000_0000);
  }

  // A double word is added in two halves; the carry out of the low half shows
  // as wrap-around.
  method AddDouble(hi0: Word, lo0: Word, bHi: Word, bLo: Word) returns (hi: Word, lo: Word)
    requires hi0 * 0x1_0000_0000 + lo0 + bHi * 0x1_0000_0000 + bLo < 0x1_0000_0000_0000_0000
    ensures hi * 0x1_0000_0000 + lo == hi0 * 0x1_0000_0000 + lo0 + bHi * 0x1_0000_0000 + bLo
  {
    hi, lo := hi0, Wrap(lo0 + bLo);
    assert (lo0 + bLo >= 0x1_0000_0000) == (lo < bLo);
    if lo < bLo {
      hi := Wrap(hi + 1);
    }
    hi := Wrap(hi + bHi);
  }

  // A double word is shifted left in two halves.
  method ShiftDouble(bHi0: Word, bLo0: Word) returns (bHi: Word, bLo: Word)
    ensures bHi * 0x1_0000_0000 + bLo == 2 * (bHi0 * 0x1_0000_0000 + bLo0) % 0x1_0000_0000_0000_0000
  {
    bHi := Wrap(2 * bHi0);
    if bLo0 >= 0x8000_0000 {
      bHi := bHi + 1;           // the low bit is clear after the shift
    }
    bLo := Wrap(2 * bLo0);
  }

  // The state of the loop: "total" has been added up, "shifted" is the
  // multiplier for the next bit and "rest" are the multiplicand bits to come.
  ghost predicate Partial(total: nat, shifted: nat, rest: nat, product: nat) {
    total + shifted * rest == product < 0x1_0000_0000_0000_0000
  }

  lemma PartialStep(total: nat, shifted: nat, rest: nat, product: nat)
    requires Partial(total, shifted, rest, product)
    ensures rest % 2 == 1 ==> total + shifted <= product && Partial(total + shifted, 2 * shifted, rest / 2, product)
    ensures rest % 2 == 0 ==> Partial(total, 2 * shifted, rest / 2, product)
    ensures rest > 0 ==> shifted < 0x1_0000_0000_0000_0000
    ensures rest / 2 > 0 ==> 2 * shifted < 0x1_0000_0000_0000_0000
    ensures rest == 0 ==> total == product
    ensures rest == 1 ==> total + shifted == product
  {
  }

  // The multiplicand is a host int, so its right shift copies the sign: after
  // i shifts it is rest + k * 2^(32-i) where k is 0 or -1.
  ghost predicate Shifted(a: int, rest: nat, k: int, i: nat) {
    (k == 0 || k == -1) && i <= 32 && a == rest + k * Pow2(32 - i) && rest < Pow2(32 - i)
  }

  lemma ShiftedStep(a: int, rest: nat, k: int, i: nat)
    requires Shifted(a, rest, k, i) && i < 32
    ensures Shifted(a / 2, rest / 2, k, i + 1) && a % 2 == rest % 2
    ensures a == 0 || a == 1 ==> rest == a
  {
  }

  lemma LoopStart(a: int, b: Word)
    requires -0x8000_0000 <= a < 0x8000_0000
    ensures Partial(0, b, Wrap(a), Wrap(a) * b)
    ensures Shifted(a, Wrap(a), if a < 0 then -1 else 0, 0)
  {
    Pow2Facts();
    ProductBelow64(Wrap(a), b);
  }

  lemma LoopEnd(total: nat, shifted: nat, a: int, rest: nat, k: int, product: nat)
    requires Partial(total, shifted, rest, product) && Shifted(a, rest, k, 32)
    ensures total == product
  {
  }

  method Accumulate(a0: int, b: Word) returns (hi: Word, lo: Word)
    requires -0x8000_0000 <= a0 < 0x8000_0000
    ensures hi * 0x1_0000_0000 + lo == Times(Wrap(a0), b)
  {
    hide Partial, Shifted;
    var a := a0;
    var bLo: Word, bHi: Word := b, 0;
    lo, hi := 0, 0;
    ghost var product: nat := Wrap(a0) * b;
    ghost var rest: nat, shifted: nat := Wrap(a0), b;
    ghost var k := if a < 0 then -1 else 0;
    LoopStart(a0, b);
    for i := 0 to 32
      invariant Shifted(a, rest, k, i)
      invariant rest > 0 ==> bHi * 0x1_0000_0000 + bLo == shifted
      invariant Partial(hi * 0x1_0000_0000 + lo, shifted, rest, product)
    {
      PartialStep(hi * 0x1_0000_0000 + lo, shifted, rest, product);
      ShiftedStep(a, rest, k, i);
      if a % 2 == 1 {
        hi, lo := AddDouble(hi, lo, bHi, bLo);
        if a == 0 || a == 1 {     // (a & 0xfffffffe) == 0
          return;
        }
      }
      bHi, bLo := ShiftDouble(bHi, bLo);
      a := a / 2;                 // arithmetic shift
      rest, shifted := rest / 2, 2 * shifted;
    }
    LoopEnd(hi * 0x1_0000_0000 + lo, shifted, a, rest, k, product);
  }

  // ~(hi:lo) + 1, with the carry out of lo, is negation of the double word.
  method Negate(hi0: Word, lo0: Word) returns (hi: Word, lo: Word)
    requires 0 < hi0 * 0x1_0000_0000 + lo0 <= 0x4000_0000_0000_0000
    ensures Reading(hi, lo, true) == -(hi0 * 0x1_0000_0000 + lo0)
  {
    hi, lo := Not(hi0), Not(lo0);
    lo := Wrap(lo + 1);
    if lo == 0 {
      hi := Wrap(hi + 1);
    }
  }

  // The sign is taken off an operand.  -2^31 stays -2^31 as a host int, but
  // its unsigned reading is the magnitude all the same.
  method TakeSign(a: int, negative: bool) returns (m: int, flipped: bool)
    requires -0x8000_0000 <= a < 0x8000_0000
    ensures -0x8000_0000 <= m < 0x8000_0000 && Wrap(m) == Abs(a)
    ensures flipped == (negative != (a < 0))
  {
    m, flipped := a, negative;
    if a < 0 {
      m, flipped := Signed(Wrap(-a)), !negative;
    }
  }

  lemma ZeroProduct(a0: Word, b0: Word, signedArith: bool)
    requires Signed(a0) == 0 || Signed(b0) == 0
    ensures Reading(0, 0, signedArith) == Product(a0, b0, signedArith)
  {
  }

  lemma UnsignedProduct(a0: Word, b0: Word, hi: Word, lo: Word)
    requires hi * 0x1_0000_0000 + lo == Times(Wrap(Signed(a0)), Wrap(Signed(b0)))
    ensures Reading(hi, lo, false) == Product(a0, b0, false)
  {
  }

  lemma AbsProduct(x: int, y: int)
    ensures x * y == if (x < 0) == (y < 0) then Times(Abs(x), Abs(y)) else -Times(Abs(x), Abs(y))
  {
  }

  lemma MagnitudesBound(x: nat, y: nat)
    requires 0 < x <= 0x8000_0000 && 0 < y <= 0x8000_0000
    ensures 0 < Times(x, y) <= 0x4000_0000_0000_0000
  {
    MulMono(x, 0x8000_0000, y);
    MulMono(1, x, y);
  }

  lemma SignedProduct(a0: Word, b0: Word, hi: Word, lo: Word)
    requires Signed(a0) != 0 && Signed(b0) != 0
    requires hi * 0x1_0000_0000 + lo == Times(Abs(Signed(a0)), Abs(Signed(b0)))
    ensures 0 < hi * 0x1_0000_0000 + lo <= 0x4000_0000_0000_0000
    ensures (Signed(a0) < 0) == (Signed(b0) < 0) ==> Reading(hi, lo, true) == Product(a0, b0, true)
    ensures (Signed(a0) < 0) != (Signed(b0) < 0) ==> -(hi * 0x1_0000_0000 + lo) == Product(a0, b0, true)
  {
    hide Times;
    MagnitudesBound(Abs(Signed(a0)), Abs(Signed(b0)));
    AbsProduct(Signed(a0), Signed(b0));
  }

  // The register pair ends up holding the exact product, for every pair of
  // operands and both kinds of arithmetic.
  method Mult(a0: Word, b0: Word, signedArith: bool) returns (hi: Word, lo: Word)
    ensures Reading(hi, lo, signedArith) == Product(a0, b0, signedArith)
    ensures hi == HighWord(Product(a0, b0, signedArith)) && lo == LowWord(Product(a0, b0, signedArith))
  {
    hide Reading, Product, Times, Wrap, HighWord, LowWord, Abs;
    var a, b := Signed(a0), Signed(b0);     // the parameters are host ints
    if a == 0 || b == 0 {
      hi, lo := 0, 0;
      ZeroProduct(a0, b0, signedArith);
      ReadingDetermines(hi, lo, signedArith);
      return;
    }
    var negative := false;
    if signedArith {
      a, negative := TakeSign(a, negative);
      b, negative := TakeSign(b, negative);
    }
    hi, lo := Accumulate(a, Wrap(b));
    if signedArith {
      SignedProduct(a0, b0, hi, lo);
    } else {
      UnsignedProduct(a0, b0, hi, lo);
    }
    if negative {
      hi, lo := Negate(hi, lo);
    }
    ReadingDetermines(hi, lo, signedArith);
  }
}
