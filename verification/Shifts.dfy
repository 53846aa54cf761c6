// The right shifts.  The source shifts a signed host int for all of them.
module Shifts {
  import opened Words
  import opened Mips
  import opened Bits
  import Division
  import Multiply

  // Taking a multiple of the divisor away first takes from the quotient.
  lemma DivShift(x: nat, d: nat, k: nat)
    requires d > 0
    ensures (x - k * d) / d == x / d - k
  {
    assert x == x / d * d + x % d;
    ModUnique(x - k * d, d, x / d - k, x % d);
  }

  lemma PowBound(n: nat)
    requires n < 32
    ensures Pow2(n) * Pow2(32 - n) == 0x1_0000_0000
    ensures n > 0 ==> 0 < Pow2(32 - n) < 0x1_0000_0000
  {
    WordPow();
    PowAdd(n, 32 - n);
    if n > 0 {
      Half(Pow2(n), Pow2(32 - n));
    }
  }

  lemma Half(p: nat, q: nat)
    requires p >= 2 && p * q > 0
    ensures 0 < q < p * q
  {
    AtLeast(p - 1, q);
  }

  // A right shift of the host int fills up with copies of the sign bit.
  lemma ShiftRightExact(t: Word, n: nat)
    requires n < 32
    ensures Signed(ShiftRight(t, n)) == Signed(t) / Pow2(n)
    ensures ShiftRight(t, n) == t / Pow2(n) + if Negative(t) then 0x1_0000_0000 - Pow2(32 - n) else 0
  {
    hide Pow2;
    PowBound(n);
    var d, k := Pow2(n), Pow2(32 - n);
    Division.DivisionOf(t, d);
    if Negative(t) {
      DivShift(t, d, k);
      assert k * d == 0x1_0000_0000;
      SignedQuotient(t - 0x1_0000_0000, d);
    }
  }

  lemma SignedQuotient(x: int, d: nat)
    requires -0x8000_0000 <= x < 0 && d > 0
    ensures -0x8000_0000 <= x / d < 0
  {
    var q := x / d;
    if q >= 0 {
      AtLeast(q + 1, d);
    } else if q < x {
      AtLeast(x - q, d);
    }
  }

  // ------------------------------------------------------------ bit by bit

  lemma {:induction false} TimesPowBit(t: nat, n: nat, k: nat)
    ensures BitOf(Times(t, Pow2(n)), k) <==> k >= n && BitOf(t, k - n)
    decreases n
  {
    if n == 0 {
      assert Times(t, 1) == t;
    } else {
      var half := Times(t, Pow2(n - 1));
      TimesTwice(t, Pow2(n - 1));
      if k > 0 {
        TimesPowBit(t, n - 1, k - 1);
        assert BitOf(2 * half, k) == BitOf(half, k - 1);
      }
    }
  }

  lemma TimesTwice(t: nat, p: nat)
    ensures Times(t, 2 * p) == 2 * Times(t, p)
  {
  }

  lemma {:induction false} UpperBit(t: nat, n: nat, k: nat)
    ensures BitOf(Upper(t, n), k) <==> BitOf(t, k + n)
  {
    if n > 0 {
      UpperBit(t / 2, n - 1, k);
    }
  }

  lemma {:induction false} SmallBit(a: nat, m: nat, k: nat)
    requires a < Pow2(m) && k >= m
    ensures !BitOf(a, k)
  {
    if m == 0 {
      NoBits(k);
    } else {
      SmallBit(a / 2, m - 1, k - 1);
    }
  }

  lemma {:induction false} AllOnes(n: nat, k: nat)
    ensures BitOf(Pow2(n) - 1, k) <==> k < n
  {
    if n == 0 {
      NoBits(k);
    } else if k > 0 {
      AllOnes(n - 1, k - 1);
      assert (Pow2(n) - 1) / 2 == Pow2(n - 1) - 1;
    }
  }

  // n ones above the m bits of a.
  lemma {:induction false} OnesAbove(a: nat, m: nat, n: nat, k: nat)
    requires a < Pow2(m)
    ensures Pow2(m + n) >= Pow2(m)
    ensures BitOf(a + Pow2(m + n) - Pow2(m), k) <==> if k < m then BitOf(a, k) else k < m + n
    decreases m
  {
    if m == 0 {
      AllOnes(n, k);
    } else {
      OnesAbove(a / 2, m - 1, n, if k > 0 then k - 1 else 0);
      var x, y: nat := a + Pow2(m + n) - Pow2(m), a / 2 + Pow2(m + n - 1) - Pow2(m - 1);
      assert x / 2 == y && x % 2 == a % 2;
    }
  }

  lemma SignBit(t: Word)
    ensures BitOf(t, 31) <==> t >= 0x8000_0000
  {
    hide BitOf;
    BitExact(t, 31);
    WordPow();
  }

  // A left shift moves the bits up and fills up with zeros.
  lemma ShiftLeftBit(t: Word, n: nat, k: nat)
    requires k < 32
    ensures BitOf(ShiftLeft(t, n), k) <==> k >= n && BitOf(t, k - n)
  {
    hide Pow2, BitOf;
    WordPow();
    TimesPowBit(t, n, k);
    LowBits(Times(t, Pow2(n)), 32, k);
  }

  // A right shift moves them down and fills up with the sign.
  lemma ShiftRightBit(t: Word, n: nat, k: nat)
    requires n < 32 && k < 32
    ensures BitOf(ShiftRight(t, n), k) <==> BitOf(t, if k + n < 32 then k + n else 31)
  {
    hide Pow2, BitOf, Upper, ShiftRight;
    ShiftRightExact(t, n);
    UpperBit(t, n, k);
    UpperExact(t, n);
    WordPow();
    SignBit(t);
    var a := Upper(t, n);
    UpperSmall(t, n);
    if k >= 32 - n {
      SmallBit(a, 32 - n, k);
    }
    if Negative(t) {
      OnesAbove(a, 32 - n, n, k);
    }
  }

  lemma UpperSmall(t: Word, n: nat)
    requires n < 32
    ensures Upper(t, n) < Pow2(32 - n)
  {
    hide Pow2, Upper;
    UpperExact(t, n);
    PowBound(n);
    var q, d, p := t / Pow2(n), Pow2(n), Pow2(32 - n);
    Division.DivisionOf(t, d);
    if q >= p {
      AtLeast(d, q - p + 1);
      Multiply.MulMono(p, q, d);
    }
  }

  // SRL and SRLV shift zeros in only if there is nothing to shift or the
  // sign bit is clear.
  lemma LogicalShiftIff(s: Word, t: Word, n: nat, extra: Word)
    requires n < 32
    ensures AluValue(SRL, s, t, n) == t / Pow2(n) <==> n == 0 || !Negative(t)
    ensures AluValue(SRLV, s, t, extra) == t / Pow2(s % 32) <==> s % 32 == 0 || !Negative(t)
  {
    hide Pow2, ShiftRight;
    ShiftRightExact(t, n);
    ShiftRightExact(t, s % 32);
    PowBound(n);
    PowBound(s % 32);
    NoShift();
  }

  lemma NoShift()
    ensures Pow2(0) == 1 && Pow2(32) == 0x1_0000_0000
  {
    WordPow();
  }

  // The smallest word on which SRL is no logical shift, shifted by one.
  lemma ShiftedSign(s: Word)
    ensures AluValue(SRL, s, 0x8000_0000, 1) == 0xc000_0000 && 0x8000_0000 / Pow2(1) == 0x4000_0000
  {
  }
}
