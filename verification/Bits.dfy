// What the bitwise operations do to each bit, and to whole fields.
module Bits {
  import opened Words

  lemma {:induction false} BitwiseBit(op: (bool, bool) -> bool, a: nat, b: nat, n: nat, k: nat)
    requires k < n
    ensures BitOf(Bitwise(op, a, b, n), k) == op(BitOf(a, k), BitOf(b, k))
  {
    var r := Bitwise(op, a, b, n);
    assert r / 2 == Bitwise(op, a / 2, b / 2, n - 1) && r % 2 == if op(a % 2 == 1, b % 2 == 1) then 1 else 0;
    if k > 0 {
      BitwiseBit(op, a / 2, b / 2, n - 1, k - 1);
      assert BitOf(r, k) == BitOf(r / 2, k - 1);
    }
  }

  lemma AndBit(a: Word, b: Word, k: nat)
    requires k < 32
    ensures BitOf(And(a, b), k) <==> BitOf(a, k) && BitOf(b, k)
  {
    hide BitOf, Bitwise;
    BitwiseBit(Both, a, b, 32, k);
  }

  lemma OrBit(a: Word, b: Word, k: nat)
    requires k < 32
    ensures BitOf(Or(a, b), k) <==> BitOf(a, k) || BitOf(b, k)
  {
    hide BitOf, Bitwise;
    BitwiseBit(Either, a, b, 32, k);
  }

  lemma XorBit(a: Word, b: Word, k: nat)
    requires k < 32
    ensures BitOf(Xor(a, b), k) <==> BitOf(a, k) != BitOf(b, k)
  {
    hide BitOf, Bitwise;
    BitwiseBit(Unequal, a, b, 32, k);
  }

  lemma {:induction false} ComplementBit(a: nat, n: nat, k: nat)
    requires k < n && a < Pow2(n)
    ensures BitOf(Pow2(n) - 1 - a, k) <==> !BitOf(a, k)
  {
    var c: nat := Pow2(n) - 1 - a;
    assert Pow2(n) == 2 * Pow2(n - 1);
    assert c / 2 == Pow2(n - 1) - 1 - a / 2 && c % 2 == 1 - a % 2;
    if k > 0 {
      ComplementBit(a / 2, n - 1, k - 1);
      assert BitOf(c, k) == BitOf(c / 2, k - 1);
    }
  }

  lemma NotBit(a: Word, k: nat)
    requires k < 32
    ensures BitOf(Not(a), k) <==> !BitOf(a, k)
  {
    hide BitOf;
    WordPow();
    ComplementBit(a, 32, k);
  }

  // The low half of a word has the same low bits and no others.
  lemma {:induction false} LowBits(x: nat, n: nat, k: nat)
    ensures BitOf(x % Pow2(n), k) <==> k < n && BitOf(x, k)
    decreases n
  {
    if n == 0 {
      NoBits(k);
    } else {
      Halves(x, Pow2(n - 1));
      var y := x % Pow2(n);
      if k > 0 {
        LowBits(x / 2, n - 1, k - 1);
        assert BitOf(y, k) == BitOf(y / 2, k - 1);
      }
    }
  }

  lemma {:induction false} NoBits(k: nat)
    ensures !BitOf(0, k)
  {
    if k > 0 {
      NoBits(k - 1);
    }
  }

  lemma Halves(x: nat, p: nat)
    requires p > 0
    ensures x % (2 * p) % 2 == x % 2 && x % (2 * p) / 2 == x / 2 % p
  {
    var q, r := x / 2 / p, x / 2 % p;
    assert x / 2 == q * p + r;
    assert x == q * (2 * p) + (2 * r + x % 2);
    ModUnique(x, 2 * p, q, 2 * r + x % 2);
  }

  lemma ModUnique(x: int, d: nat, q: int, r: int)
    requires d > 0 && x == q * d + r && 0 <= r < d
    ensures x / d == q && x % d == r
  {
    var q', r' := x / d, x % d;
    assert q' * d + r' == x;
    if q' > q {
      assert (q' - q) * d == r - r';
      AtLeast(q' - q, d);
    } else if q' < q {
      assert (q - q') * d == r' - r;
      AtLeast(q - q', d);
    }
  }

  lemma AtLeast(a: nat, d: nat)
    requires a >= 1
    ensures a * d >= d
  {
  }

  // Bit k is the digit worth 2^k.
  lemma {:induction false} BitExact(x: nat, k: nat)
    ensures BitOf(x, k) <==> x / Pow2(k) % 2 == 1
  {
    if k > 0 {
      BitExact(x / 2, k - 1);
      DivTwice(x, Pow2(k - 1));
    }
  }

  lemma DivTwice(x: nat, p: nat)
    requires p > 0
    ensures x / 2 / p == x / (2 * p)
  {
    var q, r := x / 2 / p, x / 2 % p;
    assert x / 2 == q * p + r;
    assert x == q * (2 * p) + (2 * r + x % 2);
    ModUnique(x, 2 * p, q, 2 * r + x % 2);
  }

  // ------------------------------------------------------- merging two fields

  // A number without its m lowest bits.
  function Upper(x: nat, m: nat): nat { if m == 0 then x else Upper(x / 2, m - 1) }

  lemma {:induction false} UpperExact(x: nat, m: nat)
    ensures Upper(x, m) == x / Pow2(m)
  {
    if m > 0 {
      UpperExact(x / 2, m - 1);
      DivTwice(x, Pow2(m - 1));
    }
  }

  lemma PowTimes(m: nat, h: nat)
    ensures Times(Pow2(0), h) == h
    ensures m > 0 ==> Times(Pow2(m), h) == 2 * Times(Pow2(m - 1), h)
  {
  }

  lemma {:induction false} BitwiseSplit(op: (bool, bool) -> bool, a: nat, b: nat, m: nat, n: nat)
    ensures Bitwise(op, a, b, m + n) ==
            Bitwise(op, a, b, m) + Times(Pow2(m), Bitwise(op, Upper(a, m), Upper(b, m), n))
  {
    hide Times, Pow2;
    PowTimes(m, Bitwise(op, Upper(a, m), Upper(b, m), n));
    if m > 0 {
      BitwiseSplit(op, a / 2, b / 2, m - 1, n);
    }
  }

  lemma {:induction false} AndWithZeros(a: nat, b: nat, n: nat)
    requires b % Pow2(n) == 0
    ensures Bitwise(Both, a, b, n) == 0
  {
    if n > 0 {
      Halves(b, Pow2(n - 1));
      AndWithZeros(a / 2, b / 2, n - 1);
    }
  }

  lemma {:induction false} OrWithZeros(a: nat, b: nat, n: nat)
    requires a % Pow2(n) == 0 && b < Pow2(n)
    ensures Bitwise(Either, a, b, n) == b
  {
    if n > 0 {
      Halves(a, Pow2(n - 1));
      OrWithZeros(a / 2, b / 2, n - 1);
    }
  }

  lemma FieldPow()
    ensures Pow2(28) == 0x1000_0000 && Pow2(4) == 16
  {
    assert Pow2(7) == 0x80;
    PowAdd(7, 7);
    PowAdd(14, 14);
  }

  // The four highest bits of one word above the others of another.
  lemma TopField(x: Word, y: Word)
    requires y < 0x1000_0000
    ensures Or(And(x, 0xf000_0000), y) == x / 0x1000_0000 * 0x1000_0000 + y
  {
    hide Bitwise, Pow2, Upper;
    FieldPow();
    UpperExact(x, 28);
    UpperExact(y, 28);
    UpperExact(0xf000_0000, 28);
    var h := x / 0x1000_0000;
    BitwiseSplit(Both, x, 0xf000_0000, 28, 4);
    AndWithZeros(x, 0xf000_0000, 28);
    AndWithOnes(h, 4);
    var top := And(x, 0xf000_0000);
    assert top == 0x1000_0000 * h;
    BitwiseSplit(Either, top, y, 28, 4);
    UpperExact(top, 28);
    OrWithZeros(top, y, 28);
    OrWithNone(h, 4);
  }

  lemma {:induction false} AndWithOnes(a: nat, n: nat)
    requires a < Pow2(n)
    ensures Bitwise(Both, a, Pow2(n) - 1, n) == a
  {
    if n > 0 {
      AndWithOnes(a / 2, n - 1);
      assert (Pow2(n) - 1) / 2 == Pow2(n - 1) - 1 && (Pow2(n) - 1) % 2 == 1;
    }
  }

  lemma {:induction false} OrWithNone(a: nat, n: nat)
    requires a < Pow2(n)
    ensures Bitwise(Either, a, 0, n) == a
  {
    if n > 0 {
      OrWithNone(a / 2, n - 1);
    }
  }
}
