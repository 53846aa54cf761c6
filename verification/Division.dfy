// What the division instructions leave in HI and LO.
module Division {
  import opened Words
  import opened Mips
  import Multiply

  function Div(x: nat, y: nat): (q: int)
    requires y > 0
    ensures q >= 0
  {
    x / y
  }

  function Mod(x: nat, y: nat): (r: int)
    requires y > 0
    ensures r >= 0
  {
    x % y
  }

  // C's division: the quotient rounds towards zero and the remainder has the
  // sign of the dividend.
  lemma TruncatedDivision(a: int, b: int)
    requires b != 0
    ensures a == Times(Quotient(a, b), b) + Remainder(a, b)
    ensures Abs(Remainder(a, b)) < Abs(b) && Abs(Quotient(a, b)) <= Abs(a)
    ensures Remainder(a, b) == 0 || (Remainder(a, b) < 0) == (a < 0)
    ensures Abs(b) > 1 && a != 0 ==> Abs(Quotient(a, b)) < Abs(a)
  {
    hide Times, Quotient, Remainder;
    var m, r := Magnitudes(a, b);
    SignsWork(a, b, m, r, Quotient(a, b), Remainder(a, b));
  }

  // Quotient and remainder of the magnitudes.
  lemma Magnitudes(a: int, b: int) returns (m: int, r: int)
    requires b != 0
    ensures Abs(a) == Times(m, Abs(b)) + r && 0 <= r < Abs(b) && 0 <= m <= Abs(a)
    ensures Abs(b) > 1 && a != 0 ==> m < Abs(a)
    ensures Quotient(a, b) == if (a < 0) == (b < 0) then m else -m
    ensures Remainder(a, b) == a - Times(Quotient(a, b), b)
  {
    hide Quotient, Remainder, Times, Div, Mod, Abs;
    AbsPositive(a);
    AbsPositive(b);
    m, r := Div(Abs(a), Abs(b)), Mod(Abs(a), Abs(b));
    DivisionOf(Abs(a), Abs(b));
    QuotientSign(a, b);
    RemainderIs(a, b);
  }

  lemma AbsPositive(x: int)
    ensures x != 0 ==> Abs(x) > 0
  {
  }

  lemma QuotientSign(a: int, b: int)
    requires b != 0
    ensures Quotient(a, b) == if (a < 0) == (b < 0) then Div(Abs(a), Abs(b)) else -Div(Abs(a), Abs(b))
  {
  }

  lemma RemainderIs(a: int, b: int)
    requires b != 0
    ensures Remainder(a, b) == a - Times(Quotient(a, b), b)
  {
    hide Quotient;
    TimesCommutes(b, Quotient(a, b));
  }

  lemma SignsWork(a: int, b: int, m: int, r: int, q: int, rest: int)
    requires b != 0 && Abs(a) == Times(m, Abs(b)) + r && 0 <= r < Abs(b)
    requires q == (if (a < 0) == (b < 0) then m else -m) && rest == a - Times(q, b)
    ensures rest == if a < 0 then -r else r
  {
    hide Times;
    TimesSigns(m, b);
  }

  lemma DivisionOf(x: nat, y: nat)
    requires y > 0
    ensures x == Times(Div(x, y), y) + Mod(x, y) && Mod(x, y) < y && Div(x, y) <= x
    ensures y > 1 && x > 0 ==> Div(x, y) < x
  {
    var q := x / y;
    Multiply.MulMono(1, y, q);
    if y > 1 {
      Multiply.MulMono(2, y, q);
    }
  }

  lemma TimesSigns(m: int, b: int)
    ensures Times(m, b) == if b < 0 then -Times(m, Abs(b)) else Times(m, Abs(b))
    ensures Times(-m, b) == -Times(m, b)
  {
  }

  lemma TimesCommutes(x: int, y: int)
    ensures x * y == Times(y, x)
  {
  }

  // DIV and DIVU leave quotient and remainder in LO and HI; the one signed
  // quotient that does not fit wraps around.
  lemma DivisionExact(s: Word, t: Word)
    requires t != 0
    ensures var (hi, lo) := HiLoPair(DIVU, s, t); s == lo * t + hi && hi < t
    ensures var (hi, lo) := HiLoPair(DIV, s, t);
            && (Signed(s) == -0x8000_0000 && Signed(t) == -1 ==> Signed(lo) == -0x8000_0000 && hi == 0)
            && (!(Signed(s) == -0x8000_0000 && Signed(t) == -1) ==> Signed(s) == Signed(lo) * Signed(t) + Signed(hi))
            && Abs(Signed(hi)) < Abs(Signed(t)) && (Signed(hi) == 0 || (Signed(hi) < 0) == (Signed(s) < 0))
  {
    hide Quotient, Remainder;
    DivisionOf(s, t);
    var a, b := Signed(s), Signed(t);
    TruncatedDivision(a, b);
    SignedOfWrap(Remainder(a, b));
    SignedOfWrap(Quotient(a, b));
    ByMinusOne(a, b);
  }

  lemma SignedOfWrap(x: int)
    ensures -0x8000_0000 <= x < 0x8000_0000 ==> Signed(Wrap(x)) == x
    ensures x == 0x8000_0000 ==> Signed(Wrap(x)) == -0x8000_0000
  {
  }

  lemma ByMinusOne(a: int, b: int)
    requires b != 0
    ensures b == -1 ==> Quotient(a, b) == -a && Remainder(a, b) == 0
    ensures b == 1 ==> Quotient(a, b) == a && Remainder(a, b) == 0
  {
  }
}
