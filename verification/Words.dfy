// 32-bit machine words and bytes as bounded integers.  Every wrap-around,
// shift and mask of the simulated machine is written out here as arithmetic
// modulo 2^32; a word holds the unsigned reading of its 32 bits.
module Words {

  type Byte = b: int | 0 <= b < 0x100
  type Word = w: int | 0 <= w < 0x1_0000_0000

  // A product, for proofs that are not to look into it.
  function Times(x: int, y: int): int { x * y }

  // The signed (two's complement) reading of a word.
  function Signed(w: Word): (s: int)
    ensures -0x8000_0000 <= s < 0x8000_0000
  {
    if w < 0x8000_0000 then w else w - 0x1_0000_0000
  }

  // A C int of the host, and the one that an int expression wraps around to.
  type HostInt = x: int | -0x8000_0000 <= x < 0x8000_0000

  function Host(x: int): HostInt { Signed(Wrap(x)) }

  // The word that holds an arbitrary integer after wrap-around.
  function Wrap(x: int): Word
  {
    x % 0x1_0000_0000
  }

  // Byte k (0 = least significant) of a word.
  function ByteOf(w: Word, k: nat): (b: Byte)
    requires k < 4
  {
    if k == 0 then w % 0x100
    else if k == 1 then w / 0x100 % 0x100
    else if k == 2 then w / 0x100 / 0x100 % 0x100
    else w / 0x100 / 0x100 / 0x100
  }

  // The word whose little-endian bytes are the arguments.
  function Join(b0: Byte, b1: Byte, b2: Byte, b3: Byte): (w: Word)
    ensures ByteOf(w, 0) == b0 && ByteOf(w, 1) == b1 && ByteOf(w, 2) == b2 && ByteOf(w, 3) == b3
  {
    b0 + 0x100 * (b1 + 0x100 * (b2 + 0x100 * b3))
  }

  lemma JoinBytes(w: Word)
    ensures Join(ByteOf(w, 0), ByteOf(w, 1), ByteOf(w, 2), ByteOf(w, 3)) == w
  {
  }

  function Pow2(n: nat): (p: nat)
    ensures p >= 1
  {
    if n == 0 then 1 else 2 * Pow2(n - 1)
  }

  lemma {:induction false} PowAdd(m: nat, n: nat)
    ensures Pow2(m + n) == Pow2(m) * Pow2(n)
  {
    if m > 0 {
      PowAdd(m - 1, n);
      assert Pow2(m + n) == 2 * (Pow2(m - 1) * Pow2(n));
    }
  }

  lemma WordPow()
    ensures Pow2(32) == 0x1_0000_0000
  {
    assert Pow2(8) == 0x100;
    PowAdd(8, 8);
    PowAdd(16, 16);
  }

  // Bit k of a number, bit 0 being the last one.
  predicate BitOf(x: nat, k: nat) {
    if k == 0 then x % 2 == 1 else BitOf(x / 2, k - 1)
  }

  // An operation on each of the n lowest bits of two numbers.
  function Bitwise(op: (bool, bool) -> bool, a: nat, b: nat, n: nat): (r: nat)
    ensures r < Pow2(n)
  {
    if n == 0 then 0
    else (if op(a % 2 == 1, b % 2 == 1) then 1 else 0) + 2 * Bitwise(op, a / 2, b / 2, n - 1)
  }

  function Both(p: bool, q: bool): bool { p && q }
  function Either(p: bool, q: bool): bool { p || q }
  function Unequal(p: bool, q: bool): bool { p != q }

  function And(a: Word, b: Word): Word { WordPow(); Bitwise(Both, a, b, 32) }
  function Or(a: Word, b: Word): Word { WordPow(); Bitwise(Either, a, b, 32) }
  function Xor(a: Word, b: Word): Word { WordPow(); Bitwise(Unequal, a, b, 32) }
  function Not(a: Word): Word { 0x1_0000_0000 - 1 - a }

  // Left shift, and the right shift of a host int, which copies the sign.
  function ShiftLeft(w: Word, n: nat): Word { Wrap(w * Pow2(n)) }

  function ShiftRight(w: Word, n: nat): Word { Wrap(Signed(w) / Pow2(n)) }

  predicate Negative(w: Word) { w >= 0x8000_0000 }

  function Abs(x: int): nat { if x < 0 then -x else x }

  // C division truncates towards zero; the remainder has the dividend's sign.
  function Quotient(a: int, b: int): (q: int)
    requires b != 0
  {
    var m := Abs(a) / Abs(b);
    if (a < 0) == (b < 0) then m else -m
  }

  function Remainder(a: int, b: int): int
    requires b != 0
  {
    a - b * Quotient(a, b)
  }

  // A sequence with some of its bytes replaced.
  function Splice(s: seq<Byte>, at: nat, bytes: seq<Byte>): (r: seq<Byte>)
    requires at + |bytes| <= |s|
    ensures |r| == |s|
    ensures forall i :: 0 <= i < |s| ==> r[i] == if at <= i < at + |bytes| then bytes[i - at] else s[i]
  {
    s[..at] + bytes + s[at + |bytes|..]
  }
}
