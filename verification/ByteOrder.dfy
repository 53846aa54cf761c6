// What reads and writes of the simulated memory mean in numbers: little-endian
// byte order, cut to the size of the access.
module ByteOrder {
  import opened Words
  import opened Memory

  // The value of bytes, the first one worth least.
  function Number(bytes: seq<Byte>): nat {
    if bytes == [] then 0 else bytes[0] + 0x100 * Number(bytes[1..])
  }

  lemma Numbers(s: seq<Byte>)
    ensures |s| == 1 ==> Number(s) == s[0]
    ensures |s| == 2 ==> Number(s) == s[0] as int + 0x100 * (s[1] as int)
    ensures |s| == 4 ==> Number(s) == s[0] as int + 0x100 * (s[1] as int) + 0x1_0000 * (s[2] as int)
                                      + 0x100_0000 * (s[3] as int)
  {
    if |s| == 4 {
      assert Number(s) == s[0] + 0x100 * Number(s[1..]);
      assert Number(s[1..]) == s[1] + 0x100 * Number(s[2..]);
      assert Number(s[2..]) == s[2] + 0x100 * Number(s[3..]);
      assert Number(s[3..]) == s[3];
    }
  }

  // 0x100 to the number of bytes.
  function Range(size: Size): nat {
    match size
    case One => 0x100
    case Two => 0x1_0000
    case Four => 0x1_0000_0000
  }

  // An access of n bytes is possible at the multiples of n that leave n bytes
  // to the end.
  predicate Fits(mem: seq<Byte>, addr: Word, n: nat)
    requires n > 0
  {
    addr % n == 0 && addr + n <= |mem|
  }

  lemma FailsExact(mem: seq<Byte>, addr: Word, size: Size, value: Word)
    ensures FlatFails(mem, addr, size) <==> !Fits(mem, addr, size.Bytes())
    ensures FlatFails(mem, addr, size) ==>
              && FlatRead(mem, addr, size) == ReadFails(AddressErrorException)
              && FlatWrite(mem, addr, size, value) == WriteFails(AddressErrorException)
  {
  }

  // A write leaves the low bytes of the value, in little-endian order, at the
  // address, and every other byte as it was.
  lemma WriteExact(mem: seq<Byte>, addr: Word, size: Size, value: Word)
    ensures FlatWrite(mem, addr, size, value).Written? <==> Fits(mem, addr, size.Bytes())
    ensures Fits(mem, addr, size.Bytes()) ==>
              var mem', n := FlatWrite(mem, addr, size, value).mem, size.Bytes();
              && |mem'| == |mem|
              && Number(mem'[addr..addr + n]) == value % Range(size)
              && forall j :: 0 <= j < |mem| && !(addr <= j < addr + n) ==> mem'[j] == mem[j]
  {
    hide FlatFails, StoredBytes, Fits;
    FailsExact(mem, addr, size, value);
    if FlatWrite(mem, addr, size, value).Written? {
      assert addr + size.Bytes() <= |mem| by { FitsInside(mem, addr, size); }
      var mem' := FlatWrite(mem, addr, size, value).mem;
      assert mem'[addr..addr + size.Bytes()] == StoredBytes(value, size);
      StoredNumber(value, size);
    }
  }

  lemma FitsInside(mem: seq<Byte>, addr: Word, size: Size)
    requires Fits(mem, addr, size.Bytes())
    ensures addr + size.Bytes() <= |mem|
  {
  }

  lemma StoredNumber(value: Word, size: Size)
    ensures Number(StoredBytes(value, size)) == value % Range(size)
  {
    Numbers(StoredBytes(value, size));
    hide Number, ByteOf;
    LowBytes(value);
  }

  lemma LowBytes(w: Word)
    ensures ByteOf(w, 0) == w % 0x100
    ensures ByteOf(w, 0) as int + 0x100 * (ByteOf(w, 1) as int) == w % 0x1_0000
    ensures ByteOf(w, 0) as int + 0x100 * (ByteOf(w, 1) as int) + 0x1_0000 * (ByteOf(w, 2) as int)
            + 0x100_0000 * (ByteOf(w, 3) as int) == w
  {
  }

  // A read gives the number the bytes make; of a single byte the host's char
  // gives the signed one.
  lemma ReadExact(mem: seq<Byte>, addr: Word, size: Size)
    ensures FlatRead(mem, addr, size).Value? <==> Fits(mem, addr, size.Bytes())
    ensures Fits(mem, addr, size.Bytes()) ==>
              && addr + size.Bytes() <= |mem|
              && var v, k := FlatRead(mem, addr, size).word, Number(mem[addr..addr + size.Bytes()]);
                 v == if size == One && k >= 0x80 then k + 0xffff_ff00 else k
  {
    hide FlatFails, LoadedValue, Fits;
    FailsExact(mem, addr, size, 0);
    if FlatRead(mem, addr, size).Value? {
      FitsInside(mem, addr, size);
      LoadedNumber(mem[addr..addr + size.Bytes()], size);
    }
  }

  lemma LoadedNumber(s: seq<Byte>, size: Size)
    requires |s| == size.Bytes()
    ensures LoadedValue(s, size) == if size == One && Number(s) >= 0x80 then Number(s) + 0xffff_ff00 else Number(s)
  {
    Numbers(s);
    hide Number;
  }
}
