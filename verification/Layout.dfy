// How the file system's structures lie in the bytes of the disk: words in
// host (little-endian) order, file headers of one sector, the free map, and
// directory entries; each with the proof that reading gives back what was
// written.
module Layout {
  import opened Words

  type Sector = s: seq<Byte> | |s| == 128 witness seq(128, i => 0)

  // ----------------------------------------------------------------- words

  function EncodeWords(ws: seq<Word>): (bytes: seq<Byte>)
    ensures |bytes| == 4 * |ws|
  {
    seq(4 * |ws|, j requires 0 <= j < 4 * |ws| => ByteOf(ws[j / 4], j % 4))
  }

  function DecodeWords(bytes: seq<Byte>): (ws: seq<Word>)
    ensures |ws| == |bytes| / 4
  {
    seq(|bytes| / 4, i requires 0 <= i < |bytes| / 4 =>
      Join(bytes[4 * i], bytes[4 * i + 1], bytes[4 * i + 2], bytes[4 * i + 3]))
  }

  lemma WordsRoundTrip(ws: seq<Word>)
    ensures DecodeWords(EncodeWords(ws)) == ws
  {
    hide ByteOf, Join;
    forall i | 0 <= i < |ws|
      ensures DecodeWords(EncodeWords(ws))[i] == ws[i]
    {
      JoinBytes(ws[i]);
    }
  }

  // --------------------------------------------------------------- headers

  // filesys/filehdr.h: FileHeader, 32 words in one sector.
  datatype Header = Header(numBytes: Word, numSectors: Word, dataSectors: seq<Word>)

  predicate HeaderShape(h: Header) { |h.dataSectors| == 30 }

  function EncodeHeader(h: Header): Sector
    requires HeaderShape(h)
  {
    EncodeWords([h.numBytes, h.numSectors] + h.dataSectors)
  }

  function DecodeHeader(s: Sector): (h: Header)
    ensures HeaderShape(h)
  {
    var ws := DecodeWords(s);
    Header(ws[0], ws[1], ws[2..])
  }

  lemma HeaderRoundTrip(h: Header)
    requires HeaderShape(h)
    ensures DecodeHeader(EncodeHeader(h)) == h
  {
    hide DecodeWords, EncodeWords;
    WordsRoundTrip([h.numBytes, h.numSectors] + h.dataSectors);
  }

  // -------------------------------------------------------------- free map

  // Bits in a byte, the first one worth 1.
  function Pack(bits: seq<bool>): nat {
    if bits == [] then 0 else (if bits[0] then 1 else 0) + 2 * Pack(bits[1..])
  }

  lemma {:induction false} PackBit(bits: seq<bool>, k: nat)
    requires k < |bits|
    ensures BitOf(Pack(bits), k) == bits[k]
  {
    PackHalves(bits);
    hide Pack;
    if k > 0 {
      PackBit(bits[1..], k - 1);
      assert bits[1..][k - 1] == bits[k];
      assert BitOf(Pack(bits), k) == BitOf(Pack(bits) / 2, k - 1);
    }
  }

  lemma PackHalves(bits: seq<bool>)
    requires bits != []
    ensures Pack(bits) / 2 == Pack(bits[1..]) && (Pack(bits) % 2 == 1 <==> bits[0])
  {
    var rest: nat := Pack(bits[1..]);
    assert Pack(bits) == (if bits[0] then 1 else 0) + 2 * rest;
  }

  lemma PackByte(bits: seq<bool>)
    requires |bits| == 8
    ensures Pack(bits) < 0x100
  {
    PackBound(bits, 8);
  }

  lemma {:induction false} PackBound(bits: seq<bool>, n: nat)
    requires |bits| == n
    ensures Pack(bits) < Pow2(n)
  {
    if n > 0 {
      PackBound(bits[1..], n - 1);
    }
  }

  function PackedByte(bits: seq<bool>): Byte
    requires |bits| == 8
  {
    PackByte(bits);
    Pack(bits)
  }

  function EncodeBits(bits: seq<bool>): (bytes: seq<Byte>)
    requires |bits| % 8 == 0
    ensures |bytes| == |bits| / 8
  {
    seq(|bits| / 8, i requires 0 <= i < |bits| / 8 => PackedByte(bits[8 * i..8 * i + 8]))
  }

  function DecodeBits(bytes: seq<Byte>): (bits: seq<bool>)
    ensures |bits| == 8 * |bytes|
  {
    seq(8 * |bytes|, j requires 0 <= j < 8 * |bytes| => BitOf(bytes[j / 8], j % 8))
  }

  lemma BitOfPacked(bits: seq<bool>, j: nat)
    requires |bits| % 8 == 0 && j < |bits|
    ensures 8 * (j / 8) + 8 <= |bits| && BitOf(PackedByte(bits[8 * (j / 8)..8 * (j / 8) + 8]), j % 8) == bits[j]
  {
    var i, k := j / 8, j % 8;
    assert j == 8 * i + k;
    PackBit(bits[8 * i..8 * i + 8], k);
  }

  lemma BitsRoundTrip(bits: seq<bool>)
    requires |bits| % 8 == 0
    ensures DecodeBits(EncodeBits(bits)) == bits
  {
    hide PackedByte, BitOf;
    forall j | 0 <= j < |bits|
      ensures DecodeBits(EncodeBits(bits))[j] == bits[j]
    {
      BitOfPacked(bits, j);
    }
  }

  // ------------------------------------------------------------- directory

  // filesys/directory.h: DirectoryEntry, 20 bytes with its padding.
  datatype DirectoryEntry = DirectoryEntry(inUse: bool, sector: Word, name: seq<Byte>)

  predicate EntryShape(e: DirectoryEntry) { |e.name| == 10 }

  function EncodeEntry(e: DirectoryEntry): (bytes: seq<Byte>)
    requires EntryShape(e)
    ensures |bytes| == 20
  {
    [if e.inUse then 1 else 0, 0, 0, 0]
    + [ByteOf(e.sector, 0), ByteOf(e.sector, 1), ByteOf(e.sector, 2), ByteOf(e.sector, 3)]
    + e.name + [0, 0]
  }

  function DecodeEntry(b: seq<Byte>): (e: DirectoryEntry)
    requires |b| == 20
    ensures EntryShape(e)
  {
    DirectoryEntry(b[0] != 0, Join(b[4], b[5], b[6], b[7]), b[8..18])
  }

  lemma EntryRoundTrip(e: DirectoryEntry)
    requires EntryShape(e)
    ensures DecodeEntry(EncodeEntry(e)) == e
  {
    hide ByteOf, Join;
    JoinBytes(e.sector);
  }

  predicate TableShape(table: seq<DirectoryEntry>) {
    forall i :: 0 <= i < |table| ==> EntryShape(table[i])
  }

  function EncodeTable(table: seq<DirectoryEntry>): (bytes: seq<Byte>)
    requires TableShape(table)
    ensures |bytes| == 20 * |table|
  {
    seq(20 * |table|, j requires 0 <= j < 20 * |table| => EncodeEntry(table[j / 20])[j % 20])
  }

  function DecodeTable(bytes: seq<Byte>): (table: seq<DirectoryEntry>)
    ensures |table| == |bytes| / 20 && TableShape(table)
  {
    seq(|bytes| / 20, i requires 0 <= i < |bytes| / 20 => DecodeEntry(bytes[20 * i..20 * i + 20]))
  }

  lemma TableRoundTrip(table: seq<DirectoryEntry>)
    requires TableShape(table)
    ensures DecodeTable(EncodeTable(table)) == table
  {
    hide EncodeEntry, DecodeEntry;
    forall i | 0 <= i < |table|
      ensures DecodeTable(EncodeTable(table))[i] == table[i]
    {
      EntryRoundTrip(table[i]);
      SliceOfTable(table, i);
    }
  }

  lemma SliceOfTable(table: seq<DirectoryEntry>, i: nat)
    requires TableShape(table) && i < |table|
    ensures EncodeTable(table)[20 * i..20 * i + 20] == EncodeEntry(table[i])
  {
    hide EncodeEntry;
    var slice := EncodeTable(table)[20 * i..20 * i + 20];
    forall k: nat | k < 20
      ensures slice[k] == EncodeEntry(table[i])[k]
    {
      Cell(i, k);
    }
  }

  lemma Cell(i: nat, k: nat)
    requires k < 20
    ensures (20 * i + k) / 20 == i && (20 * i + k) % 20 == k
  {
  }
}
