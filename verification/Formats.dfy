// The bytes of the structures on disk and on the wire, in numbers.
module Formats {
  import opened Words
  import opened Layout
  import opened Network

  // The word at byte i, least significant byte first.
  function WordAt(b: seq<Byte>, i: nat): nat
    requires i + 4 <= |b|
  {
    b[i] as int + 0x100 * (b[i + 1] as int) + 0x1_0000 * (b[i + 2] as int) + 0x100_0000 * (b[i + 3] as int)
  }

  lemma SumOfBytes(w: Word)
    ensures ByteOf(w, 0) as int + 0x100 * (ByteOf(w, 1) as int) + 0x1_0000 * (ByteOf(w, 2) as int)
            + 0x100_0000 * (ByteOf(w, 3) as int) == w
  {
  }

  lemma WordsExact(ws: seq<Word>, i: nat)
    requires i < |ws|
    ensures WordAt(EncodeWords(ws), 4 * i) == ws[i]
  {
    hide ByteOf;
    SumOfBytes(ws[i]);
  }

  // A file header is its length in bytes, its length in sectors, and the
  // sectors.
  lemma HeaderExact(h: Header, i: nat)
    requires HeaderShape(h) && i < 30
    ensures var s := EncodeHeader(h);
            WordAt(s, 0) == h.numBytes && WordAt(s, 4) == h.numSectors && WordAt(s, 8 + 4 * i) == h.dataSectors[i]
  {
    hide EncodeWords, WordAt;
    var ws := [h.numBytes, h.numSectors] + h.dataSectors;
    WordsExact(ws, 0);
    WordsExact(ws, 1);
    WordsExact(ws, i + 2);
  }

  // Sector j has bit j % 8 of byte j / 8 of the free map.
  lemma MapExact(bits: seq<bool>, j: nat)
    requires |bits| % 8 == 0 && j < |bits|
    ensures j / 8 < |EncodeBits(bits)| && (BitOf(EncodeBits(bits)[j / 8], j % 8) <==> bits[j])
  {
    hide PackedByte, BitOf;
    BitOfPacked(bits, j);
  }

  // A directory entry is a flag of four bytes, the sector of the header, and
  // ten bytes for the name with two that fill up.
  lemma EntryExact(table: seq<DirectoryEntry>, i: nat)
    requires TableShape(table) && i < |table|
    ensures var b, e := EncodeTable(table)[20 * i..20 * i + 20], table[i];
            && b[..4] == [if e.inUse then 1 else 0, 0, 0, 0] && WordAt(b, 4) == e.sector
            && b[8..18] == e.name && b[18..] == [0, 0]
  {
    hide ByteOf, EncodeTable;
    SliceOfTable(table, i);
    SumOfBytes(table[i].sector);
  }

  // A packet is three words of its own header, three of the mail's, and the
  // data.
  lemma PacketExact(m: Mail, padding: seq<Byte>)
    ensures var b := OnWire(m, padding);
            && WordAt(b, 0) == m.pktHdr.to && WordAt(b, 4) == m.pktHdr.from && WordAt(b, 8) == m.pktHdr.length
            && WordAt(b, 12) == m.mailHdr.to && WordAt(b, 16) == m.mailHdr.from && WordAt(b, 20) == m.mailHdr.length
            && b[24..24 + |m.data|] == m.data && b[24 + |m.data|..] == padding
  {
    hide EncodeWords;
    HeaderWords(m.pktHdr.to, m.pktHdr.from, m.pktHdr.length);
    HeaderWords(m.mailHdr.to, m.mailHdr.from, m.mailHdr.length);
    var b := OnWire(m, padding);
    assert b[..12] == HeaderBytes(m.pktHdr.to, m.pktHdr.from, m.pktHdr.length);
    assert b[12..24] == HeaderBytes(m.mailHdr.to, m.mailHdr.from, m.mailHdr.length);
  }

  lemma HeaderWords(to: Word, from: Word, length: Word)
    ensures var b := HeaderBytes(to, from, length);
            WordAt(b, 0) == to && WordAt(b, 4) == from && WordAt(b, 8) == length
  {
    hide EncodeWords, WordAt;
    WordsExact([to, from, length], 0);
    WordsExact([to, from, length], 1);
    WordsExact([to, from, length], 2);
  }
}
