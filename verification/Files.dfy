// Files on a disk that transfers whole sectors only: the bytes of a file, and
// reading and writing any part of it.
module Files {
  import opened Words
  import opened Layout

  // The header describes blocks that exist, and no more than it has room for.
  predicate Readable(disk: seq<Sector>, h: Header) {
    && HeaderShape(h)
    && h.numBytes <= 3840
    && h.numSectors == SectorsFor(h.numBytes)
    && forall i :: 0 <= i < h.numSectors ==> h.dataSectors[i] < |disk|
  }

  // divRoundUp(fileSize, SectorSize)
  function SectorsFor(size: nat): (n: nat)
    ensures size <= 3840 ==> n <= 30
    ensures size <= 128 * n < size + 128
  {
    size / 128 + if size % 128 > 0 then 1 else 0
  }

  predicate Separated(h: Header) {
    && HeaderShape(h) && h.numSectors <= 30
    && forall i, j :: 0 <= i < j < h.numSectors ==> h.dataSectors[i] != h.dataSectors[j]
  }

  // Sector s holds data of the file.
  predicate HasSector(h: Header, s: int) {
    HeaderShape(h) && exists i :: 0 <= i < h.numSectors <= 30 && h.dataSectors[i] == s
  }

  // The bytes of all the blocks of the file, one block after the other.
  ghost function Blocks(disk: seq<Sector>, h: Header): (bytes: seq<Byte>)
    requires Readable(disk, h)
    ensures |bytes| == 128 * h.numSectors
  {
    seq(128 * h.numSectors, p requires 0 <= p < 128 * h.numSectors => disk[h.dataSectors[p / 128]][p % 128])
  }

  // The contents of the file; the rest of its last block is no part of it.
  ghost function FileBytes(disk: seq<Sector>, h: Header): (bytes: seq<Byte>)
    requires Readable(disk, h)
    ensures |bytes| == h.numBytes
  {
    Blocks(disk, h)[..h.numBytes]
  }

  lemma BlockSlice(disk: seq<Sector>, h: Header, i: nat)
    requires Readable(disk, h) && i < h.numSectors
    ensures Blocks(disk, h)[128 * i..128 * i + 128] == disk[h.dataSectors[i]]
  {
  }

  lemma FileSlice(disk: seq<Sector>, h: Header, p: nat, n: nat)
    requires Readable(disk, h) && p + n <= h.numBytes
    ensures FileBytes(disk, h)[p..p + n] == Blocks(disk, h)[p..p + n]
  {
  }

  // Writing block i of a file whose blocks are all different.
  lemma WriteBlock(disk: seq<Sector>, h: Header, i: nat, data: Sector)
    requires Readable(disk, h) && Separated(h) && i < h.numSectors
    ensures var disk' := disk[h.dataSectors[i] := data];
            Readable(disk', h) && Blocks(disk', h) == Splice(Blocks(disk, h), 128 * i, data)
  {
  }

  lemma SpliceTwice(s: seq<Byte>, a: nat, x: seq<Byte>, y: seq<Byte>)
    requires a + |x| + |y| <= |s|
    ensures Splice(Splice(s, a, x), a + |x|, y) == Splice(s, a, x + y)
  {
  }

  // How many bytes a request for numBytes at position transfers.
  function Transferred(length: nat, numBytes: int, position: int): (n: nat)
    ensures n > 0 ==> position + n <= length && n <= numBytes
  {
    if numBytes <= 0 || position >= length then 0
    else if position + numBytes > length then length - position
    else numBytes
  }

  // It is the most that are asked for and are there.
  lemma TransferredMost(length: nat, numBytes: int, position: nat, n: nat)
    ensures n <= Transferred(length, numBytes, position) <==> n == 0 || (n <= numBytes && position + n <= length)
  {
  }

  // The number of bytes after the source's clip, whose sum is a host int.
  function Clipped(length: nat, numBytes: HostInt, position: HostInt): int {
    if Host(position + numBytes) > length then length - position else numBytes
  }

  // The source's sector numbers: divRoundDown divides towards zero.
  function FirstSector(position: HostInt): int { Quotient(position, 128) }

  function LastSector(position: HostInt, n: int): int { Quotient(Host(position + n - 1), 128) }

  // The sectors are the header's, and the copied part is within the buffer.
  predicate StaysInside(position: HostInt, n: int) {
    var first, last := FirstSector(position), LastSector(position, n);
    && 0 <= first <= last < 30
    && 0 <= position - 128 * first && position - 128 * first + n <= 128 * (last + 1 - first)
  }

  // Nothing is asked for, or the position is not negative and the end of the
  // request is a host int.
  predicate Admissible(length: nat, numBytes: int, position: int) {
    numBytes <= 0 || position >= length || (position >= 0 && position + numBytes < 0x8000_0000)
  }

  // A request that passes the check stays inside exactly if it is admissible,
  // and is then clipped to the file.
  lemma InsideIff(position: HostInt, numBytes: HostInt, length: nat)
    requires numBytes > 0 && position < length <= 3840
    ensures StaysInside(position, Clipped(length, numBytes, position)) <==> Admissible(length, numBytes, position)
    ensures Admissible(length, numBytes, position) ==>
              Clipped(length, numBytes, position) == Transferred(length, numBytes, position)
  {
    hide Quotient, Host;
    HostSum(position + numBytes);
    TowardsZero(position);
    var end := position + Clipped(length, numBytes, position) - 1;
    HostSum(end);
    TowardsZero(Host(end));
  }

  lemma HostSum(x: int)
    requires -0x1_0000_0000 <= x < 0x1_0000_0000
    ensures Host(x) == if x >= 0x8000_0000 then x - 0x1_0000_0000 else if x < -0x8000_0000 then x + 0x1_0000_0000 else x
  {
  }

  lemma TowardsZero(x: int)
    ensures if x >= 0 then Quotient(x, 128) == x / 128
            else Quotient(x, 128) <= 0 && -128 < x - 128 * Quotient(x, 128) <= 0
  {
  }

  // Both kinds of requests that are not: the position -1, and a number of
  // bytes so large that the sum in the clip wraps around.
  lemma OutsideBoth()
    ensures !StaysInside(-1, Clipped(100, 2, -1))
    ensures !StaysInside(1, Clipped(100, 0x7fff_ffff, 1)) && Clipped(100, 0x7fff_ffff, 1) == 0x7fff_ffff
  {
  }

  // A file is not touched by a change to sectors it does not have.
  lemma OtherFilesKeep(disk: seq<Sector>, disk': seq<Sector>, h: Header)
    requires Readable(disk, h) && |disk'| == |disk|
    requires forall s :: 0 <= s < |disk| && HasSector(h, s) ==> disk'[s] == disk[s]
    ensures Readable(disk', h) && FileBytes(disk', h) == FileBytes(disk, h)
  {
  }

  method CopyFrom(from: seq<Byte>, into: array<Byte>, at: nat)
    requires at + |from| <= into.Length
    modifies into
    ensures into[..] == Splice(old(into[..]), at, from)
  {
    forall k | 0 <= k < |from| {
      into[at + k] := from[k];
    }
  }

  // bcopy between buffers
  method CopyBytes(from: array<Byte>, start: nat, into: array<Byte>, at: nat, n: nat)
    requires start + n <= from.Length && at + n <= into.Length && from != into
    modifies into
    ensures into[..] == Splice(old(into[..]), at, from[start..start + n])
  {
    forall k | 0 <= k < n {
      into[at + k] := from[start + k];
    }
  }

  class SynchDisk {
    const sectors: array<Sector>

    constructor (numSectors: nat)
      ensures fresh(sectors) && sectors.Length == numSectors
    {
      sectors := new Sector[numSectors](i => seq(128, k => 0));
    }

    method ReadSector(sector: nat) returns (data: Sector)
      requires sector < sectors.Length
      ensures data == sectors[sector]
    {
      data := sectors[sector];
    }

    method WriteSector(sector: nat, data: Sector)
      requires sector < sectors.Length
      modifies sectors
      ensures sectors[..] == old(sectors[..])[sector := data]
    {
      sectors[sector] := data;
    }
  }

  class OpenFile {
    const disk: SynchDisk
    var hdr: Header
    var seekPosition: HostInt

    ghost predicate Valid()
      reads this, disk.sectors
    {
      Readable(disk.sectors[..], hdr) && Separated(hdr)
    }

    ghost function Bytes(): seq<Byte>
      requires Valid()
      reads this, disk.sectors
    {
      FileBytes(disk.sectors[..], hdr)
    }

    constructor (d: SynchDisk, sector: nat)
      requires sector < d.sectors.Length
      ensures disk == d && hdr == DecodeHeader(d.sectors[sector]) && seekPosition == 0
    {
      disk, hdr, seekPosition := d, DecodeHeader(d.sectors[sector]), 0;
    }

    // FileHeader::ByteToSector
    function ByteToSector(offset: nat): nat
      requires HeaderShape(hdr) && offset / 128 < 30
      reads this
    {
      hdr.dataSectors[offset / 128]
    }

    // All the full and partial sectors of a request, one after the other.
    method ReadSectors(first: nat, last: nat) returns (buf: array<Byte>)
      requires Valid() && first <= last < hdr.numSectors
      ensures fresh(buf) && buf[..] == Blocks(disk.sectors[..], hdr)[128 * first..128 * (last + 1)]
    {
      hide Blocks, SectorsFor, Separated;
      buf := new Byte[128 * (last + 1 - first)];
      ghost var blocks := Blocks(disk.sectors[..], hdr);
      for i := first to last + 1
        invariant buf[..128 * (i - first)] == blocks[128 * first..128 * i]
      {
        var data := disk.ReadSector(ByteToSector(128 * i));
        BlockSlice(disk.sectors[..], hdr, i);
        PutSector(buf, 128 * (i - first), data);
        SliceGrows(blocks, 128 * first, 128 * i, 128 * i + 128);
      }
      assert buf[..] == buf[..128 * (last + 1 - first)];
    }

    // Reads into "into" from index "at".  "outside" tells that the request
    // leads outside the header or the buffer, which the source does not check
    // for; the model stops there.
    method ReadAt(into: array<Byte>, at: nat, numBytes: HostInt, position: HostInt) returns (n: nat, outside: bool)
      requires Valid()
      requires Admissible(hdr.numBytes, numBytes, position) ==>
                 at + Transferred(hdr.numBytes, numBytes, position) <= into.Length
      modifies into
      ensures outside == !Admissible(hdr.numBytes, numBytes, position)
      ensures n == if outside then 0 else Transferred(hdr.numBytes, numBytes, position)
      ensures n > 0 ==> into[..] == Splice(old(into[..]), at, Bytes()[position..position + n])
      ensures n == 0 ==> into[..] == old(into[..])
    {
      n, outside := 0, false;
      if numBytes <= 0 || position >= hdr.numBytes {
        return;
      }
      var count := Clipped(hdr.numBytes, numBytes, position);
      InsideIff(position, numBytes, hdr.numBytes);
      if !StaysInside(position, count) {
        return 0, true;
      }
      n := count;
      ReadRequest(into, at, n, position);
    }

    // The sectors of a request are read in full and its part is copied.
    method ReadRequest(into: array<Byte>, at: nat, n: nat, position: nat)
      requires Valid() && n > 0 && position + n <= hdr.numBytes && at + n <= into.Length
      modifies into
      ensures into[..] == Splice(old(into[..]), at, Bytes()[position..position + n])
    {
      hide Blocks, FileBytes, SectorsFor, Splice, Readable, Separated, HasSector;
      var firstSector, lastSector := position / 128, (position + n - 1) / 128;
      RequestSectors(position, n, hdr.numBytes);
      RequestFits(disk.sectors[..], hdr, lastSector);
      ghost var blocks := Blocks(disk.sectors[..], hdr);
      var buf := ReadSectors(firstSector, lastSector);
      FileSlice(disk.sectors[..], hdr, position, n);
      SliceInside(blocks, 128 * firstSector, 128 * (lastSector + 1), position, n);
      CopyBytes(buf, position - 128 * firstSector, into, at, n);
    }

    method PutBlock(i: nat, data: Sector)
      requires Valid() && i < hdr.numSectors
      modifies disk.sectors
      ensures Valid()
      ensures Blocks(disk.sectors[..], hdr) == Splice(old(Blocks(disk.sectors[..], hdr)), 128 * i, data)
      ensures forall s :: 0 <= s < disk.sectors.Length && !HasSector(hdr, s) ==> disk.sectors[s] == old(disk.sectors[s])
    {
      hide Blocks, SectorsFor, Splice;
      WriteBlock(disk.sectors[..], hdr, i, data);
      assert HasSector(hdr, hdr.dataSectors[i]);
      assert ByteToSector(128 * i) == hdr.dataSectors[i];
      disk.WriteSector(ByteToSector(128 * i), data);
    }

    method WriteSectors(buf: array<Byte>, first: nat, last: nat)
      requires Valid() && first <= last < hdr.numSectors && buf.Length == 128 * (last + 1 - first)
      modifies disk.sectors
      ensures Valid()
      ensures Blocks(disk.sectors[..], hdr) == Splice(old(Blocks(disk.sectors[..], hdr)), 128 * first, old(buf[..]))
      ensures forall s :: 0 <= s < disk.sectors.Length && !HasSector(hdr, s) ==> disk.sectors[s] == old(disk.sectors[s])
    {
      hide Blocks, SectorsFor, Splice, HasSector, Readable, Separated;
      ghost var blocks := Blocks(disk.sectors[..], hdr);
      ghost var bytes := buf[..];
      NoSplice(blocks, 128 * first);
      for i := first to last + 1
        invariant Valid() && buf[..] == bytes
        invariant Blocks(disk.sectors[..], hdr) == Splice(blocks, 128 * first, bytes[..128 * (i - first)])
        invariant forall s :: 0 <= s < disk.sectors.Length && !HasSector(hdr, s) ==>
                    disk.sectors[s] == old(disk.sectors[s])
      {
        var base := 128 * (i - first);
        SpliceTwice(blocks, 128 * first, bytes[..base], bytes[base..base + 128]);
        SliceGrows(bytes, 0, base, base + 128);
        PutBlock(i, buf[base..base + 128]);
      }
      assert bytes[..128 * (last + 1 - first)] == bytes;
    }

    method WriteAt(from: seq<Byte>, numBytes: HostInt, position: HostInt) returns (n: nat, outside: bool)
      requires Valid() && numBytes <= |from|
      modifies disk.sectors
      ensures Valid() && outside == !Admissible(hdr.numBytes, numBytes, position)
      ensures n == if outside then 0 else Transferred(hdr.numBytes, numBytes, position)
      ensures n > 0 ==> Bytes() == Splice(old(Bytes()), position, from[..n])
      ensures n == 0 ==> disk.sectors[..] == old(disk.sectors[..])
      ensures forall s :: 0 <= s < disk.sectors.Length && !HasSector(hdr, s) ==> disk.sectors[s] == old(disk.sectors[s])
    {
      n, outside := 0, false;
      if numBytes <= 0 || position >= hdr.numBytes {
        return;
      }
      var count := Clipped(hdr.numBytes, numBytes, position);
      InsideIff(position, numBytes, hdr.numBytes);
      if !StaysInside(position, count) {
        return 0, true;
      }
      n := count;
      WriteRequest(from[..n], position);
    }

    // The partial sectors are read in, the data copied over, and all of the
    // request's sectors written.
    method WriteRequest(from: seq<Byte>, position: nat)
      requires Valid() && from != [] && position + |from| <= hdr.numBytes
      modifies disk.sectors
      ensures Valid() && Bytes() == Splice(old(Bytes()), position, from)
      ensures forall s :: 0 <= s < disk.sectors.Length && !HasSector(hdr, s) ==> disk.sectors[s] == old(disk.sectors[s])
    {
      hide Blocks, SectorsFor, Splice, HasSector, Readable, Separated;
      var firstSector, lastSector := position / 128, (position + |from| - 1) / 128;
      RequestSectors(position, |from|, hdr.numBytes);
      RequestFits(disk.sectors[..], hdr, lastSector);
      var buf := PrepareBuffer(from, position, firstSector, lastSector);
      PreparedWrite(Blocks(disk.sectors[..], hdr), hdr.numBytes, position, from, buf[..], firstSector);
      WriteSectors(buf, firstSector, lastSector);
    }

    method Seek(position: HostInt)
      modifies this`seekPosition
      ensures seekPosition == position
    {
      seekPosition := position;
    }

    // The position moves on by what was written.
    method Write(from: seq<Byte>, numBytes: HostInt) returns (n: nat, outside: bool)
      requires Valid() && numBytes <= |from|
      modifies disk.sectors, this`seekPosition
      ensures Valid() && outside == !Admissible(hdr.numBytes, numBytes, old(seekPosition))
      ensures n == if outside then 0 else Transferred(hdr.numBytes, numBytes, old(seekPosition))
      ensures seekPosition == old(seekPosition) + n
      ensures n > 0 ==> Bytes() == Splice(old(Bytes()), old(seekPosition), from[..n])
      ensures n == 0 ==> disk.sectors[..] == old(disk.sectors[..])
      ensures forall s :: 0 <= s < disk.sectors.Length && !HasSector(hdr, s) ==> disk.sectors[s] == old(disk.sectors[s])
    {
      hide HasSector;
      n, outside := WriteAt(from, numBytes, seekPosition);
      seekPosition := seekPosition + n;
    }

    // The buffer of a write: the sectors that will be partly written are read
    // in, then the data is copied over.
    method PrepareBuffer(from: seq<Byte>, position: nat, first: nat, last: nat) returns (buf: array<Byte>)
      requires Valid() && from != [] && position + |from| <= hdr.numBytes
      requires first == position / 128 && last == (position + |from| - 1) / 128
      ensures fresh(buf) && buf.Length == 128 * (last + 1 - first)
      ensures Prepared(buf[..], Splice(Bytes(), position, from), first)
    {
      hide FileBytes, Splice, SectorsFor, SectorKnown, Prepared, Readable;
      RequestSectors(position, |from|, hdr.numBytes);
      ghost var bytes := Bytes();
      buf := new Byte[128 * (last + 1 - first)];
      var firstAligned := position == 128 * first;
      var lastAligned := position + |from| == 128 * (last + 1);
      if !firstAligned {
        ReadSector(buf, first, first);
      }
      if !lastAligned && (first != last || firstAligned) {
        if !firstAligned {
          KnownElsewhere(buf[..], bytes, first, first, last, SectorData(bytes, last));
        }
        ReadSector(buf, first, last);
      }
      PreparedFrom(buf[..], bytes, from, position, first, last);
      CopyFrom(from, buf, position - 128 * first);
    }

    // One sector, as far as the file goes, into its place in the buffer.
    method ReadSector(buf: array<Byte>, first: nat, sector: nat)
      requires Valid() && first <= sector && 128 * (sector - first) + 128 <= buf.Length && 128 * sector < hdr.numBytes
      modifies buf
      ensures buf[..] == Splice(old(buf[..]), 128 * (sector - first), SectorData(Bytes(), sector))
      ensures SectorKnown(buf[..], Bytes(), first, sector)
    {
      hide FileBytes, Splice, SectorsFor, SectorKnown, Readable;
      SmallFile(disk.sectors[..], hdr);
      var n, outside := ReadAt(buf, 128 * (sector - first), 128, 128 * sector);
      KnownAfterRead(old(buf[..]), Bytes(), first, sector, n);
    }

    // The position moves on by what was read.
    method Read(into: array<Byte>, numBytes: HostInt) returns (n: nat, outside: bool)
      requires Valid()
      requires Admissible(hdr.numBytes, numBytes, seekPosition) ==>
                 Transferred(hdr.numBytes, numBytes, seekPosition) <= into.Length
      modifies into, this`seekPosition
      ensures outside == !Admissible(hdr.numBytes, numBytes, old(seekPosition))
      ensures n == if outside then 0 else Transferred(hdr.numBytes, numBytes, old(seekPosition))
      ensures seekPosition == old(seekPosition) + n
      ensures n > 0 ==> into[..] == Splice(old(into[..]), 0, Bytes()[old(seekPosition)..seekPosition])
      ensures n == 0 ==> into[..] == old(into[..])
    {
      n, outside := ReadAt(into, 0, numBytes, seekPosition);
      seekPosition := seekPosition + n;
    }
  }

  // The whole sectors of a write, cut to the length of the file, are the
  // bytes the file is to have there.
  ghost predicate Prepared(buf: seq<Byte>, goal: seq<Byte>, first: nat) {
    forall j :: 0 <= j < |buf| && 128 * first + j < |goal| ==> buf[j] == goal[128 * first + j]
  }

  // The buffer holds what the file has in sector number "sector".
  ghost predicate SectorKnown(buf: seq<Byte>, bytes: seq<Byte>, first: nat, sector: nat) {
    forall j ::
      128 * (sector - first) <= j < 128 * (sector - first) + 128 && 0 <= j < |buf| && 128 * first + j < |bytes| ==>
      buf[j] == bytes[128 * first + j]
  }

  // What the file has in one sector.
  function SectorData(bytes: seq<Byte>, sector: nat): (data: seq<Byte>)
    requires 128 * sector < |bytes|
    ensures 0 < |data| <= 128
  {
    bytes[128 * sector..if 128 * sector + 128 <= |bytes| then 128 * sector + 128 else |bytes|]
  }

  lemma KnownAfterRead(buf: seq<Byte>, bytes: seq<Byte>, first: nat, sector: nat, n: nat)
    requires first <= sector && 128 * (sector - first) + n <= |buf| && 128 * sector + n <= |bytes|
    requires n == 128 || 128 * sector + n == |bytes|
    ensures SectorKnown(Splice(buf, 128 * (sector - first), bytes[128 * sector..128 * sector + n]),
                        bytes, first, sector)
  {
  }

  lemma KnownElsewhere(buf: seq<Byte>, bytes: seq<Byte>, first: nat, sector: nat, other: nat, data: seq<Byte>)
    requires first <= sector && first <= other && sector != other
    requires |data| <= 128 && 128 * (other - first) + |data| <= |buf| && SectorKnown(buf, bytes, first, sector)
    ensures SectorKnown(Splice(buf, 128 * (other - first), data), bytes, first, sector)
  {
  }

  // With the partial sectors read in, copying the data prepares the write.
  lemma PreparedFrom(buf: seq<Byte>, bytes: seq<Byte>, data: seq<Byte>, position: nat, first: nat, last: nat)
    requires data != [] && position + |data| <= |bytes|
    requires 128 * first <= position < 128 * first + 128 && 128 * last < position + |data| <= 128 * last + 128
    requires first <= last && |buf| == 128 * (last + 1 - first)
    requires position != 128 * first ==> SectorKnown(buf, bytes, first, first)
    requires position + |data| != 128 * (last + 1) ==> SectorKnown(buf, bytes, first, last)
    ensures Prepared(Splice(buf, position - 128 * first, data), Splice(bytes, position, data), first)
  {
  }

  lemma PreparedWrite(blocks: seq<Byte>, length: nat, position: nat, data: seq<Byte>, buf: seq<Byte>, first: nat)
    requires length <= |blocks| && position + |data| <= length
    requires 128 * first <= position && position + |data| <= 128 * first + |buf| <= |blocks|
    requires Prepared(buf, Splice(blocks[..length], position, data), first)
    ensures Splice(blocks, 128 * first, buf)[..length] == Splice(blocks[..length], position, data)
  {
  }

  // The sectors of a request lie within the file's blocks.
  lemma RequestSectors(position: nat, n: nat, length: nat)
    requires n > 0 && position + n <= length
    ensures position / 128 <= (position + n - 1) / 128 < SectorsFor(length)
    ensures 128 * (position / 128) <= position && position + n <= 128 * ((position + n - 1) / 128 + 1)
  {
  }

  lemma SmallFile(disk: seq<Sector>, h: Header)
    requires Readable(disk, h)
    ensures h.numBytes <= 3840
  {
  }

  lemma RequestFits(disk: seq<Sector>, h: Header, last: nat)
    requires Readable(disk, h) && last < SectorsFor(h.numBytes)
    ensures last < h.numSectors && 128 * (last + 1) <= |Blocks(disk, h)| && h.numBytes <= |Blocks(disk, h)|
  {
  }

  method PutSector(buf: array<Byte>, base: nat, data: Sector)
    requires base + 128 <= buf.Length
    modifies buf
    ensures buf[..base] == old(buf[..base]) && buf[base..base + 128] == data
    ensures buf[base + 128..] == old(buf[base + 128..])
    ensures buf[..base + 128] == old(buf[..base]) + data
  {
    forall k | 0 <= k < 128 {
      buf[base + k] := data[k];
    }
  }

  lemma NoSplice(s: seq<Byte>, a: nat)
    requires a <= |s|
    ensures Splice(s, a, []) == s
  {
  }

  lemma SliceGrows(s: seq<Byte>, a: nat, b: nat, c: nat)
    requires a <= b <= c <= |s|
    ensures s[a..b] + s[b..c] == s[a..c]
  {
  }

  lemma SliceInside(s: seq<Byte>, a: nat, b: nat, p: nat, n: nat)
    requires a <= p && p + n <= b <= |s|
    ensures s[a..b][p - a..p - a + n] == s[p..p + n]
  {
    var u, v := s[a..b][p - a..p - a + n], s[p..p + n];
    forall i: nat | i < n
      ensures u[i] == v[i]
    {
    }
  }

  // ------------------------------------------ the file as an array of bytes

  // A write and the read after it, as the specifications of WriteAt and
  // ReadAt put them.
  lemma WriteThenRead(bytes: seq<Byte>, data: seq<Byte>, position: nat)
    requires var n := Transferred(|bytes|, |data|, position); n > 0
    ensures var n := Transferred(|bytes|, |data|, position);
            Splice(bytes, position, data[..n])[position..position + n] == data[..n]
  {
  }

  // Writing one file leaves every other file as it was.
  lemma WriteKeepsOthers(disk: seq<Sector>, disk': seq<Sector>, h: Header, other: Header)
    requires |disk'| == |disk| && Readable(disk, other)
    requires forall s :: 0 <= s < |disk| && !HasSector(h, s) ==> disk'[s] == disk[s]
    requires forall s :: HasSector(h, s) ==> !HasSector(other, s)
    ensures Readable(disk', other) && FileBytes(disk', other) == FileBytes(disk, other)
  {
  }
}
