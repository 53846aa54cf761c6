// Packets on the simulated network: how a message is laid out in a packet,
// and the one packet an input device can hold.
module Network {
  import opened Words
  import Interrupts
  import opened Layout

  const MAX_WIRE_SIZE := 64
  const MAX_PACKET_SIZE := 52
  const MAX_MAIL_SIZE := 40

  datatype PacketHeader = PacketHeader(to: Word, from: Word, length: Word)
  datatype MailHeader = MailHeader(to: Word, from: Word, length: Word)
  datatype Mail = Mail(pktHdr: PacketHeader, mailHdr: MailHeader, data: seq<Byte>)

  // What PostOfficeOutput::Send makes of a message.
  predicate Sendable(m: Mail) {
    m.mailHdr.length == |m.data| <= MAX_MAIL_SIZE && m.pktHdr.length == |m.data| + 12
  }

  // Both headers are three words.
  function HeaderBytes(to: Word, from: Word, length: Word): (b: seq<Byte>)
    ensures |b| == 12
  {
    EncodeWords([to, from, length])
  }

  function PacketHeaderOf(b: seq<Byte>): PacketHeader
    requires |b| >= 12
  {
    var ws := DecodeWords(b[..12]);
    PacketHeader(ws[0], ws[1], ws[2])
  }

  function MailHeaderOf(b: seq<Byte>): MailHeader
    requires |b| >= 12
  {
    var ws := DecodeWords(b[..12]);
    MailHeader(ws[0], ws[1], ws[2])
  }

  // Mail header and data, one after the other.
  function Payload(m: Mail): (b: seq<Byte>)
    ensures |b| == 12 + |m.data|
  {
    HeaderBytes(m.mailHdr.to, m.mailHdr.from, m.mailHdr.length) + m.data
  }

  // On the wire: packet header, payload, and whatever pads the packet out.
  function OnWire(m: Mail, padding: seq<Byte>): (b: seq<Byte>)
    ensures |b| == 24 + |m.data| + |padding|
  {
    HeaderBytes(m.pktHdr.to, m.pktHdr.from, m.pktHdr.length) + Payload(m) + padding
  }

  lemma WireHeader(m: Mail, padding: seq<Byte>)
    ensures PacketHeaderOf(OnWire(m, padding)) == m.pktHdr
    ensures OnWire(m, padding)[12..24 + |m.data|] == Payload(m)
  {
  }

  // The mail read back from a buffer that starts with its payload.
  function MailIn(hdr: PacketHeader, buffer: seq<Byte>): Mail
    requires |buffer| >= 12 && MailHeaderOf(buffer).length <= |buffer| - 12
  {
    Mail(hdr, MailHeaderOf(buffer), buffer[12..12 + MailHeaderOf(buffer).length])
  }

  lemma PayloadReadBack(m: Mail, buffer: seq<Byte>)
    requires Sendable(m) && |buffer| >= 12 + |m.data| && buffer[..12 + |m.data|] == Payload(m)
    ensures MailHeaderOf(buffer) == m.mailHdr && MailIn(m.pktHdr, buffer) == m
  {
    hide EncodeWords, DecodeWords;
    WordsRoundTrip([m.mailHdr.to, m.mailHdr.from, m.mailHdr.length]);
    assert buffer[..12] == Payload(m)[..12] == HeaderBytes(m.mailHdr.to, m.mailHdr.from, m.mailHdr.length);
    assert buffer[12..12 + |m.data|] == Payload(m)[12..] == m.data;
  }

  // ------------------------------------------------------- the input device

  datatype Input = Input(hdr: PacketHeader, inbox: seq<Byte>)

  ghost predicate Sized(i: Input) { |i.inbox| == MAX_PACKET_SIZE && i.hdr.length <= MAX_PACKET_SIZE }

  // A packet is read in.
  function Arrived(i: Input, packet: seq<Byte>): Input
    requires |i.inbox| == MAX_PACKET_SIZE && |packet| == MAX_WIRE_SIZE
    requires PacketHeaderOf(packet).length <= MAX_PACKET_SIZE
  {
    var h := PacketHeaderOf(packet);
    Input(h, Splice(i.inbox, 0, packet[12..12 + h.length]))
  }

  // The packet is taken out into a buffer.
  function Emptied(i: Input): Input { i.(hdr := i.hdr.(length := 0)) }

  function Taken(i: Input, buffer: seq<Byte>): seq<Byte>
    requires |i.inbox| == MAX_PACKET_SIZE && |buffer| == MAX_PACKET_SIZE && i.hdr.length <= MAX_PACKET_SIZE
  {
    Splice(buffer, 0, i.inbox[..i.hdr.length])
  }

  // The device holds this mail.
  ghost predicate HoldsMail(i: Input, m: Mail) {
    && Sendable(m) && |i.inbox| == MAX_PACKET_SIZE && i.hdr == m.pktHdr
    && i.inbox[..12 + |m.data|] == Payload(m)
  }

  // The buffer holds this mail's payload.
  ghost predicate BufferHolds(buffer: seq<Byte>, m: Mail) {
    Sendable(m) && |buffer| == MAX_PACKET_SIZE && buffer[..12 + |m.data|] == Payload(m)
  }

  lemma ArrivedHolds(i: Input, m: Mail, padding: seq<Byte>)
    requires |i.inbox| == MAX_PACKET_SIZE && Sendable(m) && |OnWire(m, padding)| == MAX_WIRE_SIZE
    ensures PacketHeaderOf(OnWire(m, padding)) == m.pktHdr
    ensures HoldsMail(Arrived(i, OnWire(m, padding)), m)
  {
    hide PacketHeaderOf, OnWire, Payload;
    WireHeader(m, padding);
  }

  lemma TakenHolds(i: Input, m: Mail, buffer: seq<Byte>)
    requires HoldsMail(i, m) && |buffer| == MAX_PACKET_SIZE
    ensures BufferHolds(Taken(i, buffer), m)
  {
  }

  class NetworkInput {
    const hostName: Word
    var inHdr: PacketHeader
    const inbox: array<Byte>

    ghost predicate Valid()
      reads this
    {
      inbox.Length == MAX_PACKET_SIZE && inHdr.length <= MAX_PACKET_SIZE
    }

    ghost function Value(): Input
      reads this, inbox
    {
      Input(inHdr, inbox[..])
    }

    constructor (host: Word)
      ensures Valid() && fresh(inbox) && inHdr.length == 0 && hostName == host
    {
      hostName := host;
      inHdr := PacketHeader(0, 0, 0);
      inbox := new Byte[MAX_PACKET_SIZE];
    }

    // Polls the socket; the packets there, first one first, are given.  True
    // if one was read in, for the post office to be told.  The next poll is
    // an interrupt to be scheduled.
    method CallBack(socket: seq<seq<Byte>>)
      returns (poll: Interrupts.Request, available: bool, rest: seq<seq<Byte>>)
      requires Valid()
      requires inHdr.length == 0 && socket != [] ==>
                 && |socket[0]| == MAX_WIRE_SIZE && PacketHeaderOf(socket[0]).to == hostName      // the source's ASSERT
                 && PacketHeaderOf(socket[0]).length <= MAX_PACKET_SIZE
      modifies this, inbox
      ensures poll == Interrupts.Request(100, Interrupts.NETWORK_RECV_INT)
      ensures Valid() && available == (old(inHdr.length) == 0 && socket != [])
      ensures if available then Value() == Arrived(old(Value()), socket[0]) && rest == socket[1..]
              else Value() == old(Value()) && rest == socket
    {
      hide PacketHeaderOf;
      poll := Interrupts.Request(100, Interrupts.NETWORK_RECV_INT);
      rest := socket;
      if inHdr.length != 0 {
        return poll, false, rest;
      }
      if socket == [] {
        return poll, false, rest;
      }
      var buffer := socket[0];
      rest := socket[1..];
      inHdr := PacketHeaderOf(buffer);
      forall k | 0 <= k < inHdr.length {
        inbox[k] := buffer[12 + k];
      }
      assert inbox[..] == Splice(old(inbox[..]), 0, buffer[12..12 + inHdr.length]);
      return poll, true, rest;
    }

    // Hands the packet over and has room for the next one.
    method Receive(data: array<Byte>) returns (hdr: PacketHeader)
      requires Valid() && data.Length == MAX_PACKET_SIZE && data != inbox
      modifies this, data
      ensures Valid() && hdr == old(inHdr) && Value() == Emptied(old(Value()))
      ensures data[..] == Taken(old(Value()), old(data[..]))
    {
      hdr := inHdr;
      inHdr := inHdr.(length := 0);
      if hdr.length != 0 {
        forall k | 0 <= k < hdr.length {
          data[k] := inbox[k];
        }
      }
      assert data[..] == Splice(old(data[..]), 0, inbox[..hdr.length]);
    }
  }
}
