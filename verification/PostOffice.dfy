// The receiving half of the post office of one machine: the device with room
// for one packet, the interrupt handler that announces it, the postal worker
// and the mailboxes.
module PostOffice {
  import opened Words
  import opened Layout
  import opened Network
  import opened Semaphores

  const WORKER: nat := 0

  // The worker's loop: before P, past P, and with the packet in its buffer.
  datatype Worker = WantsToken | HasToken | HasPacket(hdr: PacketHeader)

  // The first fields are the machine's; sent is every message sent to it, and
  // the ids tell which of those is in the device, with the worker, on the
  // wire, or was put into a mailbox; got is what was taken out of mailboxes.
  datatype State = State(boxes: seq<seq<Mail>>, token: Sem, device: Input, socket: seq<seq<Byte>>,
                         worker: Worker, buffer: seq<Byte>, aborted: bool,
                         sent: seq<Mail>, onWire: seq<nat>, deviceId: nat, bufferId: nat, done: seq<nat>,
                         got: seq<seq<Mail>>)

  // ----------------------------------------------------------------- steps

  // Some machine sends a message here; the network may lose it.
  ghost predicate SendStep(s: State, s': State, m: Mail, padding: seq<Byte>, lost: bool) {
    && Sendable(m) && |OnWire(m, padding)| == MAX_WIRE_SIZE
    && s' == if lost then s.(sent := s.sent + [m])
             else s.(sent := s.sent + [m], socket := s.socket + [OnWire(m, padding)], onWire := s.onWire + [|s.sent|])
  }

  // The device polls the socket and announces a packet it reads in.
  ghost predicate PollStep(s: State, s': State) {
    if s.device.hdr.length != 0 || s.socket == [] then s' == s
    else
      && |s.device.inbox| == MAX_PACKET_SIZE && |s.socket[0]| == MAX_WIRE_SIZE
      && PacketHeaderOf(s.socket[0]).length <= MAX_PACKET_SIZE && s.onWire != []
      && s' == s.(device := Arrived(s.device, s.socket[0]), socket := s.socket[1..], token := Post(s.token),
                  deviceId := s.onWire[0], onWire := s.onWire[1..])
  }

  ghost predicate TokenStep(s: State, s': State) {
    && s.worker == WantsToken && WORKER !in s.token.queue
    && s' == s.(token := Turn(s.token, WORKER), worker := if s.token.value == 0 then WantsToken else HasToken)
  }

  ghost predicate ReceiveStep(s: State, s': State) {
    && s.worker == HasToken
    && |s.device.inbox| == MAX_PACKET_SIZE && |s.buffer| == MAX_PACKET_SIZE && s.device.hdr.length <= MAX_PACKET_SIZE
    && s' == s.(buffer := Taken(s.device, s.buffer), worker := HasPacket(s.device.hdr), device := Emptied(s.device),
                bufferId := s.deviceId)
  }

  // The worker asserts that the mail is legal and puts it into its mailbox.
  ghost predicate PutStep(s: State, s': State) {
    && s.worker.HasPacket? && |s.buffer| == MAX_PACKET_SIZE
    && var mh := MailHeaderOf(s.buffer);
       if mh.to < |s.boxes| && mh.length <= MAX_MAIL_SIZE then
         s' == s.(boxes := s.boxes[mh.to := s.boxes[mh.to] + [MailIn(s.worker.hdr, s.buffer)]], worker := WantsToken,
                  done := s.done + [s.bufferId])
       else s' == s.(aborted := true)
  }

  ghost predicate GetStep(s: State, s': State, b: nat) {
    && b < |s.boxes| == |s.got| && s.boxes[b] != []
    && s' == s.(boxes := s.boxes[b := s.boxes[b][1..]], got := s.got[b := s.got[b] + [s.boxes[b][0]]])
  }

  ghost predicate Step(s: State, s': State) {
    !s.aborted &&
    ((exists m, padding, lost :: SendStep(s, s', m, padding, lost))
     || PollStep(s, s') || TokenStep(s, s') || ReceiveStep(s, s') || PutStep(s, s')
     || exists b :: GetStep(s, s', b))
  }

  ghost predicate Start(s: State) {
    && s.token == Sem(0, []) && s.worker == WantsToken && !s.aborted
    && s.device.hdr.length == 0 && |s.device.inbox| == MAX_PACKET_SIZE && |s.buffer| == MAX_PACKET_SIZE
    && s.socket == [] && s.sent == [] && s.onWire == [] && s.done == []
    && |s.boxes| == |s.got|
    && forall b :: 0 <= b < |s.boxes| ==> s.boxes[b] == [] && s.got[b] == []
  }

  // ------------------------------------------------------------ invariants

  predicate Full(s: State) { s.device.hdr.length != 0 }

  // One token, on its way or with the worker, exactly while the device holds
  // a packet; and the worker sleeps only when there is none.
  ghost predicate OneToken(s: State) {
    && s.token.value + (if s.worker == HasToken then 1 else 0) == (if Full(s) then 1 else 0)
    && (s.token.queue == [] || (s.token.queue == [WORKER] && s.worker == WantsToken && s.token.value == 0))
  }

  // A packet on the wire.
  ghost predicate Wired(packet: seq<Byte>, m: Mail) {
    && Sendable(m) && |packet| == MAX_WIRE_SIZE
    && PacketHeaderOf(packet) == m.pktHdr && packet[12..24 + |m.data|] == Payload(m)
  }

  // Each message is intact wherever it is.
  ghost predicate Intact(s: State) {
    && |s.socket| == |s.onWire| && |s.device.inbox| == MAX_PACKET_SIZE && |s.buffer| == MAX_PACKET_SIZE
    && s.device.hdr.length <= MAX_PACKET_SIZE
    && (forall i :: 0 <= i < |s.socket| ==> s.onWire[i] < |s.sent| && Wired(s.socket[i], s.sent[s.onWire[i]]))
    && (Full(s) ==> s.deviceId < |s.sent| && HoldsMail(s.device, s.sent[s.deviceId]))
    && (s.worker.HasPacket? ==>
          s.bufferId < |s.sent| && BufferHolds(s.buffer, s.sent[s.bufferId])
          && s.worker.hdr == s.sent[s.bufferId].pktHdr)
  }

  // The messages that were not lost, the furthest on first.
  function Line(s: State): seq<nat> {
    s.done + (if s.worker.HasPacket? then [s.bufferId] else []) + (if Full(s) then [s.deviceId] else []) + s.onWire
  }

  ghost predicate Increasing(ids: seq<nat>, bound: nat) {
    && (forall i, j :: 0 <= i < j < |ids| ==> ids[i] < ids[j])
    && forall i :: 0 <= i < |ids| ==> ids[i] < bound
  }

  // The messages for box b among those numbered ids.
  function Addressed(sent: seq<Mail>, ids: seq<nat>, b: nat): seq<Mail>
    requires forall i :: 0 <= i < |ids| ==> ids[i] < |sent|
  {
    if ids == [] then []
    else
      var last := |ids| - 1;
      Addressed(sent, ids[..last], b) + (if sent[ids[last]].mailHdr.to == b then [sent[ids[last]]] else [])
  }

  ghost predicate Filed(s: State) {
    && |s.boxes| == |s.got| && (forall i :: 0 <= i < |s.done| ==> s.done[i] < |s.sent|)
    && forall b :: 0 <= b < |s.boxes| ==> s.got[b] + s.boxes[b] == Addressed(s.sent, s.done, b)
  }

  // The worker's assertions fail only on a message to a box there is not.
  ghost predicate AbortedRight(s: State) {
    s.aborted ==> exists i :: 0 <= i < |s.sent| && s.sent[i].mailHdr.to >= |s.boxes|
  }

  ghost predicate Good(s: State) {
    OneToken(s) && Intact(s) && Increasing(Line(s), |s.sent|) && Filed(s) && AbortedRight(s)
  }

  // ----------------------------------------------------- the steps keep them

  lemma {:induction false} AddressedGrows(sent: seq<Mail>, m: Mail, ids: seq<nat>, b: nat)
    requires forall i :: 0 <= i < |ids| ==> ids[i] < |sent|
    ensures Addressed(sent + [m], ids, b) == Addressed(sent, ids, b)
  {
    if ids != [] {
      AddressedGrows(sent, m, ids[..|ids| - 1], b);
    }
  }

  lemma SendKeeps(s: State, s': State, m: Mail, padding: seq<Byte>, lost: bool)
    requires Good(s) && SendStep(s, s', m, padding, lost)
    ensures Good(s')
  {
    hide OnWire, Payload, PacketHeaderOf, HoldsMail, BufferHolds, Addressed, Line, Increasing, Wired, Filed;
    SendKeepsLine(s, s', m, padding, lost);
    SendKeepsFiled(s, s', m, padding, lost);
    WireHolds(m, padding);
    forall i | 0 <= i < |s'.socket|
      ensures s'.onWire[i] < |s'.sent| && Wired(s'.socket[i], s'.sent[s'.onWire[i]])
    {
      if i < |s.socket| {
        assert s.onWire[i] < |s.sent| && Wired(s.socket[i], s.sent[s.onWire[i]]);
      }
    }
    if s.aborted {
      var i :| 0 <= i < |s.sent| && s.sent[i].mailHdr.to >= |s.boxes|;
      assert s'.sent[i] == s.sent[i];
    }
  }

  lemma WireHolds(m: Mail, padding: seq<Byte>)
    requires Sendable(m) && |OnWire(m, padding)| == MAX_WIRE_SIZE
    ensures Wired(OnWire(m, padding), m)
  {
    hide OnWire, Payload, PacketHeaderOf;
    WireHeader(m, padding);
  }

  lemma SendKeepsLine(s: State, s': State, m: Mail, padding: seq<Byte>, lost: bool)
    requires Increasing(Line(s), |s.sent|) && SendStep(s, s', m, padding, lost)
    ensures Increasing(Line(s'), |s'.sent|)
  {
    hide OnWire;
    if lost {
      assert Line(s') == Line(s);
    } else {
      assert Line(s') == Line(s) + [|s.sent|];
    }
  }

  lemma SendKeepsFiled(s: State, s': State, m: Mail, padding: seq<Byte>, lost: bool)
    requires Filed(s) && SendStep(s, s', m, padding, lost)
    ensures Filed(s')
  {
    hide OnWire, Addressed;
    forall b | 0 <= b < |s.boxes|
      ensures Addressed(s'.sent, s'.done, b) == Addressed(s.sent, s.done, b)
    {
      AddressedGrows(s.sent, m, s.done, b);
    }
  }

  lemma PollKeeps(s: State, s': State)
    requires Good(s) && PollStep(s, s')
    ensures Good(s')
  {
    hide Payload, PacketHeaderOf, BufferHolds, Filed, Increasing, HoldsMail, Arrived, Wired;
    if !Full(s) && s.socket != [] {
      assert Wired(s.socket[0], s.sent[s.onWire[0]]);
      ReadIn(s.device, s.socket[0], s.sent[s.onWire[0]]);
      assert Line(s') == Line(s);
      SameFiled(s, s');
    }
  }

  lemma ReadIn(i: Input, packet: seq<Byte>, m: Mail)
    requires |i.inbox| == MAX_PACKET_SIZE && Wired(packet, m)
    ensures PacketHeaderOf(packet).length <= MAX_PACKET_SIZE
    ensures HoldsMail(Arrived(i, packet), m) && 0 < Arrived(i, packet).hdr.length <= MAX_PACKET_SIZE
    ensures |Arrived(i, packet).inbox| == MAX_PACKET_SIZE
  {
  }

  lemma SameFiled(s: State, s': State)
    requires Filed(s) && s'.boxes == s.boxes && s'.got == s.got && s'.done == s.done && s'.sent == s.sent
    ensures Filed(s')
  {
  }

  lemma TokenKeeps(s: State, s': State)
    requires Good(s) && TokenStep(s, s')
    ensures Good(s')
  {
  }

  lemma ReceiveKeeps(s: State, s': State)
    requires Good(s) && ReceiveStep(s, s')
    ensures Good(s')
  {
    hide Payload, Filed, Increasing, HoldsMail, BufferHolds, Wired, Taken;
    assert Full(s);
    TakenHolds(s.device, s.sent[s.deviceId], s.buffer);
    HeldHeader(s.device, s.sent[s.deviceId], s.buffer);
    assert Line(s') == Line(s);
    SameFiled(s, s');
  }

  lemma HeldHeader(i: Input, m: Mail, buffer: seq<Byte>)
    requires HoldsMail(i, m) && |buffer| == MAX_PACKET_SIZE && i.hdr.length <= MAX_PACKET_SIZE
    ensures i.hdr == m.pktHdr && |Taken(i, buffer)| == MAX_PACKET_SIZE
  {
  }

  lemma PutKeeps(s: State, s': State)
    requires Good(s) && PutStep(s, s') && !s.aborted
    ensures Good(s')
  {
    hide Payload, Filed, Increasing, HoldsMail, BufferHolds, Wired, MailIn, MailHeaderOf;
    var m := s.sent[s.bufferId];
    ReadBack(s.buffer, m);
    if s'.aborted {
      assert Line(s') == Line(s);
      SameFiled(s, s');
    } else {
      assert Line(s') == Line(s);
      PutKeepsFiled(s, s', m);
    }
  }

  lemma ReadBack(buffer: seq<Byte>, m: Mail)
    requires BufferHolds(buffer, m)
    ensures MailHeaderOf(buffer) == m.mailHdr && m.mailHdr.length <= MAX_MAIL_SIZE && MailIn(m.pktHdr, buffer) == m
  {
    hide Payload, MailIn, MailHeaderOf;
    PayloadReadBack(m, buffer);
  }

  lemma PutKeepsFiled(s: State, s': State, m: Mail)
    requires Filed(s) && s.bufferId < |s.sent| && m == s.sent[s.bufferId] && m.mailHdr.to < |s.boxes|
    requires s'.boxes == s.boxes[m.mailHdr.to := s.boxes[m.mailHdr.to] + [m]] && s'.got == s.got && s'.sent == s.sent
    requires s'.done == s.done + [s.bufferId]
    ensures Filed(s')
  {
  }

  lemma GetKeeps(s: State, s': State, b: nat)
    requires Good(s) && GetStep(s, s', b)
    ensures Good(s')
  {
    hide Increasing, HoldsMail, BufferHolds, Wired, Addressed;
    assert Line(s') == Line(s);
    forall c | 0 <= c < |s.boxes|
      ensures s'.got[c] + s'.boxes[c] == s.got[c] + s.boxes[c]
    {
      if c == b {
        assert s.boxes[b] == [s.boxes[b][0]] + s.boxes[b][1..];
      }
    }
  }

  lemma StepKeeps(s: State, s': State)
    requires Good(s) && Step(s, s')
    ensures Good(s')
  {
    hide Good, SendStep, PollStep, TokenStep, ReceiveStep, PutStep, GetStep;
    if m, padding, lost :| SendStep(s, s', m, padding, lost) {
      SendKeeps(s, s', m, padding, lost);
    } else if PollStep(s, s') {
      PollKeeps(s, s');
    } else if TokenStep(s, s') {
      TokenKeeps(s, s');
    } else if ReceiveStep(s, s') {
      ReceiveKeeps(s, s');
    } else if PutStep(s, s') {
      PutKeeps(s, s');
    } else {
      var b :| GetStep(s, s', b);
      GetKeeps(s, s', b);
    }
  }

  lemma StartIsGood(s: State)
    requires Start(s)
    ensures Good(s)
  {
  }

  lemma {:induction false} RunsAreGood(run: seq<State>)
    requires run != [] && Start(run[0])
    requires forall k :: 0 <= k < |run| - 1 ==> Step(run[k], run[k + 1])
    ensures Good(run[|run| - 1])
  {
    hide Good, Start, Step;
    if |run| == 1 {
      StartIsGood(run[0]);
    } else {
      RunsAreGood(run[..|run| - 1]);
      StepKeeps(run[|run| - 2], run[|run| - 1]);
    }
  }

  // ---------------------------------------------------------- consequences

  // The worker never takes an empty header.
  lemma WorkerFindsPacket(run: seq<State>)
    requires run != [] && Start(run[0])
    requires forall k :: 0 <= k < |run| - 1 ==> Step(run[k], run[k + 1])
    requires run[|run| - 1].worker == HasToken
    ensures Full(run[|run| - 1])
  {
    hide Intact, Filed, Increasing, Step;
    RunsAreGood(run);
  }

  lemma IncreasingParts(ids: seq<nat>, bound: nat)
    requires Increasing(ids, bound) && ids != []
    ensures Increasing(ids[..|ids| - 1], bound) && ids[|ids| - 1] < bound
    ensures forall x :: x in ids[..|ids| - 1] ==> x < ids[|ids| - 1] && x in ids
  {
  }

  lemma IncreasingMore(ids: seq<nat>, x: nat, bound: nat)
    requires Increasing(ids, bound) && x < bound && forall i :: 0 <= i < |ids| ==> ids[i] < x
    ensures Increasing(ids + [x], bound)
    ensures forall i :: 0 <= i < |ids| ==> ids[i] < bound
  {
  }

  // Where in the sent messages the ones for a box come from.
  lemma {:induction false} AddressedFrom(sent: seq<Mail>, ids: seq<nat>, b: nat) returns (from: seq<nat>)
    requires Increasing(ids, |sent|)
    ensures Increasing(from, |sent|) && |from| == |Addressed(sent, ids, b)|
    ensures forall i :: 0 <= i < |from| ==> from[i] in ids && Addressed(sent, ids, b)[i] == sent[from[i]]
    ensures forall i :: 0 <= i < |from| ==> sent[from[i]].mailHdr.to == b
  {
    if ids == [] {
      from := [];
    } else {
      hide Increasing;
      var last := |ids| - 1;
      IncreasingParts(ids, |sent|);
      from := AddressedFrom(sent, ids[..last], b);
      IncreasingMore(from, ids[last], |sent|);
      if sent[ids[last]].mailHdr.to == b {
        from := from + [ids[last]];
      }
    }
  }

  // What ever was in a mailbox, taken or not, is a selection of the messages
  // sent to it: intact, in the order of sending, and none of them twice.
  lemma MailboxInOrder(run: seq<State>, b: nat) returns (from: seq<nat>)
    requires run != [] && Start(run[0])
    requires forall k :: 0 <= k < |run| - 1 ==> Step(run[k], run[k + 1])
    requires b < |run[|run| - 1].boxes|
    ensures var s := run[|run| - 1];
            && |s.got| == |s.boxes| && |from| == |s.got[b] + s.boxes[b]| && Increasing(from, |s.sent|)
            && forall i :: 0 <= i < |from| ==>
                 (s.got[b] + s.boxes[b])[i] == s.sent[from[i]] && s.sent[from[i]].mailHdr.to == b
  {
    hide Intact, Step, OneToken, Addressed;
    RunsAreGood(run);
    var s := run[|run| - 1];
    DoneIncreasing(s);
    from := AddressedFrom(s.sent, s.done, b);
  }

  lemma DoneIncreasing(s: State)
    requires Increasing(Line(s), |s.sent|)
    ensures Increasing(s.done, |s.sent|)
  {
    assert forall i :: 0 <= i < |s.done| ==> Line(s)[i] == s.done[i];
  }

  // The worker's assertions hold exactly for a message to a box there is.
  lemma AbortsForMissingBox(s: State, s': State)
    requires Good(s) && PutStep(s, s') && !s.aborted
    ensures s'.aborted <==> s.sent[s.bufferId].mailHdr.to >= |s.boxes|
  {
    hide Payload, Filed, Increasing, HoldsMail, BufferHolds, Wired, MailIn, MailHeaderOf;
    ReadBack(s.buffer, s.sent[s.bufferId]);
  }

  // The message with no data for box number |boxes|, as it is sent, and the
  // packets it makes.
  function ToMissing(s: State): Mail
    requires |s.boxes| < 0x1_0000_0000
  {
    Mail(PacketHeader(0, 0, 12), MailHeader(|s.boxes|, 0, 0), [])
  }

  const PADDING: seq<Byte> := seq(40, i => 0)

  lemma SendMissing(s: State) returns (s': State)
    requires Start(s) && |s.boxes| < 0x1_0000_0000
    ensures Good(s) && Good(s') && Step(s, s') && !s'.aborted && s'.boxes == s.boxes && s'.sent == [ToMissing(s)]
    ensures s'.socket != [] && s'.onWire != [] && !Full(s') && s'.token == Sem(0, []) && s'.worker == WantsToken
  {
    hide OnWire, Good;
    var m := ToMissing(s);
    StartIsGood(s);
    s' := s.(sent := s.sent + [m], socket := s.socket + [OnWire(m, PADDING)], onWire := s.onWire + [|s.sent|]);
    assert SendStep(s, s', m, PADDING, false);
    SendKeeps(s, s', m, PADDING, false);
  }

  lemma PollMissing(s: State) returns (s': State)
    requires Good(s) && !s.aborted && s.socket != [] && !Full(s) && s.token == Sem(0, []) && s.worker == WantsToken
    ensures Good(s') && Step(s, s') && !s'.aborted && s'.boxes == s.boxes && s'.sent == s.sent
    ensures Full(s') && s'.token == Sem(1, []) && s'.worker == WantsToken
  {
    hide Payload, PacketHeaderOf, Filed, Increasing, HoldsMail, Arrived;
    assert Wired(s.socket[0], s.sent[s.onWire[0]]);
    ReadIn(s.device, s.socket[0], s.sent[s.onWire[0]]);
    s' := s.(device := Arrived(s.device, s.socket[0]), socket := s.socket[1..], token := Post(s.token),
             deviceId := s.onWire[0], onWire := s.onWire[1..]);
    assert PollStep(s, s');
    PollKeeps(s, s');
  }

  lemma TakeMissing(s: State) returns (s': State, s'': State)
    requires Good(s) && !s.aborted && Full(s) && s.token == Sem(1, []) && s.worker == WantsToken
    ensures Step(s, s') && Step(s', s'') && !s'.aborted && !s''.aborted
    ensures Good(s'') && s''.boxes == s.boxes && s''.sent == s.sent && s''.worker.HasPacket?
  {
    hide Payload, Filed, Increasing, HoldsMail, Taken, Good;
    assert |s.device.inbox| == MAX_PACKET_SIZE && |s.buffer| == MAX_PACKET_SIZE
           && s.device.hdr.length <= MAX_PACKET_SIZE
      by { Sizes(s); }
    s' := s.(token := Turn(s.token, WORKER), worker := HasToken);
    assert TokenStep(s, s');
    TokenKeeps(s, s');
    s'' := s'.(buffer := Taken(s'.device, s'.buffer), worker := HasPacket(s'.device.hdr), device := Emptied(s'.device),
               bufferId := s'.deviceId);
    assert ReceiveStep(s', s'');
    ReceiveKeeps(s', s'');
  }

  lemma Sizes(s: State)
    requires Good(s)
    ensures |s.device.inbox| == MAX_PACKET_SIZE && |s.buffer| == MAX_PACKET_SIZE
    ensures s.device.hdr.length <= MAX_PACKET_SIZE
  {
  }

  lemma PutMissing(s: State) returns (s': State)
    requires Good(s) && !s.aborted && s.worker.HasPacket? && |s.sent| == 1 && s.sent[0].mailHdr.to >= |s.boxes|
    ensures Step(s, s') && s'.aborted && s'.sent == s.sent
  {
    hide Payload, Filed, Increasing, HoldsMail, BufferHolds, Wired, MailIn, MailHeaderOf;
    s' := s.(aborted := true);
    ReadBack(s.buffer, s.sent[s.bufferId]);
    assert PutStep(s, s');
  }

  // From any start a single message to the first box there is not aborts the
  // worker.
  lemma MissingBoxAborts(s: State) returns (run: seq<State>)
    requires Start(s) && |s.boxes| < 0x1_0000_0000
    ensures run != [] && run[0] == s && run[|run| - 1].aborted && run[|run| - 1].sent == [ToMissing(s)]
    ensures forall k :: 0 <= k < |run| - 1 ==> Step(run[k], run[k + 1])
  {
    hide Step, Good, Start;
    var s1 := SendMissing(s);
    var s2 := PollMissing(s1);
    var s3, s4 := TakeMissing(s2);
    var s5 := PutMissing(s4);
    run := [s, s1, s2, s3, s4, s5];
  }

  // ---------------------------------------------------- the object itself

  class PostOfficeInput {
    const boxes: array<seq<Mail>>
    const network: NetworkInput

    constructor (nBoxes: nat, host: Word)
      ensures fresh(boxes) && fresh(network) && fresh(network.inbox) && network.Valid() && network.inHdr.length == 0
      ensures boxes[..] == seq(nBoxes, i => [])
    {
      boxes := new seq<Mail>[nBoxes](i => []);
      network := new NetworkInput(host);
    }

    // One turn of the postal worker's loop, from where it is past P.
    method DeliverOne(buffer: array<Byte>)
      requires network.Valid() && buffer.Length == MAX_PACKET_SIZE && buffer != network.inbox
      requires var mh := MailHeaderOf(Taken(network.Value(), buffer[..]));
               mh.to < boxes.Length && mh.length <= MAX_MAIL_SIZE      // the source's ASSERTs
      modifies boxes, network, buffer
      ensures network.Valid() && network.Value() == Emptied(old(network.Value()))
      ensures var b := Taken(old(network.Value()), old(buffer[..]));
              var mail := MailIn(old(network.inHdr), b);
              && buffer[..] == b
              && boxes[..] == old(boxes[..])[mail.mailHdr.to := old(boxes[..])[mail.mailHdr.to] + [mail]]
    {
      hide MailHeaderOf;
      var pktHdr := network.Receive(buffer);
      var mailHdr := MailHeaderOf(buffer[..]);
      var mail := Mail(pktHdr, mailHdr, buffer[12..12 + mailHdr.length]);
      assert buffer[..][12..12 + mailHdr.length] == buffer[12..12 + mailHdr.length];
      boxes[mailHdr.to] := boxes[mailHdr.to] + [mail];
    }
  }

  // What Send puts into its buffer and headers, as far as the network's Send.
  method Concatenate(pktHdr: PacketHeader, mailHdr: MailHeader, data: seq<Byte>, hostName: Word)
    returns (hdr: PacketHeader, buffer: array<Byte>)
    requires mailHdr.length <= MAX_MAIL_SIZE && mailHdr.length <= |data|
    ensures var mail := Mail(hdr, mailHdr, data[..mailHdr.length]);
            && Sendable(mail) && hdr.from == hostName && hdr.to == pktHdr.to
            && fresh(buffer) && BufferHolds(buffer[..], mail)
  {
    hide EncodeWords;
    buffer := new Byte[MAX_PACKET_SIZE];
    hdr := PacketHeader(pktHdr.to, hostName, mailHdr.length + 12);
    var front := HeaderBytes(mailHdr.to, mailHdr.from, mailHdr.length);
    forall k | 0 <= k < 12 {
      buffer[k] := front[k];
    }
    forall k | 0 <= k < mailHdr.length {
      buffer[12 + k] := data[k];
    }
    assert buffer[..12 + mailHdr.length] == front + data[..mailHdr.length];
  }
}
