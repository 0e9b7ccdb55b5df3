/**
 A DTLS sender and a DTLS receiver joined by a network that loses, duplicates and
 reorders records (sections 4.2.2 to 4.2.4 and 4.1.2.6 of RFC 6347).

 A run is any list of actions. Records on the wire are authentic: the network hands over
 nothing the sender did not seal, but hands it over in any order, any number of times, or
 never. Delivering record by record covers every way of delivering packets.
 */
module DtlsNetwork {
  import opened Octets
  import opened Fragments
  import opened Reassembly
  import opened DtlsReceiver
  import opened DtlsSender
  import ReplayWindow

  const MAX_PLAIN_LENGTH: nat := 16384
  const MAX_ENCRYPTED_LENGTH: nat := MAX_PLAIN_LENGTH + 320

  datatype World = World(
    sender: Sender,
    receiver: Receiver,
    window: ReplayWindow.Window,
    queued: seq<Message>,
    wire: seq<Record>,
    delivered: seq<Message>)

  datatype Action =
    | Queue(msgType: byte, body: seq<byte>)
    | QueueChangeCipherSpec
    | NextWriteEpoch(cipher: Cipher)
    | Flush(io: Transport)
    | Timeout(io: Transport)
    | Deliver(k: nat)
    | Get
    | Next
    | TakeChangeCipherSpec
    | NextReadEpoch
    | Complete(answered: bool)

  function Start(mtu: nat, maxLen: nat): World {
    World(FreshSender(mtu), Fresh(maxLen), ReplayWindow.EMPTY, [], [], [])
  }

  // ----- the receiving side of the record layer

  /** The number the replay window sees: sixteen bits of epoch, then forty-eight of sequence. */
  function WindowNumber(record: Record): (n: ReplayWindow.uint64) {
    (record.epoch % 0x1_0000) * 0x1_0000_0000_0000 + record.number % 0x1_0000_0000_0000
  }

  /** dtls_open_record on an authentic record, followed by dtls1_open_handshake. */
  function Open(r: Receiver, w: ReplayWindow.Window, record: Record): (res: (Receiver, ReplayWindow.Window, Outcome))
    requires |r.slots| == MAX_FLIGHT
    ensures |res.0.slots| == MAX_FLIGHT
  {
    if record.wireLen > RT_HEADER_LENGTH + MAX_ENCRYPTED_LENGTH then (r, w, Discard)
    else if record.epoch != r.epoch || ReplayWindow.ShouldDiscard(w, WindowNumber(record)) then (r, w, Discard)
    else if |record.payload| > MAX_PLAIN_LENGTH then (r, w, Fatal(RecordOverflow))
    else
      var (r', outcome) := OpenHandshake(r, record.contentType, record.payload);
      (r', ReplayWindow.Record(w, WindowNumber(record)), outcome)
  }

  // ----- runs

  function SendStep(world: World, f: Flight): World {
    world.(sender := f.next, wire := world.wire + Flatten(f.packets))
  }

  function Step(world: World, a: Action): (world': World)
    requires |world.receiver.slots| == MAX_FLIGHT
    ensures |world'.receiver.slots| == MAX_FLIGHT
  {
    match a
    case Queue(msgType, body) =>
      // Sixteen-bit sequence numbers are not allowed to wrap.
      if |world.queued| >= 0xffff then world
      else
        var (s, ok) := AddMessage(world.sender, msgType, body);
        world.(sender := s, queued := if ok then world.queued + [Message(msgType, body)] else world.queued)
    case QueueChangeCipherSpec => world.(sender := AddChangeCipherSpec(world.sender).0)
    case NextWriteEpoch(cipher) => world.(sender := SetWriteState(world.sender, cipher))
    case Flush(io) => SendStep(world, FlushFlight(world.sender, io))
    case Timeout(io) => SendStep(world, HandleTimeout(world.sender, io))
    case Deliver(k) =>
      if k >= |world.wire| then world
      else
        var (r, w, _) := Open(world.receiver, world.window, world.wire[k]);
        world.(receiver := r, window := w)
    case Get => world.(receiver := GetMessage(world.receiver).0)
    case Next =>
      // dtls1_next_message asserts both.
      if !world.receiver.hasMessage || !CurrentComplete(world.receiver) then world
      else
        var m := Current(world.receiver).value;
        world.(receiver := NextMessage(world.receiver), delivered := world.delivered + [Message(m.msgType, m.body)])
    case TakeChangeCipherSpec => world.(receiver := DtlsReceiver.TakeChangeCipherSpec(world.receiver))
    case NextReadEpoch =>
      var (r, changed) := SetReadState(world.receiver);
      if changed then world.(receiver := r, window := ReplayWindow.EMPTY) else world
    case Complete(answered) => world.(sender := HandshakeComplete(world.sender, answered))
  }

  function Run(start: World, actions: seq<Action>): (world: World)
    requires |start.receiver.slots| == MAX_FLIGHT
    ensures |world.receiver.slots| == MAX_FLIGHT
  {
    if actions == [] then start
    else Step(Run(start, actions[..|actions| - 1]), actions[|actions| - 1])
  }

  // ----- what is true in every reachable world

  /** `data` is message i of the queue, serialized whole. */
  ghost predicate IsMessage(queued: seq<Message>, i: nat, data: seq<byte>) {
    && i < |queued| <= 0xffff
    && |queued[i].body| < 0x100_0000
    && data == WholeMessage(queued[i].msgType, i, queued[i].body)
  }

  ghost predicate EntryHonest(queued: seq<Message>, o: Outgoing) {
    !o.isCcs ==> exists i: nat :: IsMessage(queued, i, o.data)
  }

  /** `payload` is the fragment [off, off + n) of message i of the queue. */
  ghost predicate IsFragment(queued: seq<Message>, i: nat, off: nat, n: nat, payload: seq<byte>) {
    && i < |queued| <= 0xffff
    && off + n <= |queued[i].body| < 0x100_0000
    && payload == Serialize(Header(queued[i].msgType, |queued[i].body|, i, off, n), queued[i].body[off..off + n])
  }

  ghost predicate RecordHonest(queued: seq<Message>, record: Record) {
    || (record.contentType == RT_CHANGE_CIPHER_SPEC && record.payload == [MT_CCS])
    || (record.contentType == RT_HANDSHAKE &&
        exists i: nat, off: nat, n: nat :: IsFragment(queued, i, off, n, record.payload))
  }

  /** Every byte the ring has marked as received is the sender's byte. */
  ghost predicate SlotHonest(queued: seq<Message>, slot: Option<Incoming>) {
    slot.Some? ==>
      var m := slot.value;
      && m.seqNo < |queued|
      && m.msgType == queued[m.seqNo].msgType
      && |m.flags| == |m.body| == |queued[m.seqNo].body|
      && forall k | 0 <= k < |m.body| :: m.flags[k] ==> m.body[k] == queued[m.seqNo].body[k]
  }

  ghost predicate Inv(world: World) {
    && world.sender.writeSeq == |world.queued| <= 0xffff
    && (forall o | o in world.sender.outgoing :: EntryHonest(world.queued, o))
    && (forall record | record in world.wire :: RecordHonest(world.queued, record))
    && RingOk(world.receiver)
    && (forall slot | slot in world.receiver.slots :: SlotHonest(world.queued, slot))
    && world.receiver.readSeq <= |world.queued|
    && world.delivered == world.queued[..world.receiver.readSeq]
  }

  // ----- sender steps

  lemma MessageParses(queued: seq<Message>, i: nat, data: seq<byte>)
    requires IsMessage(queued, i, data)
    ensures var body := queued[i].body;
      Parse(data) == Some(Parsed(Header(queued[i].msgType, |body|, i, 0, |body|), body, []))
  {
    var body := queued[i].body;
    var h := Header(queued[i].msgType, |body|, i, 0, |body|);
    ParseSerialized(h, body, []);
    assert Serialize(h, body) + [] == Serialize(h, body);
  }

  lemma PieceIsHonest(queued: seq<Message>, o: Outgoing, off: nat, record: Record)
    requires EntryHonest(queued, o) && PieceOf(o, off, record)
    ensures RecordHonest(queued, record)
  {
    if !o.isCcs {
      var i: nat :| IsMessage(queued, i, o.data);
      MessageParses(queued, i, o.data);
      assert IsFragment(queued, i, off, |record.payload| - HEADER_LENGTH, record.payload);
    }
  }

  lemma {:induction false} PacketHonest(queued: seq<Message>, s: Sender, maxOut: nat)
    requires forall o | o in s.outgoing :: EntryHonest(queued, o)
    ensures forall record | record in SealRecords(s, maxOut).records :: RecordHonest(queued, record)
    decreases |s.outgoing| - s.written
  {
    hide SealNextMessage, PieceOf, After, EntryHonest, RecordHonest;
    if s.written < |s.outgoing| {
      SealedIsPiece(s, maxOut);
      match SealNextMessage(s, maxOut)
      case SealError(_) =>
      case NoProgress =>
      case Partial(record, next) =>
        PieceIsHonest(queued, s.outgoing[s.written], s.offset, record);
      case Done(record, next) =>
        PieceIsHonest(queued, s.outgoing[s.written], s.offset, record);
        var room := if record.wireLen <= maxOut then maxOut - record.wireLen else 0;
        PacketHonest(queued, next.(written := s.written + 1), room);
    }
  }

  lemma {:induction false} FlightHonest(queued: seq<Message>, s: Sender, io: Transport, k: nat)
    requires forall o | o in s.outgoing :: EntryHonest(queued, o)
    ensures forall record | record in Flatten(SendPackets(s, io, k).packets) :: RecordHonest(queued, record)
    decreases |s.outgoing| - s.written,
              if s.written < |s.outgoing| then |s.outgoing[s.written].data| - s.offset else 0
  {
    hide SealNextMessage, EntryHonest, RecordHonest;
    if s.written < |s.outgoing| {
      var p := SealNextPacket(s);
      if p.ok && io.write(k) > 0 {
        PacketHonest(queued, s, s.mtu);
        FlightHonest(queued, p.next, io, k + 1);
        var f := SendPackets(p.next, io, k + 1);
        assert ([p.records] + f.packets)[1..] == f.packets;
      }
    }
  }

  lemma SendKeepsInv(world: World, s: Sender, io: Transport)
    requires Inv(world) && s.outgoing == world.sender.outgoing && s.writeSeq == world.sender.writeSeq
    ensures Inv(SendStep(world, SendFlight(s, io)))
  {
    FlightHonest(world.queued, UpdateMtu(s, io), io, 0);
  }

  /** Nothing is forgotten when the queue grows. */
  lemma HonestGrows(queued: seq<Message>, more: seq<Message>)
    requires queued <= more && |more| <= 0xffff
    ensures forall o | EntryHonest(queued, o) :: EntryHonest(more, o)
    ensures forall record | RecordHonest(queued, record) :: RecordHonest(more, record)
    ensures forall slot | SlotHonest(queued, slot) :: SlotHonest(more, slot)
  {
    forall o | EntryHonest(queued, o)
      ensures EntryHonest(more, o)
    {
      if !o.isCcs {
        var i: nat :| IsMessage(queued, i, o.data);
        assert IsMessage(more, i, o.data);
      }
    }
    forall record | RecordHonest(queued, record)
      ensures RecordHonest(more, record)
    {
      if record.contentType == RT_HANDSHAKE {
        var i: nat, off: nat, n: nat :| IsFragment(queued, i, off, n, record.payload);
        assert IsFragment(more, i, off, n, record.payload);
      }
    }
  }

  lemma QueueKeepsInv(world: World, msgType: byte, body: seq<byte>)
    requires Inv(world)
    ensures Inv(Step(world, Queue(msgType, body)))
  {
    if |world.queued| < 0xffff {
      var (s, ok) := AddMessage(world.sender, msgType, body);
      if ok {
        var more := world.queued + [Message(msgType, body)];
        HonestGrows(world.queued, more);
        assert IsMessage(more, |world.queued|, WholeMessage(msgType, |world.queued|, body));
      }
    }
  }

  // ----- receiver steps

  /** An authentic fragment can only fail by lying one past the ring, or too far ahead in epoch 1. */
  lemma FragmentKeepsHonest(queued: seq<Message>, r: Receiver, i: nat, off: nat, n: nat, payload: seq<byte>)
    requires IsFragment(queued, i, off, n, payload) && RingOk(r)
    requires forall slot | slot in r.slots :: SlotHonest(queued, slot)
    ensures var h := Header(queued[i].msgType, |queued[i].body|, i, off, n);
      forall slot | slot in OpenFragment(r, h, queued[i].body[off..off + n]).0.slots :: SlotHonest(queued, slot)
  {
    var h := Header(queued[i].msgType, |queued[i].body|, i, off, n);
    var body := queued[i].body[off..off + n];
    var r' := OpenFragment(r, h, body).0;
    if r' != r {
      LookupFindsSequence(r, h);
      var m := Lookup(r, h).value;
      var slot := i % MAX_FLIGHT;
      assert r.slots[slot].Some? ==> SlotHonest(queued, r.slots[slot]);
      AbsorbHonest(queued, m, h, body);
    }
  }

  lemma AbsorbHonest(queued: seq<Message>, m: Incoming, h: Header, body: seq<byte>)
    requires SlotHonest(queued, Some(m)) && h.seqNo == m.seqNo
    requires h.fragOff + h.fragLen <= |m.body| && |body| == h.fragLen
    requires body == queued[m.seqNo].body[h.fragOff..h.fragOff + h.fragLen]
    ensures SlotHonest(queued, Some(Absorb(m, h, body)))
  {
  }

  lemma OneFragmentRecord(r: Receiver, h: Header, body: seq<byte>)
    requires |r.slots| == MAX_FLIGHT && h.Fits() && |body| == h.fragLen
    ensures OpenFragments(r, Serialize(h, body)) == OpenFragment(r, h, body)
  {
    ParseSerialized(h, body, []);
    assert Serialize(h, body) + [] == Serialize(h, body);
    var (r', outcome) := OpenFragment(r, h, body);
    assert OpenFragments(r', []) == (r', Success);
  }

  lemma DeliverKeepsInv(world: World, k: nat)
    requires Inv(world)
    ensures Inv(Step(world, Deliver(k)))
  {
    if k < |world.wire| {
      var record := world.wire[k];
      var r := world.receiver;
      assert RecordHonest(world.queued, record);
      OpenHandshakeKeepsRing(r, record.contentType, record.payload);
      if record.contentType == RT_HANDSHAKE {
        var i: nat, off: nat, n: nat :| IsFragment(world.queued, i, off, n, record.payload);
        var body := world.queued[i].body;
        FragmentKeepsHonest(world.queued, r, i, off, n, record.payload);
        OneFragmentRecord(r, Header(world.queued[i].msgType, |body|, i, off, n), body[off..off + n]);
      }
    }
  }

  /** What can be handed out is the message whose turn it is. */
  lemma CurrentIsNext(world: World)
    requires Inv(world) && CurrentComplete(world.receiver)
    ensures var (m, i) := (Current(world.receiver).value, world.receiver.readSeq);
      m.seqNo == i < |world.queued| && Message(m.msgType, m.body) == world.queued[i]
  {
    var r := world.receiver;
    NextMessageKeepsRing(r);
    var m := Current(r).value;
    assert SlotHonest(world.queued, Current(r));
    forall k | 0 <= k < |m.body|
      ensures m.body[k] == world.queued[r.readSeq].body[k]
    {
      assert m.flags[k] == AllReceived(|m.body|)[k];
    }
  }

  lemma GetKeepsInv(world: World)
    requires Inv(world)
    ensures Inv(Step(world, Get))
  {
    GetMessageKeepsRing(world.receiver);
  }

  lemma NextKeepsInv(world: World)
    requires Inv(world)
    ensures Inv(Step(world, Next))
  {
    var r := world.receiver;
    if r.hasMessage && CurrentComplete(r) {
      NextMessageKeepsRing(r);
      CurrentIsNext(world);
      assert world.queued[..r.readSeq + 1] == world.queued[..r.readSeq] + [world.queued[r.readSeq]];
    }
  }

  lemma StepKeepsInv(world: World, a: Action)
    requires Inv(world)
    ensures Inv(Step(world, a))
  {
    match a
    case Queue(msgType, body) => QueueKeepsInv(world, msgType, body);
    case QueueChangeCipherSpec =>
    case NextWriteEpoch(cipher) =>
    case Flush(io) => SendKeepsInv(world, world.sender.(complete := true), io);
    case Timeout(io) => TimeoutKeepsInv(world, io);
    case Deliver(k) => DeliverKeepsInv(world, k);
    case Get => GetKeepsInv(world);
    case Next => NextKeepsInv(world);
    case TakeChangeCipherSpec => ChangeOfKeysKeepsRing(world.receiver);
    case NextReadEpoch => ChangeOfKeysKeepsRing(world.receiver);
    case Complete(answered) =>
  }

  lemma TimeoutKeepsInv(world: World, io: Transport)
    requires Inv(world)
    ensures Inv(Step(world, Timeout(io)))
  {
    hide EntryHonest, RecordHonest, SlotHonest, RingOk, SendPackets;
    var f := HandleTimeout(world.sender, io);
    var t := world.sender.(timeouts := world.sender.timeouts + 1);
    var u :=
      if t.timeouts > MTU_TIMEOUTS && io.fallbackMtu.Some? && AcceptableMtu(io.fallbackMtu.value)
      then t.(mtu := io.fallbackMtu.value)
      else t;
    SendKeepsInv(world, u.(written := 0, offset := 0), io);
  }

  lemma {:induction false} RunKeepsInv(mtu: nat, maxLen: nat, actions: seq<Action>)
    ensures Inv(Run(Start(mtu, maxLen), actions))
  {
    if actions == [] {
      FreshRing(maxLen);
    } else {
      RunKeepsInv(mtu, maxLen, actions[..|actions| - 1]);
      StepKeepsInv(Run(Start(mtu, maxLen), actions[..|actions| - 1]), actions[|actions| - 1]);
    }
  }

  /**
   End to end: in every run, whatever is lost, repeated, reordered or re-fragmented, the
   messages handed out are a prefix of the messages queued, byte for byte and in order.
   */
  lemma DeliveredIsPrefix(mtu: nat, maxLen: nat, actions: seq<Action>)
    ensures var world := Run(Start(mtu, maxLen), actions);
      world.delivered <= world.queued && |world.delivered| == world.receiver.readSeq
  {
    RunKeepsInv(mtu, maxLen, actions);
  }

  /** In every run dtls1_get_message hands out nothing, or the message that follows those delivered. */
  lemma GetIsNext(mtu: nat, maxLen: nat, actions: seq<Action>)
    ensures var world := Run(Start(mtu, maxLen), actions);
      var m := GetMessage(world.receiver).1;
      m.Some? ==> |world.delivered| < |world.queued| && m.value == world.queued[|world.delivered|]
  {
    RunKeepsInv(mtu, maxLen, actions);
    var world := Run(Start(mtu, maxLen), actions);
    if CurrentComplete(world.receiver) {
      CurrentIsNext(world);
    }
  }
}
