/**
 Record numbers of a DTLS connection: what the sender seals is numbered upwards within each
 epoch, so the replay window never stands in the way of a record that is sent anew.
 */
module DtlsNumbers {
  import opened Octets
  import opened Fragments
  import opened DtlsReceiver
  import opened DtlsSender
  import opened DtlsNetwork
  import ReplayWindow

  /** The records of epoch `e` are numbered upwards, from `n` on and below `m`. */
  predicate InOrder(records: seq<Record>, e: nat, n: nat, m: nat)
    decreases |records|
  {
    if records == [] then n <= m
    else if records[0].epoch != e then InOrder(records[1..], e, n, m)
    else n <= records[0].number && InOrder(records[1..], e, records[0].number + 1, m)
  }

  lemma {:induction false} InOrderBounds(records: seq<Record>, e: nat, n: nat, m: nat)
    requires InOrder(records, e, n, m)
    ensures n <= m
    ensures forall record | record in records && record.epoch == e :: n <= record.number < m
    decreases |records|
  {
    if records != [] {
      InOrderBounds(records[1..], e, if records[0].epoch == e then records[0].number + 1 else n, m);
    }
  }

  lemma InOrderFirst(records: seq<Record>, e: nat, n: nat, m: nat)
    requires records != [] && InOrder(records, e, n, m)
    ensures records[0].epoch == e ==>
      n <= records[0].number < m && InOrder(records[1..], e, records[0].number + 1, m)
    ensures records[0].epoch != e ==> InOrder(records[1..], e, n, m)
  {
    InOrderBounds(records, e, n, m);
    assert records[0] in records;
  }

  lemma {:induction false} InOrderConcat(a: seq<Record>, b: seq<Record>, e: nat, n: nat, k: nat, m: nat)
    requires InOrder(a, e, n, k) && InOrder(b, e, k, m)
    ensures InOrder(a + b, e, n, m)
    decreases |a|, |b|
  {
    if a != [] {
      InOrderConcat(a[1..], b, e, if a[0].epoch == e then a[0].number + 1 else n, k, m);
      assert (a + b)[1..] == a[1..] + b;
    } else {
      assert a + b == b;
      if b != [] && b[0].epoch != e {
        InOrderConcat(a, b[1..], e, n, k, m);
        assert a + b[1..] == b[1..];
      }
    }
  }

  lemma OneInOrder(record: Record, e: nat, n: nat, m: nat)
    requires if record.epoch == e then n == record.number < m else n <= m
    ensures InOrder([record], e, n, m)
  {
    assert [record][1..] == [];
  }

  /** Sealing `records` took the sender from `s` to `t`: the numbers are those between the two. */
  ghost predicate Numbers(s: Sender, records: seq<Record>, t: Sender) {
    && InOrder(records, s.epoch, s.number, t.number)
    && (s.epoch > 0 ==> InOrder(records, s.epoch - 1, s.lastNumber, t.lastNumber))
    && forall record | record in records :: record.epoch <= s.epoch <= record.epoch + 1
  }

  lemma NumbersConcat(s: Sender, a: seq<Record>, t: Sender, b: seq<Record>, u: Sender)
    requires Numbers(s, a, t) && Numbers(t, b, u) && s.epoch == t.epoch
    ensures Numbers(s, a + b, u)
  {
    InOrderConcat(a, b, s.epoch, s.number, t.number, u.number);
    if s.epoch > 0 {
      InOrderConcat(a, b, s.epoch - 1, s.lastNumber, t.lastNumber, u.lastNumber);
    }
  }

  lemma RecordNumbers(s: Sender, maxOut: nat)
    requires s.written < |s.outgoing|
    ensures var res := SealNextMessage(s, maxOut);
      && (res.Partial? || res.Done? ==> Numbers(s, [res.record], res.next) && res.next.epoch == s.epoch)
      && (res.Done? ==> Numbers(s, [res.record], res.next.(written := s.written + 1)))
      && (res.SealError? ==> Numbers(s, [], res.next))
  {
    hide Parse, Serialize, Kept;
    var res := SealNextMessage(s, maxOut);
    if res.Partial? || res.Done? {
      OneInOrder(res.record, s.epoch, s.number, res.next.number);
      if s.epoch > 0 {
        OneInOrder(res.record, s.epoch - 1, s.lastNumber, res.next.lastNumber);
      }
    }
  }

  lemma NothingNumbered(s: Sender)
    ensures Numbers(s, [], s)
  {
  }

  lemma {:induction false} PacketNumbers(s: Sender, maxOut: nat)
    ensures var p := SealRecords(s, maxOut); Numbers(s, p.records, p.next)
    decreases |s.outgoing| - s.written
  {
    hide SealNextMessage, Numbers;
    NothingNumbered(s);
    if s.written < |s.outgoing| {
      RecordNumbers(s, maxOut);
      match SealNextMessage(s, maxOut)
      case SealError(_) =>
      case NoProgress =>
      case Partial(record, next) =>
      case Done(record, next) =>
        var room := if record.wireLen <= maxOut then maxOut - record.wireLen else 0;
        var moved := next.(written := s.written + 1);
        PacketNumbers(moved, room);
        var p := SealRecords(moved, room);
        NumbersConcat(s, [record], moved, p.records, p.next);
    }
  }

  lemma {:induction false} FlightNumbers(s: Sender, io: Transport, k: nat)
    ensures var f := SendPackets(s, io, k); Numbers(s, Flatten(f.packets), f.next) && f.next.epoch == s.epoch
    decreases |s.outgoing| - s.written,
              if s.written < |s.outgoing| then |s.outgoing[s.written].data| - s.offset else 0
  {
    hide SealRecords;
    if s.written < |s.outgoing| {
      PacketNumbers(s, s.mtu);
      var p := SealNextPacket(s);
      InOrderBounds(p.records, s.epoch, s.number, p.next.number);
      if s.epoch > 0 {
        InOrderBounds(p.records, s.epoch - 1, s.lastNumber, p.next.lastNumber);
      }
      if p.ok && io.write(k) > 0 {
        FlightNumbers(p.next, io, k + 1);
        var f := SendPackets(p.next, io, k + 1);
        assert ([p.records] + f.packets)[1..] == f.packets;
        NumbersConcat(s, p.records, p.next, Flatten(f.packets), f.next);
      }
    }
  }

  // ----- every reachable world

  /** Every number on the wire is used up, in the sender's epoch and in the one before. */
  ghost predicate NumbersUsed(s: Sender, wire: seq<Record>) {
    forall record | record in wire ::
      && record.epoch <= s.epoch
      && (record.epoch == s.epoch ==> record.number < s.number)
      && (record.epoch + 1 == s.epoch ==> record.number < s.lastNumber)
  }

  /** Nothing waits for an epoch that has not begun, and the first one is not encrypted. */
  ghost predicate EpochsOk(s: Sender) {
    && (forall o | o in s.outgoing :: o.epoch <= s.epoch)
    && (s.epoch == 0 ==> s.cipher == NULL_CIPHER && s.lastCipher == NULL_CIPHER)
  }

  /** The window's maximum is the number of a record that was on the wire. */
  ghost predicate WindowFromWire(world: World) {
    && |world.receiver.slots| == MAX_FLIGHT
    && (world.receiver.epoch == 0 ==> world.receiver.nullCipher)
    && (world.window == ReplayWindow.EMPTY ||
        exists record | record in world.wire ::
          record.epoch == world.receiver.epoch && world.window.maxSeqNum == WindowNumber(record))
  }

  ghost predicate NumbersInv(world: World) {
    NumbersUsed(world.sender, world.wire) && EpochsOk(world.sender) && WindowFromWire(world)
  }

  lemma SentIsUsed(s: Sender, wire: seq<Record>, sent: seq<Record>, t: Sender)
    requires NumbersUsed(s, wire) && Numbers(s, sent, t) && t.epoch == s.epoch
    ensures NumbersUsed(t, wire + sent)
  {
    InOrderBounds(sent, s.epoch, s.number, t.number);
    if s.epoch > 0 {
      InOrderBounds(sent, s.epoch - 1, s.lastNumber, t.lastNumber);
    }
  }

  lemma SendKeepsNumbers(world: World, s: Sender, io: Transport)
    requires NumbersInv(world)
    requires s == world.sender.(written := s.written, offset := s.offset, complete := s.complete,
                                timeouts := s.timeouts, mtu := s.mtu)
    ensures NumbersInv(SendStep(world, SendFlight(s, io)))
  {
    var t := UpdateMtu(s, io);
    FlightNumbers(t, io, 0);
    hide SendPackets, Numbers;
    var f := SendPackets(t, io, 0);
    SentIsUsed(t, world.wire, Flatten(f.packets), f.next);
    assert f.next.outgoing == s.outgoing && f.next.cipher == s.cipher && f.next.lastCipher == s.lastCipher;
    hide NumbersUsed;
    if world.window != ReplayWindow.EMPTY {
      var record :| record in world.wire &&
        record.epoch == world.receiver.epoch && world.window.maxSeqNum == WindowNumber(record);
      assert record in SendStep(world, SendFlight(s, io)).wire;
    }
  }

  lemma {:induction false} FragmentsKeepEpoch(r: Receiver, s: seq<byte>)
    requires |r.slots| == MAX_FLIGHT
    ensures var r' := OpenFragments(r, s).0; r'.epoch == r.epoch && r'.nullCipher == r.nullCipher
    decreases |s|
  {
    if s != [] && Parse(s).Some? {
      var (r', outcome) := OpenFragment(r, Parse(s).value.header, Parse(s).value.body);
      if outcome == Success {
        FragmentsKeepEpoch(r', Parse(s).value.rest);
      }
    }
  }

  lemma OpenKeepsEpoch(r: Receiver, contentType: byte, payload: seq<byte>)
    requires |r.slots| == MAX_FLIGHT
    ensures var r' := OpenHandshake(r, contentType, payload).0;
      r'.epoch == r.epoch && r'.nullCipher == r.nullCipher
  {
    FragmentsKeepEpoch(r, payload);
  }

  lemma RecordMax(w: ReplayWindow.Window, n: ReplayWindow.uint64)
    ensures ReplayWindow.Record(w, n).maxSeqNum == if n > w.maxSeqNum then n else w.maxSeqNum
    ensures ReplayWindow.EMPTY.maxSeqNum == 0
  {
    hide ReplayWindow.OrBit, ReplayWindow.ShiftMap;
  }

  lemma DeliverKeepsNumbers(world: World, k: nat)
    requires NumbersInv(world)
    ensures NumbersInv(Step(world, Deliver(k)))
  {
    hide NumbersUsed, EpochsOk, OpenHandshake, WindowNumber, ReplayWindow.Record, ReplayWindow.ShouldDiscard;
    if k < |world.wire| {
      var record := world.wire[k];
      OpenKeepsEpoch(world.receiver, record.contentType, record.payload);
      RecordMax(world.window, WindowNumber(record));
      assert record in world.wire;
    }
  }

  lemma TimeoutKeepsNumbers(world: World, io: Transport)
    requires NumbersInv(world)
    ensures NumbersInv(Step(world, Timeout(io)))
  {
    TimeoutIsResend(world.sender, io);
    if world.sender.timeouts + 1 <= MAX_TIMEOUTS {
      SendKeepsNumbers(world, Rewound(world.sender, io), io);
    } else {
      assert world.wire + [] == world.wire;
    }
  }

  lemma StepKeepsNumbers(world: World, a: Action)
    requires NumbersInv(world)
    ensures NumbersInv(Step(world, a))
  {
    match a
    case Queue(msgType, body) =>
    case QueueChangeCipherSpec =>
    case NextWriteEpoch(cipher) =>
    case Flush(io) => SendKeepsNumbers(world, world.sender.(complete := true), io);
    case Timeout(io) => TimeoutKeepsNumbers(world, io);
    case Deliver(k) => DeliverKeepsNumbers(world, k);
    case Get =>
    case Next =>
    case TakeChangeCipherSpec =>
    case NextReadEpoch =>
    case Complete(answered) =>
  }

  /** In every reachable world each record number is used once, and the window only holds numbers used. */
  lemma {:induction false} RunKeepsNumbers(mtu: nat, maxLen: nat, actions: seq<Action>)
    ensures NumbersInv(Run(Start(mtu, maxLen), actions))
  {
    if actions != [] {
      RunKeepsNumbers(mtu, maxLen, actions[..|actions| - 1]);
      StepKeepsNumbers(Run(Start(mtu, maxLen), actions[..|actions| - 1]), actions[|actions| - 1]);
    }
  }

  // ----- the sender as a timeout leaves it

  /** The sender as the retransmission after a timeout finds it. */
  function Rewound(s: Sender, io: Transport): Sender {
    var t := s.(timeouts := s.timeouts + 1, written := 0, offset := 0);
    if t.timeouts > MTU_TIMEOUTS && io.fallbackMtu.Some? && AcceptableMtu(io.fallbackMtu.value)
    then t.(mtu := io.fallbackMtu.value)
    else t
  }

  lemma TimeoutIsResend(s: Sender, io: Transport)
    ensures s.timeouts + 1 <= MAX_TIMEOUTS ==> HandleTimeout(s, io) == SendFlight(Rewound(s, io), io)
  {
    hide SendPackets;
  }
}
