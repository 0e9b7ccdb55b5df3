/**
 Recovery by retransmission: however much of a flight was lost before, sending it again
 over a transport that takes every packet, and delivering what it takes in order, leaves
 every message of the receiver's epoch complete in the receiver's ring. The sender may be
 an epoch ahead, its flight crossing a change of keys.
 */
module DtlsRecovery {
  import opened Octets
  import opened Fragments
  import opened Reassembly
  import opened DtlsReceiver
  import opened DtlsSender
  import opened DtlsNetwork
  import opened DtlsNumbers
  import ReplayWindow

  // ----- what the ring holds of a message

  /** Message `i` is in the ring with at least its first `n` bytes. */
  ghost predicate Holds(r: Receiver, i: nat, n: nat) {
    && |r.slots| == MAX_FLIGHT
    && r.slots[i % MAX_FLIGHT].Some?
    && var m := r.slots[i % MAX_FLIGHT].value;
       m.seqNo == i && n <= |m.flags| && forall k | 0 <= k < n :: m.flags[k]
  }

  /** Message `i` was handed out already, or is complete in the ring. */
  ghost predicate Arrived(queued: seq<Message>, r: Receiver, i: nat) {
    i < |queued| && (i < r.readSeq || Holds(r, i, |queued[i].body|))
  }

  lemma HeldIsComplete(queued: seq<Message>, r: Receiver, i: nat)
    requires i < |queued| && Holds(r, i, |queued[i].body|) && SlotHonest(queued, r.slots[i % MAX_FLIGHT])
    ensures r.slots[i % MAX_FLIGHT].value.Complete()
    ensures r.slots[i % MAX_FLIGHT].value.msgType == queued[i].msgType
    ensures r.slots[i % MAX_FLIGHT].value.body == queued[i].body
  {
    var m := r.slots[i % MAX_FLIGHT].value;
    assert m.flags == AllReceived(|m.body|);
  }

  /** The window of `r` is where it was and nothing it held is lost. */
  ghost predicate Keeps(r: Receiver, r': Receiver) {
    && r'.readSeq == r.readSeq && r'.maxLen == r.maxLen
    && r'.epoch == r.epoch && r'.nullCipher == r.nullCipher && (r.hasCcs ==> r'.hasCcs)
    && forall j: nat, u: nat | Holds(r, j, u) :: Holds(r', j, u)
  }

  /** The receiver's ring is in order and holds only the sender's bytes. */
  ghost predicate Listening(queued: seq<Message>, r: Receiver) {
    RingOk(r) && forall slot | slot in r.slots :: SlotHonest(queued, slot)
  }

  /**
   Message `i` is not too long for the receiver and not beyond its ring; in epoch 1, which
   has only one handshake message, it is the next one.
   */
  predicate Deliverable(queued: seq<Message>, r: Receiver, i: nat) {
    && i < |queued| && |queued[i].body| <= r.maxLen
    && if r.epoch == 1 then i == r.readSeq else i < r.readSeq + MAX_FLIGHT
  }

  /** A slot that only gains bytes, or is filled, takes nothing away. */
  lemma SlotGrows(r: Receiver, slot: nat, m': Incoming)
    requires |r.slots| == MAX_FLIGHT && slot < MAX_FLIGHT
    requires r.slots[slot].Some? ==>
      var m := r.slots[slot].value;
      m'.seqNo == m.seqNo && |m'.flags| == |m.flags| && forall k | 0 <= k < |m.flags| && m.flags[k] :: m'.flags[k]
    ensures Keeps(r, r.(slots := r.slots[slot := Some(m')]))
  {
  }

  lemma FragmentAdds(queued: seq<Message>, r: Receiver, i: nat, off: nat, n: nat, payload: seq<byte>)
    requires Listening(queued, r) && IsFragment(queued, i, off, n, payload) && Deliverable(queued, r, i)
    ensures var (r', outcome) := OpenFragments(r, payload);
      && outcome == Success && Listening(queued, r') && Keeps(r, r')
      && (i >= r.readSeq && (off == 0 || Holds(r, i, off)) ==> Holds(r', i, off + n))
  {
    var h := Header(queued[i].msgType, |queued[i].body|, i, off, n);
    var body := queued[i].body[off..off + n];
    OneFragmentRecord(r, h, body);
    OpenFragmentKeepsRing(r, h, body);
    FragmentKeepsHonest(queued, r, i, off, n, payload);
    hide OpenFragments, Serialize;
    if i >= r.readSeq {
      var slot := i % MAX_FLIGHT;
      assert r.slots[slot].Some? ==> SlotHonest(queued, r.slots[slot]);
      assert SlotOk(r, slot);
      if r.slots[slot].Some? {
        SameSlot(r.readSeq, i, r.slots[slot].value.seqNo);
      }
      LookupFindsSequence(r, h);
      AbsorbAdds(Lookup(r, h).value, h, body);
      SlotGrows(r, slot, Absorb(Lookup(r, h).value, h, body));
      hide Keeps, Absorb, RingOk, SlotHonest;
    }
  }

  lemma AbsorbAdds(m: Incoming, h: Header, body: seq<byte>)
    requires |m.flags| == |m.body| && h.fragOff + h.fragLen <= |m.body| && |body| == h.fragLen
    ensures var m' := Absorb(m, h, body);
      && m'.seqNo == m.seqNo && |m'.flags| == |m.flags|
      && (forall k | 0 <= k < |m.flags| && m.flags[k] :: m'.flags[k])
      && (forall k | h.fragOff <= k < h.fragOff + h.fragLen :: m'.flags[k])
  {
    if m.Complete() {
      forall k | 0 <= k < |m.flags|
        ensures m.flags[k]
      {
        assert m.flags[k] == AllReceived(|m.body|)[k];
      }
    }
  }

  // ----- a whole flight

  function OpenAll(r: Receiver, w: ReplayWindow.Window, records: seq<Record>):
    (res: (Receiver, ReplayWindow.Window, bool))
    requires |r.slots| == MAX_FLIGHT
    ensures |res.0.slots| == MAX_FLIGHT
    decreases |records|
  {
    if records == [] then (r, w, true)
    else
      var (r', w', outcome) := Open(r, w, records[0]);
      var (r'', w'', ok) := OpenAll(r', w', records[1..]);
      (r'', w'', ok && !outcome.Fatal?)
  }

  /** The messages of the flight, and that the receiver has room for each of them. */
  ghost predicate FlightDeliverable(queued: seq<Message>, r: Receiver, flight: seq<Outgoing>) {
    forall o | o in flight :: EntryDeliverable(queued, r, o)
  }

  /** An entry of the receiver's epoch; the receiver drops all others unread. */
  ghost predicate EntryDeliverable(queued: seq<Message>, r: Receiver, o: Outgoing) {
    o.epoch == r.epoch ==>
      if o.isCcs then r.nullCipher
      else exists i: nat :: IsMessage(queued, i, o.data) && Deliverable(queued, r, i)
  }

  predicate Awaited(r: Receiver, o: Outgoing) {
    o.epoch == r.epoch && !o.isCcs
  }

  /** Every awaited message, and a ChangeCipherSpec, among the first `count` entries of the flight has arrived. */
  ghost predicate ArrivedUpTo(queued: seq<Message>, r: Receiver, flight: seq<Outgoing>, count: nat) {
    && count <= |flight|
    && (forall j: nat | j < count && flight[j].isCcs && flight[j].epoch == r.epoch :: r.hasCcs)
    && forall j: nat, i: nat | j < count && Awaited(r, flight[j]) && IsMessage(queued, i, flight[j].data) ::
         Arrived(queued, r, i)
  }

  /** The first `off` bytes of the message at position `at` have arrived. */
  ghost predicate PartArrived(queued: seq<Message>, r: Receiver, flight: seq<Outgoing>, at: nat, off: nat) {
    off != 0 && at < |flight| && Awaited(r, flight[at]) ==>
      forall i: nat | IsMessage(queued, i, flight[at].data) :: i < r.readSeq || Holds(r, i, off)
  }

  /** The number the window sees for record `number` of epoch `e`. */
  function InWindow(e: nat, number: nat): ReplayWindow.uint64
    requires e < 0x1_0000 && number < 0x1_0000_0000_0000
  {
    e * 0x1_0000_0000_0000 + number
  }

  /** The window has recorded nothing of epoch `e` numbered `number` or more. */
  predicate Below(w: ReplayWindow.Window, e: nat, number: nat)
    requires e < 0x1_0000
  {
    w == ReplayWindow.EMPTY || w.maxSeqNum < e * 0x1_0000_0000_0000 + number
  }

  lemma FreshIsAccepted(w: ReplayWindow.Window, e: nat, n: nat, number: nat)
    requires e < 0x1_0000 && n <= number < 0x1_0000_0000_0000 && Below(w, e, n)
    ensures !ReplayWindow.ShouldDiscard(w, InWindow(e, number))
    ensures Below(ReplayWindow.Record(w, InWindow(e, number)), e, number + 1)
  {
    hide ReplayWindow.OrBit, ReplayWindow.ShiftMap;
    ReplayWindow.EmptyRepresents();
    ReplayWindow.DiscardMeansSeenOrStale(ReplayWindow.EMPTY, {}, InWindow(e, number));
  }

  lemma ChangeCipherSpecKeeps(queued: seq<Message>, r: Receiver)
    requires Listening(queued, r) && r.nullCipher
    ensures var (r', outcome) := OpenHandshake(r, RT_CHANGE_CIPHER_SPEC, [MT_CCS]);
      outcome == Success && Listening(queued, r') && Keeps(r, r') && r'.hasCcs
  {
    OpenHandshakeKeepsRing(r, RT_CHANGE_CIPHER_SPEC, [MT_CCS]);
  }

  /** One record of a flight: it is taken, nothing held is lost, and its bytes are added. */
  lemma RecordAdds(queued: seq<Message>, r: Receiver, o: Outgoing, off: nat, record: Record)
    requires Listening(queued, r) && PieceOf(o, off, record) && EntryDeliverable(queued, r, o) && o.epoch == r.epoch
    ensures var (r', outcome) := OpenHandshake(r, record.contentType, record.payload);
      outcome == Success && Listening(queued, r') && Keeps(r, r') && Adds(queued, r, r', o, off, record)
  {
    assert |r.slots| == MAX_FLIGHT;
    hide OpenHandshake, OpenFragments, Listening, Keeps, Holds, IsMessage, IsFragment, Parse, Serialize;
    if o.isCcs {
      ChangeCipherSpecKeeps(queued, r);
    } else {
      var i: nat :| IsMessage(queued, i, o.data) && Deliverable(queued, r, i);
      MessageAdds(queued, r, i, o, off, record);
    }
  }

  lemma MessageAdds(queued: seq<Message>, r: Receiver, i: nat, o: Outgoing, off: nat, record: Record)
    requires Listening(queued, r) && PieceOf(o, off, record) && o.epoch == r.epoch && !o.isCcs
    requires IsMessage(queued, i, o.data) && Deliverable(queued, r, i) && |r.slots| == MAX_FLIGHT
    ensures var (r', outcome) := OpenHandshake(r, record.contentType, record.payload);
      outcome == Success && Listening(queued, r') && Keeps(r, r') && Adds(queued, r, r', o, off, record)
  {
    hide OpenHandshake, OpenFragments, Listening, Keeps, Holds, IsMessage, IsFragment, Parse, Serialize, Deliverable;
    PieceIsFragment(queued, o, i, off, record);
    FragmentAdds(queued, r, i, off, |record.payload| - HEADER_LENGTH, record.payload);
    HandshakeRecord(r, record.payload);
    forall i': nat | IsMessage(queued, i', o.data)
      ensures i' == i
    {
      OneMessage(queued, i, i', o.data);
    }
  }

  lemma HandshakeRecord(r: Receiver, payload: seq<byte>)
    requires |r.slots| == MAX_FLIGHT
    ensures OpenHandshake(r, RT_HANDSHAKE, payload) == OpenFragments(r, payload)
  {
  }

  lemma OneMessage(queued: seq<Message>, i: nat, j: nat, data: seq<byte>)
    requires IsMessage(queued, i, data) && IsMessage(queued, j, data)
    ensures i == j
  {
    MessageParses(queued, i, data);
    MessageParses(queued, j, data);
  }

  lemma PieceIsFragment(queued: seq<Message>, o: Outgoing, i: nat, off: nat, record: Record)
    requires !o.isCcs && PieceOf(o, off, record) && IsMessage(queued, i, o.data)
    ensures IsFragment(queued, i, off, |record.payload| - HEADER_LENGTH, record.payload)
  {
    MessageParses(queued, i, o.data);
  }

  /** After `record`, the bytes it carries are held too. */
  ghost predicate Adds(queued: seq<Message>, r: Receiver, r': Receiver, o: Outgoing, off: nat, record: Record) {
    if o.isCcs then r'.hasCcs
    else
      && |record.payload| >= HEADER_LENGTH
      && forall i: nat | IsMessage(queued, i, o.data) && i >= r.readSeq && (off == 0 || Holds(r, i, off)) ::
           Holds(r', i, off + |record.payload| - HEADER_LENGTH)
  }

  lemma StillArrived(queued: seq<Message>, r: Receiver, r': Receiver, flight: seq<Outgoing>, count: nat)
    requires ArrivedUpTo(queued, r, flight, count) && Keeps(r, r')
    ensures ArrivedUpTo(queued, r', flight, count)
  {
    forall j: nat, i: nat | j < count && Awaited(r', flight[j]) && IsMessage(queued, i, flight[j].data)
      ensures Arrived(queued, r', i)
    {
      assert Arrived(queued, r, i);
    }
  }

  /** The position of the flight after one more record. */
  lemma PositionAdvances(
      queued: seq<Message>, r: Receiver, r': Receiver, flight: seq<Outgoing>, at: nat, off: nat, record: Record)
    requires at < |flight| && PieceOf(flight[at], off, record) && r'.readSeq == r.readSeq && r'.epoch == r.epoch
    requires ArrivedUpTo(queued, r', flight, at) && PartArrived(queued, r, flight, at, off)
    requires flight[at].isCcs ==> off == 0
    requires flight[at].epoch == r.epoch ==> Adds(queued, r, r', flight[at], off, record)
    ensures var (at', off') := After(flight[at], at, off, record);
      && ArrivedUpTo(queued, r', flight, at') && PartArrived(queued, r', flight, at', off')
      && (at' < |flight| && flight[at'].isCcs ==> off' == 0)
  {
    var (at', off') := After(flight[at], at, off, record);
    if Awaited(r, flight[at]) {
      forall i: nat | IsMessage(queued, i, flight[at].data)
        ensures i < r.readSeq || Holds(r', i, off + |record.payload| - HEADER_LENGTH)
        ensures |Parse(flight[at].data).value.body| == |queued[i].body|
      {
        MessageParses(queued, i, flight[at].data);
      }
    }
  }

  /** What holds when the flight has been received up to offset `off` of entry `at`. */
  ghost predicate Progress(queued: seq<Message>, r: Receiver, flight: seq<Outgoing>, at: nat, off: nat) {
    && Listening(queued, r) && FlightDeliverable(queued, r, flight)
    && ArrivedUpTo(queued, r, flight, at) && PartArrived(queued, r, flight, at, off)
    && (at < |flight| && flight[at].isCcs ==> off == 0)
  }

  /** What dtls_open_record lets through. */
  predicate LengthsAllowed(record: Record) {
    |record.payload| <= MAX_PLAIN_LENGTH && record.wireLen <= RT_HEADER_LENGTH + MAX_ENCRYPTED_LENGTH
  }

  /** A record numbered above all that the window holds is opened. */
  lemma FreshIsOpened(r: Receiver, w: ReplayWindow.Window, record: Record, n: nat)
    requires |r.slots| == MAX_FLIGHT && record.epoch == r.epoch < 0x1_0000
    requires n <= record.number < 0x1_0000_0000_0000 && LengthsAllowed(record)
    requires Below(w, r.epoch, n)
    ensures var (r', w', outcome) := Open(r, w, record);
      (r', outcome) == OpenHandshake(r, record.contentType, record.payload) && Below(w', r.epoch, record.number + 1)
  {
    assert WindowNumber(record) == InWindow(r.epoch, record.number);
    FreshIsAccepted(w, r.epoch, n, record.number);
    hide OpenHandshake, Below, InWindow, WindowNumber, ReplayWindow.Record, ReplayWindow.ShouldDiscard;
  }

  lemma RecordProgresses(
      queued: seq<Message>, r: Receiver, flight: seq<Outgoing>, at: nat, off: nat, record: Record)
    requires Progress(queued, r, flight, at, off) && at < |flight| && PieceOf(flight[at], off, record)
    requires record.epoch == r.epoch
    ensures var (r', outcome) := OpenHandshake(r, record.contentType, record.payload);
      var (at', off') := After(flight[at], at, off, record);
      && outcome == Success && r'.readSeq == r.readSeq && r'.epoch == r.epoch
      && Progress(queued, r', flight, at', off')
  {
    var o := flight[at];
    assert o in flight && EntryDeliverable(queued, r, o);
    SameEpoch(o, off, record);
    assert |r.slots| == MAX_FLIGHT;
    hide PieceOf, After, OpenHandshake, Listening, ArrivedUpTo, PartArrived, FlightDeliverable, Adds;
    hide Holds, IsMessage, EntryDeliverable;
    RecordAdds(queued, r, o, off, record);
    var r' := OpenHandshake(r, record.contentType, record.payload).0;
    StillArrived(queued, r, r', flight, at);
    PositionAdvances(queued, r, r', flight, at, off, record);
    StillDeliverable(queued, r, r', flight);
  }

  lemma SameEpoch(o: Outgoing, off: nat, record: Record)
    requires PieceOf(o, off, record)
    ensures record.epoch == o.epoch
  {
  }

  /** A record of another epoch is dropped, and the flight moves on all the same. */
  lemma OtherEpochPasses(
      queued: seq<Message>, r: Receiver, w: ReplayWindow.Window,
      flight: seq<Outgoing>, at: nat, off: nat, record: Record)
    requires Progress(queued, r, flight, at, off) && at < |flight| && PieceOf(flight[at], off, record)
    requires record.epoch != r.epoch
    ensures var (at', off') := After(flight[at], at, off, record);
      Open(r, w, record) == (r, w, Discard) && Progress(queued, r, flight, at', off')
  {
    SameEpoch(flight[at], off, record);
    hide PieceOf, Listening, Holds, IsMessage, EntryDeliverable;
    PositionAdvances(queued, r, r, flight, at, off, record);
  }

  predicate PayloadsOk(records: seq<Record>) {
    forall record | record in records :: LengthsAllowed(record)
  }

  lemma PayloadsOfRest(records: seq<Record>)
    requires PayloadsOk(records) && records != []
    ensures PayloadsOk(records[1..]) && LengthsAllowed(records[0])
  {
    assert records[0] in records;
  }

  /** The first record of a tiled list, whatever its epoch; `n'` bounds the numbers from then on. */
  lemma FirstArrives(
      queued: seq<Message>, r: Receiver, w: ReplayWindow.Window,
      flight: seq<Outgoing>, at: nat, off: nat, records: seq<Record>, n: nat, m: nat) returns (n': nat)
    requires records != [] && PayloadsOk(records)
    requires Progress(queued, r, flight, at, off) && at < |flight| && PieceOf(flight[at], off, records[0])
    requires r.epoch < 0x1_0000 && InOrder(records, r.epoch, n, m) && m <= 0x1_0000_0000_0000
    requires Below(w, r.epoch, n)
    ensures var ((r', w', outcome), (at', off')) := (Open(r, w, records[0]), After(flight[at], at, off, records[0]));
      && !outcome.Fatal? && r'.readSeq == r.readSeq && r'.epoch == r.epoch
      && Progress(queued, r', flight, at', off')
      && InOrder(records[1..], r.epoch, n', m) && Below(w', r.epoch, n')
  {
    assert |r.slots| == MAX_FLIGHT;
    hide Progress, PieceOf, After, Open, OpenHandshake, Below, PayloadsOk, InOrder;
    InOrderFirst(records, r.epoch, n, m);
    PayloadsOfRest(records);
    if records[0].epoch == r.epoch {
      FreshIsOpened(r, w, records[0], n);
      RecordProgresses(queued, r, flight, at, off, records[0]);
      n' := records[0].number + 1;
    } else {
      OtherEpochPasses(queued, r, w, flight, at, off, records[0]);
      n' := n;
    }
  }

  lemma {:induction false} FlightArrives(
      queued: seq<Message>, r: Receiver, w: ReplayWindow.Window,
      flight: seq<Outgoing>, at: nat, off: nat, records: seq<Record>, end: nat, n: nat, m: nat)
    requires Progress(queued, r, flight, at, off)
    requires Tiles(flight, at, off, records, |flight|, end) && PayloadsOk(records)
    requires r.epoch < 0x1_0000 && InOrder(records, r.epoch, n, m) && m <= 0x1_0000_0000_0000
    requires Below(w, r.epoch, n)
    ensures var (r', _, ok) := OpenAll(r, w, records);
      ok && r'.readSeq == r.readSeq && r'.epoch == r.epoch && Progress(queued, r', flight, |flight|, end)
    decreases |records|
  {
    assert |r.slots| == MAX_FLIGHT;
    hide Progress, PieceOf, After, Open, Below, PayloadsOk, InOrder;
    if records != [] {
      PayloadsOfRest(records);
      var n' := FirstArrives(queued, r, w, flight, at, off, records, n, m);
      var (r', w', _) := Open(r, w, records[0]);
      var (at', off') := After(flight[at], at, off, records[0]);
      FlightArrives(queued, r', w', flight, at', off', records[1..], end, n', m);
    }
  }

  lemma StillDeliverable(queued: seq<Message>, r: Receiver, r': Receiver, flight: seq<Outgoing>)
    requires FlightDeliverable(queued, r, flight) && Keeps(r, r')
    ensures FlightDeliverable(queued, r', flight)
  {
    forall o | o in flight
      ensures EntryDeliverable(queued, r', o)
    {
      assert EntryDeliverable(queued, r, o);
      if Awaited(r, o) {
        var i: nat :| IsMessage(queued, i, o.data) && Deliverable(queued, r, i);
        assert Deliverable(queued, r', i);
      }
    }
  }

  // ----- recovery

  /** What a record carries is no longer than the MTU, and no longer than the entry it is a piece of. */
  lemma {:induction false} PayloadsFit(flight: seq<Outgoing>, i: nat, off: nat, records: seq<Record>, j: nat, end: nat)
    requires Tiles(flight, i, off, records, j, end)
    ensures forall record | record in records :: exists o :: o in flight && |record.payload| <= WholeLength(o)
    decreases |records|
  {
    hide After;
    if records != [] {
      var (i', off') := After(flight[i], i, off, records[0]);
      PayloadsFit(flight, i', off', records[1..], j, end);
      PieceFits(flight[i], off, records[0]);
      assert flight[i] in flight;
    }
  }

  lemma PieceFits(o: Outgoing, off: nat, record: Record)
    requires PieceOf(o, off, record)
    ensures |record.payload| <= WholeLength(o)
  {
    if !o.isCcs {
      ParsedLength(o.data);
    }
  }

  function Overhead(s: Sender): nat {
    if s.cipher.maxOverhead > s.lastCipher.maxOverhead then s.cipher.maxOverhead else s.lastCipher.maxOverhead
  }

  /** The record is no longer than `room`, and sealing has added no more than a cipher may add. */
  predicate Sized(s: Sender, room: nat, record: Record) {
    && |record.payload| <= record.wireLen <= room
    && record.wireLen <= RT_HEADER_LENGTH + |record.payload| + Overhead(s)
  }

  lemma {:induction false} PacketPayloads(s: Sender, io: Transport, k: nat)
    requires CiphersValid(s)
    ensures forall record | record in Flatten(SendPackets(s, io, k).packets) :: Sized(s, s.mtu, record)
    decreases |s.outgoing| - s.written,
              if s.written < |s.outgoing| then |s.outgoing[s.written].data| - s.offset else 0
  {
    if s.written < |s.outgoing| {
      RecordsFit(s, s.mtu);
      PayloadsOfPacket(s, s.mtu);
      var p := SealNextPacket(s);
      if p.ok && io.write(k) > 0 {
        PacketPayloads(p.next, io, k + 1);
        var f := SendPackets(p.next, io, k + 1);
        assert ([p.records] + f.packets)[1..] == f.packets;
      }
    }
  }

  lemma PayloadOfRecord(s: Sender, maxOut: nat)
    requires CiphersValid(s) && s.written < |s.outgoing|
    ensures var res := SealNextMessage(s, maxOut);
      res.Partial? || res.Done? ==> Sized(s, maxOut, res.record) && CiphersValid(res.next)
  {
    hide Parse, Serialize;
  }

  lemma {:induction false} PayloadsOfPacket(s: Sender, maxOut: nat)
    requires CiphersValid(s)
    ensures forall record | record in SealRecords(s, maxOut).records :: Sized(s, maxOut, record)
    decreases |s.outgoing| - s.written
  {
    hide SealNextMessage;
    if s.written < |s.outgoing| {
      PayloadOfRecord(s, maxOut);
      match SealNextMessage(s, maxOut)
      case SealError(_) =>
      case NoProgress =>
      case Partial(record, next) =>
      case Done(record, next) =>
        PayloadsOfPacket(next.(written := s.written + 1), maxOut - record.wireLen);
    }
  }

  /** The peer takes every record: the MTU, or else each message, is within its limits. */
  predicate PeerTakes(s: Sender) {
    || s.mtu <= MAX_PLAIN_LENGTH
    || forall o | o in s.outgoing ::
         WholeLength(o) <= MAX_PLAIN_LENGTH && WholeLength(o) + Overhead(s) <= MAX_ENCRYPTED_LENGTH
  }

  /** No entry is of an epoch before the last: there is a cipher left to seal each of them with. */
  predicate CiphersLeft(s: Sender) {
    forall o | o in s.outgoing :: s.epoch <= o.epoch + 1
  }

  /** The sender's flight is well formed, because every entry is a whole message. */
  lemma HonestFlightOk(world: World)
    requires Inv(world) && EpochsOk(world.sender) && CiphersLeft(world.sender)
    ensures FlightOk(world.sender)
  {
    forall o | o in world.sender.outgoing
      ensures EntryOk(o, world.sender.epoch)
    {
      if !o.isCcs {
        var i: nat :| IsMessage(world.queued, i, o.data);
        MessageParses(world.queued, i, o.data);
      }
    }
  }

  /** The number of the next record the sender will seal in its epoch or the one before. */
  function NextNumber(s: Sender, e: nat): nat {
    if s.epoch == e then s.number else s.lastNumber
  }

  lemma WindowBelow(world: World)
    requires NumbersInv(world) && world.receiver.epoch < 0x1_0000
    requires world.receiver.epoch <= world.sender.epoch <= world.receiver.epoch + 1
    requires NextNumber(world.sender, world.receiver.epoch) <= 0x1_0000_0000_0000
    ensures Below(world.window, world.receiver.epoch, NextNumber(world.sender, world.receiver.epoch))
  {
  }

  /**
   A world with a flight to repeat. The sender is in the receiver's epoch or, with a flight
   that crosses a change of keys, one ahead; the timer may still fire; the MTU leaves room
   for a byte of body, and no record gets longer than the peer takes; record numbers do
   not wrap; and no message of the receiver's epoch is beyond its ring or its limit.
   */
  ghost predicate Recoverable(world: World, io: Transport) {
    var s, r := world.sender, world.receiver;
    var t, f := UpdateMtu(Rewound(s, io), io), HandleTimeout(s, io);
    && r.epoch <= s.epoch <= r.epoch + 1 && r.epoch < 0x1_0000 && CiphersLeft(s)
    && s.timeouts < MAX_TIMEOUTS
    && MtuOk(t)
    && PeerTakes(t)
    && f.next.number <= 0x1_0000_0000_0000 && f.next.lastNumber <= 0x1_0000_0000_0000
    && forall o | o in s.outgoing && o.epoch == r.epoch ::
         if o.isCcs then r.nullCipher
         else forall i: nat | IsMessage(world.queued, i, o.data) :: Deliverable(world.queued, r, i)
  }

  /** Message `i` is complete, with the sender's bytes, in the ring of `r`. */
  ghost predicate CompleteIn(queued: seq<Message>, r: Receiver, i: nat) {
    && i < |queued| && |r.slots| == MAX_FLIGHT
    && r.slots[i % MAX_FLIGHT].Some?
    && var m := r.slots[i % MAX_FLIGHT].value;
       m.seqNo == i && m.Complete() && m.msgType == queued[i].msgType && m.body == queued[i].body
  }

  /** What a retransmission sends is the whole flight, in records the receiver accepts. */
  lemma ResendIsWhole(t: Sender, io: Transport)
    requires FlightOk(t) && MtuOk(t) && t.written == t.offset == 0
    requires PeerTakes(t)
    requires (forall k: nat :: io.write(k) > 0) && io.flush > 0
    ensures var f := SendPackets(t, io, 0);
      && f.ret == 1 && PayloadsOk(Flatten(f.packets))
      && Tiles(t.outgoing, 0, 0, Flatten(f.packets), |t.outgoing|, f.next.offset)
  {
    FlightSucceeds(t, io, 0);
    FlightTiles(t, io, 0);
    PacketPayloads(t, io, 0);
    hide SendPackets, Tiles, FlightOk, MtuOk, Lost;
    var f := SendPackets(t, io, 0);
    PayloadsFit(t.outgoing, 0, 0, Flatten(f.packets), |t.outgoing|, f.next.offset);
  }

  /** Its records of either epoch carry new numbers, in order. */
  lemma ResendIsNumbered(s: Sender, e: nat, io: Transport)
    requires e <= s.epoch <= e + 1 && s.timeouts < MAX_TIMEOUTS
    ensures var f := HandleTimeout(s, io); InOrder(Flatten(f.packets), e, NextNumber(s, e), NextNumber(f.next, e))
  {
    hide SendPackets, InOrder, Numbers;
    TimeoutIsResend(s, io);
    EitherEpoch(UpdateMtu(Rewound(s, io), io), e, io);
  }

  lemma EitherEpoch(t: Sender, e: nat, io: Transport)
    requires e <= t.epoch <= e + 1
    ensures var f := SendPackets(t, io, 0); InOrder(Flatten(f.packets), e, NextNumber(t, e), NextNumber(f.next, e))
  {
    hide SendPackets, InOrder;
    FlightNumbers(t, io, 0);
  }

  /**
   In every reachable world, with the sender in the receiver's epoch or one ahead of it, a
   retransmission that the transport takes in full and the network delivers in order
   completes, at the receiver, every message of its epoch it had not yet handed out: no
   earlier loss, partial delivery, change of keys or change of MTU stands in the way. What
   belongs to the next epoch is dropped without harm, and recovered in the same way once
   the receiver has changed keys too.
   */
  lemma RetransmissionRecovers(mtu: nat, maxLen: nat, actions: seq<Action>, io: Transport)
    requires Recoverable(Run(Start(mtu, maxLen), actions), io)
    requires (forall k: nat :: io.write(k) > 0) && io.flush > 0
    ensures var world := Run(Start(mtu, maxLen), actions);
      var f := HandleTimeout(world.sender, io);
      var (r', _, ok) := OpenAll(world.receiver, world.window, Flatten(f.packets));
      && f.ret == 1 && ok
      && (forall o | o in world.sender.outgoing && o.isCcs && o.epoch == world.receiver.epoch :: r'.hasCcs)
      && forall o, i: nat |
           o in world.sender.outgoing && Awaited(world.receiver, o) && IsMessage(world.queued, i, o.data) ::
           i < world.receiver.readSeq || CompleteIn(world.queued, r', i)
  {
    var world := Run(Start(mtu, maxLen), actions);
    RunKeepsInv(mtu, maxLen, actions);
    RunKeepsNumbers(mtu, maxLen, actions);
    Recovers(world, io);
  }

  lemma Recovers(world: World, io: Transport)
    requires Inv(world) && NumbersInv(world) && Recoverable(world, io)
    requires (forall k: nat :: io.write(k) > 0) && io.flush > 0
    ensures var f := HandleTimeout(world.sender, io);
      var (r', _, ok) := OpenAll(world.receiver, world.window, Flatten(f.packets));
      && f.ret == 1 && ok && r'.readSeq == world.receiver.readSeq && r'.epoch == world.receiver.epoch
      && (forall o | o in world.sender.outgoing && o.isCcs && o.epoch == world.receiver.epoch :: r'.hasCcs)
      && forall o, i: nat |
           o in world.sender.outgoing && Awaited(world.receiver, o) && IsMessage(world.queued, i, o.data) ::
           i < world.receiver.readSeq || CompleteIn(world.queued, r', i)
  {
    var flight, e := world.sender.outgoing, world.receiver.epoch;
    var f := HandleTimeout(world.sender, io);
    var records := Flatten(f.packets);
    var n, m := NextNumber(world.sender, e), NextNumber(f.next, e);
    TimeoutIsResend(world.sender, io);
    HonestFlightOk(world);
    ResendIsWhole(UpdateMtu(Rewound(world.sender, io), io), io);
    ResendIsNumbered(world.sender, e, io);
    InOrderBounds(records, e, n, m);
    WindowBelow(world);
    WholeFlightDeliverable(world, io);
    hide SendPackets, MtuOk, InOrder, Tiles, PayloadsOk, Inv, NumbersInv, OpenAll;
    FlightArrives(world.queued, world.receiver, world.window, flight, 0, 0, records, f.next.offset, n, m);
    var r' := OpenAll(world.receiver, world.window, records).0;
    ArrivedIsComplete(world.queued, r', flight, f.next.offset);
  }

  lemma ArrivedIsComplete(queued: seq<Message>, r: Receiver, flight: seq<Outgoing>, end: nat)
    requires Progress(queued, r, flight, |flight|, end)
    ensures forall o | o in flight && o.isCcs && o.epoch == r.epoch :: r.hasCcs
    ensures forall o, i: nat | o in flight && Awaited(r, o) && IsMessage(queued, i, o.data) ::
      i < r.readSeq || CompleteIn(queued, r, i)
  {
    forall o, i: nat | o in flight && Awaited(r, o) && IsMessage(queued, i, o.data) && i >= r.readSeq
      ensures CompleteIn(queued, r, i)
    {
      var j :| 0 <= j < |flight| && flight[j] == o;
      assert Arrived(queued, r, i);
      HeldIsComplete(queued, r, i);
    }
  }

  lemma WholeFlightDeliverable(world: World, io: Transport)
    requires Inv(world) && Recoverable(world, io)
    ensures Progress(world.queued, world.receiver, world.sender.outgoing, 0, 0)
  {
    forall o | o in world.sender.outgoing
      ensures EntryDeliverable(world.queued, world.receiver, o)
    {
      assert EntryHonest(world.queued, o);
    }
  }
}
