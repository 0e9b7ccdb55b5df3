/**
 What a DTLS flight is: the messages entered since it was begun, all of them and in order. A
 history kept from the actions alone says which those are, what a flush puts on the wire for
 each of them, and under which keys and numbers.
 */
module DtlsFlight {
  import opened Octets
  import opened Fragments
  import opened DtlsReceiver
  import opened DtlsSender
  import opened DtlsNetwork
  import opened DtlsNumbers
  import opened DtlsRecovery
  import opened DtlsDelivery

  // ----- one entry

  /**
     An entry goes behind those of a flight that is being built; the first after a flush takes
     the place of the whole flight. It is refused when seven wait already.
   */
  lemma EntryJoinsFlight(s: Sender, isCcs: bool, data: seq<byte>)
    ensures var ((t, ok), entry) := (AddOutgoing(s, isCcs, data), Outgoing(data, s.epoch, isCcs));
      && (ok <==> |data| <= 0xffff_ffff && (s.complete || |s.outgoing| < MAX_FLIGHT))
      && (!ok && (|data| <= 0xffff_ffff || !s.complete) ==> t == s)
      && (ok && !s.complete ==>
            && s.outgoing < t.outgoing && t.outgoing == s.outgoing + [entry] && t.timeouts == s.timeouts
            && (t.written, t.offset) == (s.written, s.offset))
      && (ok && s.complete ==>
            && t.outgoing == [entry] && !t.complete && t.timeouts == 0 && (t.written, t.offset) == (0, 0))
  {
  }

  // ----- the history of a run

  /**
     log holds every entry ever accepted, places where each message stands in it, begun where the
     present flight begins. A flight is flushed once it has been sent as a whole; sent says that
     some of it may be out. ciphers are those of the epochs so far.
   */
  datatype History = History(
    messages: seq<Message>,
    log: seq<Outgoing>,
    places: seq<nat>,
    begun: nat,
    flushed: bool,
    sent: bool,
    ciphers: seq<Cipher>,
    timeouts: nat)

  const NOTHING_YET := History([], [], [], 0, false, false, [NULL_CIPHER], 0)

  predicate HasPlace(h: History) {
    h.flushed || |h.log| - h.begun < MAX_FLIGHT
  }

  function Enter(h: History, data: seq<byte>, isCcs: bool): History {
    var epoch := if h.ciphers == [] then 0 else |h.ciphers| - 1;
    h.(log := h.log + [Outgoing(data, epoch, isCcs)],
       begun := if h.flushed then |h.log| else h.begun,
       flushed := false,
       sent := h.sent && !h.flushed,
       timeouts := if h.flushed then 0 else h.timeouts)
  }

  function Note(h: History, a: Action): History {
    match a
    case Queue(msgType, body) =>
      if HasPlace(h) && |body| < 0x100_0000 && |h.messages| < 0xffff then
        Enter(h, WholeMessage(msgType, |h.messages|, body), false)
          .(messages := h.messages + [Message(msgType, body)], places := h.places + [|h.log|])
      else h
    case QueueChangeCipherSpec => if HasPlace(h) then Enter(h, [], true) else h
    case NextWriteEpoch(cipher) => h.(ciphers := h.ciphers + [cipher])
    case Flush(_) => h.(flushed := true, sent := true)
    case Timeout(_) => h.(sent := true, timeouts := h.timeouts + 1)
    case Complete(answered) =>
      if answered then h.(begun := |h.log|, flushed := false, sent := false, timeouts := 0) else h.(timeouts := 0)
    case _ => h
  }

  function HistoryOf(actions: seq<Action>): History {
    if actions == [] then NOTHING_YET else Note(HistoryOf(actions[..|actions| - 1]), actions[|actions| - 1])
  }

  /** The sender is where the history says. */
  ghost predicate FlightInv(world: World, h: History) {
    var s := world.sender;
    && h.ciphers != [] && h.begun <= |h.log|
    && world.queued == h.messages
    && s.outgoing == h.log[h.begun..] && s.complete == h.flushed && s.timeouts == h.timeouts
    && s.epoch == |h.ciphers| - 1 && s.cipher == h.ciphers[s.epoch]
    && (s.epoch >= 1 ==> s.lastCipher == h.ciphers[s.epoch - 1])
    && (!h.sent ==> s.written == 0 && s.offset == 0)
  }

  lemma SendKeepsFlight(world: World, h: History, s: Sender, io: Transport)
    requires FlightInv(world, h) && h.sent && s.outgoing == world.sender.outgoing
    requires s == world.sender.(written := s.written, offset := s.offset, complete := s.complete,
                                timeouts := s.timeouts, mtu := s.mtu)
    ensures FlightInv(SendStep(world, SendFlight(s, io)), h.(flushed := s.complete, timeouts := s.timeouts))
  {
    hide SendPackets;
  }

  lemma TimeoutKeepsFlight(world: World, h: History, io: Transport)
    requires FlightInv(world, h) && |world.receiver.slots| == MAX_FLIGHT
    ensures FlightInv(Step(world, Timeout(io)), Note(h, Timeout(io)))
  {
    if world.sender.timeouts + 1 <= MAX_TIMEOUTS {
      TimeoutIsResend(world.sender, io);
      hide HandleTimeout, SendFlight;
      SendKeepsFlight(world, h.(sent := true), Rewound(world.sender, io), io);
    } else {
      hide SendFlight;
    }
  }

  lemma QueueKeepsFlight(world: World, h: History, msgType: byte, body: seq<byte>)
    requires Inv(world) && FlightInv(world, h) && |world.receiver.slots| == MAX_FLIGHT
    ensures FlightInv(Step(world, Queue(msgType, body)), Note(h, Queue(msgType, body)))
  {
    hide WholeMessage, Inv, AddOutgoing;
    InvCounts(world);
    if |world.queued| < 0xffff && |body| < 0x100_0000 {
      var data := WholeMessage(msgType, |world.queued|, body);
      WholeLength24(msgType, |world.queued|, body);
      QueueStep(world, msgType, body);
      hide Step;
      EntryJoinsFlight(world.sender, false, data);
      EntryKeepsRest(world.sender, false, data);
      if HasPlace(h) {
        EnteredFlight(world.sender, h, data, false);
      }
    }
  }

  lemma QueueStep(world: World, msgType: byte, body: seq<byte>)
    requires world.sender.writeSeq == |world.queued| < 0xffff && |body| < 0x100_0000
    requires |world.receiver.slots| == MAX_FLIGHT
    ensures var (t, ok) := AddOutgoing(world.sender, false, WholeMessage(msgType, |world.queued|, body));
      Step(world, Queue(msgType, body)) ==
      world.(sender := t, queued := if ok then world.queued + [Message(msgType, body)] else world.queued)
  {
    hide AddOutgoing, WholeMessage;
  }

  lemma EntryKeepsRest(s: Sender, isCcs: bool, data: seq<byte>)
    ensures var t := AddOutgoing(s, isCcs, data).0;
      && (t.epoch, t.number, t.lastNumber, t.mtu) == (s.epoch, s.number, s.lastNumber, s.mtu)
      && t.cipher == s.cipher && t.lastCipher == s.lastCipher
      && (t.complete ==> s.complete) && (AddOutgoing(s, isCcs, data).1 ==> !t.complete)
  {
  }

  lemma InvCounts(world: World)
    requires Inv(world)
    ensures world.sender.writeSeq == |world.queued| <= 0xffff
  {
  }

  lemma WholeLength24(msgType: byte, seqNo: nat, body: seq<byte>)
    requires seqNo < 0x1_0000 && |body| < 0x100_0000
    ensures |WholeMessage(msgType, seqNo, body)| == HEADER_LENGTH + |body|
  {
  }

  lemma EnteredFlight(s: Sender, h: History, data: seq<byte>, isCcs: bool)
    requires h.begun <= |h.log| && s.outgoing == h.log[h.begun..] && s.complete == h.flushed && HasPlace(h)
    ensures var next := Enter(h, data, isCcs);
      var epoch := if h.ciphers == [] then 0 else |h.ciphers| - 1;
      && next.begun <= |next.log|
      && next.log[next.begun..] == (if s.complete then [] else s.outgoing) + [Outgoing(data, epoch, isCcs)]
  {
  }

  lemma CcsKeepsFlight(world: World, h: History)
    requires FlightInv(world, h) && |world.receiver.slots| == MAX_FLIGHT
    ensures FlightInv(Step(world, QueueChangeCipherSpec), Note(h, QueueChangeCipherSpec))
  {
    EntryJoinsFlight(world.sender, true, []);
    if HasPlace(h) {
      EnteredFlight(world.sender, h, [], true);
    }
  }

  lemma StepKeepsFlight(world: World, h: History, a: Action)
    requires Inv(world) && FlightInv(world, h) && |world.receiver.slots| == MAX_FLIGHT
    ensures FlightInv(Step(world, a), Note(h, a))
  {
    hide Inv, SendPackets, Open, OpenHandshake, WholeMessage;
    match a
    case Queue(msgType, body) => QueueKeepsFlight(world, h, msgType, body);
    case QueueChangeCipherSpec => CcsKeepsFlight(world, h);
    case Flush(io) => SendKeepsFlight(world, h.(sent := true), world.sender.(complete := true), io);
    case Timeout(io) => TimeoutKeepsFlight(world, h, io);
    case _ =>
  }

  /**
     In every run the flight is exactly what was entered since it was begun: a flight is begun by
     the first entry after a flush, or when the handshake is told that it was answered.
   */
  lemma {:induction false} RunKeepsFlight(mtu: nat, maxLen: nat, actions: seq<Action>)
    ensures FlightInv(Run(Start(mtu, maxLen), actions), HistoryOf(actions))
    decreases |actions|
  {
    hide Step, Note, Inv;
    if actions == [] {
      NothingFlies(mtu, maxLen);
    } else {
      var before, a := actions[..|actions| - 1], actions[|actions| - 1];
      RunKeepsFlight(mtu, maxLen, before);
      RunKeepsInv(mtu, maxLen, before);
      StepKeepsFlight(Run(Start(mtu, maxLen), before), HistoryOf(before), a);
    }
  }

  lemma NothingFlies(mtu: nat, maxLen: nat)
    ensures FlightInv(Run(Start(mtu, maxLen), []), HistoryOf([]))
  {
  }

  // ----- where the messages are

  /** Message i is entry places[i] of the log, whole. */
  ghost predicate PlacedAt(h: History, i: nat) {
    && i < |h.places| == |h.messages|
    && h.places[i] < |h.log| && !h.log[h.places[i]].isCcs
    && IsMessage(h.messages, i, h.log[h.places[i]].data)
  }

  ghost predicate Placed(h: History) {
    && |h.places| == |h.messages| <= 0xffff
    && forall i: nat | i < |h.places| :: PlacedAt(h, i)
  }

  lemma StepKeepsPlaces(h: History, a: Action)
    requires Placed(h)
    ensures Placed(Note(h, a))
  {
    hide WholeMessage;
    var next := Note(h, a);
    forall i: nat | i < |next.places|
      ensures PlacedAt(next, i)
    {
      if i < |h.places| {
        assert PlacedAt(h, i);
      }
    }
  }

  lemma {:induction false} RunKeepsPlaces(actions: seq<Action>)
    ensures Placed(HistoryOf(actions))
    decreases |actions|
  {
    hide Note;
    if actions != [] {
      RunKeepsPlaces(actions[..|actions| - 1]);
      StepKeepsPlaces(HistoryOf(actions[..|actions| - 1]), actions[|actions| - 1]);
    }
  }

  /** Message i was entered since the flight was begun. */
  predicate InPresent(h: History, i: nat) {
    i < |h.places| && h.begun <= h.places[i] < |h.log|
  }

  /** What was entered since the flight was begun is carried by it, under the keys of then. */
  lemma PresentIsCarried(world: World, h: History, i: nat)
    requires FlightInv(world, h) && Placed(h) && InPresent(h, i)
    ensures Carries(world, h.log[h.places[i]].epoch, i)
  {
    assert PlacedAt(h, i);
    hide IsMessage;
    assert h.log[h.places[i]] == h.log[h.begun..][h.places[i] - h.begun];
  }

  /** Every message from the receiver's next one up to n was entered in the present flight, under its keys. */
  ghost predicate Unanswered(h: History, r: Receiver, n: nat) {
    && r.readSeq <= n <= |h.messages|
    && forall i: nat | r.readSeq <= i < n :: InPresent(h, i) && h.log[h.places[i]].epoch == r.epoch
  }

  /**
     So a retransmission that arrives hands out all that the history says is unanswered: what the
     flight holds need not be asked.
   */
  lemma UnansweredIsDelivered(mtu: nat, maxLen: nat, actions: seq<Action>, io: Transport, n: nat)
    requires var world := Run(Start(mtu, maxLen), actions);
      Recoverable(world, io) && Unanswered(HistoryOf(actions), world.receiver, n)
    requires Working(io)
    ensures var world := Run(Start(mtu, maxLen), actions);
      Run(Start(mtu, maxLen), actions + Recovery(world, io, n)).delivered == HistoryOf(actions).messages[..n]
  {
    hide Step, Note, Recoverable, Recovery, IsMessage;
    RunKeepsFlight(mtu, maxLen, actions);
    RunKeepsPlaces(actions);
    var world, h := Run(Start(mtu, maxLen), actions), HistoryOf(actions);
    forall i: nat | world.receiver.readSeq <= i < n
      ensures Carries(world, world.receiver.epoch, i)
    {
      PresentIsCarried(world, h, i);
    }
    hide Run, HistoryOf, FlightInv;
    FlightIsQueue(world, h);
    RetransmissionDelivers(mtu, maxLen, actions, io, n);
  }

  lemma FlightIsQueue(world: World, h: History)
    requires FlightInv(world, h)
    ensures world.queued == h.messages
  {
  }

  /** From n up to m the messages were entered in the present flight, under the keys after the receiver's. */
  ghost predicate UnansweredAfter(h: History, r: Receiver, n: nat, m: nat) {
    && n < m <= |h.messages|
    && forall i: nat | n <= i < m :: InPresent(h, i) && h.log[h.places[i]].epoch == r.epoch + 1
  }

  /** And a flight that crosses a change of keys is handed out by two retransmissions. */
  lemma UnansweredCrossingIsDelivered(
      mtu: nat, maxLen: nat, actions: seq<Action>, io: Transport, n: nat, again: Transport, m: nat)
    requires var (world, h) := (Run(Start(mtu, maxLen), actions), HistoryOf(actions));
      && Unanswered(h, world.receiver, n) && UnansweredAfter(h, world.receiver, n, m)
      && Recoverable(world, io) && Working(io)
      && Recoverable(Crossed(world, io, n), again) && Working(again)
    ensures var world := Run(Start(mtu, maxLen), actions);
      Recovered(Crossed(world, io, n), again, m).delivered == HistoryOf(actions).messages[..m]
  {
    hide Step, Note, Recoverable, Recovered, Crossed, IsMessage;
    RunKeepsFlight(mtu, maxLen, actions);
    RunKeepsPlaces(actions);
    var world, h := Run(Start(mtu, maxLen), actions), HistoryOf(actions);
    forall i: nat | world.receiver.readSeq <= i < n
      ensures Carries(world, world.receiver.epoch, i)
    {
      PresentIsCarried(world, h, i);
    }
    var later := world.receiver.epoch + 1;
    forall i: nat | n <= i < m
      ensures Carries(world, later, i)
    {
      PresentIsCarried(world, h, i);
    }
    hide Run, HistoryOf, FlightInv;
    FlightIsQueue(world, h);
    CrossingFlightDelivers(mtu, maxLen, actions, io, n, again, m);
  }

  // ----- what a flush puts on the wire

  /** One of the records carries the entry from `off` on, and byte k if it has as many. */
  ghost predicate Brought(o: Outgoing, k: nat, records: seq<Record>) {
    exists r, off: nat ::
      && r in records && PieceOf(o, off, r)
      && (o.isCcs || (off <= k && (k < off + |r.payload| - HEADER_LENGTH || |r.payload| == HEADER_LENGTH)))
  }

  /** Byte k of the entry's message, or the ChangeCipherSpec, or the message without a body. */
  predicate Brings(o: Outgoing, k: nat) {
    o.isCcs || (Parse(o.data).Some? && var n := |Parse(o.data).value.body|; k < n || (k == 0 && n == 0))
  }

  lemma {:induction false} TilesBring(
      flight: seq<Outgoing>, i: nat, off: nat, records: seq<Record>, j: nat, k: nat)
    requires Tiles(flight, i, off, records, |flight|, 0)
    requires i <= j < |flight| && Brings(flight[j], k) && (flight[i].isCcs ==> off == 0) && (i == j ==> off <= k)
    ensures Brought(flight[j], k, records)
    decreases |records|
  {
    hide Parse, PieceOf;
    var (i', off') := After(flight[i], i, off, records[0]);
    var later := records[1..];
    if i < j {
      FirstPieceFits(flight[i], i, off, records[0]);
      TilesBring(flight, i', off', later, j, k);
      assert forall r | r in later :: r in records;
    } else {
      PieceBrings(flight[j], j, off, records[0], k);
      if !flight[j].isCcs && (i', off') != (j + 1, 0) && k >= off' {
        TilesBring(flight, i', off', later, j, k);
        assert forall r | r in later :: r in records;
      } else {
        assert records[0] in records;
      }
    }
  }

  lemma FirstPieceFits(o: Outgoing, i: nat, off: nat, record: Record)
    requires PieceOf(o, off, record)
    requires o.isCcs ==> off == 0
    ensures var (i', off') := After(o, i, off, record); (i', off') == (i + 1, 0) || (i' == i && !o.isCcs)
  {
    hide Parse, Serialize;
  }

  lemma PieceBrings(o: Outgoing, i: nat, off: nat, record: Record, k: nat)
    requires PieceOf(o, off, record) && Brings(o, k) && (!o.isCcs ==> off <= k)
    ensures var (i', off') := After(o, i, off, record);
      || o.isCcs
      || ((i', off') != (i + 1, 0) && i' == i && off' <= k)
      || k < off + |record.payload| - HEADER_LENGTH
      || |record.payload| == HEADER_LENGTH
  {
    hide Parse, Serialize;
  }

  /** What a flush sends when nothing of the flight is out yet. */
  lemma FlushIsWhole(t: Sender, io: Transport)
    requires FlightOk(t) && MtuOk(t) && t.written == t.offset == 0 && Working(io)
    ensures var f := SendPackets(t, io, 0);
      f.ret == 1 && Tiles(t.outgoing, 0, 0, Flatten(f.packets), |t.outgoing|, 0)
  {
    FlightSucceeds(t, io, 0);
    FlightTiles(t, io, 0);
    hide SendPackets, Tiles;
  }

  /** The entries of the present flight are of the sender's epoch or the one before. */
  predicate EpochsClose(h: History) {
    forall j | 0 <= h.begun <= j < |h.log| :: |h.ciphers| - 2 <= h.log[j].epoch <= |h.ciphers| - 1
  }

  lemma PresentFlightOk(world: World, h: History)
    requires Inv(world) && FlightInv(world, h) && EpochsClose(h)
    ensures FlightOk(world.sender)
  {
    hide WholeMessage, Parse;
    forall o | o in world.sender.outgoing
      ensures EntryOk(o, world.sender.epoch)
    {
      var j :| 0 <= j < |world.sender.outgoing| && world.sender.outgoing[j] == o;
      assert o == h.log[h.begun + j];
      assert EntryHonest(world.queued, o);
      if !o.isCcs {
        var i: nat :| IsMessage(world.queued, i, o.data);
        MessageParses(world.queued, i, o.data);
      }
    }
  }

  /** A record on the wire carries byte k of message i, or its empty body, under keys of epoch e. */
  ghost predicate OnWire(world: World, i: nat, k: nat, e: nat) {
    exists r, off: nat, n: nat ::
      && r in world.wire && r.epoch == e && r.contentType == RT_HANDSHAKE
      && IsFragment(world.queued, i, off, n, r.payload)
      && off <= k && (k < off + n || n == 0)
  }

  /**
     A flight that has just been built, flushed over a transport that takes every packet: every
     byte of every message entered since it was begun is on the wire.
   */
  lemma FlushBringsAll(mtu: nat, maxLen: nat, actions: seq<Action>, io: Transport, i: nat, k: nat)
    requires var (world, h) := (Run(Start(mtu, maxLen), actions), HistoryOf(actions));
      && !h.sent && EpochsClose(h) && MtuOk(UpdateMtu(world.sender.(complete := true), io))
      && InPresent(h, i) && i < |h.messages|
      && (k < |h.messages[i].body| || (k == 0 && h.messages[i].body == []))
    requires Working(io)
    ensures var h := HistoryOf(actions);
      OnWire(Run(Start(mtu, maxLen), actions + [Flush(io)]), i, k, h.log[h.places[i]].epoch)
  {
    var world, h := Run(Start(mtu, maxLen), actions), HistoryOf(actions);
    RunKeepsFlight(mtu, maxLen, actions);
    RunKeepsInv(mtu, maxLen, actions);
    RunKeepsPlaces(actions);
    assert (actions + [Flush(io)])[..|actions|] == actions;
    hide Run, HistoryOf, Step, MtuOk;
    FlushBrings(world, h, io, i, k);
    RunStep(Start(mtu, maxLen), actions, Flush(io));
  }

  lemma RunStep(start: World, actions: seq<Action>, a: Action)
    requires |start.receiver.slots| == MAX_FLIGHT
    ensures Run(start, actions + [a]) == Step(Run(start, actions), a)
  {
    hide Step;
    assert (actions + [a])[..|actions|] == actions;
  }

  lemma FlushBrings(world: World, h: History, io: Transport, i: nat, k: nat)
    requires Inv(world) && FlightInv(world, h) && Placed(h) && |world.receiver.slots| == MAX_FLIGHT
    requires !h.sent && EpochsClose(h) && MtuOk(UpdateMtu(world.sender.(complete := true), io)) && Working(io)
    requires InPresent(h, i) && i < |h.messages|
    requires k < |h.messages[i].body| || (k == 0 && h.messages[i].body == [])
    ensures OnWire(Step(world, Flush(io)), i, k, h.log[h.places[i]].epoch)
  {
    hide Inv, FlightInv, Placed, MtuOk, Working, Tiles, EpochsClose, Step, FlushSent, IsMessage, Brought, OnWire;
    FlushTiles(world, h, io);
    PresentIsMessage(h, i);
    var o := h.log[h.places[i]];
    ToBring(h.messages, i, o, k);
    TilesBring(h.log[h.begun..], 0, 0, FlushSent(world, io), h.places[i] - h.begun, k);
    BroughtIsOnWire(world, o, i, k, FlushSent(world, io));
    SameWire(world.(wire := world.wire + FlushSent(world, io)), Step(world, Flush(io)), i, k, o.epoch);
  }

  lemma PresentIsMessage(h: History, i: nat)
    requires Placed(h) && InPresent(h, i)
    ensures !h.log[h.places[i]].isCcs && IsMessage(h.messages, i, h.log[h.places[i]].data)
  {
    assert PlacedAt(h, i);
    hide IsMessage;
  }

  lemma ToBring(messages: seq<Message>, i: nat, o: Outgoing, k: nat)
    requires IsMessage(messages, i, o.data) && !o.isCcs
    requires i < |messages| && (k < |messages[i].body| || (k == 0 && messages[i].body == []))
    ensures Brings(o, k)
  {
    MessageParses(messages, i, o.data);
  }

  lemma SameWire(a: World, b: World, i: nat, k: nat, e: nat)
    requires OnWire(a, i, k, e) && a.wire == b.wire && a.queued == b.queued
    ensures OnWire(b, i, k, e)
  {
    hide IsFragment;
  }

  /** The records of a flush. */
  function FlushSent(world: World, io: Transport): seq<Record> {
    Flatten(SendPackets(UpdateMtu(world.sender.(complete := true), io), io, 0).packets)
  }

  lemma FlushTiles(world: World, h: History, io: Transport)
    requires Inv(world) && FlightInv(world, h) && |world.receiver.slots| == MAX_FLIGHT
    requires !h.sent && EpochsClose(h) && MtuOk(UpdateMtu(world.sender.(complete := true), io)) && Working(io)
    ensures h.begun <= |h.log| && world.queued == h.messages
    ensures var flight := h.log[h.begun..]; Tiles(flight, 0, 0, FlushSent(world, io), |flight|, 0)
    ensures var next := Step(world, Flush(io));
      next.wire == world.wire + FlushSent(world, io) && next.queued == world.queued
  {
    PresentFlightOk(world, h);
    hide Inv, EpochsClose;
    var t := UpdateMtu(world.sender.(complete := true), io);
    FlightStays(world.sender, t);
    hide FlightOk, MtuOk, Working, SendPackets, Tiles;
    FlushIsWhole(t, io);
  }

  lemma FlightStays(s: Sender, t: Sender)
    requires FlightOk(s) && t == s.(complete := t.complete, mtu := t.mtu)
    ensures FlightOk(t)
  {
  }

  lemma BroughtIsOnWire(world: World, o: Outgoing, i: nat, k: nat, records: seq<Record>)
    requires IsMessage(world.queued, i, o.data) && !o.isCcs && Brought(o, k, records)
    ensures OnWire(world.(wire := world.wire + records), i, k, o.epoch)
  {
    hide IsMessage, IsFragment;
    var r, off: nat :|
      && r in records && PieceOf(o, off, r)
      && off <= k && (k < off + |r.payload| - HEADER_LENGTH || |r.payload| == HEADER_LENGTH);
    PieceIsFragment(world.queued, o, i, off, r);
  }

  /** And so is a ChangeCipherSpec. */
  lemma FlushBringsChangeCipherSpec(mtu: nat, maxLen: nat, actions: seq<Action>, io: Transport, j: nat)
    requires var (world, h) := (Run(Start(mtu, maxLen), actions), HistoryOf(actions));
      && !h.sent && EpochsClose(h) && MtuOk(UpdateMtu(world.sender.(complete := true), io))
      && h.begun <= j < |h.log| && h.log[j].isCcs
    requires Working(io)
    ensures var h := HistoryOf(actions);
      exists r :: r in Run(Start(mtu, maxLen), actions + [Flush(io)]).wire && PieceOf(h.log[j], 0, r)
  {
    var world, h := Run(Start(mtu, maxLen), actions), HistoryOf(actions);
    RunKeepsFlight(mtu, maxLen, actions);
    RunKeepsInv(mtu, maxLen, actions);
    hide Run, HistoryOf, Step, MtuOk, Inv, Working, FlightInv, EpochsClose, PieceOf;
    FlushBringsCcs(world, h, io, j);
    RunStep(Start(mtu, maxLen), actions, Flush(io));
  }

  lemma FlushBringsCcs(world: World, h: History, io: Transport, j: nat)
    requires Inv(world) && FlightInv(world, h) && |world.receiver.slots| == MAX_FLIGHT
    requires !h.sent && EpochsClose(h) && MtuOk(UpdateMtu(world.sender.(complete := true), io)) && Working(io)
    requires h.begun <= j < |h.log| && h.log[j].isCcs
    ensures exists r :: r in Step(world, Flush(io)).wire && PieceOf(h.log[j], 0, r)
  {
    hide Inv, FlightInv, MtuOk, Working, Tiles, EpochsClose, Step, FlushSent;
    FlushTiles(world, h, io);
    TilesBring(h.log[h.begun..], 0, 0, FlushSent(world, io), j - h.begun, 0);
    CcsBrought(h.log[j], FlushSent(world, io));
  }

  lemma CcsBrought(o: Outgoing, records: seq<Record>)
    requires o.isCcs && Brought(o, 0, records)
    ensures exists r :: r in records && PieceOf(o, 0, r)
  {
    var r, off: nat :| r in records && PieceOf(o, off, r);
    assert PieceOf(o, 0, r);
  }

  // ----- keys and numbers

  /** The record is sealed with the cipher of its epoch. */
  predicate SealedUnder(ciphers: seq<Cipher>, r: Record) {
    && r.epoch < |ciphers|
    && r.wireLen == RT_HEADER_LENGTH + |r.payload| + ciphers[r.epoch].expansion(|r.payload|)
  }

  ghost predicate Keyed(s: Sender, ciphers: seq<Cipher>) {
    && |ciphers| == s.epoch + 1 && s.cipher == ciphers[s.epoch]
    && (s.epoch >= 1 ==> s.lastCipher == ciphers[s.epoch - 1])
  }

  lemma RecordSealed(s: Sender, maxOut: nat, ciphers: seq<Cipher>)
    requires Keyed(s, ciphers) && s.written < |s.outgoing|
    ensures var res := SealNextMessage(s, maxOut); res.Partial? || res.Done? ==> SealedUnder(ciphers, res.record)
    ensures var res := SealNextMessage(s, maxOut); res.Done? ==> Keyed(res.next.(written := s.written + 1), ciphers)
  {
    hide Parse, Serialize;
  }

  lemma {:induction false} PacketSealed(s: Sender, maxOut: nat, ciphers: seq<Cipher>)
    requires Keyed(s, ciphers)
    ensures forall r | r in SealRecords(s, maxOut).records :: SealedUnder(ciphers, r)
    decreases |s.outgoing| - s.written
  {
    hide SealNextMessage, Keyed, SealedUnder;
    if s.written < |s.outgoing| {
      RecordSealed(s, maxOut, ciphers);
      match SealNextMessage(s, maxOut)
      case SealError(_) =>
      case NoProgress =>
      case Partial(record, next) =>
      case Done(record, next) =>
        var room := if record.wireLen <= maxOut then maxOut - record.wireLen else 0;
        PacketSealed(next.(written := s.written + 1), room, ciphers);
    }
  }

  lemma {:induction false} FlightSealed(s: Sender, io: Transport, k: nat, ciphers: seq<Cipher>)
    requires Keyed(s, ciphers)
    ensures forall r | r in Flatten(SendPackets(s, io, k).packets) :: SealedUnder(ciphers, r)
    decreases |s.outgoing| - s.written,
              if s.written < |s.outgoing| then |s.outgoing[s.written].data| - s.offset else 0
  {
    hide SealedUnder, SealRecords;
    if s.written < |s.outgoing| {
      var p := SealNextPacket(s);
      if p.ok && io.write(k) > 0 {
        PacketSealed(s, s.mtu, ciphers);
        FlightSealed(p.next, io, k + 1, ciphers);
        var f := SendPackets(p.next, io, k + 1);
        assert ([p.records] + f.packets)[1..] == f.packets;
      }
    }
  }

  /** Within an epoch the records are numbered upwards, so no number is used twice. */
  ghost predicate Numbered(wire: seq<Record>) {
    forall i, j | 0 <= i < j < |wire| && wire[i].epoch == wire[j].epoch :: wire[i].number < wire[j].number
  }

  ghost predicate WireInv(world: World, h: History) {
    Numbered(world.wire) && forall r | r in world.wire :: SealedUnder(h.ciphers, r)
  }

  lemma {:induction false} InOrderAscends(records: seq<Record>, e: nat, n: nat, m: nat, i: nat, j: nat)
    requires InOrder(records, e, n, m) && i < j < |records| && records[i].epoch == e == records[j].epoch
    ensures n <= records[i].number < records[j].number
    decreases |records|
  {
    var first := if records[0].epoch == e then records[0].number + 1 else n;
    if i > 0 {
      InOrderAscends(records[1..], e, first, m, i - 1, j - 1);
    } else {
      InOrderBounds(records[1..], e, first, m);
      assert records[j] in records[1..];
    }
  }

  lemma SentIsNumbered(s: Sender, wire: seq<Record>, sent: seq<Record>, t: Sender)
    requires NumbersUsed(s, wire) && Numbers(s, sent, t) && Numbered(wire)
    ensures Numbered(wire + sent)
  {
    var all := wire + sent;
    InOrderBounds(sent, s.epoch, s.number, t.number);
    if s.epoch > 0 {
      InOrderBounds(sent, s.epoch - 1, s.lastNumber, t.lastNumber);
    }
    forall i, j | 0 <= i < j < |all| && all[i].epoch == all[j].epoch
      ensures all[i].number < all[j].number
    {
      if |wire| <= i {
        var a, b := i - |wire|, j - |wire|;
        assert sent[a] in sent && sent[b] in sent;
        if sent[a].epoch == s.epoch {
          InOrderAscends(sent, s.epoch, s.number, t.number, a, b);
        } else {
          InOrderAscends(sent, s.epoch - 1, s.lastNumber, t.lastNumber, a, b);
        }
      } else if |wire| <= j {
        assert wire[i] in wire && sent[j - |wire|] in sent;
      }
    }
  }

  lemma SendKeepsWire(world: World, h: History, s: Sender, io: Transport)
    requires WireInv(world, h) && NumbersInv(world) && FlightInv(world, h)
    requires s == world.sender.(written := s.written, offset := s.offset, complete := s.complete,
                                timeouts := s.timeouts, mtu := s.mtu)
    ensures WireInv(SendStep(world, SendFlight(s, io)), h)
  {
    var t := UpdateMtu(s, io);
    FlightNumbers(t, io, 0);
    FlightSealed(t, io, 0, h.ciphers);
    hide SendPackets, Numbers, Numbered, SealedUnder;
    SentIsNumbered(t, world.wire, Flatten(SendPackets(t, io, 0).packets), SendPackets(t, io, 0).next);
  }

  lemma StepKeepsWire(world: World, h: History, a: Action)
    requires WireInv(world, h) && NumbersInv(world) && FlightInv(world, h) && |world.receiver.slots| == MAX_FLIGHT
    ensures WireInv(Step(world, a), Note(h, a))
  {
    hide SendPackets, Open, WholeMessage, Numbered, NumbersInv, AddMessage;
    match a
    case Flush(io) => SendKeepsWire(world, h, world.sender.(complete := true), io);
    case Timeout(io) =>
      TimeoutIsResend(world.sender, io);
      if world.sender.timeouts + 1 <= MAX_TIMEOUTS {
        SendKeepsWire(world, h, Rewound(world.sender, io), io);
      } else {
        assert world.wire + [] == world.wire;
      }
    case _ =>
  }

  /** In every run each record is sealed with the cipher of its epoch, under a number of its own. */
  lemma {:induction false} RunKeepsWire(mtu: nat, maxLen: nat, actions: seq<Action>)
    ensures WireInv(Run(Start(mtu, maxLen), actions), HistoryOf(actions))
    decreases |actions|
  {
    hide Step, Note, FlightInv, NumbersInv, SealedUnder;
    if actions != [] {
      var before, a := actions[..|actions| - 1], actions[|actions| - 1];
      RunKeepsWire(mtu, maxLen, before);
      RunKeepsFlight(mtu, maxLen, before);
      RunKeepsNumbers(mtu, maxLen, before);
      StepKeepsWire(Run(Start(mtu, maxLen), before), HistoryOf(before), a);
    }
  }

  // ----- the timer

  /**
     The thirteenth timeout since the flight was begun or answered gives up and sends nothing. From
     the third on the transport's fallback MTU is taken, if it has a usable one.
   */
  lemma TimeoutsCounted(mtu: nat, maxLen: nat, actions: seq<Action>, io: Transport)
    ensures var (s, h) := (Run(Start(mtu, maxLen), actions).sender, HistoryOf(actions));
      var f := HandleTimeout(s, io);
      && f.next.timeouts == h.timeouts + 1
      && (h.timeouts >= MAX_TIMEOUTS ==> f.ret == -1 && f.packets == [])
      && (h.timeouts < MAX_TIMEOUTS ==> f == SendFlight(Rewound(s, io), io))
      && (h.timeouts >= MTU_TIMEOUTS && io.fallbackMtu.Some? && AcceptableMtu(io.fallbackMtu.value) ==>
            f.next.mtu == io.fallbackMtu.value)
  {
    RunKeepsFlight(mtu, maxLen, actions);
    hide SendPackets, Run, HistoryOf;
    TimeoutIsResend(Run(Start(mtu, maxLen), actions).sender, io);
  }

  // ----- how a flight is packed

  /** What is left of a packet of maxOut octets. */
  function RoomLeft(records: seq<Record>, maxOut: nat): nat {
    if WireLength(records) <= maxOut then maxOut - WireLength(records) else 0
  }

  /** A fragment that does not end its message fills the packet, but for what the cipher may add. */
  lemma FragmentFills(s: Sender, maxOut: nat)
    requires s.written < |s.outgoing| && SealNextMessage(s, maxOut).Partial?
    ensures var cipher := if UsesPrevious(s, s.outgoing[s.written]) then s.lastCipher else s.cipher;
      |SealNextMessage(s, maxOut).record.payload| + RT_HEADER_LENGTH + cipher.maxOverhead == maxOut
  {
    hide Parse;
  }

  /** A packet ends with the flight, with a fragment that filled it, or where nothing more fits. */
  ghost predicate EndsFull(p: Packet, maxOut: nat) {
    || p.next.written >= |p.next.outgoing|
    || (p.records != [] && p.next.offset > 0)
    || SealNextMessage(p.next, RoomLeft(p.records, maxOut)).NoProgress?
  }

  lemma FirstRecordOf(record: Record, p: Packet, maxOut: nat)
    requires record.wireLen <= maxOut && EndsFull(p, maxOut - record.wireLen)
    requires WireLength(p.records) <= maxOut - record.wireLen
    ensures EndsFull(p.(records := [record] + p.records), maxOut)
  {
    hide SealNextMessage;
    assert ([record] + p.records)[1..] == p.records;
  }

  lemma {:induction false} PacketIsFull(s: Sender, maxOut: nat)
    requires CiphersValid(s) && SealRecords(s, maxOut).ok
    ensures EndsFull(SealRecords(s, maxOut), maxOut)
    decreases |s.outgoing| - s.written
  {
    hide SealNextMessage, CiphersValid, Further;
    if s.written < |s.outgoing| && SealNextMessage(s, maxOut).Done? {
      RecordFits(s, maxOut);
      var Done(record, next) := SealNextMessage(s, maxOut);
      var moved := next.(written := s.written + 1);
      var p := SealRecords(moved, maxOut - record.wireLen);
      assert SealRecords(s, maxOut) == p.(records := [record] + p.records);
      hide SealRecords, EndsFull, RoomLeft, WireLength;
      PacketIsFull(moved, maxOut - record.wireLen);
      RecordsFit(moved, maxOut - record.wireLen);
      FirstRecordOf(record, p, maxOut);
    }
  }

  /** An MTU that is too small is replaced, when the transport is asked, by a usable one. */
  lemma MtuIsUpdated(s: Sender, io: Transport)
    ensures var t := UpdateMtu(s, io);
      && t == s.(mtu := t.mtu) && (s.mtu >= MIN_MTU ==> t == s)
      && (s.mtu < MIN_MTU && io.queryMtu.Some? ==>
            t.mtu >= MIN_MTU && (AcceptableMtu(io.queryMtu.value) ==> t.mtu == io.queryMtu.value))
  {
  }
}
