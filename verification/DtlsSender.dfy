/**
 The sending half of the DTLS handshake transport (ssl/d1_both.cc, ssl/d1_lib.cc): a
 flight of up to seven messages is cut into fragments, fragments into records, records
 into packets no longer than the MTU, and a flight can be sent again at another MTU.
 */
module DtlsSender {
  import opened Octets
  import opened Fragments
  import opened DtlsReceiver

  const RT_HEADER_LENGTH: nat := 13
  const MIN_MTU: nat := 228
  const DEFAULT_MTU: nat := 1472
  const MTU_TIMEOUTS: nat := 2
  const MAX_TIMEOUTS: nat := 12

  /** What sealing adds to a plaintext of a given length; the header is not included. */
  datatype Cipher = Cipher(nonceLen: nat, maxOverhead: nat, expansion: nat -> nat)
  {
    ghost predicate Valid() {
      nonceLen <= maxOverhead && forall n: nat :: expansion(n) <= maxOverhead
    }
  }

  const NULL_CIPHER := Cipher(0, 0, _ => 0)

  datatype Outgoing = Outgoing(data: seq<byte>, epoch: nat, isCcs: bool)

  datatype Record = Record(contentType: byte, epoch: nat, number: nat, payload: seq<byte>, wireLen: nat)

  datatype Sender = Sender(
    writeSeq: nat,
    epoch: nat,
    number: nat,
    cipher: Cipher,
    lastNumber: nat,
    lastCipher: Cipher,
    outgoing: seq<Outgoing>,
    written: nat,
    offset: nat,
    complete: bool,
    timeouts: nat,
    mtu: nat)

  function FreshSender(mtu: nat): Sender {
    Sender(0, 0, 0, NULL_CIPHER, 0, NULL_CIPHER, [], 0, 0, false, 0, mtu)
  }

  // ----- building the flight

  function WholeMessage(msgType: byte, seqNo: nat, body: seq<byte>): seq<byte>
    requires seqNo < 0x1_0000 && |body| < 0x100_0000
  {
    Serialize(Header(msgType, |body|, seqNo, 0, |body|), body)
  }

  function StartFlight(s: Sender): Sender {
    if s.complete then s.(outgoing := [], written := 0, offset := 0, complete := false, timeouts := 0) else s
  }

  function AddOutgoing(s: Sender, isCcs: bool, data: seq<byte>): (res: (Sender, bool)) {
    var t := StartFlight(s);
    if |t.outgoing| >= MAX_FLIGHT || |data| > 0xffff_ffff then (t, false)
    else
      (t.(writeSeq := if isCcs then t.writeSeq else t.writeSeq + 1,
          outgoing := t.outgoing + [Outgoing(data, t.epoch, isCcs)]), true)
  }

  /** init_message, finish_message and add_message: header and body become one entry. */
  function AddMessage(s: Sender, msgType: byte, body: seq<byte>): (res: (Sender, bool)) {
    if |body| >= 0x100_0000 || s.writeSeq >= 0x1_0000 then (s, false)
    else AddOutgoing(s, false, WholeMessage(msgType, s.writeSeq, body))
  }

  function AddChangeCipherSpec(s: Sender): (res: (Sender, bool)) {
    AddOutgoing(s, true, [])
  }

  function SetWriteState(s: Sender, cipher: Cipher): Sender {
    s.(epoch := s.epoch + 1, lastNumber := s.number, number := 0, lastCipher := s.cipher, cipher := cipher)
  }

  /** dtls1_on_handshake_complete: a flight that has been answered need not be kept. */
  function HandshakeComplete(s: Sender, answered: bool): Sender {
    if answered then s.(outgoing := [], written := 0, offset := 0, complete := false, timeouts := 0)
    else s.(timeouts := 0)
  }

  // ----- one record

  datatype Sealed =
    | SealError(next: Sender)
    | NoProgress
    | Partial(record: Record, next: Sender)
    | Done(record: Record, next: Sender)

  predicate UsesPrevious(s: Sender, msg: Outgoing) {
    s.epoch >= 1 && msg.epoch == s.epoch - 1
  }

  /** dtls_seal_record: a record whose ciphertext is too long fails, but has used up its number. */
  function SealRecord(s: Sender, previous: bool, contentType: byte, payload: seq<byte>): (res: (Option<Record>, Sender))
    requires previous ==> s.epoch >= 1
    ensures res.1 == s.(number := res.1.number, lastNumber := res.1.lastNumber)
  {
    var cipher := if previous then s.lastCipher else s.cipher;
    var number := if previous then s.lastNumber else s.number;
    var epoch := if previous then s.epoch - 1 else s.epoch;
    var length := |payload| + cipher.expansion(|payload|);
    var next := if previous then s.(lastNumber := number + 1) else s.(number := number + 1);
    (if length >= 0x1_0000 then None else Some(Record(contentType, epoch, number, payload, RT_HEADER_LENGTH + length)),
     next)
  }

  /** Sealing moves the position and the record numbers, and nothing else. */
  ghost predicate Kept(s: Sender, next: Sender) {
    next == s.(written := next.written, offset := next.offset, number := next.number, lastNumber := next.lastNumber)
  }

  function SealNextMessage(s: Sender, maxOut: nat): (res: Sealed)
    requires s.written < |s.outgoing|
    ensures !res.NoProgress? ==> Kept(s, res.next) && res.next.written == s.written
    ensures res.SealError? ==> res.next.offset == s.offset
    ensures res.Partial? ==> s.offset < res.next.offset < |s.outgoing[s.written].data|
  {
    var msg := s.outgoing[s.written];
    if !UsesPrevious(s, msg) && msg.epoch != s.epoch then SealError(s)
    else
      var previous := UsesPrevious(s, msg);
      var cipher := if previous then s.lastCipher else s.cipher;
      var overhead := RT_HEADER_LENGTH + cipher.maxOverhead;
      var prefix := RT_HEADER_LENGTH + cipher.nonceLen;
      if msg.isCcs then
        if maxOut < 1 + overhead then NoProgress
        else
          var (record, next) := SealRecord(s, previous, RT_CHANGE_CIPHER_SPEC, [MT_CCS]);
          if record.None? then SealError(next) else Done(record.value, next)
      else
        match Parse(msg.data)
        case None => SealError(s)
        case Some(p) =>
          var h := p.header;
          if h.fragOff != 0 || h.fragLen != |p.body| || h.msgLen != |p.body| ||
             s.offset > |p.body| || p.rest != [] then SealError(s)
          else if maxOut < HEADER_LENGTH + 1 + overhead || maxOut < prefix then NoProgress
          else
            var left := |p.body| - s.offset;
            var room := maxOut - HEADER_LENGTH - overhead;
            var todo := if left > room then room else left;
            if HEADER_LENGTH + todo > maxOut - prefix then SealError(s)
            else
              var frag := Serialize(h.(fragOff := s.offset, fragLen := todo), p.body[s.offset..s.offset + todo]);
              var (record, next) := SealRecord(s, previous, RT_HANDSHAKE, frag);
              if record.None? then SealError(next)
              else if todo == left then Done(record.value, next.(offset := 0))
              else Partial(record.value, next.(offset := s.offset + todo))
  }

  // ----- one packet

  datatype Packet = Packet(ok: bool, records: seq<Record>, next: Sender)

  function WireLength(records: seq<Record>): nat {
    if records == [] then 0 else records[0].wireLen + WireLength(records[1..])
  }

  /** `next` is strictly further along the flight than `s`. */
  ghost predicate Further(s: Sender, next: Sender) {
    && Kept(s, next)
    && (s.written < next.written <= |s.outgoing| ||
        (s.written == next.written < |s.outgoing| && s.offset < next.offset < |s.outgoing[s.written].data|))
  }

  /** The loop of seal_next_packet: records until the packet is full or the flight ends. */
  function SealRecords(s: Sender, maxOut: nat): (p: Packet)
    ensures Kept(s, p.next)
    ensures p.records == [] ==> p.next.written == s.written && p.next.offset == s.offset
    ensures p.records != [] ==> Further(s, p.next)
    decreases |s.outgoing| - s.written
  {
    if s.written >= |s.outgoing| then Packet(true, [], s)
    else
      match SealNextMessage(s, maxOut)
      case SealError(next) => Packet(false, [], next)
      case NoProgress => Packet(true, [], s)
      case Partial(record, next) => Packet(true, [record], next)
      case Done(record, next) =>
        var room := if record.wireLen <= maxOut then maxOut - record.wireLen else 0;
        var p := SealRecords(next.(written := s.written + 1), room);
        p.(records := [record] + p.records)
  }

  function SealNextPacket(s: Sender): (p: Packet)
    ensures Kept(s, p.next)
    ensures p.ok ==> Further(s, p.next) && p.records != []
  {
    var p := SealRecords(s, s.mtu);
    if p.records == [] then p.(ok := false) else p
  }

  // ----- one flight

  /**
   What the transport answers: the result of the k-th datagram write, of the final flush,
   and the MTU queries (None when SSL_OP_NO_QUERY_MTU is set).
   */
  datatype Transport = Transport(write: nat -> int, flush: int, queryMtu: Option<int>, fallbackMtu: Option<int>)

  /** sealFailed tells a packet that could not be built from one that could not be sent. */
  datatype Flight = Flight(ret: int, sealFailed: bool, next: Sender, packets: seq<seq<Record>>)

  function SendPackets(s: Sender, io: Transport, k: nat): (f: Flight)
    ensures Kept(s, f.next)
    decreases |s.outgoing| - s.written,
              if s.written < |s.outgoing| then |s.outgoing[s.written].data| - s.offset else 0
  {
    if s.written >= |s.outgoing| then Flight(if io.flush <= 0 then -1 else 1, false, s, [])
    else
      var p := SealNextPacket(s);
      if !p.ok then Flight(-1, true, p.next, [])
      else if io.write(k) <= 0 then
        Flight(io.write(k), false, p.next.(written := s.written, offset := s.offset), [])
      else
        var f := SendPackets(p.next, io, k + 1);
        f.(packets := [p.records] + f.packets)
  }

  predicate AcceptableMtu(mtu: int) {
    MIN_MTU <= mtu <= 0x4000_0000
  }

  function UpdateMtu(s: Sender, io: Transport): Sender {
    if s.mtu < MIN_MTU && io.queryMtu.Some? then
      s.(mtu := if AcceptableMtu(io.queryMtu.value) then io.queryMtu.value else DEFAULT_MTU)
    else s
  }

  function SendFlight(s: Sender, io: Transport): Flight {
    SendPackets(UpdateMtu(s, io), io, 0)
  }

  function FlushFlight(s: Sender, io: Transport): Flight {
    SendFlight(s.(complete := true), io)
  }

  function Retransmit(s: Sender, io: Transport): Flight {
    SendFlight(s.(written := 0, offset := 0), io)
  }

  /** dtls1_check_timeout_num followed by the retransmission. */
  function HandleTimeout(s: Sender, io: Transport): Flight {
    var t := s.(timeouts := s.timeouts + 1);
    var u :=
      if t.timeouts > MTU_TIMEOUTS && io.fallbackMtu.Some? && AcceptableMtu(io.fallbackMtu.value)
      then t.(mtu := io.fallbackMtu.value)
      else t;
    if u.timeouts > MAX_TIMEOUTS then Flight(-1, false, u, []) else Retransmit(u, io)
  }

  // ----- what the records of a flight are

  function Flatten<T>(ss: seq<seq<T>>): seq<T> {
    if ss == [] then [] else ss[0] + Flatten(ss[1..])
  }

  /** `record` carries the whole ChangeCipherSpec, or bytes of the body from `off` on. */
  predicate PieceOf(o: Outgoing, off: nat, record: Record) {
    && record.epoch == o.epoch
    && if o.isCcs then record.contentType == RT_CHANGE_CIPHER_SPEC && record.payload == [MT_CCS]
       else
         && record.contentType == RT_HANDSHAKE
         && |record.payload| >= HEADER_LENGTH
         && Parse(o.data).Some?
         && var p, n := Parse(o.data).value, |record.payload| - HEADER_LENGTH;
            && off + n <= |p.body|
            && (n == 0 ==> off == |p.body|)
            && n < 0x100_0000 && off < 0x100_0000
            && record.payload ==
               Serialize(p.header.(fragOff := off, fragLen := n), p.body[off..off + n])
  }

  /** Where the flight stands once `record` has been sent from offset `off` of message i. */
  function After(o: Outgoing, i: nat, off: nat, record: Record): (nat, nat) {
    if o.isCcs then (i + 1, off)
    else
      var end := off + if |record.payload| >= HEADER_LENGTH then |record.payload| - HEADER_LENGTH else 0;
      if Parse(o.data).Some? && end == |Parse(o.data).value.body| then (i + 1, 0) else (i, end)
  }

  /**
   The records lead from offset `off` of message i to offset `end` of message j without a
   gap, an overlap or a change of order.
   */
  predicate Tiles(flight: seq<Outgoing>, i: nat, off: nat, records: seq<Record>, j: nat, end: nat)
    decreases |records|
  {
    if records == [] then i == j && off == end
    else
      && i < |flight|
      && PieceOf(flight[i], off, records[0])
      && var (i', off') := After(flight[i], i, off, records[0]);
         Tiles(flight, i', off', records[1..], j, end)
  }

  lemma NothingTiles(flight: seq<Outgoing>, i: nat, off: nat)
    ensures Tiles(flight, i, off, [], i, off)
  {
  }

  lemma {:induction false} TilesConcat(
      flight: seq<Outgoing>, i: nat, off: nat, a: seq<Record>, j: nat, mid: nat, b: seq<Record>, k: nat, end: nat)
    requires Tiles(flight, i, off, a, j, mid) && Tiles(flight, j, mid, b, k, end)
    ensures Tiles(flight, i, off, a + b, k, end)
    decreases |a|
  {
    hide PieceOf, After;
    if a == [] {
      assert a + b == b;
    } else {
      var (i', off') := After(flight[i], i, off, a[0]);
      TilesConcat(flight, i', off', a[1..], j, mid, b, k, end);
      assert (a + b)[1..] == a[1..] + b;
    }
  }

  lemma SealedIsPiece(s: Sender, maxOut: nat)
    requires s.written < |s.outgoing|
    ensures var res := SealNextMessage(s, maxOut);
      && (res.Partial? ==>
            && PieceOf(s.outgoing[s.written], s.offset, res.record)
            && After(s.outgoing[s.written], s.written, s.offset, res.record) == (s.written, res.next.offset))
      && (res.Done? ==>
            && PieceOf(s.outgoing[s.written], s.offset, res.record)
            && After(s.outgoing[s.written], s.written, s.offset, res.record) == (s.written + 1, res.next.offset))
  {
    hide Serialize, Parse;
  }

  lemma {:induction false} PacketTiles(s: Sender, maxOut: nat)
    ensures var p := SealRecords(s, maxOut);
      Tiles(s.outgoing, s.written, s.offset, p.records, p.next.written, p.next.offset)
    decreases |s.outgoing| - s.written
  {
    hide SealNextMessage, PieceOf, After;
    if s.written < |s.outgoing| {
      SealedIsPiece(s, maxOut);
      match SealNextMessage(s, maxOut)
      case SealError(_) =>
      case NoProgress =>
      case Partial(record, next) =>
        assert [record][1..] == [];
      case Done(record, next) =>
        var room := if record.wireLen <= maxOut then maxOut - record.wireLen else 0;
        PacketTiles(next.(written := s.written + 1), room);
        var p := SealRecords(next.(written := s.written + 1), room);
        assert ([record] + p.records)[1..] == p.records;
    }
  }

  /**
   What a failed seal leaves behind: the records of the packet that was being built. They
   are counted as written and never go out.
   */
  function Lost(s: Sender, io: Transport, k: nat): seq<Record>
    decreases |s.outgoing| - s.written,
              if s.written < |s.outgoing| then |s.outgoing[s.written].data| - s.offset else 0
  {
    if s.written >= |s.outgoing| then []
    else
      var p := SealNextPacket(s);
      if !p.ok then p.records else if io.write(k) <= 0 then [] else Lost(p.next, io, k + 1)
  }

  /**
   Whatever the transport answers, the records that went out, followed by what a failed
   seal lost, tile the flight from where it stood to where it now stands. A failed write
   skips nothing and repeats nothing; a failed seal skips exactly the packet it was in.
   */
  lemma {:induction false} FlightTiles(s: Sender, io: Transport, k: nat)
    ensures var f := SendPackets(s, io, k);
      && Tiles(s.outgoing, s.written, s.offset, Flatten(f.packets) + Lost(s, io, k), f.next.written, f.next.offset)
      && (!f.sealFailed ==> Flatten(f.packets) + Lost(s, io, k) == Flatten(f.packets))
    decreases |s.outgoing| - s.written,
              if s.written < |s.outgoing| then |s.outgoing[s.written].data| - s.offset else 0
  {
    hide Tiles, SealRecords;
    var lost := Lost(s, io, k);
    assert [] + lost == lost;
    NothingTiles(s.outgoing, s.written, s.offset);
    if s.written < |s.outgoing| {
      var p := SealNextPacket(s);
      PacketTiles(s, s.mtu);
      if p.ok && io.write(k) > 0 {
        FlightTiles(p.next, io, k + 1);
        var f := SendPackets(p.next, io, k + 1);
        TilesConcat(s.outgoing, s.written, s.offset, p.records, p.next.written, p.next.offset,
                    Flatten(f.packets) + lost, f.next.written, f.next.offset);
        assert ([p.records] + f.packets)[1..] == f.packets;
        assert p.records + (Flatten(f.packets) + lost) == p.records + Flatten(f.packets) + lost;
      }
    }
  }

  // ----- packets fit the MTU

  ghost predicate CiphersValid(s: Sender) {
    s.cipher.Valid() && s.lastCipher.Valid()
  }

  lemma RecordFits(s: Sender, maxOut: nat)
    requires s.written < |s.outgoing| && CiphersValid(s)
    ensures var res := SealNextMessage(s, maxOut);
      && (!res.NoProgress? ==> CiphersValid(res.next))
      && (res.Done? ==> CiphersValid(res.next.(written := s.written + 1)))
      && (res.Partial? || res.Done? ==> res.record.wireLen <= maxOut)
  {
  }

  lemma {:induction false} RecordsFit(s: Sender, maxOut: nat)
    requires CiphersValid(s)
    ensures var p := SealRecords(s, maxOut); WireLength(p.records) <= maxOut && CiphersValid(p.next)
    decreases |s.outgoing| - s.written
  {
    hide SealNextMessage, CiphersValid;
    if s.written < |s.outgoing| {
      RecordFits(s, maxOut);
      match SealNextMessage(s, maxOut)
      case SealError(_) =>
      case NoProgress =>
      case Partial(record, next) =>
        assert [record][1..] == [];
      case Done(record, next) =>
        RecordsFit(next.(written := s.written + 1), maxOut - record.wireLen);
        var p := SealRecords(next.(written := s.written + 1), maxOut - record.wireLen);
        assert ([record] + p.records)[1..] == p.records;
    }
  }

  /** No packet of a flight is empty or longer than the MTU. */
  lemma {:induction false} PacketsFitMtu(s: Sender, io: Transport, k: nat)
    requires CiphersValid(s)
    ensures forall packet | packet in SendPackets(s, io, k).packets ::
      packet != [] && WireLength(packet) <= s.mtu
    decreases |s.outgoing| - s.written,
              if s.written < |s.outgoing| then |s.outgoing[s.written].data| - s.offset else 0
  {
    if s.written < |s.outgoing| {
      var p := SealNextPacket(s);
      RecordsFit(s, s.mtu);
      if p.ok && io.write(k) > 0 {
        PacketsFitMtu(p.next, io, k + 1);
      }
    }
  }

  // ----- a well-formed flight is always sent

  /** Entry data as add_message builds it: one whole message, of this or the last epoch. */
  predicate EntryOk(o: Outgoing, epoch: nat) {
    && (o.epoch == epoch || o.epoch + 1 == epoch)
    && (!o.isCcs ==>
          && Parse(o.data).Some?
          && var p := Parse(o.data).value;
             p.rest == [] && p.header.fragOff == 0 && p.header.msgLen == |p.body|)
  }

  predicate FlightOk(s: Sender) {
    forall o | o in s.outgoing :: EntryOk(o, s.epoch)
  }

  predicate PositionOk(s: Sender) {
    && s.written <= |s.outgoing|
    && (s.offset != 0 ==>
          && s.written < |s.outgoing| && !s.outgoing[s.written].isCcs
          && Parse(s.outgoing[s.written].data).Some?
          && s.offset < |Parse(s.outgoing[s.written].data).value.body|)
  }

  /** The plaintext of an entry that goes out in one record. */
  function WholeLength(o: Outgoing): nat { if o.isCcs then 1 else |o.data| }

  /** Every ciphertext has a sixteen-bit length: the MTU, or else each message, is small enough. */
  predicate LengthsOk(s: Sender) {
    || s.mtu < RT_HEADER_LENGTH + 0x1_0000
    || forall o | o in s.outgoing ::
         WholeLength(o) + s.cipher.maxOverhead < 0x1_0000 && WholeLength(o) + s.lastCipher.maxOverhead < 0x1_0000
  }

  /** The MTU leaves room for one byte of body under either cipher. */
  ghost predicate MtuOk(s: Sender) {
    && CiphersValid(s) && LengthsOk(s)
    && RT_HEADER_LENGTH + HEADER_LENGTH + 1 + s.cipher.maxOverhead <= s.mtu
    && RT_HEADER_LENGTH + HEADER_LENGTH + 1 + s.lastCipher.maxOverhead <= s.mtu
  }

  lemma RecordSeals(s: Sender, previous: bool, contentType: byte, payload: seq<byte>)
    requires CiphersValid(s) && (previous ==> s.epoch >= 1)
    requires |payload| + (if previous then s.lastCipher else s.cipher).maxOverhead < 0x1_0000
    ensures SealRecord(s, previous, contentType, payload).0.Some?
  {
    assert s.cipher.expansion(|payload|) <= s.cipher.maxOverhead;
    assert s.lastCipher.expansion(|payload|) <= s.lastCipher.maxOverhead;
  }

  lemma SmallEntry(s: Sender, o: Outgoing)
    requires o in s.outgoing && LengthsOk(s) && s.mtu >= RT_HEADER_LENGTH + 0x1_0000
    ensures WholeLength(o) + s.cipher.maxOverhead < 0x1_0000 && WholeLength(o) + s.lastCipher.maxOverhead < 0x1_0000
  {
  }

  lemma SealsAtAll(s: Sender, maxOut: nat)
    requires FlightOk(s) && PositionOk(s) && MtuOk(s) && s.written < |s.outgoing| && maxOut <= s.mtu
    ensures !SealNextMessage(s, maxOut).SealError?
  {
    hide SealRecord, Parse, Serialize;
    var msg := s.outgoing[s.written];
    assert EntryOk(msg, s.epoch);
    var previous := UsesPrevious(s, msg);
    var overhead := RT_HEADER_LENGTH + (if previous then s.lastCipher else s.cipher).maxOverhead;
    if s.mtu >= RT_HEADER_LENGTH + 0x1_0000 {
      SmallEntry(s, msg);
    }
    if msg.isCcs {
      if maxOut >= 1 + overhead {
        RecordSeals(s, previous, RT_CHANGE_CIPHER_SPEC, [MT_CCS]);
      }
    } else {
      ParsedLength(msg.data);
      if maxOut >= HEADER_LENGTH + 1 + overhead {
        var p := Parse(msg.data).value;
        var left, room := |p.body| - s.offset, maxOut - HEADER_LENGTH - overhead;
        var todo := if left > room then room else left;
        var frag := Serialize(p.header.(fragOff := s.offset, fragLen := todo), p.body[s.offset..s.offset + todo]);
        RecordSeals(s, previous, RT_HANDSHAKE, frag);
      }
    }
  }

  lemma SealSucceeds(s: Sender, maxOut: nat)
    requires FlightOk(s) && PositionOk(s) && MtuOk(s) && s.written < |s.outgoing| && maxOut <= s.mtu
    ensures var res := SealNextMessage(s, maxOut);
      && !res.SealError?
      && (maxOut == s.mtu ==> !res.NoProgress?)
      && (res.Partial? ==> PositionOk(res.next))
      && (res.Done? ==> PositionOk(res.next.(written := s.written + 1)))
      && (res.Partial? || res.Done? ==>
            && FlightOk(res.next) && MtuOk(res.next) && res.record.wireLen <= maxOut
            && res.next.mtu == s.mtu && res.next.epoch == s.epoch)
  {
    hide Parse, Serialize;
    SealsAtAll(s, maxOut);
    var msg := s.outgoing[s.written];
    assert EntryOk(msg, s.epoch);
    if !msg.isCcs {
      ParsedLength(msg.data);
    }
  }

  lemma {:induction false} PacketSucceeds(s: Sender, maxOut: nat)
    requires FlightOk(s) && PositionOk(s) && MtuOk(s) && maxOut <= s.mtu
    ensures var p := SealRecords(s, maxOut);
      && p.ok && FlightOk(p.next) && PositionOk(p.next) && MtuOk(p.next)
      && (maxOut == s.mtu && s.written < |s.outgoing| ==> p.records != [])
    decreases |s.outgoing| - s.written
  {
    hide SealNextMessage, FlightOk, PositionOk, MtuOk;
    assert s.written >= |s.outgoing| || s.written < |s.outgoing|;
    if s.written < |s.outgoing| {
      SealSucceeds(s, maxOut);
      match SealNextMessage(s, maxOut)
      case SealError(_) =>
      case NoProgress =>
      case Partial(record, next) =>
      case Done(record, next) =>
        SameFlight(next, next.(written := s.written + 1));
        PacketSucceeds(next.(written := s.written + 1), maxOut - record.wireLen);
    }
  }

  lemma SameFlight(s: Sender, t: Sender)
    requires t == s.(written := t.written)
    ensures FlightOk(s) == FlightOk(t) && MtuOk(s) == MtuOk(t)
  {
  }

  /**
   A well-formed flight under a usable MTU never fails to be built, and when the transport
   takes every packet the whole flight is out.
   */
  lemma {:induction false} FlightSucceeds(s: Sender, io: Transport, k: nat)
    requires FlightOk(s) && PositionOk(s) && MtuOk(s)
    ensures var f := SendPackets(s, io, k);
      && !f.sealFailed && PositionOk(f.next)
      && (f.ret == 1 <==> f.next.written == |s.outgoing| && io.flush > 0)
      && ((forall i: nat :: io.write(i) > 0) && io.flush > 0 ==> f.ret == 1)
    decreases |s.outgoing| - s.written,
              if s.written < |s.outgoing| then |s.outgoing[s.written].data| - s.offset else 0
  {
    if s.written < |s.outgoing| {
      PacketSucceeds(s, s.mtu);
      var p := SealNextPacket(s);
      if io.write(k) > 0 {
        FlightSucceeds(p.next, io, k + 1);
      }
    }
  }

  /** LengthsOk is needed: a large MTU and a message to match make a record too long to seal. */
  lemma LongRecordFails(s: Sender, io: Transport, k: nat)
    requires FlightOk(s) && s.written < |s.outgoing| && s.offset == 0
    requires var o := s.outgoing[s.written]; o.epoch == s.epoch && !o.isCcs && |o.data| >= 0x1_0000
    requires s.cipher == NULL_CIPHER && s.mtu >= RT_HEADER_LENGTH + 0x1_0000
    ensures var f := SendPackets(s, io, k);
      f.sealFailed && f.ret == -1 && f.packets == [] && f.next == s.(number := s.number + 1)
  {
    hide Parse, Serialize;
    assert EntryOk(s.outgoing[s.written], s.epoch);
    ParsedLength(s.outgoing[s.written].data);
    assert SealNextMessage(s, s.mtu) == SealError(s.(number := s.number + 1));
  }

  lemma ParsedLength(data: seq<byte>)
    requires Parse(data).Some?
    ensures |data| == HEADER_LENGTH + |Parse(data).value.body| + |Parse(data).value.rest|
    ensures Parse(data).value.header.fragLen == |Parse(data).value.body|
  {
  }
}
