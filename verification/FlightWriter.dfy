/**
 The sending transport as an object: the outgoing flight and its write position, updated
 in place by loops over messages and packets. Every method is proved to have exactly the
 effect the functions of DtlsSender give.
 */
module FlightWriter {
  import opened Octets
  import opened Fragments
  import opened DtlsReceiver
  import opened DtlsSender

  datatype SealResult = Failed | Stuck | Fragment | Whole

  // The loops build their results front to back; these say what is still to come.

  ghost function PacketFrom(records: seq<Record>, p: Packet): Packet {
    p.(records := records + p.records)
  }

  /** One turn of the packet loop, with `records` already in the packet. */
  lemma PacketTurn(records: seq<Record>, s: Sender, room: nat)
    ensures PacketFrom(records, SealRecords(s, room)) ==
      if s.written >= |s.outgoing| then Packet(true, records, s)
      else
        match SealNextMessage(s, room)
        case SealError(next) => Packet(false, records, next)
        case NoProgress => Packet(true, records, s)
        case Partial(record, next) => Packet(true, records + [record], next)
        case Done(record, next) =>
          PacketFrom(records + [record],
            SealRecords(next.(written := s.written + 1), if record.wireLen <= room then room - record.wireLen else 0))
  {
    hide SealNextMessage;
    assert records + [] == records;
    if s.written < |s.outgoing| {
      match SealNextMessage(s, room)
      case SealError(_) =>
      case NoProgress =>
      case Partial(record, next) =>
      case Done(record, next) =>
        var rest := if record.wireLen <= room then room - record.wireLen else 0;
        var p := SealRecords(next.(written := s.written + 1), rest);
        assert records + ([record] + p.records) == (records + [record]) + p.records;
    }
  }

  ghost function FlightFrom(packets: seq<seq<Record>>, f: Flight): Flight {
    f.(packets := packets + f.packets)
  }

  /** One turn of the flight loop, with `packets` already out. */
  lemma FlightTurn(packets: seq<seq<Record>>, s: Sender, io: Transport, k: nat)
    ensures FlightFrom(packets, SendPackets(s, io, k)) ==
      if s.written >= |s.outgoing| then Flight(if io.flush <= 0 then -1 else 1, false, s, packets)
      else
        var p := SealNextPacket(s);
        if !p.ok then Flight(-1, true, p.next, packets)
        else if io.write(k) <= 0 then
          Flight(io.write(k), false, p.next.(written := s.written, offset := s.offset), packets)
        else FlightFrom(packets + [p.records], SendPackets(p.next, io, k + 1))
  {
    hide SealNextPacket;
    assert packets + [] == packets;
    if s.written < |s.outgoing| && SealNextPacket(s).ok && io.write(k) > 0 {
      var p := SealNextPacket(s);
      var f := SendPackets(p.next, io, k + 1);
      assert packets + ([p.records] + f.packets) == (packets + [p.records]) + f.packets;
    }
  }

  class Writer {
    const messages: array<Outgoing>
    var messagesLen: nat
    var writeSeq: nat
    var epoch: nat
    var number: nat
    var cipher: Cipher
    var lastNumber: nat
    var lastCipher: Cipher
    var written: nat
    var offset: nat
    var complete: bool
    var timeouts: nat
    var mtu: nat

    ghost predicate Valid()
      reads this
    {
      messages.Length == MAX_FLIGHT && messagesLen <= MAX_FLIGHT
    }

    ghost function Value(): Sender
      requires Valid()
      reads this, messages
    {
      Sender(writeSeq, epoch, number, cipher, lastNumber, lastCipher,
             messages[..messagesLen], written, offset, complete, timeouts, mtu)
    }

    constructor (mtu: nat)
      ensures Valid() && fresh(messages)
      ensures Value() == FreshSender(mtu)
    {
      messages := new Outgoing[MAX_FLIGHT](_ => Outgoing([], 0, false));
      messagesLen, writeSeq, epoch, number, lastNumber := 0, 0, 0, 0, 0;
      cipher, lastCipher := NULL_CIPHER, NULL_CIPHER;
      written, offset, complete, timeouts := 0, 0, false, 0;
      this.mtu := mtu;
    }

    method ClearOutgoing()
      requires Valid()
      modifies this
      ensures Valid()
      ensures Value() == old(Value()).(outgoing := [], written := 0, offset := 0, complete := false)
    {
      messagesLen, written, offset, complete := 0, 0, 0, false;
    }

    method Add(isCcs: bool, data: seq<byte>) returns (ok: bool)
      requires Valid()
      modifies this, messages
      ensures Valid()
      ensures (Value(), ok) == AddOutgoing(old(Value()), isCcs, data)
    {
      if complete {
        timeouts := 0;
        ClearOutgoing();
      }
      if messagesLen >= MAX_FLIGHT || |data| > 0xffff_ffff {
        return false;
      }
      if !isCcs {
        writeSeq := writeSeq + 1;
      }
      messages[messagesLen] := Outgoing(data, epoch, isCcs);
      messagesLen := messagesLen + 1;
      assert messages[..messagesLen] == messages[..messagesLen - 1] + [messages[messagesLen - 1]];
      return true;
    }

    method Message(msgType: byte, body: seq<byte>) returns (ok: bool)
      requires Valid()
      modifies this, messages
      ensures Valid()
      ensures (Value(), ok) == AddMessage(old(Value()), msgType, body)
    {
      if |body| >= 0x100_0000 || writeSeq >= 0x1_0000 {
        return false;
      }
      ok := Add(false, WholeMessage(msgType, writeSeq, body));
    }

    method ChangeCipherSpec() returns (ok: bool)
      requires Valid()
      modifies this, messages
      ensures Valid()
      ensures (Value(), ok) == AddChangeCipherSpec(old(Value()))
    {
      ok := Add(true, []);
    }

    method NewWriteState(next: Cipher)
      requires Valid()
      modifies this
      ensures Valid()
      ensures Value() == SetWriteState(old(Value()), next)
    {
      epoch := epoch + 1;
      lastNumber := number;
      number := 0;
      lastCipher := cipher;
      cipher := next;
    }

    /** dtls1_on_handshake_complete; `answered` is flight_has_reply. */
    method OnHandshakeComplete(answered: bool)
      requires Valid()
      modifies this
      ensures Valid()
      ensures Value() == HandshakeComplete(old(Value()), answered)
    {
      timeouts := 0;
      if answered {
        ClearOutgoing();
      }
    }

    /** dtls_seal_record with an abstract cipher: the record, or None when it is too long. */
    method Seal(previous: bool, contentType: byte, payload: seq<byte>) returns (record: Option<Record>)
      requires Valid() && (previous ==> epoch >= 1)
      modifies this
      ensures Valid()
      ensures (record, Value()) == SealRecord(old(Value()), previous, contentType, payload)
    {
      var aead := if previous then lastCipher else cipher;
      var seqNo := if previous then lastNumber else number;
      var length := |payload| + aead.expansion(|payload|);
      if previous {
        lastNumber := seqNo + 1;
      } else {
        number := seqNo + 1;
      }
      if length >= 0x1_0000 {
        return None;
      }
      return Some(Record(contentType, if previous then epoch - 1 else epoch, seqNo, payload,
                         RT_HEADER_LENGTH + length));
    }

    method SealMessage(maxOut: nat) returns (result: SealResult, record: Option<Record>)
      requires Valid() && written < messagesLen
      modifies this
      ensures Valid()
      ensures match SealNextMessage(old(Value()), maxOut)
        case SealError(next) => result == Failed && Value() == next
        case NoProgress => result == Stuck && Value() == old(Value())
        case Partial(r, next) => result == Fragment && record == Some(r) && Value() == next
        case Done(r, next) => result == Whole && record == Some(r) && Value() == next
    {
      hide Parse, Serialize, SealRecord;
      var msg := messages[written];
      var previous := false;
      if epoch >= 1 && msg.epoch == epoch - 1 {
        previous := true;
      } else if msg.epoch != epoch {
        return Failed, None;
      }
      var aead := if previous then lastCipher else cipher;
      var overhead := RT_HEADER_LENGTH + aead.maxOverhead;
      var prefix := RT_HEADER_LENGTH + aead.nonceLen;
      if msg.isCcs {
        if maxOut < 1 + overhead {
          return Stuck, None;
        }
        record := Seal(previous, RT_CHANGE_CIPHER_SPEC, [MT_CCS]);
        return if record.None? then Failed else Whole, record;
      }
      var parsed := Parse(msg.data);
      if parsed.None? {
        return Failed, None;
      }
      var h, body := parsed.value.header, parsed.value.body;
      if h.fragOff != 0 || h.fragLen != |body| || h.msgLen != |body| || offset > |body| || parsed.value.rest != [] {
        return Failed, None;
      }
      body := body[offset..];
      if maxOut < HEADER_LENGTH + 1 + overhead || maxOut < prefix {
        return Stuck, None;
      }
      var todo := |body|;
      if todo > maxOut - HEADER_LENGTH - overhead {
        todo := maxOut - HEADER_LENGTH - overhead;
      }
      if HEADER_LENGTH + todo > maxOut - prefix {
        return Failed, None;
      }
      assert body[..todo] == parsed.value.body[offset..offset + todo];
      record := Seal(previous, RT_HANDSHAKE, Serialize(h.(fragOff := offset, fragLen := todo), body[..todo]));
      if record.None? {
        return Failed, None;
      }
      if todo == |body| {
        offset := 0;
        return Whole, record;
      }
      offset := offset + todo;
      return Fragment, record;
    }

    /** Seals as much of the flight as fits one packet. */
    method SealPacket() returns (ok: bool, packet: seq<Record>)
      requires Valid() && written < messagesLen
      modifies this
      ensures Valid()
      ensures Packet(ok, packet, Value()) == SealNextPacket(old(Value()))
    {
      hide SealNextMessage, SealRecords, PacketFrom;
      packet := [];
      ok := true;
      var room := mtu;
      var full := false;
      ghost var target := SealRecords(Value(), mtu);
      PacketFromNothing(target);
      while written < messagesLen && !full
        invariant Valid()
        invariant target == if full then Packet(true, packet, Value())
                            else PacketFrom(packet, SealRecords(Value(), room))
        decreases !full, messagesLen - written
      {
        PacketTurn(packet, Value(), room);
        var result, record := SealMessage(room);
        match result {
          case Failed =>
            ok := false;
            return;
          case Stuck =>
            full := true;
          case Fragment =>
            packet := packet + [record.value];
            full := true;
          case Whole =>
            room := if record.value.wireLen <= room then room - record.value.wireLen else 0;
            written := written + 1;
            packet := packet + [record.value];
        }
      }
      if !full {
        PacketTurn(packet, Value(), room);
      }
      if packet == [] {
        ok := false;
      }
    }

    lemma PacketFromNothing(p: Packet)
      ensures PacketFrom([], p) == p
    {
      assert [] + p.records == p.records;
    }

    /** Writes the rest of the flight; the packets that went out are returned in order. */
    method Send(io: Transport) returns (ret: int, sealFailed: bool, sent: seq<seq<Record>>)
      requires Valid()
      modifies this
      ensures Valid()
      ensures Flight(ret, sealFailed, Value(), sent) == SendFlight(old(Value()), io)
    {
      hide SealNextPacket, SendPackets, FlightFrom;
      if mtu < MIN_MTU && io.queryMtu.Some? {
        mtu := if AcceptableMtu(io.queryMtu.value) then io.queryMtu.value else DEFAULT_MTU;
      }
      ret, sealFailed, sent := SendRest(io);
    }

    /** The loop of send_flight. */
    method SendRest(io: Transport) returns (ret: int, sealFailed: bool, sent: seq<seq<Record>>)
      requires Valid()
      modifies this
      ensures Valid()
      ensures Flight(ret, sealFailed, Value(), sent) == SendPackets(old(Value()), io, 0)
    {
      hide SealNextPacket, SendPackets, FlightFrom;
      sent, sealFailed := [], false;
      var k := 0;
      ghost var target := SendPackets(Value(), io, 0);
      FlightFromNothing(target);
      while written < messagesLen
        invariant Valid() && !sealFailed
        invariant target == FlightFrom(sent, SendPackets(Value(), io, k))
        decreases messagesLen - written,
                  if written < messagesLen then |messages[written].data| - offset else 0
      {
        FlightTurn(sent, Value(), io, k);
        var oldWritten, oldOffset := written, offset;
        var ok, packet := SealPacket();
        if !ok {
          return -1, true, sent;
        }
        var bioRet := io.write(k);
        if bioRet <= 0 {
          written, offset := oldWritten, oldOffset;
          return bioRet, false, sent;
        }
        sent := sent + [packet];
        k := k + 1;
      }
      FlightTurn(sent, Value(), io, k);
      ret := if io.flush <= 0 then -1 else 1;
    }

    lemma FlightFromNothing(f: Flight)
      ensures FlightFrom([], f) == f
    {
      assert [] + f.packets == f.packets;
    }

    method Flush(io: Transport) returns (ret: int, sealFailed: bool, sent: seq<seq<Record>>)
      requires Valid()
      modifies this
      ensures Valid()
      ensures Flight(ret, sealFailed, Value(), sent) == FlushFlight(old(Value()), io)
    {
      complete := true;
      ret, sealFailed, sent := Send(io);
    }

    method Resend(io: Transport) returns (ret: int, sealFailed: bool, sent: seq<seq<Record>>)
      requires Valid()
      modifies this
      ensures Valid()
      ensures Flight(ret, sealFailed, Value(), sent) == Retransmit(old(Value()), io)
    {
      written, offset := 0, 0;
      ret, sealFailed, sent := Send(io);
    }

    /** DTLSv1_handle_timeout once the timer has expired. */
    method Timeout(io: Transport) returns (ret: int, sealFailed: bool, sent: seq<seq<Record>>)
      requires Valid()
      modifies this
      ensures Valid()
      ensures Flight(ret, sealFailed, Value(), sent) == HandleTimeout(old(Value()), io)
    {
      hide Retransmit;
      timeouts := timeouts + 1;
      if timeouts > MTU_TIMEOUTS && io.fallbackMtu.Some? {
        if AcceptableMtu(io.fallbackMtu.value) {
          mtu := io.fallbackMtu.value;
        }
      }
      if timeouts > MAX_TIMEOUTS {
        return -1, false, [];
      }
      ret, sealFailed, sent := Resend(io);
    }
  }
}
