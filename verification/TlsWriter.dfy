/**
 The TLS write path as the program runs it (ssl/s3_pkt.cc, ssl/s3_both.cc): fields that
 each call updates and loops over the transport, proved equal to the functions of TlsWrite.
 */
module TlsWriter {
  import opened Octets
  import opened Fragments
  import opened SslBuffers
  import opened TlsWrite

  /** The transport: it takes some of the bytes offered, or none, as `io` says. */
  class Bio {
    const io: nat -> int
    var clock: nat
    ghost var wire: seq<byte>

    constructor (io: nat -> int)
      ensures this.io == io && clock == 0 && wire == []
    {
      this.io := io;
      clock, wire := 0, [];
    }

    method Write(data: seq<byte>) returns (ret: int)
      modifies this
      ensures clock == old(clock) + 1 && ret == if io(old(clock)) > |data| then |data| else io(old(clock))
      ensures wire == if ret > 0 then old(wire) + data[..ret] else old(wire)
    {
      ret := if io(clock) > |data| then |data| else io(clock);
      clock := clock + 1;
      if ret > 0 {
        wire := wire + data[..ret];
      }
    }

    method Flush() returns (ret: int)
      modifies this
      ensures clock == old(clock) + 1 && wire == old(wire) && ret == io(old(clock))
    {
      ret := io(clock);
      clock := clock + 1;
    }
  }

  class Writer {
    const cfg: Config
    const bio: Bio
    const buffer: SslBuffer
    var flight: Option<seq<byte>>
    var flightOffset: nat
    var wnum: nat
    var pending: bool
    var pendTot: nat
    var pendType: byte
    var pendRet: nat
    var pendBuf: int
    var shutdown: bool
    var writeSequence: nat
    ghost var history: seq<Sealed>
    ghost var flightStart: nat

    ghost predicate Shape()
      reads this, buffer
    {
      cfg.Valid() && bio.io == cfg.io && buffer.Valid() && writeSequence == |history|
    }

    ghost function Value(): (c: Conn)
      requires Shape()
      reads this, bio, buffer, buffer.buf
    {
      Conn(bio.clock, bio.wire, buffer.Contents(), flight, flightOffset, wnum, pending, pendTot, pendType, pendRet,
           pendBuf, shutdown, history, flightStart)
    }

    ghost predicate Valid()
      reads this, bio, buffer, buffer.buf
    {
      Shape() && Ok(Value())
    }

    constructor (cfg: Config)
      requires cfg.Valid()
      ensures Valid() && Value() == Fresh() && this.cfg == cfg
      ensures fresh(bio) && fresh(buffer) && fresh(buffer.Repr())
    {
      this.cfg := cfg;
      bio := new Bio(cfg.io);
      buffer := new SslBuffer();
      flight, flightOffset := None, 0;
      wnum, pending, pendTot, pendType, pendRet, pendBuf := 0, false, 0, 0, 0, 0;
      shutdown, writeSequence, history, flightStart := false, 0, [], 0;
    }

    method WriteFromBuffer() returns (ret: int)
      requires Valid() && buffer.size != 0
      modifies bio, buffer
      ensures Valid() && buffer.buf == old(buffer.buf)
      ensures (ret, Value()) == BufferRound(cfg, old(Value()))
    {
      hide SslBuffer.Contents, SslBuffer.Memory, SslBuffer.Remaining;
      var data := buffer.Data();
      ret := bio.Write(data);
      if ret > 0 {
        buffer.Consume(ret);
      }
    }

    /** tls_write_buffer_flush. */
    method FlushWriteBuffer() returns (ret: int)
      requires Valid()
      modifies bio, buffer
      ensures Valid() && (buffer.buf == old(buffer.buf) || buffer.buf == null)
      ensures (ret, Value()) == FlushBuffer(cfg, old(Value()))
    {
      hide BufferRound;
      ghost var goal := FlushBuffer(cfg, Value());
      while buffer.size != 0
        invariant Valid() && buffer.buf == old(buffer.buf)
        invariant FlushBuffer(cfg, Value()) == goal
        decreases buffer.size
      {
        ret := WriteFromBuffer();
        if ret <= 0 {
          return;
        }
      }
      buffer.Clear();
      ret := 1;
    }

    method WriteFromFlight() returns (ret: int)
      requires Valid() && flight.Some?
      modifies this, bio
      ensures Valid() && flight == old(flight)
      ensures (ret, Value()) == FlightRound(cfg, old(Value()))
    {
      hide SslBuffer.Contents, SslBuffer.Memory, SslBuffer.Remaining;
      ret := bio.Write(flight.value[flightOffset..]);
      if ret > 0 {
        flightOffset := flightOffset + ret;
      }
    }

    /** The second loop of ssl3_flush_flight. */
    method WriteFlight() returns (ret: int)
      requires Valid() && flight.Some?
      modifies this, bio
      ensures Valid() && flight == old(flight)
      ensures (ret, Value()) == FlushRest(cfg, old(Value()))
    {
      hide FlightRound, SslBuffer.Contents, SslBuffer.Memory, SslBuffer.Remaining;
      ghost var goal := FlushRest(cfg, Value());
      while flightOffset < |flight.value|
        invariant Valid() && flight == old(flight)
        invariant FlushRest(cfg, Value()) == goal
        decreases |flight.value| - flightOffset
      {
        ret := WriteFromFlight();
        if ret <= 0 {
          return;
        }
      }
      ret := 1;
    }

    /** What follows it: flush the transport, then release the flight. */
    method FlushFlightBytes() returns (ret: int)
      requires Valid() && flight.Some?
      modifies this, bio
      ensures Valid()
      ensures (ret, Value()) == FinishFlight(cfg, old(Value()))
    {
      hide FlushRest, SslBuffer.Contents, SslBuffer.Memory, SslBuffer.Remaining;
      ret := WriteFlight();
      if ret <= 0 {
        return;
      }
      ret := bio.Flush();
      if ret <= 0 {
        return -1;
      }
      flight, flightOffset := None, 0;
      ret := 1;
    }

    /** ssl3_flush_flight. */
    method FlushPendingFlight() returns (ret: int)
      requires Valid()
      modifies this, bio, buffer
      ensures Valid() && (buffer.buf == old(buffer.buf) || buffer.buf == null)
      ensures (ret, Value()) == FlushFlight(cfg, old(Value()))
    {
      hide FlushBuffer, FinishFlight;
      if flight.None? {
        return 1;
      }
      if shutdown || |flight.value| > INT_MAX {
        return -1;
      }
      if buffer.size != 0 {
        ret := FlushWriteBuffer();
        if ret <= 0 {
          return;
        }
      }
      ret := FlushFlightBytes();
    }

    /** add_record_to_flight. */
    method AddRecordToFlight(t: byte, plain: seq<byte>) returns (ok: bool)
      requires Valid() && flightOffset == 0
      modifies this
      ensures Valid() && flightOffset == 0
      ensures (ok, Value()) == AddRecord(cfg, old(Value()), t, plain)
    {
      hide SslBuffer.Contents, SslBuffer.Memory, SslBuffer.Remaining;
      if flight.None? {
        flight := Some([]);
        flightStart := |history|;
      }
      var sealed := cfg.sealer.seal(writeSequence, t, plain);
      if sealed.None? {
        return false;
      }
      writeSequence := writeSequence + 1;
      history := history + [Sealed(t, plain, sealed.value)];
      flight := Some(flight.value + sealed.value);
      return true;
    }

    /** ssl3_add_message. */
    method AddHandshakeMessage(msg: seq<byte>) returns (ok: bool)
      requires Valid() && flightOffset == 0
      modifies this
      ensures Valid() && flightOffset == 0
      ensures (ok, Value()) == AddMessage(cfg, old(Value()), msg)
    {
      hide AddRecord;
      var rest := msg;
      var more := true;
      while more
        invariant Valid() && flightOffset == 0
        invariant more ==> AddMessage(cfg, Value(), rest) == AddMessage(cfg, old(Value()), msg)
        invariant !more ==> (true, Value()) == AddMessage(cfg, old(Value()), msg)
        decreases more, |rest|
      {
        var n := if |rest| > cfg.maxSend then cfg.maxSend else |rest|;
        var chunk := rest[..n];
        ok := AddRecordToFlight(HANDSHAKE, chunk);
        if !ok {
          return;
        }
        rest := rest[n..];
        more := rest != [];
      }
      return true;
    }

    method AddChangeCipherSpecRecord() returns (ok: bool)
      requires Valid() && flightOffset == 0
      modifies this
      ensures Valid() && flightOffset == 0
      ensures (ok, Value()) == AddChangeCipherSpec(cfg, old(Value()))
    {
      ok := AddRecordToFlight(CHANGE_CIPHER_SPEC, CCS_BODY);
    }

    /** ssl3_write_pending. */
    method FinishPending(t: byte, plain: seq<byte>, address: int) returns (ret: int)
      requires Valid()
      modifies this, bio, buffer
      ensures Valid() && (buffer.buf == old(buffer.buf) || buffer.buf == null)
      ensures (ret, Value()) == WritePending(cfg, old(Value()), t, plain, address)
    {
      hide FlushBuffer;
      if pendTot > |plain| || (!cfg.moving && pendBuf != address) || pendType != t {
        return -1;
      }
      ret := FlushWriteBuffer();
      if ret <= 0 {
        return;
      }
      pending := false;
      ret := pendRet;
    }

    /** The rest of a flight goes in front of the record that is about to be sealed. */
    method MoveFlightIntoBuffer()
      requires Valid() && |FlightRest(Value())| <= buffer.cap - buffer.size
      modifies this, buffer, buffer.buf
      ensures Valid() && buffer.buf == old(buffer.buf) && buffer.cap == old(buffer.cap)
      ensures Value() == MoveFlight(old(Value()))
    {
      if flight.Some? {
        buffer.Append(flight.value[flightOffset..]);
        flight, flightOffset := None, 0;
      }
    }

    /** Appends the sealed record and remembers the arguments for a retry. */
    method SubmitRecord(t: byte, plain: seq<byte>, cipher: seq<byte>, address: int)
      requires Valid() && plain != [] && |cipher| <= buffer.cap - buffer.size
      modifies this, buffer, buffer.buf
      ensures Valid() && buffer.buf == old(buffer.buf)
      ensures Value() == Submit(old(Value()), t, plain, cipher, address)
    {
      hide SslBuffer.Contents, SslBuffer.Memory, SslBuffer.Remaining;
      buffer.Append(cipher);
      writeSequence := writeSequence + 1;
      history := history + [Sealed(t, plain, cipher)];
      pendTot, pendBuf, pendType, pendRet, pending := |plain|, address, t, |plain|, true;
      assert buffer.Contents() == old(buffer.Contents()) + cipher;
    }

    /** Room for the rest of the flight and one record; the allocator chooses the address. */
    method Reserve(plain: seq<byte>) returns (ok: bool)
      requires Valid() && buffer.size == 0
      modifies buffer
      ensures Valid() && Value() == old(Value())
      ensures buffer.buf != old(buffer.buf) ==> fresh(buffer.buf)
      ensures var maxOut := |plain| + cfg.sealer.overhead(writeSequence) + |FlightRest(Value())|;
        ok == (maxOut <= MAX_CAP) && (ok ==> maxOut <= buffer.cap)
    {
      var rest := if flight.Some? then |flight.value| - flightOffset else 0;
      var maxOut := |plain| + cfg.sealer.overhead(writeSequence) + rest;
      var memory: nat := *;
      ok := buffer.EnsureCap(rest + cfg.sealer.alignPrefix(writeSequence), maxOut, memory);
    }

    method SealIntoBuffer(t: byte, plain: seq<byte>, address: int) returns (ret: int)
      requires Valid() && buffer.size == 0 && plain != []
      requires |plain| + cfg.sealer.overhead(writeSequence) + |FlightRest(Value())| <= buffer.cap
      modifies this, bio, buffer, buffer.buf
      ensures Valid() && (buffer.buf == old(buffer.buf) || buffer.buf == null)
      ensures (ret, Value()) == SealAndWrite(cfg, old(Value()), t, plain, address)
    {
      hide WritePending, Submit;
      MoveFlightIntoBuffer();
      var sealed := cfg.sealer.seal(writeSequence, t, plain);
      if sealed.None? {
        return -1;
      }
      SubmitRecord(t, plain, sealed.value, address);
      ret := FinishPending(t, plain, address);
    }

    /** do_ssl3_write. */
    method WriteRecord(t: byte, plain: seq<byte>, address: int) returns (ret: int)
      requires Valid()
      modifies this, bio, buffer, buffer.buf
      ensures Valid() && (buffer.buf == old(buffer.buf) || buffer.buf == null || fresh(buffer.buf))
      ensures (ret, Value()) == DoWrite(cfg, old(Value()), t, plain, address)
    {
      hide WritePending, SealAndWrite;
      if pending {
        ret := FinishPending(t, plain, address);
        return;
      }
      if |plain| > MAX_PLAIN || buffer.size > 0 {
        return -1;
      }
      if plain == [] {
        return 0;
      }
      var ok := Reserve(plain);
      if !ok {
        return -1;
      }
      ret := SealIntoBuffer(t, plain, address);
    }

    /** The loop of ssl3_write_app_data. */
    method WriteChunks(data: seq<byte>, base: int, start: nat) returns (ret: int)
      requires Valid() && start <= |data|
      modifies this, bio, buffer, buffer.buf
      ensures Valid() && (buffer.buf == old(buffer.buf) || buffer.buf == null || fresh(buffer.buf))
      ensures (ret, Value()) == WriteLoop(cfg, old(Value()), data, base, start)
    {
      hide DoWrite, SslBuffer.Contents, SslBuffer.Memory, SslBuffer.Remaining;
      var tot, n := start, |data| - start;
      ghost var goal := WriteLoop(cfg, Value(), data, base, start);
      while true
        invariant Valid() && 0 <= n && tot + n == |data|
        invariant buffer.buf == old(buffer.buf) || buffer.buf == null || fresh(buffer.buf)
        invariant goal == WriteLoop(cfg, Value(), data, base, tot)
        decreases n
      {
        var nw := if n > cfg.maxSend then cfg.maxSend else n;
        ret := WriteRecord(APPLICATION_DATA, data[tot..tot + nw], base + tot);
        if ret <= 0 {
          wnum := tot;
          return;
        }
        if ret == n || cfg.partialWrites {
          return tot + ret;
        }
        n := n - ret;
        tot := tot + ret;
      }
    }

    /** ssl3_write_app_data. */
    method WriteApplicationData(data: seq<byte>, len: int, base: int) returns (ret: int)
      requires Valid() && len <= |data|
      modifies this, bio, buffer, buffer.buf
      ensures Valid() && (buffer.buf == old(buffer.buf) || buffer.buf == null || fresh(buffer.buf))
      ensures (ret, Value()) == WriteAppData(cfg, old(Value()), data, len, base)
    {
      hide WriteLoop;
      if shutdown {
        return -1;
      }
      var tot := wnum;
      wnum := 0;
      if len < 0 || len < tot {
        return -1;
      }
      ret := WriteChunks(data[..len], base, tot);
    }

    /** ssl3_dispatch_alert. */
    method SendAlert(level: byte, desc: byte) returns (ret: int)
      requires Valid()
      modifies this, bio, buffer, buffer.buf
      ensures Valid() && (buffer.buf == old(buffer.buf) || buffer.buf == null || fresh(buffer.buf))
      ensures (ret, Value()) == DispatchAlert(cfg, old(Value()), level, desc)
    {
      hide DoWrite, SslBuffer.Contents, SslBuffer.Memory, SslBuffer.Remaining;
      ret := WriteRecord(ALERT, [level, desc], ALERT_ADDRESS);
      if ret <= 0 {
        return;
      }
      if level == 2 {
        var ignored := bio.Flush();
      }
      ret := 1;
    }
  }
}
