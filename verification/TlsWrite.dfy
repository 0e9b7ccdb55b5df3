/**
 The non-blocking TLS write path as a function of its state (ssl/s3_pkt.cc,
 ssl/s3_both.cc, ssl/ssl_buffer.cc): application data, the write buffer and the pending
 handshake flight. The record layer's sealing and the transport are parameters.
 */
module TlsWrite {
  import opened Octets
  import opened Fragments
  import opened SslBuffers

  const MAX_PLAIN: nat := 16384
  const INT_MAX: nat := 0x7fff_ffff
  const APPLICATION_DATA: byte := 23
  const HANDSHAKE: byte := 22
  const ALERT: byte := 21
  const CHANGE_CIPHER_SPEC: byte := 20
  const CCS_BODY: seq<byte> := [1]
  const ALERT_ADDRESS: int := -1

  /** Sealing the n-th record; the state of the write cipher is the position n. */
  datatype Sealer = Sealer(
    overhead: nat -> nat,
    alignPrefix: nat -> nat,
    seal: (nat, byte, seq<byte>) -> Option<seq<byte>>)
  {
    ghost predicate Valid() {
      forall n, t, p :: seal(n, t, p).Some? ==> |seal(n, t, p).value| <= |p| + overhead(n)
    }
  }

  datatype Config = Config(sealer: Sealer, moving: bool, partialWrites: bool, maxSend: nat, io: nat -> int)
  {
    ghost predicate Valid() {
      sealer.Valid() && 512 <= maxSend <= MAX_PLAIN
    }
  }

  datatype Sealed = Sealed(contentType: byte, plaintext: seq<byte>, ciphertext: seq<byte>)

  /**
     `clock` counts transport operations, `wire` is what the transport has taken, and
     `history` is every record sealed so far; `flightStart` is the position in it of the
     first record of the pending flight.
   */
  datatype Conn = Conn(
    clock: nat,
    wire: seq<byte>,
    buffer: seq<byte>,
    flight: Option<seq<byte>>,
    flightOffset: nat,
    wnum: nat,
    pending: bool,
    pendTot: nat,
    pendType: byte,
    pendRet: nat,
    pendBuf: int,
    shutdown: bool,
    history: seq<Sealed>,
    flightStart: nat)

  function Fresh(): Conn { Conn(0, [], [], None, 0, 0, false, 0, 0, 0, 0, false, [], 0) }

  predicate Ok(c: Conn) {
    && (c.pending ==> 0 < c.pendTot == c.pendRet)
    && c.flightOffset <= |FlightBytes(c)|
    && c.flightStart <= |c.history|
  }

  function FlightBytes(c: Conn): seq<byte> {
    if c.flight.Some? then c.flight.value else []
  }

  function FlightRest(c: Conn): seq<byte> {
    if c.flightOffset <= |FlightBytes(c)| then FlightBytes(c)[c.flightOffset..] else []
  }

  // ----- the transport

  function BioWrite(cfg: Config, c: Conn, data: seq<byte>): (r: (int, Conn))
    ensures r.0 <= |data|
  {
    var n := if cfg.io(c.clock) > |data| then |data| else cfg.io(c.clock);
    (n, c.(clock := c.clock + 1, wire := if n > 0 then c.wire + data[..n] else c.wire))
  }

  /** One round of tls_write_buffer_flush. */
  function BufferRound(cfg: Config, c: Conn): (r: (int, Conn))
    ensures r.0 <= |c.buffer|
    ensures r.1 == c.(clock := r.1.clock, wire := r.1.wire, buffer := r.1.buffer)
    ensures r.1.wire + r.1.buffer == c.wire + c.buffer && c.wire <= r.1.wire
    ensures |r.1.buffer| == |c.buffer| - (if r.0 > 0 then r.0 else 0)
  {
    var w := BioWrite(cfg, c, c.buffer);
    if w.0 <= 0 then w
    else
      assert c.wire + c.buffer[..w.0] + c.buffer[w.0..] == c.wire + c.buffer;
      (w.0, w.1.(buffer := c.buffer[w.0..]))
  }

  /** tls_write_buffer_flush: write until the buffer is empty or the transport refuses. */
  function FlushBuffer(cfg: Config, c: Conn): (r: (int, Conn))
    ensures r.1 == c.(clock := r.1.clock, wire := r.1.wire, buffer := r.1.buffer)
    ensures r.0 > 0 <==> r.1.buffer == []
    ensures r.1.wire + r.1.buffer == c.wire + c.buffer && c.wire <= r.1.wire
    decreases |c.buffer|
  {
    if c.buffer == [] then (1, c)
    else
      var w := BufferRound(cfg, c);
      if w.0 <= 0 then w else FlushBuffer(cfg, w.1)
  }

  /** One round of the second loop of ssl3_flush_flight. */
  function FlightRound(cfg: Config, c: Conn): (r: (int, Conn))
    requires c.flightOffset <= |FlightBytes(c)|
    ensures r.1 == c.(clock := r.1.clock, wire := r.1.wire, flightOffset := r.1.flightOffset)
    ensures r.1.flightOffset == c.flightOffset + (if r.0 > 0 then r.0 else 0) <= |FlightBytes(c)|
    ensures r.1.wire + FlightRest(r.1) == c.wire + FlightRest(c) && c.wire <= r.1.wire
  {
    var w := BioWrite(cfg, c, FlightRest(c));
    if w.0 <= 0 then w
    else
      var d := w.1.(flightOffset := c.flightOffset + w.0);
      assert c.wire + FlightRest(c)[..w.0] + FlightRest(d) == c.wire + FlightRest(c);
      (w.0, d)
  }

  /** The second loop of ssl3_flush_flight. */
  function FlushRest(cfg: Config, c: Conn): (r: (int, Conn))
    requires c.flightOffset <= |FlightBytes(c)|
    ensures r.1 == c.(clock := r.1.clock, wire := r.1.wire, flightOffset := r.1.flightOffset)
    ensures r.1.flightOffset <= |FlightBytes(c)|
    ensures r.0 > 0 <==> r.1.flightOffset == |FlightBytes(c)|
    ensures r.1.wire + FlightRest(r.1) == c.wire + FlightRest(c) && c.wire <= r.1.wire
    decreases |FlightBytes(c)| - c.flightOffset
  {
    if c.flightOffset == |FlightBytes(c)| then (1, c)
    else
      var w := FlightRound(cfg, c);
      if w.0 <= 0 then w else FlushRest(cfg, w.1)
  }

  /** What follows the loop: flush the transport, then release the flight. */
  function FinishFlight(cfg: Config, c: Conn): (r: (int, Conn))
    requires c.flightOffset <= |FlightBytes(c)|
  {
    var f := FlushRest(cfg, c);
    if f.0 <= 0 then f
    else
      var d := f.1.(clock := f.1.clock + 1);
      if cfg.io(f.1.clock) <= 0 then (-1, d) else (1, d.(flight := None, flightOffset := 0))
  }

  /** ssl3_flush_flight. */
  function FlushFlight(cfg: Config, c: Conn): (r: (int, Conn))
    requires c.flightOffset <= |FlightBytes(c)|
  {
    if c.flight.None? then (1, c)
    else if c.shutdown || |c.flight.value| > INT_MAX then (-1, c)
    else
      var b := if c.buffer != [] then FlushBuffer(cfg, c) else (1, c);
      if b.0 <= 0 then b else FinishFlight(cfg, b.1)
  }

  // ----- building a flight

  function Remember(c: Conn, t: byte, plain: seq<byte>, cipher: seq<byte>): Conn {
    c.(history := c.history + [Sealed(t, plain, cipher)])
  }

  function Enqueue(c: Conn, t: byte, plain: seq<byte>, cipher: seq<byte>): Conn
    requires c.flight.Some?
  {
    Remember(c, t, plain, cipher).(flight := Some(c.flight.value + cipher))
  }

  function OpenFlight(c: Conn): Conn {
    if c.flight.None? then c.(flight := Some([]), flightStart := |c.history|) else c
  }

  /** add_record_to_flight. */
  function AddRecord(cfg: Config, c: Conn, t: byte, plain: seq<byte>): (r: (bool, Conn)) {
    var d := OpenFlight(c);
    var sealed := cfg.sealer.seal(|c.history|, t, plain);
    if sealed.None? then (false, d) else (true, Enqueue(d, t, plain, sealed.value))
  }

  /** ssl3_add_message: one record for every max_send_fragment bytes, at least one. */
  function AddMessage(cfg: Config, c: Conn, msg: seq<byte>): (r: (bool, Conn))
    requires cfg.maxSend > 0
    decreases |msg|
  {
    var n := if |msg| > cfg.maxSend then cfg.maxSend else |msg|;
    var a := AddRecord(cfg, c, HANDSHAKE, msg[..n]);
    if !a.0 || n == |msg| then a else AddMessage(cfg, a.1, msg[n..])
  }

  function AddChangeCipherSpec(cfg: Config, c: Conn): (r: (bool, Conn)) {
    AddRecord(cfg, c, CHANGE_CIPHER_SPEC, CCS_BODY)
  }

  // ----- one record of application data

  /** ssl3_write_pending. */
  function WritePending(cfg: Config, c: Conn, t: byte, plain: seq<byte>, address: int): (r: (int, Conn)) {
    if c.pendTot > |plain| || (!cfg.moving && c.pendBuf != address) || c.pendType != t then (-1, c)
    else
      var f := FlushBuffer(cfg, c);
      if f.0 <= 0 then f else (c.pendRet, f.1.(pending := false))
  }

  /** What do_ssl3_write leaves in the buffer when a flight was waiting: the rest of it. */
  function MoveFlight(c: Conn): Conn {
    if c.flight.Some? then c.(buffer := c.buffer + FlightRest(c), flight := None, flightOffset := 0) else c
  }

  function Submit(c: Conn, t: byte, plain: seq<byte>, cipher: seq<byte>, address: int): Conn {
    Remember(c, t, plain, cipher).(
      buffer := c.buffer + cipher,
      pendTot := |plain|, pendBuf := address, pendType := t, pendRet := |plain|, pending := true)
  }

  /** The second half of do_ssl3_write, in an empty buffer of sufficient size. */
  function SealAndWrite(cfg: Config, c: Conn, t: byte, plain: seq<byte>, address: int): (r: (int, Conn)) {
    var d := MoveFlight(c);
    var sealed := cfg.sealer.seal(|c.history|, t, plain);
    if sealed.None? then (-1, d)
    else WritePending(cfg, Submit(d, t, plain, sealed.value, address), t, plain, address)
  }

  /** do_ssl3_write. */
  function DoWrite(cfg: Config, c: Conn, t: byte, plain: seq<byte>, address: int): (r: (int, Conn))
    requires Ok(c)
    ensures r.0 <= |plain|
    ensures Ok(r.1) && r.1.shutdown == c.shutdown
  {
    if c.pending then WritePending(cfg, c, t, plain, address)
    else if |plain| > MAX_PLAIN || c.buffer != [] then (-1, c)
    else if plain == [] then (0, c)
    else if |plain| + cfg.sealer.overhead(|c.history|) + |FlightRest(c)| > MAX_CAP then (-1, c)
    else SealAndWrite(cfg, c, t, plain, address)
  }

  // ----- ssl3_write_app_data

  function WriteLoop(cfg: Config, c: Conn, data: seq<byte>, base: int, tot: nat): (r: (int, Conn))
    requires Ok(c) && tot <= |data|
    ensures Ok(r.1) && r.1.shutdown == c.shutdown
    decreases |data| - tot
  {
    var n := |data| - tot;
    var nw := if n > cfg.maxSend then cfg.maxSend else n;
    var w := DoWrite(cfg, c, APPLICATION_DATA, data[tot..tot + nw], base + tot);
    if w.0 <= 0 then (w.0, w.1.(wnum := tot))
    else if w.0 == n || cfg.partialWrites then (tot + w.0, w.1)
    else WriteLoop(cfg, w.1, data, base, tot + w.0)
  }

  function WriteAppData(cfg: Config, c: Conn, data: seq<byte>, len: int, base: int): (r: (int, Conn))
    requires Ok(c) && len <= |data|
  {
    if c.shutdown then (-1, c)
    else if len < 0 || len < c.wnum then (-1, c.(wnum := 0))
    else WriteLoop(cfg, c.(wnum := 0), data[..len], base, c.wnum)
  }

  /** ssl3_dispatch_alert: the two bytes of an alert go through the same path. */
  function DispatchAlert(cfg: Config, c: Conn, level: byte, desc: byte): (r: (int, Conn))
    requires Ok(c)
  {
    var w := DoWrite(cfg, c, ALERT, [level, desc], ALERT_ADDRESS);
    if w.0 <= 0 then w else (1, w.1.(clock := if level == 2 then w.1.clock + 1 else w.1.clock))
  }
}
