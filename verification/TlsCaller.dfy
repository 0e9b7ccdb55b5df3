/**
 Runs of a caller over the TLS write path: application writes and their retries,
 handshake messages, flushes and alerts, in any order and over any transport.
 */
module TlsCaller {
  import opened Octets
  import opened Fragments
  import opened SslBuffers
  import opened TlsWrite
  import opened TlsExactlyOnce

  datatype Action =
    | Write(len: nat, base: int)
    | Message(msg: seq<byte>)
    | ChangeCipher
    | Flush
    | Alert(level: byte, desc: byte)
    | Shutdown

  /**
     `acked` is the sum of the positive results so far; `offered` the length of the last
     write if it has to be retried; `durable` the number of records sealed, outside the
     pending flight, when the last write was reported done.
   */
  datatype Caller = Caller(conn: Conn, acked: nat, offered: nat, durable: nat)

  function Start(): Caller { Caller(Fresh(), 0, 0, 0) }

  /** What the interface asks: do not shorten a retry, do not add to a flight that is being written. */
  predicate Allowed(stream: seq<byte>, w: Caller, a: Action) {
    match a
    case Write(len, _) => w.offered <= len && w.acked + len <= |stream|
    case Message(_) => w.conn.flightOffset == 0
    case ChangeCipher => w.conn.flightOffset == 0
    case _ => true
  }

  /** How many records precede the pending flight. */
  function BeforeFlight(c: Conn): nat {
    if c.flight.Some? then c.flightStart else |c.history|
  }

  function Step(cfg: Config, stream: seq<byte>, w: Caller, a: Action): Caller
    requires Ok(w.conn) && cfg.maxSend > 0 && Allowed(stream, w, a)
  {
    match a
    case Write(len, base) =>
      var r := WriteAppData(cfg, w.conn, stream[w.acked..w.acked + len], len, base);
      if r.0 > 0 then Caller(r.1, w.acked + r.0, 0, BeforeFlight(r.1)) else w.(conn := r.1, offered := len)
    case Message(msg) => w.(conn := AddMessage(cfg, w.conn, msg).1)
    case ChangeCipher => w.(conn := AddChangeCipherSpec(cfg, w.conn).1)
    case Flush => w.(conn := FlushFlight(cfg, w.conn).1)
    case Alert(level, desc) => w.(conn := DispatchAlert(cfg, w.conn, level, desc).1)
    case Shutdown => w.(conn := w.conn.(shutdown := true))
  }

  /** The bytes reported to the caller as written have been taken by the transport. */
  ghost predicate Durable(stream: seq<byte>, w: Caller) {
    && w.durable <= |w.conn.history| && w.acked <= |stream|
    && Ciphertexts(w.conn.history[..w.durable]) <= w.conn.wire
    && AppBytes(w.conn.history[..w.durable]) == stream[..w.acked]
  }

  ghost predicate CallerInv(cfg: Config, stream: seq<byte>, w: Caller) {
    && Inv(cfg, w.conn)
    && SealedUpTo(w.conn, stream, w.acked + InHand(w.conn))
    && InHand(w.conn) <= w.offered
    && Durable(stream, w)
  }

  // ----- nothing is taken back

  ghost predicate Extends(c: Conn, d: Conn) {
    c.wire <= d.wire && c.history <= d.history
  }

  lemma FlushFlightExtends(cfg: Config, c: Conn)
    requires Inv(cfg, c)
    ensures Extends(c, FlushFlight(cfg, c).1)
    ensures InHand(FlushFlight(cfg, c).1) == InHand(c)
  {
    hide FlushBuffer, FlushRest, Inv;
    FlushFlightKeepsInv(cfg, c);
  }

  lemma {:induction false} AddMessageExtends(cfg: Config, c: Conn, msg: seq<byte>)
    requires cfg.maxSend > 0
    ensures Extends(c, AddMessage(cfg, c, msg).1)
    ensures InHand(AddMessage(cfg, c, msg).1) == InHand(c)
    decreases |msg|
  {
    var n := if |msg| > cfg.maxSend then cfg.maxSend else |msg|;
    var a := AddRecord(cfg, c, HANDSHAKE, msg[..n]);
    if a.0 && n < |msg| {
      AddMessageExtends(cfg, a.1, msg[n..]);
    }
  }

  lemma DoWriteExtends(cfg: Config, c: Conn, t: byte, plain: seq<byte>, address: int)
    requires Ok(c)
    ensures Extends(c, DoWrite(cfg, c, t, plain, address).1)
  {
    hide FlushBuffer;
  }

  lemma {:induction false} WriteLoopExtends(cfg: Config, c: Conn, data: seq<byte>, base: int, tot: nat)
    requires Ok(c) && tot <= |data|
    ensures Extends(c, WriteLoop(cfg, c, data, base, tot).1)
    decreases |data| - tot
  {
    hide DoWrite;
    var n := |data| - tot;
    var nw := if n > cfg.maxSend then cfg.maxSend else n;
    var w := DoWrite(cfg, c, APPLICATION_DATA, data[tot..tot + nw], base + tot);
    DoWriteExtends(cfg, c, APPLICATION_DATA, data[tot..tot + nw], base + tot);
    if w.0 > 0 && !(w.0 == n || cfg.partialWrites) {
      WriteLoopExtends(cfg, w.1, data, base, tot + w.0);
    }
  }

  lemma StepExtends(cfg: Config, stream: seq<byte>, w: Caller, a: Action)
    requires Inv(cfg, w.conn) && cfg.maxSend > 0 && Allowed(stream, w, a)
    ensures Extends(w.conn, Step(cfg, stream, w, a).conn)
  {
    hide WriteLoop, DoWrite, AddMessage, FlushFlight;
    match a {
      case Write(len, base) =>
        var c, data := w.conn, stream[w.acked..w.acked + len];
        if !c.shutdown && c.wnum <= len {
          WriteLoopExtends(cfg, c.(wnum := 0), data[..len], base, c.wnum);
        }
      case Message(msg) => AddMessageExtends(cfg, w.conn, msg);
      case Flush => FlushFlightExtends(cfg, w.conn);
      case Alert(level, desc) => DoWriteExtends(cfg, w.conn, ALERT, [level, desc], ALERT_ADDRESS);
      case _ =>
    }
  }

  // ----- what is reported as written has left

  lemma {:induction false} NoAppDataAfter(h: seq<Sealed>, k: nat)
    requires k <= |h| && forall i :: k <= i < |h| ==> h[i].contentType != APPLICATION_DATA
    ensures AppBytes(h) == AppBytes(h[..k])
    decreases |h| - k
  {
    if k < |h| {
      var g := h[..|h| - 1];
      NoAppDataAfter(g, k);
      assert g[..k] == h[..k];
    } else {
      assert h[..k] == h;
    }
  }

  lemma EmptyBufferIsDurable(cfg: Config, c: Conn)
    requires Inv(cfg, c) && c.buffer == []
    ensures BeforeFlight(c) <= |c.history|
    ensures Ciphertexts(c.history[..BeforeFlight(c)]) <= c.wire
    ensures AppBytes(c.history[..BeforeFlight(c)]) == AppBytes(c.history)
  {
    hide Ciphertexts, Plaintexts;
    var k := BeforeFlight(c);
    NoAppDataAfter(c.history, k);
    CiphertextsConcat(c.history, k);
    var head := Ciphertexts(c.history[..k]);
    if c.flight.Some? {
      assert c.wire + FlightRest(c) == head + c.flight.value;
      assert |c.wire| == |head| + c.flightOffset;
      assert head == (c.wire + FlightRest(c))[..|head|] == c.wire[..|head|];
    } else {
      assert c.history[..k] == c.history;
      assert head == c.wire;
    }
  }

  lemma DurableLasts(stream: seq<byte>, w: Caller, next: Caller)
    requires Durable(stream, w) && Extends(w.conn, next.conn)
    requires next.acked == w.acked && next.durable == w.durable
    ensures Durable(stream, next)
  {
    hide Ciphertexts, Plaintexts;
    assert next.conn.history[..w.durable] == w.conn.history[..w.durable];
  }

  // ----- every step, every run

  lemma WriteStepKeeps(cfg: Config, stream: seq<byte>, w: Caller, len: nat, base: int)
    requires CallerInv(cfg, stream, w) && cfg.maxSend > 0 && Allowed(stream, w, Write(len, base))
    ensures CallerInv(cfg, stream, Step(cfg, stream, w, Write(len, base)))
  {
    hide WriteAppData, Output, FlightIsRecent, Bounded, SealedUpTo, Durable;
    WriteAppDataKeeps(cfg, w.conn, stream, w.acked, len, base);
    StepExtends(cfg, stream, w, Write(len, base));
    var next := Step(cfg, stream, w, Write(len, base));
    if next.acked == w.acked {
      DurableLasts(stream, w, next);
    } else {
      JustReported(cfg, stream, next);
    }
  }

  lemma JustReported(cfg: Config, stream: seq<byte>, w: Caller)
    requires Inv(cfg, w.conn) && w.conn.buffer == [] && w.durable == BeforeFlight(w.conn)
    requires SealedUpTo(w.conn, stream, w.acked)
    ensures Durable(stream, w)
  {
    hide Inv, Ciphertexts, Plaintexts;
    EmptyBufferIsDurable(cfg, w.conn);
  }

  lemma OtherStepKeeps(cfg: Config, stream: seq<byte>, w: Caller, a: Action)
    requires CallerInv(cfg, stream, w) && cfg.maxSend >= 2 && Allowed(stream, w, a) && !a.Write?
    ensures CallerInv(cfg, stream, Step(cfg, stream, w, a))
  {
    hide AddMessage, AddRecord, FlushFlight, DispatchAlert, Durable, Ciphertexts, Plaintexts;
    StepExtends(cfg, stream, w, a);
    DurableLasts(stream, w, Step(cfg, stream, w, a));
    match a {
      case Message(msg) =>
        AddMessageTiles(cfg, w.conn, msg);
        AddMessageExtends(cfg, w.conn, msg);
      case ChangeCipher =>
        AddRecordKeepsInv(cfg, w.conn, CHANGE_CIPHER_SPEC, CCS_BODY);
        RecordKeepsInHand(cfg, w.conn, CHANGE_CIPHER_SPEC, CCS_BODY);
      case Flush =>
        FlushFlightKeepsInv(cfg, w.conn);
        FlushFlightExtends(cfg, w.conn);
      case Alert(level, desc) => DispatchAlertKeeps(cfg, w.conn, level, desc);
      case _ =>
    }
  }

  lemma RecordKeepsInHand(cfg: Config, c: Conn, t: byte, plain: seq<byte>)
    ensures InHand(AddRecord(cfg, c, t, plain).1) == InHand(c)
  {
  }

  /** The caller's run; None when an action is not allowed where it stands. */
  function Run(cfg: Config, stream: seq<byte>, w: Caller, actions: seq<Action>): Option<Caller>
    requires cfg.maxSend > 0
    decreases |actions|
  {
    if actions == [] then Some(w)
    else if !Ok(w.conn) || !Allowed(stream, w, actions[0]) then None
    else Run(cfg, stream, Step(cfg, stream, w, actions[0]), actions[1..])
  }

  lemma {:induction false} RunKeeps(cfg: Config, stream: seq<byte>, w: Caller, actions: seq<Action>)
    requires cfg.Valid() && CallerInv(cfg, stream, w)
    ensures var r := Run(cfg, stream, w, actions); r.Some? ==> CallerInv(cfg, stream, r.value)
    decreases |actions|
  {
    hide CallerInv, Step;
    if actions != [] && Ok(w.conn) && Allowed(stream, w, actions[0]) {
      var a := actions[0];
      if a.Write? {
        WriteStepKeeps(cfg, stream, w, a.len, a.base);
      } else {
        OtherStepKeeps(cfg, stream, w, a);
      }
      RunKeeps(cfg, stream, Step(cfg, stream, w, a), actions[1..]);
    }
  }

  lemma NothingSealed()
    ensures Ciphertexts([]) == [] && AppBytes([]) == []
  {
  }

  lemma StartKeeps(cfg: Config, stream: seq<byte>, w: Caller)
    requires w == Start()
    ensures CallerInv(cfg, stream, w)
  {
    NothingSealed();
    var c := w.conn;
    assert c.history == [] && c.history[..0] == [] && stream[..0] == [];
    assert c.wire == [] && c.buffer == [] && FlightRest(c) == [];
    hide Ciphertexts, Plaintexts, AppBytes, Start;
    assert Output(c) == [];
    assert Inv(cfg, c);
    assert SealedUpTo(c, stream, 0) && InHand(c) == 0;
    assert Durable(stream, w);
  }

  lemma InvMeans(cfg: Config, stream: seq<byte>, w: Caller)
    requires CallerInv(cfg, stream, w)
    ensures w.conn.wire + w.conn.buffer + FlightRest(w.conn) == Ciphertexts(w.conn.history)
    ensures w.acked + InHand(w.conn) <= |stream|
    ensures AppBytes(w.conn.history) == stream[..w.acked + InHand(w.conn)]
    ensures Durable(stream, w)
  {
    hide Durable, Ciphertexts, AppBytes, FlightRest, Bounded, FlightIsRecent, Ok, InHand;
  }

  /**
     Exactly once, in order, for every run: the records sealed are on the wire or queued
     behind it in the order of sealing; the application bytes in them are the caller's
     stream up to what was reported plus what is in hand; and what was reported as
     written had been taken by the transport.
   */
  lemma ExactlyOnce(cfg: Config, stream: seq<byte>, actions: seq<Action>)
    requires cfg.Valid()
    ensures
      var r := Run(cfg, stream, Start(), actions);
      r.Some? ==>
        var w := r.value;
        && w.conn.wire + w.conn.buffer + FlightRest(w.conn) == Ciphertexts(w.conn.history)
        && w.acked + InHand(w.conn) <= |stream|
        && AppBytes(w.conn.history) == stream[..w.acked + InHand(w.conn)]
        && Durable(stream, w)
  {
    assert cfg.maxSend > 0;
    hide *;
    StartKeeps(cfg, stream, Start());
    RunKeeps(cfg, stream, Start(), actions);
    var r := Run(cfg, stream, Start(), actions);
    if r.Some? {
      InvMeans(cfg, stream, r.value);
    }
  }
}
