/**
 Whole-run properties of the TLS write path: the wire carries the sealed records in the
 order in which they were sealed, and the application bytes sealed are exactly the bytes
 of the caller's stream, whatever the transport accepts and refuses.
 */
module TlsExactlyOnce {
  import opened Octets
  import opened Fragments
  import opened SslBuffers
  import opened TlsWrite

  // ----- what the records carry

  function Ciphertexts(h: seq<Sealed>): seq<byte> {
    if h == [] then [] else Ciphertexts(h[..|h| - 1]) + h[|h| - 1].ciphertext
  }

  function PlainOf(r: Sealed, t: byte): seq<byte> {
    if r.contentType == t then r.plaintext else []
  }

  /** The plaintexts of one content type, in the order sealed. */
  function Plaintexts(h: seq<Sealed>, t: byte): seq<byte> {
    if h == [] then [] else Plaintexts(h[..|h| - 1], t) + PlainOf(h[|h| - 1], t)
  }

  function AppBytes(h: seq<Sealed>): seq<byte> {
    Plaintexts(h, APPLICATION_DATA)
  }

  lemma Appended(h: seq<Sealed>, r: Sealed, t: byte)
    ensures Ciphertexts(h + [r]) == Ciphertexts(h) + r.ciphertext
    ensures Plaintexts(h + [r], t) == Plaintexts(h, t) + PlainOf(r, t)
  {
    assert (h + [r])[..|h|] == h;
  }

  lemma {:induction false} CiphertextsConcat(h: seq<Sealed>, k: nat)
    requires k <= |h|
    ensures Ciphertexts(h) == Ciphertexts(h[..k]) + Ciphertexts(h[k..])
    decreases |h| - k
  {
    if k < |h| {
      var g := h[..|h| - 1];
      CiphertextsConcat(g, k);
      assert g[..k] == h[..k];
      assert h[k..][..|h| - k - 1] == g[k..];
    } else {
      assert h[..k] == h;
    }
  }

  // ----- the invariant of the connection

  function Output(c: Conn): seq<byte> {
    c.wire + c.buffer + FlightRest(c)
  }

  /** The pending flight is the last records sealed, and none of them is application data. */
  ghost predicate FlightIsRecent(c: Conn) {
    if c.flight.None? then c.flightOffset == 0
    else
      && c.flightStart <= |c.history|
      && Ciphertexts(c.history[c.flightStart..]) == c.flight.value
      && forall i :: c.flightStart <= i < |c.history| ==> c.history[i].contentType != APPLICATION_DATA
  }

  ghost predicate Bounded(cfg: Config, h: seq<Sealed>) {
    forall i :: 0 <= i < |h| ==> |h[i].plaintext| <= cfg.maxSend
  }

  ghost predicate Inv(cfg: Config, c: Conn) {
    Ok(c) && Output(c) == Ciphertexts(c.history) && FlightIsRecent(c) && Bounded(cfg, c.history)
  }

  lemma FlushBufferKeepsInv(cfg: Config, c: Conn)
    requires Inv(cfg, c)
    ensures Inv(cfg, FlushBuffer(cfg, c).1)
  {
    hide FlushBuffer, Ciphertexts;
  }

  lemma FinishFlightKeepsInv(cfg: Config, c: Conn)
    requires Inv(cfg, c) && c.flight.Some? && c.buffer == []
    ensures Inv(cfg, FinishFlight(cfg, c).1)
    ensures FinishFlight(cfg, c).1.history == c.history
  {
    hide FlushRest, Ciphertexts;
    var f := FlushRest(cfg, c);
    assert Output(c) == c.wire + FlightRest(c);
    assert Output(f.1) == f.1.wire + FlightRest(f.1);
    var d := FinishFlight(cfg, c).1;
    if f.0 > 0 {
      assert FlightRest(f.1) == [] && FlightRest(d) == [];
      assert Output(d) == d.wire + FlightRest(d);
    }
  }

  lemma FlushFlightKeepsInv(cfg: Config, c: Conn)
    requires Inv(cfg, c)
    ensures Inv(cfg, FlushFlight(cfg, c).1)
    ensures FlushFlight(cfg, c).1.history == c.history
  {
    hide FlushBuffer, FinishFlight, Ciphertexts;
    if c.flight.Some? && !c.shutdown && |c.flight.value| <= INT_MAX {
      FlushBufferKeepsInv(cfg, c);
      var b := if c.buffer != [] then FlushBuffer(cfg, c) else (1, c);
      if b.0 > 0 {
        FinishFlightKeepsInv(cfg, b.1);
      }
    }
  }

  lemma EnqueueKeepsInv(cfg: Config, c: Conn, t: byte, plain: seq<byte>, cipher: seq<byte>)
    requires Inv(cfg, c) && c.flight.Some? && c.flightOffset == 0
    requires t != APPLICATION_DATA && |plain| <= cfg.maxSend
    ensures Inv(cfg, Enqueue(c, t, plain, cipher)) && Enqueue(c, t, plain, cipher).flightOffset == 0
    ensures AppBytes(Enqueue(c, t, plain, cipher).history) == AppBytes(c.history)
  {
    hide Ciphertexts, Plaintexts;
    var d := Enqueue(c, t, plain, cipher);
    var e := Sealed(t, plain, cipher);
    Appended(c.history, e, APPLICATION_DATA);
    Appended(c.history[c.flightStart..], e, APPLICATION_DATA);
    assert d.history[c.flightStart..] == c.history[c.flightStart..] + [e];
    assert Output(d) == Output(c) + cipher;
  }

  lemma AddRecordKeepsInv(cfg: Config, c: Conn, t: byte, plain: seq<byte>)
    requires Inv(cfg, c) && c.flightOffset == 0 && t != APPLICATION_DATA && |plain| <= cfg.maxSend
    ensures
      var r := AddRecord(cfg, c, t, plain);
      && Inv(cfg, r.1) && r.1.flightOffset == 0 && AppBytes(r.1.history) == AppBytes(c.history)
  {
    hide Plaintexts, Enqueue;
    var d := OpenFlight(c);
    assert FlightRest(c) == FlightRest(d) && Output(d) == Output(c);
    assert c.flight.None? ==> d.history[d.flightStart..] == [];
    assert Inv(cfg, d);
    var sealed := cfg.sealer.seal(|c.history|, t, plain);
    if sealed.Some? {
      EnqueueKeepsInv(cfg, d, t, plain, sealed.value);
    }
  }

  /**
     A handshake message is cut into records that carry it once and in order; when sealing
     fails, a first part of it is in the flight.
   */
  lemma {:induction false} AddMessageTiles(cfg: Config, c: Conn, msg: seq<byte>)
    requires Inv(cfg, c) && c.flightOffset == 0 && cfg.maxSend > 0
    ensures
      var r := AddMessage(cfg, c, msg);
      && Inv(cfg, r.1) && r.1.flightOffset == 0 && AppBytes(r.1.history) == AppBytes(c.history)
      && Carries(c, r.1, msg, r.0)
    decreases |msg|
  {
    hide Ciphertexts, Plaintexts, Inv, Carries;
    var n := if |msg| > cfg.maxSend then cfg.maxSend else |msg|;
    var a := AddRecord(cfg, c, HANDSHAKE, msg[..n]);
    AddRecordKeepsInv(cfg, c, HANDSHAKE, msg[..n]);
    CarriesFirst(cfg, c, msg, n);
    if a.0 && n < |msg| {
      AddMessageTiles(cfg, a.1, msg[n..]);
      CarriesMore(c, a.1, AddMessage(cfg, a.1, msg[n..]).1, msg, n, AddMessage(cfg, a.1, msg[n..]).0);
    }
  }

  /** From c to d the handshake bytes sealed are msg, or a first part of it. */
  ghost predicate Carries(c: Conn, d: Conn, msg: seq<byte>, whole: bool) {
    exists k ::
      && 0 <= k <= |msg| && (whole ==> k == |msg|)
      && Plaintexts(d.history, HANDSHAKE) == Plaintexts(c.history, HANDSHAKE) + msg[..k]
  }

  lemma CarriesFirst(cfg: Config, c: Conn, msg: seq<byte>, n: nat)
    requires n <= |msg|
    ensures
      var a := AddRecord(cfg, c, HANDSHAKE, msg[..n]);
      && Carries(c, a.1, msg, a.0 && n == |msg|)
      && (a.0 ==> Plaintexts(a.1.history, HANDSHAKE) == Plaintexts(c.history, HANDSHAKE) + msg[..n])
  {
    hide Ciphertexts, Plaintexts;
    var a := AddRecord(cfg, c, HANDSHAKE, msg[..n]);
    var before := Plaintexts(c.history, HANDSHAKE);
    if a.0 {
      Appended(c.history, a.1.history[|c.history|], HANDSHAKE);
    } else {
      assert Plaintexts(a.1.history, HANDSHAKE) == before + msg[..0];
    }
  }

  lemma CarriesMore(c: Conn, d: Conn, e: Conn, msg: seq<byte>, n: nat, whole: bool)
    requires n <= |msg|
    requires Plaintexts(d.history, HANDSHAKE) == Plaintexts(c.history, HANDSHAKE) + msg[..n]
    requires Carries(d, e, msg[n..], whole)
    ensures Carries(c, e, msg, whole)
  {
    hide Plaintexts;
    var k :| 0 <= k <= |msg[n..]| && (whole ==> k == |msg[n..]|)
      && Plaintexts(e.history, HANDSHAKE) == Plaintexts(d.history, HANDSHAKE) + msg[n..][..k];
    var before, first, second := Plaintexts(c.history, HANDSHAKE), msg[..n], msg[n..][..k];
    assert first + second == msg[..n + k];
    assert (before + first) + second == before + (first + second);
    assert Plaintexts(e.history, HANDSHAKE) == Plaintexts(c.history, HANDSHAKE) + msg[..n + k];
  }

  // ----- one record of application data

  lemma MoveFlightKeepsInv(cfg: Config, c: Conn)
    requires Inv(cfg, c) && c.buffer == []
    ensures Inv(cfg, MoveFlight(c)) && MoveFlight(c).flight.None?
    ensures MoveFlight(c).history == c.history
  {
    assert c.wire + c.buffer + FlightRest(c) == c.wire + (c.buffer + FlightRest(c)) + [];
  }

  lemma SubmitKeepsInv(cfg: Config, c: Conn, t: byte, plain: seq<byte>, cipher: seq<byte>, address: int)
    requires Inv(cfg, c) && c.flight.None? && 0 < |plain| <= cfg.maxSend
    ensures
      var d := Submit(c, t, plain, cipher, address);
      && Inv(cfg, d) && AppBytes(d.history) == AppBytes(c.history) + (if t == APPLICATION_DATA then plain else [])
      && d.wnum == c.wnum && d.pending && d.pendTot == |plain| && d.pendType == t
  {
    hide Ciphertexts, Plaintexts;
    var d := Submit(c, t, plain, cipher, address);
    Appended(c.history, d.history[|c.history|], APPLICATION_DATA);
    assert Output(c) == c.wire + c.buffer;
    assert Output(d) == c.wire + c.buffer + cipher;
  }

  /** Application bytes that are sealed and not yet reported to the caller as written. */
  function Unreported(c: Conn): nat {
    if c.pending && c.pendType == APPLICATION_DATA then c.pendTot else 0
  }

  /** Application bytes of the caller's current request that are sealed. */
  function InHand(c: Conn): nat {
    c.wnum + Unreported(c)
  }

  /** The first n bytes of the stream have been sealed, and no others. */
  ghost predicate SealedUpTo(c: Conn, stream: seq<byte>, n: int) {
    0 <= n <= |stream| && AppBytes(c.history) == stream[..n]
  }

  lemma WritePendingKeeps(cfg: Config, c: Conn, t: byte, plain: seq<byte>, address: int)
    requires Inv(cfg, c) && c.pending
    ensures
      var r := WritePending(cfg, c, t, plain, address);
      && Inv(cfg, r.1) && r.1.history == c.history && r.1.wnum == c.wnum
      && (r.1 == c || c.pendTot <= |plain|)
      && (r.0 <= 0 ==> r.1.pending && r.1.pendTot == c.pendTot && r.1.pendType == c.pendType)
      && (r.0 > 0 ==> !r.1.pending && r.1.buffer == [] && r.0 == c.pendTot <= |plain| && c.pendType == t)
  {
    hide FlushBuffer;
    FlushBufferKeepsInv(cfg, c);
  }

  /**
     One call of do_ssl3_write for bytes [at, at + |plain|) of the stream: whatever it
     returns, a byte is sealed once, and a positive result has emptied the buffer.
   */
  lemma DoWriteKeeps(cfg: Config, c: Conn, plain: seq<byte>, address: int, stream: seq<byte>, at: nat)
    requires Inv(cfg, c) && |plain| <= cfg.maxSend
    requires at + |plain| <= |stream| && plain == stream[at..at + |plain|]
    requires SealedUpTo(c, stream, at + Unreported(c))
    ensures
      var r := DoWrite(cfg, c, APPLICATION_DATA, plain, address);
      && Inv(cfg, r.1)
      && r.1.wnum == c.wnum
      && (r.0 > 0 ==> !r.1.pending && r.1.buffer == [] && SealedUpTo(r.1, stream, at + r.0))
      && (r.0 <= 0 ==> SealedUpTo(r.1, stream, at + Unreported(r.1)) && (Unreported(r.1) <= |plain| || r.1 == c))
  {
    hide WritePending, FlushBuffer, Plaintexts, Ciphertexts, Submit;
    var n := |c.history|;
    if c.pending {
      WritePendingKeeps(cfg, c, APPLICATION_DATA, plain, address);
    } else if |plain| > MAX_PLAIN || c.buffer != [] || plain == [] {
    } else if |plain| + cfg.sealer.overhead(n) + |FlightRest(c)| <= MAX_CAP {
      var d := MoveFlight(c);
      MoveFlightKeepsInv(cfg, c);
      var sealed := cfg.sealer.seal(n, APPLICATION_DATA, plain);
      if sealed.Some? {
        SubmitKeepsInv(cfg, d, APPLICATION_DATA, plain, sealed.value, address);
        var e := Submit(d, APPLICATION_DATA, plain, sealed.value, address);
        assert stream[..at] + plain == stream[..at + |plain|];
        WritePendingKeeps(cfg, e, APPLICATION_DATA, plain, address);
      }
    }
  }

  /** A record of another type takes nothing from the application stream. */
  lemma DispatchAlertKeeps(cfg: Config, c: Conn, level: byte, desc: byte)
    requires Inv(cfg, c) && cfg.maxSend >= 2
    ensures
      var r := DispatchAlert(cfg, c, level, desc);
      && Inv(cfg, r.1) && r.1.wnum == c.wnum && Unreported(r.1) == Unreported(c)
      && AppBytes(r.1.history) == AppBytes(c.history)
  {
    hide WritePending, FlushBuffer, Plaintexts, Ciphertexts, Submit;
    var n, plain := |c.history|, [level, desc];
    if c.pending {
      WritePendingKeeps(cfg, c, ALERT, plain, ALERT_ADDRESS);
    } else if c.buffer == [] && |plain| + cfg.sealer.overhead(n) + |FlightRest(c)| <= MAX_CAP {
      var d := MoveFlight(c);
      MoveFlightKeepsInv(cfg, c);
      var sealed := cfg.sealer.seal(n, ALERT, plain);
      if sealed.Some? {
        SubmitKeepsInv(cfg, d, ALERT, plain, sealed.value, ALERT_ADDRESS);
        WritePendingKeeps(cfg, Submit(d, ALERT, plain, sealed.value, ALERT_ADDRESS), ALERT, plain, ALERT_ADDRESS);
      }
    }
  }

  // ----- one call of ssl3_write_app_data

  lemma SliceOfSlice(stream: seq<byte>, at: nat, len: nat, tot: nat, n: nat)
    requires tot + n <= len && at + len <= |stream|
    ensures stream[at..at + len][tot..tot + n] == stream[at + tot..at + tot + n]
  {
    var a, b := stream[at..at + len][tot..tot + n], stream[at + tot..at + tot + n];
    assert forall i :: 0 <= i < n ==> a[i] == b[i];
  }

  lemma WnumIsFree(cfg: Config, c: Conn, wnum: nat, stream: seq<byte>, n: int)
    requires Inv(cfg, c) && SealedUpTo(c, stream, n)
    ensures Inv(cfg, c.(wnum := wnum)) && SealedUpTo(c.(wnum := wnum), stream, n)
  {
    hide Ciphertexts, Plaintexts;
  }

  /**
     What a write of `len` bytes at position `at` of the stream leaves: after a positive
     result r just its first r bytes are sealed and all of them have left the buffer;
     otherwise what is sealed is remembered.
   */
  ghost predicate Kept(cfg: Config, r: (int, Conn), stream: seq<byte>, at: nat, len: nat, before: nat) {
    && Inv(cfg, r.1)
    && (r.0 > 0 ==>
          && r.0 <= len && (!cfg.partialWrites ==> r.0 == len) && InHand(r.1) == 0 && r.1.buffer == []
          && SealedUpTo(r.1, stream, at + r.0))
    && (r.0 <= 0 ==>
          SealedUpTo(r.1, stream, at + InHand(r.1)) && (InHand(r.1) <= len || InHand(r.1) == before))
  }

  lemma RefusedIsKept(cfg: Config, c: Conn, w: (int, Conn), stream: seq<byte>, at: nat, len: nat, tot: nat, nw: nat)
    requires Inv(cfg, w.1) && w.0 <= 0 && tot + nw <= len
    requires SealedUpTo(w.1, stream, at + tot + Unreported(w.1)) && (Unreported(w.1) <= nw || w.1 == c)
    ensures Kept(cfg, (w.0, w.1.(wnum := tot)), stream, at, len, tot + Unreported(c))
  {
    hide Inv, SealedUpTo;
    WnumIsFree(cfg, w.1, tot, stream, at + tot + Unreported(w.1));
  }

  lemma KeptGoingOn(cfg: Config, r: (int, Conn), stream: seq<byte>, at: nat, len: nat, before: nat, tot: nat)
    requires Kept(cfg, r, stream, at, len, tot) && tot <= len
    ensures Kept(cfg, r, stream, at, len, before)
  {
    hide Inv, SealedUpTo;
  }

  lemma {:induction false} WriteLoopKeeps(
      cfg: Config, c: Conn, stream: seq<byte>, at: nat, len: nat, base: int, tot: nat)
    requires Inv(cfg, c) && Ok(c) && c.wnum == 0 && tot <= len && at + len <= |stream| && cfg.maxSend > 0
    requires SealedUpTo(c, stream, at + tot + Unreported(c))
    ensures Kept(cfg, WriteLoop(cfg, c, stream[at..at + len], base, tot), stream, at, len, tot + Unreported(c))
    decreases len - tot
  {
    hide DoWrite, Inv, SealedUpTo, Ok, Kept;
    var data := stream[at..at + len];
    var n := len - tot;
    var nw := if n > cfg.maxSend then cfg.maxSend else n;
    SliceOfSlice(stream, at, len, tot, nw);
    DoWriteKeeps(cfg, c, data[tot..tot + nw], base + tot, stream, at + tot);
    var w := DoWrite(cfg, c, APPLICATION_DATA, data[tot..tot + nw], base + tot);
    if w.0 <= 0 {
      RefusedIsKept(cfg, c, w, stream, at, len, tot, nw);
    } else if w.0 == n || cfg.partialWrites {
      DoneIsKept(cfg, w.1, stream, at, len, tot, w.0, tot + Unreported(c));
    } else {
      WriteLoopKeeps(cfg, w.1, stream, at, len, base, tot + w.0);
      KeptGoingOn(cfg, WriteLoop(cfg, w.1, data, base, tot + w.0), stream, at, len, tot + Unreported(c), tot + w.0);
    }
  }

  lemma DoneIsKept(cfg: Config, d: Conn, stream: seq<byte>, at: nat, len: nat, tot: nat, n: nat, before: nat)
    requires Inv(cfg, d) && n > 0 && tot + n <= len && (tot + n == len || cfg.partialWrites)
    requires d.wnum == 0 && !d.pending && d.buffer == [] && SealedUpTo(d, stream, at + tot + n)
    ensures Kept(cfg, (tot + n, d), stream, at, len, before)
  {
    hide Inv, SealedUpTo;
  }

  /**
     A call of ssl3_write_app_data that offers at least what was already accepted of this
     request keeps the account of the stream exact.
   */
  lemma WriteAppDataKeeps(cfg: Config, c: Conn, stream: seq<byte>, at: nat, len: nat, base: int)
    requires Inv(cfg, c) && cfg.maxSend > 0 && at + len <= |stream|
    requires SealedUpTo(c, stream, at + InHand(c)) && c.wnum <= len
    ensures Kept(cfg, WriteAppData(cfg, c, stream[at..at + len], len, base), stream, at, len, InHand(c))
  {
    hide WriteLoop, Output, FlightIsRecent, Bounded, Ciphertexts, AppBytes;
    if !c.shutdown {
      WnumIsFree(cfg, c, 0, stream, at + InHand(c));
      WriteLoopKeeps(cfg, c.(wnum := 0), stream, at, len, base, c.wnum);
      assert stream[at..at + len][..len] == stream[at..at + len];
    }
  }

  /**
     A retry keeps the account exact if and only if it is not shorter than what the call
     before it had finished: the code then forgets that count, and nothing else.
   */
  lemma ShortRetryLosesTheCount(cfg: Config, c: Conn, stream: seq<byte>, at: nat, len: nat, base: int)
    requires Inv(cfg, c) && cfg.maxSend > 0 && at + len <= |stream| && !c.shutdown
    requires SealedUpTo(c, stream, at + InHand(c))
    ensures
      var r := WriteAppData(cfg, c, stream[at..at + len], len, base);
      && (c.wnum <= len <==> SealedUpTo(r.1, stream, at + (if r.0 > 0 then r.0 else InHand(r.1))))
      && (len < c.wnum ==> r == (-1, c.(wnum := 0)))
  {
    hide WriteLoop, Output, FlightIsRecent, Bounded, Ciphertexts, Plaintexts;
    if c.wnum <= len {
      WriteAppDataKeeps(cfg, c, stream, at, len, base);
    } else {
      var n := at + InHand(c);
      assert |stream[..n]| == n;
    }
  }
}
