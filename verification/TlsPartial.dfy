/**
 Writes one record at a time: what SSL_MODE_ENABLE_PARTIAL_WRITE promises a caller, and how the
 bytes of a write are cut into records in either mode.
 */
module TlsPartial {
  import opened Octets
  import opened Fragments
  import opened SslBuffers
  import opened TlsWrite
  import opened TlsExactlyOnce
  import opened TlsProgress

  // ----- one record for each call

  /** What do_ssl3_write seals: nothing when a record was pending, and otherwise at most this one. */
  lemma {:induction false} SealsAtMostOne(cfg: Config, c: Conn, plain: seq<byte>, address: int)
    requires Ok(c)
    ensures var (n, d) := DoWrite(cfg, c, APPLICATION_DATA, plain, address);
      && (d.history == c.history || (!c.pending && d.history == c.history + [d.history[|c.history|]] &&
            d.history[|c.history|].contentType == APPLICATION_DATA && d.history[|c.history|].plaintext == plain))
      && (n > 0 && !c.pending ==> n == |plain| && |d.history| == |c.history| + 1)
      && (n > 0 && c.pending ==> n == c.pendTot && d.history == c.history)
      && (n > 0 ==> !d.pending && d.buffer == [])
      && (n <= 0 && !c.pending && d.history != c.history ==> d.pending && d.buffer != [])
      && d.wnum == c.wnum
  {
    hide FlushBuffer;
  }

  /** One do_ssl3_write, for the bytes from tot on, and what it reports. */
  function Turn(cfg: Config, c: Conn, data: seq<byte>, base: int, tot: nat): (int, Conn)
    requires Ok(c) && tot <= |data|
  {
    var w := DoWrite(cfg, c, APPLICATION_DATA, data[tot..tot + Chunk(cfg, |data|, tot)], base + tot);
    if w.0 <= 0 then (w.0, w.1.(wnum := tot)) else (tot + w.0, w.1)
  }

  lemma {:induction false} OneTurn(cfg: Config, c: Conn, data: seq<byte>, base: int, tot: nat)
    requires Ok(c) && cfg.partialWrites && tot <= |data|
    ensures WriteLoop(cfg, c, data, base, tot) == Turn(cfg, c, data, base, tot)
  {
    hide DoWrite;
  }

  lemma {:induction false} OneCall(cfg: Config, c: Conn, data: seq<byte>, base: int)
    requires Ok(c) && cfg.partialWrites && !c.shutdown && c.wnum <= |data|
    ensures Ok(c.(wnum := 0))
    ensures WriteAppData(cfg, c, data, |data|, base) == Turn(cfg, c.(wnum := 0), data, base, c.wnum)
  {
    hide DoWrite, WriteLoop, Turn;
    OneTurn(cfg, c.(wnum := 0), data, base, c.wnum);
    assert data[..|data|] == data;
  }

  /** What a call that began at c with tot bytes accepted leaves: n is what it reports. */
  ghost predicate Reported(cfg: Config, c: Conn, len: nat, tot: nat, n: int, d: Conn)
    requires tot <= len
  {
    && c.history <= d.history && |d.history| <= |c.history| + 1
    && (n > 0 ==>
          && d.wnum == c.wnum && !d.pending && d.buffer == []
          && n == tot + if c.pending then c.pendTot else Chunk(cfg, len, tot))
    && (n <= 0 ==> d.wnum == tot && (d.history == c.history || (d.pending && d.buffer != [])))
  }

  lemma {:induction false} TurnReports(cfg: Config, c: Conn, data: seq<byte>, base: int, tot: nat)
    requires Ok(c) && tot <= |data|
    ensures var (n, d) := Turn(cfg, c, data, base, tot); Reported(cfg, c, |data|, tot, n, d)
  {
    hide DoWrite;
    SealsAtMostOne(cfg, c, data[tot..tot + Chunk(cfg, |data|, tot)], base + tot);
  }

  /**
     In partial-write mode a call seals at most one record. If it reports anything it reports
     that record, or the one that was pending; and if it does not, then the count of what was
     accepted is as it was, and a record it sealed has not left the buffer yet.
   */
  lemma {:induction false} PartialWriteReports(cfg: Config, c: Conn, data: seq<byte>, base: int)
    requires Ok(c) && cfg.partialWrites && !c.shutdown && c.wnum <= |data|
    ensures var (n, d) := WriteAppData(cfg, c, data, |data|, base);
      Reported(cfg, c.(wnum := 0), |data|, c.wnum, n, d)
  {
    hide Turn, WriteAppData, Reported;
    OneCall(cfg, c, data, base);
    TurnReports(cfg, c.(wnum := 0), data, base, c.wnum);
  }

  /** A write of len bytes at base, tot of them accepted, can go on from c. */
  ghost predicate GoesOn(cfg: Config, c: Conn, len: nat, base: int, tot: nat) {
    Ok(c) && Sealable(cfg, c) && Resumable(cfg, c, len, base, tot)
  }

  lemma {:induction false} TurnProgress(cfg: Config, c: Conn, data: seq<byte>, base: int, tot: nat)
    requires cfg.Valid() && GoesOn(cfg, c, |data|, base, tot)
    ensures tot <= |data| && Ok(c)
    ensures var (n, d) := Turn(cfg, c, data, base, tot);
      && Sealable(cfg, d) && (n <= 0 ==> GoesOn(cfg, d, |data|, base, tot))
      && (Healthy(cfg, c.clock) ==> n > 0 && d.clock >= c.clock)
  {
    assert tot < |data|;
    hide DoWrite, Healthy, FlightRest, Sealable;
    var plain := data[tot..tot + Chunk(cfg, |data|, tot)];
    DoWriteProgress(cfg, c, plain, |data|, base, tot);
    OtherCount(cfg, DoWrite(cfg, c, APPLICATION_DATA, plain, base + tot).1, |data|, base, tot, tot);
  }

  /**
     And it makes progress: a refused write can be retried as it is, and over a transport that
     takes bytes every call reports some.
   */
  lemma {:induction false} PartialWriteProgress(cfg: Config, c: Conn, data: seq<byte>, base: int)
    requires cfg.Valid() && cfg.partialWrites && !c.shutdown && GoesOn(cfg, c, |data|, base, c.wnum)
    ensures Ok(c)
    ensures var (n, d) := WriteAppData(cfg, c, data, |data|, base);
      && Sealable(cfg, d) && (n <= 0 ==> GoesOn(cfg, d, |data|, base, d.wnum))
      && (Healthy(cfg, c.clock) ==> n > 0 && d.clock >= c.clock)
  {
    assert Ok(c) && c.wnum <= |data|;
    OtherCount(cfg, c, |data|, base, c.wnum, 0);
    hide Turn, WriteAppData, GoesOn, Sealable, Healthy, FlightRest, Resumable;
    OneCall(cfg, c, data, base);
    TurnReports(cfg, c.(wnum := 0), data, base, c.wnum);
    TurnProgress(cfg, c.(wnum := 0), data, base, c.wnum);
  }

  lemma {:induction false} OtherCount(cfg: Config, c: Conn, len: nat, base: int, tot: nat, wnum: nat)
    ensures GoesOn(cfg, c, len, base, tot) ==> GoesOn(cfg, c.(wnum := wnum), len, base, tot)
    ensures Sealable(cfg, c) ==> Sealable(cfg, c.(wnum := wnum))
    ensures Ok(c) ==> Ok(c.(wnum := wnum))
  {
    assert FlightRest(c.(wnum := wnum)) == FlightRest(c);
  }

  // ----- the caller's loop

  /** A caller who writes the rest again until everything was reported; None when a call reports nothing. */
  function WriteOut(cfg: Config, c: Conn, data: seq<byte>): Option<Conn>
    requires Ok(c)
    decreases |data|
  {
    if data == [] then Some(c)
    else
      var (n, d) := WriteAppData(cfg, c, data, |data|, 0);
      if n <= 0 || n > |data| || !Ok(d) then None else WriteOut(cfg, d, data[n..])
  }

  /** The records of the data, each as long as may be. */
  function Records(cfg: Config, n: nat): (count: nat)
    requires cfg.maxSend > 0
  {
    if n == 0 then 0 else 1 + Records(cfg, n - Chunk(cfg, n, 0))
  }

  /** Over a transport that takes bytes the caller's loop sends all, in as few records as can be. */
  lemma {:induction false} PartialWritesComplete(cfg: Config, c: Conn, data: seq<byte>)
    requires Ok(c) && cfg.Valid() && cfg.partialWrites && !c.shutdown && Sealable(cfg, c)
    requires !c.pending && c.buffer == [] && c.wnum == 0 && Healthy(cfg, c.clock)
    ensures var r := WriteOut(cfg, c, data);
      && r.Some? && !r.value.pending && r.value.buffer == [] && r.value.wnum == 0
      && AppBytes(r.value.history) == AppBytes(c.history) + data
      && |r.value.history| == |c.history| + Records(cfg, |data|)
    decreases |data|
  {
    hide WriteAppData, AppBytes, Sealable, Healthy, Ok;
    if data == [] {
      Joined(AppBytes(c.history), data, 0);
    } else {
      FirstCall(cfg, c, data);
      var (n, d) := WriteAppData(cfg, c, data, |data|, 0);
      PartialWritesComplete(cfg, d, data[n..]);
      Joined(AppBytes(c.history), data, n);
    }
  }

  lemma {:induction false} Joined(a: seq<byte>, data: seq<byte>, n: nat)
    requires n <= |data|
    ensures a + data[..n] + data[n..] == a + data
  {
  }

  lemma {:induction false} FirstCall(cfg: Config, c: Conn, data: seq<byte>)
    requires Ok(c) && cfg.Valid() && cfg.partialWrites && !c.shutdown && Sealable(cfg, c)
    requires !c.pending && c.buffer == [] && c.wnum == 0 && Healthy(cfg, c.clock) && data != []
    ensures var (n, d) := WriteAppData(cfg, c, data, |data|, 0);
      && Ok(d) && !d.shutdown && Sealable(cfg, d) && !d.pending && d.buffer == [] && d.wnum == 0
      && Healthy(cfg, d.clock) && 0 < n == Chunk(cfg, |data|, 0)
      && AppBytes(d.history) == AppBytes(c.history) + data[..n]
      && |d.history| == |c.history| + 1
  {
    hide WriteAppData, AppBytes, Sealable, Healthy;
    PartialWriteProgress(cfg, c, data, 0);
    PartialWriteReports(cfg, c, data, 0);
    FirstRecord(cfg, c, data, 0);
    StillOk(cfg, c, data, 0);
    HealthyLater(cfg, c.clock, WriteAppData(cfg, c, data, |data|, 0).1.clock);
  }

  lemma {:induction false} HealthyLater(cfg: Config, k: nat, j: nat)
    requires Healthy(cfg, k) && j >= k
    ensures Healthy(cfg, j)
  {
  }

  lemma {:induction false} StillOk(cfg: Config, c: Conn, data: seq<byte>, base: int)
    requires Ok(c)
    ensures var d := WriteAppData(cfg, c, data, |data|, base).1; Ok(d) && d.shutdown == c.shutdown
  {
    hide WriteLoop;
  }

  lemma {:induction false} FirstRecord(cfg: Config, c: Conn, data: seq<byte>, base: int)
    requires Ok(c) && cfg.partialWrites && cfg.maxSend > 0 && !c.shutdown && !c.pending && c.wnum == 0
    requires WriteAppData(cfg, c, data, |data|, base).0 > 0
    ensures var (n, d) := WriteAppData(cfg, c, data, |data|, base);
      && n == Chunk(cfg, |data|, 0) && AppBytes(d.history) == AppBytes(c.history) + data[..n]
      && |d.history| == |c.history| + 1
  {
    assert c.(wnum := 0) == c;
    hide DoWrite, Plaintexts, WriteAppData;
    OneCall(cfg, c, data, base);
    var nw := Chunk(cfg, |data|, 0);
    assert data[0..nw] == data[..nw];
    SealsAtMostOne(cfg, c, data[0..nw], base);
    var d := DoWrite(cfg, c, APPLICATION_DATA, data[0..nw], base).1;
    Appended(c.history, d.history[|c.history|], APPLICATION_DATA);
  }

  // ----- how data is cut

  /** From `from` on the records are application data, full ones but for the one that ends the data. */
  ghost predicate CutFull(cfg: Config, h: seq<Sealed>, from: nat, data: seq<byte>) {
    forall i | from <= i < |h| ::
      && h[i].contentType == APPLICATION_DATA && 0 < |h[i].plaintext|
      && (|h[i].plaintext| == cfg.maxSend ||
          (i == |h| - 1 && |h[i].plaintext| < cfg.maxSend && |h[i].plaintext| <= |data| &&
           h[i].plaintext == data[|data| - |h[i].plaintext|..]))
  }

  /** In either mode, whatever the transport answers, only the last bytes of a write go in a record that is not full. */
  lemma {:induction false} RecordsAreFull(cfg: Config, c: Conn, data: seq<byte>, base: int, tot: nat)
    requires Ok(c) && cfg.maxSend > 0 && tot <= |data|
    ensures var d := WriteLoop(cfg, c, data, base, tot).1;
      c.history <= d.history && CutFull(cfg, d.history, |c.history|, data)
    decreases |data| - tot
  {
    hide DoWrite, CutFull, Ok;
    var nw := Chunk(cfg, |data|, tot);
    var plain := data[tot..tot + nw];
    var (n, d) := DoWrite(cfg, c, APPLICATION_DATA, plain, base + tot);
    OneIsFull(cfg, c, data, base, tot);
    if 0 < n && n != |data| - tot && !cfg.partialWrites {
      RecordsAreFull(cfg, d, data, base, tot + n);
      var later := WriteLoop(cfg, d, data, base, tot + n).1;
      CutTwice(cfg, c.history, d.history, later.history, data);
    } else {
      assert d.(wnum := tot).history == d.history;
    }
  }

  lemma {:induction false} OneIsFull(cfg: Config, c: Conn, data: seq<byte>, base: int, tot: nat)
    requires Ok(c) && cfg.maxSend > 0 && tot <= |data|
    ensures var (n, d) :=
        DoWrite(cfg, c, APPLICATION_DATA, data[tot..tot + Chunk(cfg, |data|, tot)], base + tot);
      && c.history <= d.history && CutFull(cfg, d.history, |c.history|, data)
      && (0 < n < |data| - tot ==> forall i | |c.history| <= i < |d.history| :: |d.history[i].plaintext| == cfg.maxSend)
  {
    hide DoWrite;
    var plain := data[tot..tot + Chunk(cfg, |data|, tot)];
    SealsAtMostOne(cfg, c, plain, base + tot);
    NothingSealsEmpty(cfg, c, plain, base + tot);
  }

  lemma {:induction false} CutTwice(cfg: Config, a: seq<Sealed>, b: seq<Sealed>, h: seq<Sealed>, data: seq<byte>)
    requires a <= b <= h && CutFull(cfg, b, |a|, data) && CutFull(cfg, h, |b|, data)
    requires forall i | |a| <= i < |b| :: |b[i].plaintext| == cfg.maxSend
    ensures CutFull(cfg, h, |a|, data)
  {
  }

  lemma {:induction false} NothingSealsEmpty(cfg: Config, c: Conn, plain: seq<byte>, address: int)
    requires Ok(c)
    ensures plain == [] ==> DoWrite(cfg, c, APPLICATION_DATA, plain, address).1.history == c.history
  {
    hide FlushBuffer;
  }

  // ----- handshake messages, alerts, and a closed connection

  /** From `from` on the records are handshake data, each full but for the last. */
  ghost predicate MessageCut(cfg: Config, h: seq<Sealed>, from: nat) {
    forall i | from <= i < |h| ::
      h[i].contentType == HANDSHAKE && |h[i].plaintext| <= cfg.maxSend &&
      (i < |h| - 1 ==> |h[i].plaintext| == cfg.maxSend)
  }

  lemma {:induction false} RecordIsSealed(cfg: Config, c: Conn, plain: seq<byte>)
    ensures var (ok, d) := AddRecord(cfg, c, HANDSHAKE, plain);
      if ok then exists x: Sealed :: d.history == c.history + [x] && x.contentType == HANDSHAKE && x.plaintext == plain
      else d.history == c.history
  {
    var (ok, d) := AddRecord(cfg, c, HANDSHAKE, plain);
    if ok {
      var x := d.history[|c.history|];
      assert d.history == c.history + [x];
    }
  }

  lemma {:induction false} CutGoesOn(cfg: Config, a: seq<Sealed>, x: Sealed, h: seq<Sealed>)
    requires x.contentType == HANDSHAKE && |x.plaintext| == cfg.maxSend
    requires a + [x] <= h && MessageCut(cfg, h, |a| + 1)
    ensures MessageCut(cfg, h, |a|) && a <= h
  {
    assert h[|a|] == x;
  }

  lemma {:induction false} OneCut(cfg: Config, a: seq<Sealed>, x: Sealed)
    requires x.contentType == HANDSHAKE && |x.plaintext| <= cfg.maxSend
    ensures MessageCut(cfg, a + [x], |a|)
  {
  }

  /** A handshake message goes in as few records as can be, and an empty one in a record of its own. */
  lemma {:induction false} MessageIsCutFull(cfg: Config, c: Conn, msg: seq<byte>)
    requires cfg.maxSend > 0
    ensures var (ok, d) := AddMessage(cfg, c, msg);
      && c.history <= d.history && MessageCut(cfg, d.history, |c.history|)
      && (ok ==> |d.history| == |c.history| + if msg == [] then 1 else Records(cfg, |msg|))
    decreases |msg|
  {
    var n := Chunk(cfg, |msg|, 0);
    RecordIsSealed(cfg, c, msg[..n]);
    var (ok, d) := AddRecord(cfg, c, HANDSHAKE, msg[..n]);
    hide AddRecord, MessageCut;
    if !ok {
      NothingCut(cfg, c.history);
    } else {
      var x: Sealed :| d.history == c.history + [x] && x.contentType == HANDSHAKE && x.plaintext == msg[..n];
      if n == |msg| {
        OneCut(cfg, c.history, x);
      } else {
        MessageIsCutFull(cfg, d, msg[n..]);
        CutGoesOn(cfg, c.history, x, AddMessage(cfg, d, msg[n..]).1.history);
      }
    }
  }

  lemma {:induction false} NothingCut(cfg: Config, h: seq<Sealed>)
    ensures MessageCut(cfg, h, |h|)
  {
  }

  /**
     A pending record can be finished by a request for the same type, with at least its bytes, and
     at the same address unless moving buffers are allowed; any other is refused and changes nothing.
   */
  lemma {:induction false} RetryMustMatch(cfg: Config, c: Conn, t: byte, plain: seq<byte>, address: int)
    requires Ok(c) && c.pending
    ensures var matches := c.pendType == t && c.pendTot <= |plain| && (cfg.moving || c.pendBuf == address);
      && (!matches ==> DoWrite(cfg, c, t, plain, address) == (-1, c))
      && (matches && Healthy(cfg, c.clock) ==> DoWrite(cfg, c, t, plain, address).0 == c.pendTot)
  {
    hide FlushBuffer;
    if Healthy(cfg, c.clock) {
      FlushBufferCompletes(cfg, c);
    }
  }

  /** An alert that goes out is one record: its level, then its description; a fatal one flushes the transport. */
  lemma {:induction false} AlertIsTwoOctets(cfg: Config, c: Conn, level: byte, desc: byte)
    requires Ok(c) && !c.pending && DispatchAlert(cfg, c, level, desc).0 > 0
    ensures var (n, d) := DispatchAlert(cfg, c, level, desc);
      && n == 1 && |d.history| == |c.history| + 1 && c.history <= d.history && d.buffer == []
      && d.history[|c.history|].contentType == ALERT && d.history[|c.history|].plaintext == [level, desc]
      && (level == 2 ==> d.clock > DoWrite(cfg, c, ALERT, [level, desc], ALERT_ADDRESS).1.clock)
  {
    hide FlushBuffer;
  }

  /** A flush of a flight that succeeds has flushed the transport last; one that does not keeps the flight. */
  lemma {:induction false} FlushEndsInTransport(cfg: Config, c: Conn)
    requires c.flight.Some? && c.flightOffset <= |FlightBytes(c)|
    ensures var (n, d) := FlushFlight(cfg, c);
      if n > 0 then d.flight.None? && d.clock > 0 && cfg.io(d.clock - 1) > 0
      else d.flight == c.flight && c.flightOffset <= d.flightOffset
  {
    hide FlushBuffer, FlushRest;
  }

  /** After the write side is closed nothing is written any more. */
  lemma {:induction false} ClosedStaysSilent(cfg: Config, c: Conn, data: seq<byte>, len: int, base: int)
    requires Ok(c) && c.shutdown && len <= |data|
    ensures WriteAppData(cfg, c, data, len, base) == (-1, c)
    ensures c.flight.Some? ==> FlushFlight(cfg, c) == (-1, c)
  {
    hide WriteLoop, FlushBuffer, FinishFlight;
  }
}
