/**
 When a TLS write completes: a refused write can be retried until the transport accepts
 it, and the two ways in which the write path stops making progress.
 */
module TlsProgress {
  import opened Octets
  import opened Fragments
  import opened SslBuffers
  import opened TlsWrite
  import opened TlsExactlyOnce
  import opened TlsCaller

  /** From operation k on the transport takes at least one byte each time. */
  ghost predicate Healthy(cfg: Config, k: nat) {
    forall j :: j >= k ==> cfg.io(j) >= 1
  }

  /** Sealing never fails, and a record fits the write buffer behind the rest of the flight. */
  ghost predicate Sealable(cfg: Config, c: Conn) {
    && (forall n, t, p :: cfg.sealer.seal(n, t, p).Some?)
    && (forall n :: cfg.maxSend + cfg.sealer.overhead(n) + |FlightRest(c)| <= MAX_CAP)
  }

  function Chunk(cfg: Config, len: nat, tot: nat): nat
    requires tot <= len
  {
    if len - tot > cfg.maxSend then cfg.maxSend else len - tot
  }

  /** The state a write of `len` bytes at `base` can go on from, `tot` of them being done. */
  predicate Resumable(cfg: Config, c: Conn, len: nat, base: int, tot: nat) {
    && tot < len
    && if c.pending then
         && c.pendType == APPLICATION_DATA && c.pendTot <= Chunk(cfg, len, tot)
         && (cfg.moving || c.pendBuf == base + tot)
       else c.buffer == []
  }

  lemma {:induction false} FlushBufferCompletes(cfg: Config, c: Conn)
    requires Healthy(cfg, c.clock)
    ensures FlushBuffer(cfg, c).0 == 1 && FlushBuffer(cfg, c).1.clock >= c.clock
    decreases |c.buffer|
  {
    if c.buffer != [] {
      assert cfg.io(c.clock) >= 1;
      FlushBufferCompletes(cfg, BufferRound(cfg, c).1);
    }
  }

  lemma WritePendingProgress(cfg: Config, c: Conn, plain: seq<byte>, address: int)
    requires Ok(c) && c.pending && c.pendType == APPLICATION_DATA && c.pendTot <= |plain|
    requires cfg.moving || c.pendBuf == address
    ensures
      var r := WritePending(cfg, c, APPLICATION_DATA, plain, address);
      && FlightRest(r.1) == FlightRest(c)
      && (r.0 <= 0 ==> r.1 == c.(clock := r.1.clock, wire := r.1.wire, buffer := r.1.buffer))
      && (r.0 > 0 ==> !r.1.pending && r.1.buffer == [])
      && (Healthy(cfg, c.clock) ==> r.0 > 0 && r.1.clock >= c.clock)
  {
    hide FlushBuffer;
    if Healthy(cfg, c.clock) {
      FlushBufferCompletes(cfg, c);
    }
  }

  lemma DoWriteProgress(cfg: Config, c: Conn, plain: seq<byte>, len: nat, base: int, tot: nat)
    requires Ok(c) && cfg.Valid() && Sealable(cfg, c) && Resumable(cfg, c, len, base, tot)
    requires |plain| == Chunk(cfg, len, tot)
    ensures
      var r := DoWrite(cfg, c, APPLICATION_DATA, plain, base + tot);
      && Sealable(cfg, r.1)
      && (r.0 <= 0 ==> Resumable(cfg, r.1, len, base, tot))
      && (r.0 > 0 ==> !r.1.pending && r.1.buffer == [])
      && (Healthy(cfg, c.clock) ==> r.0 > 0 && r.1.clock >= c.clock)
  {
    hide WritePending;
    if c.pending {
      WritePendingProgress(cfg, c, plain, base + tot);
    } else {
      var n := |c.history|;
      assert cfg.maxSend + cfg.sealer.overhead(n) + |FlightRest(c)| <= MAX_CAP;
      var d := MoveFlight(c);
      var sealed := cfg.sealer.seal(n, APPLICATION_DATA, plain);
      var e := Submit(d, APPLICATION_DATA, plain, sealed.value, base + tot);
      assert FlightRest(e) == [];
      WritePendingProgress(cfg, e, plain, base + tot);
    }
  }

  lemma {:induction false} WriteLoopProgress(cfg: Config, c: Conn, data: seq<byte>, base: int, tot: nat)
    requires Ok(c) && cfg.Valid() && !cfg.partialWrites && Sealable(cfg, c) && Resumable(cfg, c, |data|, base, tot)
    ensures
      var r := WriteLoop(cfg, c, data, base, tot);
      && Sealable(cfg, r.1)
      && (r.0 <= 0 ==> Resumable(cfg, r.1, |data|, base, r.1.wnum))
      && (Healthy(cfg, c.clock) ==> r.0 == |data| && r.1.buffer == [] && !r.1.pending)
    decreases |data| - tot
  {
    hide DoWrite;
    var n := |data| - tot;
    var nw := Chunk(cfg, |data|, tot);
    DoWriteProgress(cfg, c, data[tot..tot + nw], |data|, base, tot);
    var w := DoWrite(cfg, c, APPLICATION_DATA, data[tot..tot + nw], base + tot);
    if 0 < w.0 < n {
      WriteLoopProgress(cfg, w.1, data, base, tot + w.0);
    } else if w.0 <= 0 {
      assert FlightRest(w.1.(wnum := tot)) == FlightRest(w.1);
    }
  }

  /**
     A write that the transport refuses can be retried, any number of times: each refusal
     leaves a state the same call can go on from, and as soon as the transport accepts
     bytes again the call reports the whole length with nothing left in the buffer.
   */
  lemma RetriedWriteCompletes(cfg: Config, c: Conn, data: seq<byte>, base: int)
    requires Ok(c) && cfg.Valid() && !cfg.partialWrites && !c.shutdown
    requires Sealable(cfg, c) && Resumable(cfg, c, |data|, base, c.wnum)
    ensures
      var r := WriteAppData(cfg, c, data, |data|, base);
      && (r.0 <= 0 ==>
            !r.1.shutdown && Sealable(cfg, r.1) && Resumable(cfg, r.1, |data|, base, r.1.wnum))
      && (Healthy(cfg, c.clock) ==> r.0 == |data| && r.1.buffer == [] && !r.1.pending)
  {
    hide WriteLoop;
    assert data[..|data|] == data;
    var d := c.(wnum := 0);
    assert FlightRest(d) == FlightRest(c);
    WriteLoopProgress(cfg, d, data, base, c.wnum);
  }

  /**
     When sealing fails after the rest of a flight has moved into the buffer, the bytes
     are neither lost nor sent: every later record is refused and flushing reports success
     without writing, until a new flight is started.
   */
  lemma FailedSealStrandsTheFlight(cfg: Config, c: Conn, t: byte, plain: seq<byte>, address: int)
    requires Inv(cfg, c) && !c.pending && c.buffer == [] && FlightRest(c) != []
    requires plain != [] && |plain| <= MAX_PLAIN
    requires |plain| + cfg.sealer.overhead(|c.history|) + |FlightRest(c)| <= MAX_CAP
    requires cfg.sealer.seal(|c.history|, t, plain).None?
    ensures
      var d := DoWrite(cfg, c, t, plain, address).1;
      && DoWrite(cfg, c, t, plain, address).0 == -1
      && d.buffer == FlightRest(c) && d.wire + d.buffer == Ciphertexts(c.history)
      && FlushFlight(cfg, d) == (1, d)
      && forall u, p, a :: DoWrite(cfg, d, u, p, a) == (-1, d)
  {
    hide FlushBuffer, FlushRest, Ciphertexts;
    MoveFlightKeepsInv(cfg, c);
    var d := MoveFlight(c);
    assert Output(d) == d.wire + d.buffer;
  }

  /**
     A flush that reports success has sent every byte sealed so far if and only if there was
     a flight to flush or nothing was left in the buffer: without a flight it does not look
     at the buffer.
   */
  lemma FlushSendsAll(cfg: Config, c: Conn)
    requires Inv(cfg, c) && FlushFlight(cfg, c).0 > 0
    ensures FlushFlight(cfg, c).1.wire == Ciphertexts(c.history) <==> c.flight.Some? || c.buffer == []
  {
    hide Ciphertexts, FlushRest, FlushBuffer;
    FlushFlightKeepsInv(cfg, c);
    var d := FlushFlight(cfg, c).1;
    if c.flight.Some? {
      assert FlightRest(d) == [] && d.buffer == [];
      assert Output(d) == d.wire;
    } else {
      assert Output(c) == c.wire + c.buffer;
      assert |c.wire + c.buffer| == |c.wire| + |c.buffer|;
    }
  }

  /** Only the first record can be sealed. */
  const FAILING :=
    Config(Sealer(_ => 0, _ => 0, (n, t, p) => if n == 0 then Some(p) else None), true, false, 512, _ => 512)

  /**
     A run that gets there: a handshake message is queued, an application write fails to
     seal, and the flush that follows reports success with the message still unsent.
   */
  lemma StrandedExample(stream: seq<byte>, msg: seq<byte>)
    requires 0 < |msg| <= 512 && |stream| > 0
    ensures
      var queued := Step(FAILING, stream, Start(), Message(msg));
      && Allowed(stream, Start(), Message(msg)) && Allowed(stream, queued, Write(1, 0))
      && var stranded := Step(FAILING, stream, queued, Write(1, 0)).conn;
         && FlushFlight(FAILING, stranded) == (1, stranded)
         && stranded.wire == [] && stranded.buffer == msg == Ciphertexts(stranded.history)
  {
    hide AddMessage, Ciphertexts, DoWrite, WriteLoop;
    FirstMessage(msg);
    var c := AddMessage(FAILING, Fresh(), msg).1;
    RefusedWrite(stream[0..1], msg);
    assert stream[0..1][..1] == stream[0..1] && c.(wnum := 0) == c && [] + msg == msg;
  }

  lemma FirstMessage(msg: seq<byte>)
    requires 0 < |msg| <= 512
    ensures AddMessage(FAILING, Fresh(), msg) == (true, Enqueue(OpenFlight(Fresh()), HANDSHAKE, msg, msg))
    ensures var c := AddMessage(FAILING, Fresh(), msg).1;
      c.history == [Sealed(HANDSHAKE, msg, msg)] && Ciphertexts(c.history) == msg && FlightRest(c) == msg
  {
    assert msg[..|msg|] == msg && [] + msg == msg;
    assert [Sealed(HANDSHAKE, msg, msg)][..0] == [];
  }

  lemma RefusedWrite(data: seq<byte>, msg: seq<byte>)
    requires |data| == 1 && 0 < |msg| <= 512
    ensures var c := Enqueue(OpenFlight(Fresh()), HANDSHAKE, msg, msg);
      WriteLoop(FAILING, c, data, 0, 0) == (-1, MoveFlight(c).(wnum := 0))
  {
    var c := Enqueue(OpenFlight(Fresh()), HANDSHAKE, msg, msg);
    assert [] + msg == msg && FlightRest(c) == msg;
    assert data[..1][0..1] == data;
    assert DoWrite(FAILING, c, APPLICATION_DATA, data, 0) == (-1, MoveFlight(c));
  }

  // ----- a retry that is too short

  lemma FlushInOneWrite(cfg: Config, c: Conn)
    requires c.buffer != [] && cfg.io(c.clock) >= |c.buffer|
    ensures FlushBuffer(cfg, c) == (1, c.(clock := c.clock + 1, wire := c.wire + c.buffer, buffer := []))
  {
    assert c.buffer[..|c.buffer|] == c.buffer;
    assert c.buffer[|c.buffer|..] == [];
  }

  /** The loop from `tot` on looks at no byte before it. */
  lemma {:induction false} LoopSeesTheRest(cfg: Config, c: Conn, a: seq<byte>, b: seq<byte>, base: int, tot: nat)
    requires Ok(c) && tot <= |a| == |b| && a[tot..] == b[tot..]
    ensures WriteLoop(cfg, c, a, base, tot) == WriteLoop(cfg, c, b, base, tot)
    ensures WriteLoop(cfg, c, a, base, tot).0 > 0 ==> WriteLoop(cfg, c, a, base, tot).0 >= tot
    decreases |a| - tot
  {
    hide DoWrite;
    var n := |a| - tot;
    var nw := if n > cfg.maxSend then cfg.maxSend else n;
    assert a[tot..tot + nw] == a[tot..][..nw] == b[tot..][..nw] == b[tot..tot + nw];
    var w := DoWrite(cfg, c, APPLICATION_DATA, a[tot..tot + nw], base + tot);
    if 0 < w.0 < n && !cfg.partialWrites {
      assert a[tot + w.0..] == a[tot..][w.0..] == b[tot..][w.0..] == b[tot + w.0..];
      LoopSeesTheRest(cfg, w.1, a, b, base, tot + w.0);
    }
  }

  /** A pending record stands for as many bytes of the request, whatever they are. */
  lemma PendingStandsForAny(cfg: Config, c: Conn, a: seq<byte>, b: seq<byte>, base: int)
    requires Ok(c) && |a| == |b| && Unreported(c) <= |a| && a[Unreported(c)..] == b[Unreported(c)..]
    ensures WriteLoop(cfg, c, a, base, 0) == WriteLoop(cfg, c, b, base, 0)
    ensures WriteLoop(cfg, c, a, base, 0).0 > 0 ==> WriteLoop(cfg, c, a, base, 0).0 >= Unreported(c)
  {
    hide FlushBuffer, SealAndWrite;
    if c.pending {
      var nw := if |a| > cfg.maxSend then cfg.maxSend else |a|;
      var w := DoWrite(cfg, c, APPLICATION_DATA, a[0..nw], base);
      assert w == DoWrite(cfg, c, APPLICATION_DATA, b[0..nw], base);
      if 0 < w.0 {
        assert w.0 == Unreported(c);
        LoopSeesTheRest(cfg, w.1, a, b, base, w.0);
      }
    } else {
      assert a[0..] == a && b[0..] == b;
    }
  }

  /** The stream as a caller who forgot would have to number it. */
  function Doubled(stream: seq<byte>, n: nat, j: nat): (d: seq<byte>)
    requires n <= |stream| && j <= |stream|
    ensures |d| == n + |stream| - j
  {
    stream[..n] + stream[j..]
  }

  lemma DoubledParts(stream: seq<byte>, n: nat, j: nat, m: nat)
    requires n <= |stream| && j + m <= |stream|
    ensures
      var d := Doubled(stream, n, j);
      d[..n] == stream[..n] && d[n..n + m] == stream[j..j + m] && d[..n + m] == stream[..n] + stream[j..j + m]
  {
    var d := Doubled(stream, n, j);
    assert d[..n] == stream[..n];
    assert d[n..n + m] == stream[j..j + m];
    assert d[..n + m] == d[..n] + d[n..n + m];
  }

  /** What the request and its twin in the doubled stream have in common. */
  lemma TwinRequests(stream: seq<byte>, at: nat, k: nat, u: nat, len: nat)
    requires u <= len && at + len <= |stream| && at + k + u <= |stream|
    ensures
      var d := Doubled(stream, at + k + u, at + u);
      stream[at..at + len][u..] == d[at + k..at + k + len][u..]
  {
    var n, d := at + k + u, Doubled(stream, at + k + u, at + u);
    DoubledParts(stream, n, at + u, len - u);
    SplitSlice(stream, at, at + u, at + len);
    SplitSlice(d, at + k, n, at + k + len);
  }

  /**
     The count that a short retry throws away is of bytes already sealed, so the write that
     follows seals them a second time: of the new request a pending record stands for the
     first u bytes, and everything after these is sealed, whether it was sealed before or not.
   */
  lemma ForgottenBytesAreSealedTwice(cfg: Config, c: Conn, stream: seq<byte>, at: nat, short: nat, len: nat, base: int)
    requires Inv(cfg, c) && cfg.maxSend > 0 && at + len <= |stream| && !c.shutdown
    requires SealedUpTo(c, stream, at + InHand(c)) && short < c.wnum && short <= len
    ensures
      var d := WriteAppData(cfg, c, stream[at..at + len], short, base).1;
      var r := WriteAppData(cfg, d, stream[at..at + len], len, base);
      var u := Unreported(c);
      r.0 > 0 ==> u <= r.0 <= len && AppBytes(r.1.history) == stream[..at + InHand(c)] + stream[at + u..at + r.0]
  {
    hide WriteLoop, Output, FlightIsRecent, Bounded, Ciphertexts, Plaintexts;
    WnumIsFree(cfg, c, 0, stream, at + InHand(c));
    SealedAgain(cfg, c.(wnum := 0), stream, at, c.wnum, len, base);
  }

  /** A write of the request from a state that has forgotten k of its bytes. */
  lemma SealedAgain(cfg: Config, d: Conn, stream: seq<byte>, at: nat, k: nat, len: nat, base: int)
    requires Inv(cfg, d) && cfg.maxSend > 0 && at + len <= |stream| && d.wnum == 0
    requires SealedUpTo(d, stream, at + k + Unreported(d))
    ensures
      var r := WriteAppData(cfg, d, stream[at..at + len], len, base);
      var u := Unreported(d);
      r.0 > 0 ==> u <= r.0 <= len && AppBytes(r.1.history) == stream[..at + k + u] + stream[at + u..at + r.0]
  {
    hide WriteAppData, Inv, AppBytes, Doubled, SealedUpTo;
    var u, data := Unreported(d), stream[at..at + len];
    WithinStream(d, stream, at + k + u);
    var doubled := Doubled(stream, at + k + u, at + u);
    IsOk(cfg, d);
    if u <= len {
      SealedInDouble(d, stream, at + k + u, at + u);
      WriteAppDataKeeps(cfg, d, doubled, at + k, len, base);
      TwinRequests(stream, at, k, u, len);
      SameResult(cfg, d, data, doubled[at + k..at + k + len], len, base);
      var r := WriteAppData(cfg, d, data, len, base);
      if r.0 > 0 {
        DoubleIsSealed(r.1, stream, at + k + u, at + u, r.0 - u);
      }
    } else {
      TooLongToFinish(cfg, d, data, base);
    }
  }

  lemma WithinStream(c: Conn, stream: seq<byte>, n: nat)
    requires SealedUpTo(c, stream, n)
    ensures n <= |stream|
  {
  }

  lemma SealedInDouble(c: Conn, stream: seq<byte>, n: nat, j: nat)
    requires n <= |stream| && j <= |stream| && SealedUpTo(c, stream, n)
    ensures SealedUpTo(c, Doubled(stream, n, j), n)
  {
    hide AppBytes;
    DoubledParts(stream, n, j, 0);
  }

  lemma DoubleIsSealed(c: Conn, stream: seq<byte>, n: nat, j: nat, m: nat)
    requires n <= |stream| && j + m <= |stream| && SealedUpTo(c, Doubled(stream, n, j), n + m)
    ensures AppBytes(c.history) == stream[..n] + stream[j..j + m]
  {
    hide AppBytes, Doubled;
    DoubledParts(stream, n, j, m);
  }

  lemma SameResult(cfg: Config, d: Conn, a: seq<byte>, b: seq<byte>, len: nat, base: int)
    requires Ok(d) && d.wnum == 0 && |a| == |b| == len
    requires Unreported(d) <= len && a[Unreported(d)..] == b[Unreported(d)..]
    ensures WriteAppData(cfg, d, a, len, base) == WriteAppData(cfg, d, b, len, base)
    ensures WriteAppData(cfg, d, a, len, base).0 > 0 ==> WriteAppData(cfg, d, a, len, base).0 >= Unreported(d)
  {
    hide WriteLoop;
    assert a[..len] == a && b[..len] == b && d.(wnum := 0) == d;
    PendingStandsForAny(cfg, d, a, b, base);
  }

  lemma IsOk(cfg: Config, c: Conn)
    requires Inv(cfg, c)
    ensures Ok(c)
  {
  }

  lemma TooLongToFinish(cfg: Config, d: Conn, data: seq<byte>, base: int)
    requires Ok(d) && d.wnum == 0 && Unreported(d) > |data|
    ensures WriteAppData(cfg, d, data, |data|, base).0 <= 0
  {
    assert data[..|data|] == data;
  }

  /** The transport blocks once, on the second write. */
  const BLOCKING :=
    Config(Sealer(_ => 0, _ => 0, (n, t, p) => Some(p)), true, false, 512, k => if k == 1 then -1 else 512)

  lemma BlockedWrite(stream: seq<byte>)
    requires |stream| == 513
    ensures
      var first := WriteAppData(BLOCKING, Fresh(), stream, 513, 0);
      && first.0 == -1 && first.1.wnum == 512 && first.1.pending && first.1.pendTot == 1
      && first.1.pendType == APPLICATION_DATA && first.1.clock == 2 && first.1.flight.None? && !first.1.shutdown
  {
    hide FlushBuffer;
    var c := Submit(Fresh(), APPLICATION_DATA, stream[..512], stream[..512], 0);
    assert stream[..513] == stream && stream[0..512] == stream[..512];
    assert c.buffer == stream[..512];
    FlushInOneWrite(BLOCKING, c);
    var d := DoWrite(BLOCKING, Fresh(), APPLICATION_DATA, stream[..512], 0).1;
    var e := Submit(d, APPLICATION_DATA, stream[512..513], stream[512..513], 512);
    assert d.buffer == [] && e.buffer == stream[512..513];
    Blocked(e);
    assert WriteLoop(BLOCKING, d, stream, 0, 512) == (-1, e.(clock := 2, wnum := 512));
    assert WriteLoop(BLOCKING, Fresh(), stream, 0, 0) == WriteLoop(BLOCKING, d, stream, 0, 512);
    assert Fresh().(wnum := 0) == Fresh();
  }

  lemma Blocked(c: Conn)
    requires c.buffer != [] && c.clock == 1
    ensures FlushBuffer(BLOCKING, c) == (-1, c.(clock := 2))
  {
  }

  /**
     A run of three calls from a new connection: 513 bytes of which the last blocks, a retry
     of 100 bytes that is refused, and the whole again, which succeeds. All bytes but the
     first are sealed twice.
   */
  lemma SealedTwiceExample(stream: seq<byte>)
    requires |stream| == 513
    ensures
      var first := WriteAppData(BLOCKING, Fresh(), stream, 513, 0);
      var second := WriteAppData(BLOCKING, first.1, stream, 100, 0);
      var third := WriteAppData(BLOCKING, second.1, stream, 513, 0);
      && first.0 == -1 && second.0 == -1 && third.0 == 513
      && AppBytes(third.1.history) == stream + stream[1..]
  {
    hide WriteAppData, Plaintexts, Inv;
    BlockedWrite(stream);
    var first := WriteAppData(BLOCKING, Fresh(), stream, 513, 0);
    WholeStream(stream);
    NothingYet(stream);
    WriteAppDataKeeps(BLOCKING, Fresh(), stream, 0, 513, 0);
    IsOk(BLOCKING, first.1);
    ForgottenBytesAreSealedTwice(BLOCKING, first.1, stream, 0, 100, 513, 0);
    FullRetry(first.1, stream);
  }

  lemma WholeStream(stream: seq<byte>)
    requires |stream| == 513
    ensures stream[0..513] == stream && stream[..513] == stream && stream[1..513] == stream[1..]
  {
  }

  lemma FullRetry(c: Conn, stream: seq<byte>)
    requires |stream| == 513 && Ok(c) && c.wnum == 512 && c.pending && c.pendTot == 1 && c.pendType == APPLICATION_DATA
    requires c.clock == 2 && c.flight.None? && !c.shutdown
    ensures
      var second := WriteAppData(BLOCKING, c, stream, 100, 0);
      second.0 == -1 && WriteAppData(BLOCKING, second.1, stream, 513, 0).0 == 513
  {
    hide WriteLoop;
    RetriedWriteCompletes(BLOCKING, c.(wnum := 0), stream, 0);
  }

  lemma NothingYet(stream: seq<byte>)
    ensures Inv(BLOCKING, Fresh()) && SealedUpTo(Fresh(), stream, 0)
  {
  }
}
