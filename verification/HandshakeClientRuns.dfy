/**
 Every run of the client's handshake: the loops of ssl_client_handshake and
 ssl_run_handshake, and the order of messages they can produce.
 */
module HandshakeClientRuns {
  import opened Fragments
  import opened HandshakeFlow
  import opened HandshakeClient

  /** `modern` says that the connection went through the TLS 1.3 machine. */
  datatype Conn = Conn(machine: Machine, trace: Trace, modern: bool, clock: nat)

  function Connect(dtls: bool, session: bool): Conn {
    Conn(Machine(StartConnect, Ok, dtls, session, false, false, Terms(false, false, false, false, false, false)),
         [], false, 0)
  }

  function After(c: Conn, o: Outcome): Conn {
    Conn(o.next, c.trace + o.items, c.modern || o.next.state.Tls13?, c.clock + 1)
  }

  /** ssl_client_handshake: transitions until one has to wait or the handshake is done. */
  function Drive(env: (nat, Machine) -> Env, c: Conn): (d: Conn)
    requires c.machine.wait.Ok?
    ensures d.machine.wait.Ok? ==> d.machine.state.Done?
    decreases Rank(c.machine.state, c.machine.session)
  {
    if c.machine.state.Done? then c
    else
      var d := After(c, Step(c.machine, env(c.clock, c.machine)));
      if d.machine.wait.Ok? then Drive(env, d) else d
  }

  lemma DriveTurn(env: (nat, Machine) -> Env, c: Conn)
    requires c.machine.wait.Ok?
    ensures Drive(env, c) ==
      if c.machine.state.Done? then c
      else
        var d := After(c, Step(c.machine, env(c.clock, c.machine)));
        if d.machine.wait.Ok? then Drive(env, d) else d
  {
    hide Step;
  }

  /** One round of ssl_run_handshake: resolve what the handshake waits for, then drive it. */
  function Turn(env: (nat, Machine) -> Env, c: Conn, io: bool): Conn {
    var go := c.(machine := c.machine.(wait := Ok));
    match c.machine.wait
    case Error => c
    case Flush => if io then Drive(env, go) else c
    case ReadMessage => if io then Drive(env, go) else c
    case ReadChangeCipherSpec =>
      if io then Drive(env, go.(trace := c.trace + [Item(Server, ChangeCipherSpec)])) else c
    case EarlyReturn => go
    case Callback => go
    case Ok => Drive(env, c)
  }

  function Run(env: (nat, Machine) -> Env, c: Conn, io: seq<bool>): Conn
    decreases |io|
  {
    if io == [] then c else Run(env, Turn(env, c, io[0]), io[1..])
  }

  // ----- every run

  /** The messages so far are a handshake up to the state's place. */
  ghost predicate Traced(c: Conn) {
    && Sound(c.machine) && !c.machine.state.Tls13?
    && UpTo(c.machine.session, c.trace, At(c.machine))
    && (Item(Client, EarlyChangeCipherSpec) in c.trace ==> c.machine.earlyOffered)
  }

  ghost predicate Inv(c: Conn) {
    c.machine.wait.Error? || c.modern || Traced(c)
  }

  /**
     From c to d a transition got closer to the end, unless it waits where it was, and the
     messages it sent or accepted are just what a handshake has between the two states.
   */
  ghost predicate MovesOn(c: Conn, d: Conn) {
    && (d.machine.wait.Ok? || d.machine.state != c.machine.state ==>
          Rank(d.machine.state, d.machine.session) < Rank(c.machine.state, c.machine.session))
    && c.trace <= d.trace
    && (Sound(c.machine) && !d.machine.wait.Error? && !d.machine.state.Tls13? && !c.machine.state.Tls13? ==>
          && Sound(d.machine)
          && Fits(d.machine.session, At(c.machine), d.trace[|c.trace|..], At(d.machine)))
  }

  lemma StepMovesOn(c: Conn, e: Env, d: Conn)
    requires !c.machine.state.Done? && c.machine.wait.Ok?
    requires d.machine == Step(c.machine, e).next && d.trace == c.trace + Step(c.machine, e).items
    ensures MovesOn(c, d)
  {
    hide Step, Sound, At, Rank, Fits;
    assert Advances(c.machine, Step(c.machine, e));
    assert d.trace[|c.trace|..] == Step(c.machine, e).items;
  }

  lemma AtIsSmall(m: Machine)
    ensures At(m) < NOWHERE
    ensures BeforeHello(m.state) ==> At(m) <= 4
  {
  }

  lemma OnlyEarly(m: Machine, e: Env)
    requires !m.state.Done? && Sound(m) && m.wait.Ok?
    ensures
      var o := Step(m, e);
      o.next.wait.Error? || o.next.state.Tls13? ||
      ((m.earlyOffered && !m.state.StartConnect? ==> o.next.earlyOffered)
       && (Item(Client, EarlyChangeCipherSpec) in o.items ==> o.next.earlyOffered))
  {
    hide Progress, Rank, Fits, Place, At, Advances;
  }

  lemma StepKeeps(c: Conn, e: Env)
    requires Traced(c) && c.machine.wait.Ok? && !c.machine.state.Done?
    ensures Inv(After(c, Step(c.machine, e)))
  {
    hide Progress, Rank, Fits, UpTo, Place, At, Step;
    var m := c.machine;
    var o := Step(m, e);
    if !o.next.wait.Error? && !o.next.state.Tls13? {
      AtIsSmall(m);
      AtIsSmall(o.next);
      if BeforeHello(m.state) {
        HelloIsCommon(m.session, o.next.session, c.trace, At(m));
      }
      GoOn(o.next.session, c.trace, At(m), o.items, At(o.next));
      OnlyEarly(m, e);
      if m.state.StartConnect? {
        NothingYet(c);
      }
    }
  }

  lemma NothingYet(c: Conn)
    requires Traced(c) && c.machine.state.StartConnect?
    ensures c.trace == []
  {
    assert At(c.machine) == 0;
    assert |c.trace| > 0 ==> Place(c.machine.session, c.trace[0]) < 0;
  }

  lemma {:induction false} DriveKeeps(env: (nat, Machine) -> Env, c: Conn)
    requires Inv(c) && c.machine.wait.Ok?
    ensures Inv(Drive(env, c))
    ensures c.modern ==> Drive(env, c).modern
    decreases Rank(c.machine.state, c.machine.session)
  {
    hide Traced, Step, Rank;
    if !c.machine.state.Done? {
      var d := After(c, Step(c.machine, env(c.clock, c.machine)));
      if !c.modern {
        StepKeeps(c, env(c.clock, c.machine));
      }
      if d.machine.wait.Ok? {
        DriveKeeps(env, d);
      }
    }
  }

  /** The record that a wait for ChangeCipherSpec is resolved with takes its place in the flow. */
  lemma CcsKeeps(c: Conn)
    requires Traced(c) && c.machine.wait.ReadChangeCipherSpec?
    ensures Traced(c.(machine := c.machine.(wait := Ok), trace := c.trace + [Item(Server, ChangeCipherSpec)]))
  {
    hide UpTo, Progress, Rank;
    var k := if c.machine.session then 6 else 19;
    FitsSimply(c.machine.session, k, [Item(Server, ChangeCipherSpec)], k + 1);
    GoOn(c.machine.session, c.trace, k, [Item(Server, ChangeCipherSpec)], k + 1);
  }

  lemma ResumeKeeps(c: Conn)
    requires Traced(c) && !c.machine.wait.ReadChangeCipherSpec?
    ensures Traced(c.(machine := c.machine.(wait := Ok)))
  {
    hide UpTo;
  }

  lemma TurnKeeps(env: (nat, Machine) -> Env, c: Conn, io: bool)
    requires Inv(c)
    ensures Inv(Turn(env, c, io))
  {
    hide Traced, Drive;
    var go := c.(machine := c.machine.(wait := Ok));
    if !c.machine.wait.Error? {
      if c.machine.wait.ReadChangeCipherSpec? {
        if io {
          if !c.modern { CcsKeeps(c); }
          DriveKeeps(env, go.(trace := c.trace + [Item(Server, ChangeCipherSpec)]));
        }
      } else {
        if !c.modern { ResumeKeeps(c); }
        DriveKeeps(env, go);
      }
    }
  }

  lemma {:induction false} RunKeeps(env: (nat, Machine) -> Env, c: Conn, io: seq<bool>)
    requires Inv(c)
    ensures Inv(Run(env, c, io))
    decreases |io|
  {
    hide Inv, Turn;
    if io != [] {
      TurnKeeps(env, c, io[0]);
      RunKeeps(env, Turn(env, c, io[0]), io[1..]);
    }
  }

  /** A finished handshake, TLS 1.3 apart, is one complete handshake with its key messages in order. */
  ghost predicate OneHandshake(c: Conn) {
    c.machine.state.Done? && c.machine.wait.Ok? && !c.modern ==>
      var r := c.machine.session;
      && Complete(r, c.trace)
      && Keys(c.trace) == (if r then KeyFlight(Server) + KeyFlight(Client) else KeyFlight(Client) + KeyFlight(Server))
  }

  lemma FinishedInOrder(c: Conn)
    requires Inv(c)
    ensures OneHandshake(c)
  {
    hide Keys, Required, Place;
    if c.machine.state.Done? && c.machine.wait.Ok? && !c.modern {
      KeyOrder(c.machine.session, c.trace);
    }
  }

  /**
     Whatever the peer, the application and the transport do, a client that finishes
     without TLS 1.3 has been through one complete handshake of the kind that its session
     says; so it sent its Finished once and accepted the server's once, each under the new
     keys, and the server's came first exactly when the session was resumed.
   */
  lemma ClientOrder(env: (nat, Machine) -> Env, dtls: bool, session: bool, io: seq<bool>)
    ensures OneHandshake(Run(env, Connect(dtls, session), io))
  {
    hide Run, OneHandshake;
    StartTraced(Connect(dtls, session));
    RunKeeps(env, Connect(dtls, session), io);
    FinishedInOrder(Run(env, Connect(dtls, session), io));
  }

  lemma StartTraced(c: Conn)
    requires c.machine.state.StartConnect? && c.machine.wait.Ok? && !c.machine.earlyOffered && c.trace == []
    ensures Traced(c)
  {
  }

  // ----- a cooperative peer

  /** The messages that the state accepts, an optional one or what may come in its place. */
  predicate Welcome(m: Machine, message: Message) {
    match m.state
    case ReadServerHello => message.ServerHello?
    case ReadServerCertificate => m.terms.certAuth ==> message.Certificate?
    case ReadServerKeyExchange => m.terms.needsKeyExchange ==> message.ServerKeyExchange?
    case ReadCertificateRequest => m.terms.certAuth ==> message.CertificateRequest? || message.ServerHelloDone?
    case ReadServerHelloDone => message.ServerHelloDone?
    case ReadSessionTicket => m.terms.ticketExpected ==> message.NewSessionTicket?
    case ReadServerFinished => message.Finished?
    case _ => true
  }

  /** The next message is there and acceptable, nothing fails, and the version is not 1.3. */
  predicate Cooperative(m: Machine, e: Env) {
    e.ok && !e.retry && !e.tls13 && !e.earlyOffered && e.message.Some? && Welcome(m, e.message.value)
  }

  predicate OnTrack(m: Machine) {
    && !m.earlyOffered && !m.state.Tls13?
    && (m.wait.Ok? || m.wait.Flush? || m.wait.EarlyReturn? || m.wait.ReadChangeCipherSpec?)
    && (m.state.Done? ==> m.wait.Ok?)
  }

  lemma StartCooperates(m: Machine, e: Env)
    requires OnTrack(m) && m.wait.Ok? && !m.state.Done? && Cooperative(m, e)
    requires BeforeHello(m.state)
    ensures OnTrack(Step(m, e).next) && Step(m, e).next.state != m.state
  {
    hide Advances, Progress, Rank, Fits, At;
  }

  lemma KeyExchangeCooperates(m: Machine, e: Env)
    requires OnTrack(m) && m.wait.Ok? && !m.state.Done? && Cooperative(m, e)
    requires InKeyExchange(m.state)
    ensures OnTrack(Step(m, e).next) && Step(m, e).next.state != m.state
  {
    hide Advances, Progress, Rank, Fits, At;
  }

  lemma FlightsCooperate(m: Machine, e: Env)
    requires OnTrack(m) && m.wait.Ok? && !m.state.Done? && Cooperative(m, e)
    requires !BeforeHello(m.state) && !InKeyExchange(m.state)
    ensures OnTrack(Step(m, e).next) && Step(m, e).next.state != m.state
  {
    hide Advances, Progress, Rank, Fits, At;
  }

  lemma StepCooperates(m: Machine, e: Env)
    requires OnTrack(m) && m.wait.Ok? && !m.state.Done? && Cooperative(m, e)
    ensures
      var d := Step(m, e).next;
      OnTrack(d) && Rank(d.state, d.session) < Rank(m.state, m.session)
  {
    hide Step, Rank, OnTrack, Cooperative, Fits, At;
    if BeforeHello(m.state) {
      StartCooperates(m, e);
    } else if InKeyExchange(m.state) {
      KeyExchangeCooperates(m, e);
    } else {
      FlightsCooperate(m, e);
    }
    assert Advances(m, Step(m, e));
  }

  lemma {:induction false} DriveCooperates(env: (nat, Machine) -> Env, c: Conn)
    requires OnTrack(c.machine) && c.machine.wait.Ok? && !c.modern
    requires forall k, m :: Cooperative(m, env(k, m))
    ensures
      var d := Drive(env, c);
      && OnTrack(d.machine) && !d.modern
      && (c.machine.state.Done? ||
          Rank(d.machine.state, d.machine.session) < Rank(c.machine.state, c.machine.session))
    decreases Rank(c.machine.state, c.machine.session)
  {
    hide Step, Rank, OnTrack;
    if !c.machine.state.Done? {
      StepCooperates(c.machine, env(c.clock, c.machine));
      var d := After(c, Step(c.machine, env(c.clock, c.machine)));
      NotModern(d.machine);
      if d.machine.wait.Ok? {
        DriveCooperates(env, d);
      }
    }
  }

  lemma NotModern(m: Machine)
    requires OnTrack(m)
    ensures !m.state.Tls13?
  {
  }

  /** What is left: a turn that only ends an early return counts half a state. */
  function Left(m: Machine): nat {
    2 * Rank(m.state, m.session) + if m.wait.EarlyReturn? then 1 else 0
  }

  lemma TurnCooperates(env: (nat, Machine) -> Env, c: Conn)
    requires OnTrack(c.machine) && !c.modern && forall k, m :: Cooperative(m, env(k, m))
    ensures
      var d := Turn(env, c, true);
      && OnTrack(d.machine) && !d.modern && (c.machine.state.Done? || Left(d.machine) < Left(c.machine))
  {
    hide Drive, Rank;
    var go := c.(machine := c.machine.(wait := Ok));
    DriveCooperates(env, go);
    DriveCooperates(env, go.(trace := c.trace + [Item(Server, ChangeCipherSpec)]));
  }

  lemma {:induction false} DoneStays(env: (nat, Machine) -> Env, c: Conn, io: seq<bool>)
    requires c.machine.state.Done? && c.machine.wait.Ok?
    ensures Run(env, c, io) == c
    decreases |io|
  {
    if io != [] {
      assert Turn(env, c, io[0]) == c;
      DoneStays(env, c, io[1..]);
    }
  }

  /** With a cooperative peer and a working transport every handshake completes, within Left turns. */
  lemma {:induction false} CooperationCompletes(env: (nat, Machine) -> Env, c: Conn, io: seq<bool>)
    requires OnTrack(c.machine) && !c.modern && forall k, m :: Cooperative(m, env(k, m))
    requires |io| > Left(c.machine) && forall i :: 0 <= i < |io| ==> io[i]
    ensures
      var d := Run(env, c, io);
      d.machine.state.Done? && d.machine.wait.Ok? && !d.modern
    decreases |io|
  {
    hide Turn, Drive, Rank;
    TurnCooperates(env, c);
    var d := Turn(env, c, io[0]);
    if c.machine.state.Done? {
      DoneStays(env, c, io);
    } else {
      CooperationCompletes(env, d, io[1..]);
    }
  }
}
