/**
 The client's handshake as it runs (ssl/handshake_client.cc, ssl_run_handshake in
 ssl/handshake.cc): transitions that write the fields of the handshake and report what
 they wait for, and the loops that call them. Each transition is its function in
 HandshakeClient.
 */
module HandshakeClientLoop {
  import opened Fragments
  import opened HandshakeFlow
  import Spec = HandshakeClient
  import opened HandshakeClientRuns

  type State = Spec.State
  type Env = Spec.Env
  type Machine = Spec.Machine

  class ClientHandshake {
    const env: (nat, Machine) -> Env
    const dtls: bool
    var state: State
    var wait: Wait
    var session: bool
    var earlyOffered: bool
    var certRequest: bool
    var terms: Spec.Terms
    var clock: nat
    ghost var trace: Trace
    ghost var modern: bool

    /** The handshake's fields, with w as what it waits for. */
    function Hs(w: Wait): Machine
      reads `state, `session, `earlyOffered, `certRequest, `terms
    {
      Spec.Machine(state, w, dtls, session, earlyOffered, certRequest, terms)
    }

    ghost function Value(w: Wait): Conn
      reads this
    {
      Conn(Hs(w), trace, modern, clock)
    }

    /** The fields and the messages since the start of the call are those of the outcome. */
    twostate predicate Performed(o: Spec.Outcome, w: Wait)
      reads `state, `session, `earlyOffered, `certRequest, `terms, `trace
    {
      Hs(w) == o.next && trace == old(trace) + o.items
    }

    /** The messages so far are a first part of one handshake, of the kind the session says. */
    ghost predicate Valid()
      reads this
    {
      Inv(Value(wait))
    }

    constructor (env: (nat, Machine) -> Env, dtls: bool, session: bool)
      ensures this.env == env && wait == Ok && Value(Ok) == Connect(dtls, session)
      ensures Valid()
    {
      this.env, this.dtls, this.session := env, dtls, session;
      state, wait, earlyOffered, certRequest := Spec.StartConnect, Ok, false, false;
      terms := Spec.Terms(false, false, false, false, false, false);
      clock, trace, modern := 0, [], false;
      new;
      StartTraced(Value(Ok));
    }

    /** A message, or a change of keys, that this call sends or accepts. */
    ghost method Note(p: Party, m: Message)
      modifies `trace
      ensures trace == old(trace) + [Item(p, m)]
    {
      trace := trace + [Item(p, m)];
    }

    method DoStartConnect(e: Env) returns (w: Wait)
      requires state.StartConnect?
      modifies `state, `session, `earlyOffered, `trace
      ensures Performed(Spec.DoStartConnect(old(Hs(Ok)), e), w)
    {
      if !e.ok { return Error; }
      session := session && e.sessionUsable;
      earlyOffered := e.earlyOffered;
      Note(Client, ClientHello);
      state := Spec.EnterEarlyData;
      return Flush;
    }

    method DoEnterEarlyData(e: Env) returns (w: Wait)
      requires state.EnterEarlyData?
      modifies `state, `trace
      ensures Performed(Spec.DoEnterEarlyData(old(Hs(Ok)), e), w)
    {
      if dtls {
        state := Spec.ReadHelloVerifyRequest;
        return Ok;
      }
      if !earlyOffered {
        state := Spec.ReadServerHello;
        return Ok;
      }
      if !e.ok { return Error; }
      Note(Client, EarlyChangeCipherSpec);
      state := Spec.ReadServerHello;
      return EarlyReturn;
    }

    method DoReadHelloVerifyRequest(e: Env) returns (w: Wait)
      requires state.ReadHelloVerifyRequest?
      modifies `state, `trace
      ensures Performed(Spec.DoReadHelloVerifyRequest(old(Hs(Ok)), e), w)
    {
      if e.message.None? { return ReadMessage; }
      if !e.message.value.HelloVerifyRequest? {
        state := Spec.ReadServerHello;
        return Ok;
      }
      if !e.ok { return Error; }
      Note(Server, HelloVerifyRequest);
      Note(Client, RepeatedClientHello);
      state := Spec.ReadServerHello;
      return Flush;
    }

    method DoReadServerHello(e: Env) returns (w: Wait)
      requires state.ReadServerHello?
      modifies `state, `session, `terms, `trace
      ensures Performed(Spec.DoReadServerHello(old(Hs(Ok)), e), w)
    {
      if e.message.None? { return ReadMessage; }
      if !e.message.value.ServerHello? || !e.ok { return Error; }
      if e.tls13 {
        state := Spec.Tls13;
        return Ok;
      }
      if earlyOffered { return Error; }
      Note(Server, ServerHello);
      terms := e.terms;
      if session && e.sameSession {
        state := Spec.ReadSessionTicket;
        return Ok;
      }
      session := false;
      state := Spec.ReadServerCertificate;
      return Ok;
    }

    method DoTls13(e: Env) returns (w: Wait)
      requires state.Tls13?
      modifies `state
      ensures Performed(Spec.DoTls13(old(Hs(Ok)), e), w)
    {
      if e.retry { return Callback; }
      if !e.ok { return Error; }
      state := Spec.FinishClientHandshake;
      return Ok;
    }

    method DoReadServerCertificate(e: Env) returns (w: Wait)
      requires state.ReadServerCertificate?
      modifies `state, `trace
      ensures Performed(Spec.DoReadServerCertificate(old(Hs(Ok)), e), w)
    {
      if terms.certAuth {
        if e.message.None? { return ReadMessage; }
        if !e.message.value.Certificate? || !e.ok { return Error; }
        Note(Server, Certificate);
      }
      state := Spec.ReadCertificateStatus;
      return Ok;
    }

    method DoReadCertificateStatus(e: Env) returns (w: Wait)
      requires state.ReadCertificateStatus?
      modifies `state, `trace
      ensures Performed(Spec.DoReadCertificateStatus(old(Hs(Ok)), e), w)
    {
      if terms.statusExpected {
        if e.message.None? { return ReadMessage; }
        if e.message.value.CertificateStatus? {
          if !e.ok { return Error; }
          Note(Server, CertificateStatus);
        }
      }
      state := Spec.VerifyServerCertificate;
      return Ok;
    }

    method DoVerifyServerCertificate(e: Env) returns (w: Wait)
      requires state.VerifyServerCertificate?
      modifies `state
      ensures Performed(Spec.DoVerifyServerCertificate(old(Hs(Ok)), e), w)
    {
      if terms.certAuth {
        if e.retry { return Callback; }
        if !e.ok { return Error; }
      }
      state := Spec.ReadServerKeyExchange;
      return Ok;
    }

    method DoReadServerKeyExchange(e: Env) returns (w: Wait)
      requires state.ReadServerKeyExchange?
      modifies `state, `trace
      ensures Performed(Spec.DoReadServerKeyExchange(old(Hs(Ok)), e), w)
    {
      if e.message.None? { return ReadMessage; }
      if e.message.value.ServerKeyExchange? {
        if !e.ok { return Error; }
        Note(Server, ServerKeyExchange);
      } else if terms.needsKeyExchange {
        return Error;
      }
      state := Spec.ReadCertificateRequest;
      return Ok;
    }

    method DoReadCertificateRequest(e: Env) returns (w: Wait)
      requires state.ReadCertificateRequest?
      modifies `state, `certRequest, `trace
      ensures Performed(Spec.DoReadCertificateRequest(old(Hs(Ok)), e), w)
    {
      if terms.certAuth {
        if e.message.None? { return ReadMessage; }
        if !e.message.value.ServerHelloDone? {
          if !e.message.value.CertificateRequest? || !e.ok { return Error; }
          certRequest := true;
          Note(Server, CertificateRequest);
        }
      }
      state := Spec.ReadServerHelloDone;
      return Ok;
    }

    method DoReadServerHelloDone(e: Env) returns (w: Wait)
      requires state.ReadServerHelloDone?
      modifies `state, `trace
      ensures Performed(Spec.DoReadServerHelloDone(old(Hs(Ok)), e), w)
    {
      if e.message.None? { return ReadMessage; }
      if !e.message.value.ServerHelloDone? || !e.ok { return Error; }
      Note(Server, ServerHelloDone);
      state := Spec.SendClientCertificate;
      return Ok;
    }

    method DoSendClientCertificate(e: Env) returns (w: Wait)
      requires state.SendClientCertificate?
      modifies `state, `trace
      ensures Performed(Spec.DoSendClientCertificate(old(Hs(Ok)), e), w)
    {
      if certRequest {
        if e.retry { return Callback; }
        if !e.ok { return Error; }
        if e.hasCertificate || !e.ssl3 {
          Note(Client, Certificate);
        }
      }
      state := Spec.SendClientKeyExchange;
      return Ok;
    }

    method DoSendClientKeyExchange(e: Env) returns (w: Wait)
      requires state.SendClientKeyExchange?
      modifies `state, `trace
      ensures Performed(Spec.DoSendClientKeyExchange(old(Hs(Ok)), e), w)
    {
      if !e.ok { return Error; }
      Note(Client, ClientKeyExchange);
      state := Spec.SendClientCertificateVerify;
      return Ok;
    }

    method DoSendClientCertificateVerify(e: Env) returns (w: Wait)
      requires state.SendClientCertificateVerify?
      modifies `state, `trace
      ensures Performed(Spec.DoSendClientCertificateVerify(old(Hs(Ok)), e), w)
    {
      if certRequest && e.hasCertificate {
        if !e.ok { return Error; }
        if e.retry { return Callback; }
        Note(Client, CertificateVerify);
      }
      state := Spec.SendClientFinished;
      return Ok;
    }

    /** The channel ID is looked up before anything is sent. */
    method DoSendClientFinished(e: Env) returns (w: Wait)
      requires state.SendClientFinished?
      modifies `state, `trace
      ensures Performed(Spec.DoSendClientFinished(old(Hs(Ok)), e), w)
    {
      if !e.ok { return Error; }
      if terms.channelId && e.retry { return Callback; }
      Note(Client, ChangeCipherSpec);
      Note(Client, CipherChange);
      if terms.nextProto {
        Note(Client, NextProto);
      }
      if terms.channelId {
        Note(Client, ChannelId);
      }
      Note(Client, Finished);
      assert trace == old(trace) + Spec.FinishItems(terms) by {
        hide Spec.DoSendClientFinished;
      }
      state := Spec.FinishFlight;
      hide Spec.FinishItems;
      return Flush;
    }

    method DoFinishFlight(e: Env) returns (w: Wait)
      requires state.FinishFlight?
      modifies `state
      ensures Performed(Spec.DoFinishFlight(old(Hs(Ok)), e), w)
    {
      if session {
        state := Spec.FinishClientHandshake;
        return Ok;
      }
      if !e.ok { return Error; }
      state := Spec.ReadSessionTicket;
      return if e.falseStart then EarlyReturn else Ok;
    }

    method DoReadSessionTicket(e: Env) returns (w: Wait)
      requires state.ReadSessionTicket?
      modifies `state, `trace
      ensures Performed(Spec.DoReadSessionTicket(old(Hs(Ok)), e), w)
    {
      if terms.ticketExpected {
        if e.message.None? { return ReadMessage; }
        if !e.message.value.NewSessionTicket? || !e.ok { return Error; }
        Note(Server, NewSessionTicket);
      }
      state := Spec.ProcessChangeCipherSpec;
      return ReadChangeCipherSpec;
    }

    method DoProcessChangeCipherSpec(e: Env) returns (w: Wait)
      requires state.ProcessChangeCipherSpec?
      modifies `state, `trace
      ensures Performed(Spec.DoProcessChangeCipherSpec(old(Hs(Ok)), e), w)
    {
      if !e.ok { return Error; }
      Note(Server, CipherChange);
      state := Spec.ReadServerFinished;
      return Ok;
    }

    method DoReadServerFinished(e: Env) returns (w: Wait)
      requires state.ReadServerFinished?
      modifies `state, `trace
      ensures Performed(Spec.DoReadServerFinished(old(Hs(Ok)), e), w)
    {
      if e.message.None? { return ReadMessage; }
      if !e.message.value.Finished? || !e.ok { return Error; }
      Note(Server, Finished);
      state := if session then Spec.SendClientFinished else Spec.FinishClientHandshake;
      return Ok;
    }

    method DoFinishClientHandshake(e: Env) returns (w: Wait)
      requires state.FinishClientHandshake?
      modifies `state
      ensures Performed(Spec.DoFinishClientHandshake(old(Hs(Ok)), e), w)
    {
      if !e.ok { return Error; }
      state := Spec.Done;
      return Ok;
    }

    /** The switch in the loop of ssl_client_handshake. */
    method Switch(e: Env) returns (w: Wait)
      requires !state.Done?
      modifies `state, `session, `earlyOffered, `certRequest, `terms, `trace
      ensures Performed(Spec.Step(old(Hs(Ok)), e), w)
    {
      match state {
        case StartConnect => w := DoStartConnect(e);
        case EnterEarlyData => w := DoEnterEarlyData(e);
        case ReadHelloVerifyRequest => w := DoReadHelloVerifyRequest(e);
        case ReadServerHello => w := DoReadServerHello(e);
        case Tls13 => w := DoTls13(e);
        case ReadServerCertificate => w := DoReadServerCertificate(e);
        case ReadCertificateStatus => w := DoReadCertificateStatus(e);
        case VerifyServerCertificate => w := DoVerifyServerCertificate(e);
        case ReadServerKeyExchange => w := DoReadServerKeyExchange(e);
        case ReadCertificateRequest => w := DoReadCertificateRequest(e);
        case ReadServerHelloDone => w := DoReadServerHelloDone(e);
        case SendClientCertificate => w := DoSendClientCertificate(e);
        case SendClientKeyExchange => w := DoSendClientKeyExchange(e);
        case SendClientCertificateVerify => w := DoSendClientCertificateVerify(e);
        case SendClientFinished => w := DoSendClientFinished(e);
        case FinishFlight => w := DoFinishFlight(e);
        case ReadSessionTicket => w := DoReadSessionTicket(e);
        case ProcessChangeCipherSpec => w := DoProcessChangeCipherSpec(e);
        case ReadServerFinished => w := DoReadServerFinished(e);
        case FinishClientHandshake => w := DoFinishClientHandshake(e);
      }
    }

    /** One turn of the loop: a transition, and what it means for the handshake. */
    method Transition(e: Env) returns (w: Wait)
      requires !state.Done?
      modifies `state, `session, `earlyOffered, `certRequest, `terms, `trace
      ensures MovesOn(old(Value(Ok)), Value(w))
      ensures Performed(Spec.Step(old(Hs(Ok)), e), w)
    {
      hide Spec.Step, MovesOn;
      ghost var before := Value(Ok);
      w := Switch(e);
      StepMovesOn(before, e, Value(w));
    }

    /** ssl_client_handshake. */
    method Handshake() returns (w: Wait)
      modifies `state, `session, `earlyOffered, `certRequest, `terms, `trace, `modern, `clock
      ensures Value(w) == Drive(env, old(Value(Ok)))
      ensures w.Ok? ==> state.Done?
      ensures old(Inv(Value(Ok))) ==> Inv(Value(w))
    {
      hide Spec.Step, Spec.Rank, Drive, Inv, Fits;
      ghost var start := Value(Ok);
      while !state.Done?
        invariant Drive(env, Value(Ok)) == Drive(env, start)
        decreases Spec.Rank(state, session)
      {
        DriveTurn(env, Value(Ok));
        w := Transition(env(clock, Hs(Ok)));
        modern := modern || state.Tls13?;
        clock := clock + 1;
        if !w.Ok? {
          StartKept(start);
          return;
        }
      }
      DriveTurn(env, Value(Ok));
      StartKept(start);
      return Ok;
    }

    lemma StartKept(start: Conn)
      requires start.machine.wait.Ok?
      ensures Inv(start) ==> Inv(Drive(env, start))
    {
      hide Inv, Drive;
      if Inv(start) {
        DriveKeeps(env, start);
      }
    }

    /** One round of ssl_run_handshake; `io` tells whether the transport lets the wait end. */
    method RunHandshakeOnce(io: bool)
      requires Valid()
      modifies this
      ensures Valid()
      ensures OneHandshake(Value(wait))
      ensures Value(wait) == Turn(env, old(Value(wait)), io)
    {
      hide Drive, Inv, OneHandshake;
      TurnKeeps(env, Value(wait), io);
      FinishedInOrder(Turn(env, Value(wait), io));
      match wait {
        case Error => return;
        case EarlyReturn =>
          wait := Ok;
          return;
        case Callback =>
          wait := Ok;
          return;
        case Ok =>
        case ReadChangeCipherSpec =>
          if !io {
            return;
          }
          Note(Server, ChangeCipherSpec);
        case _ =>
          if !io {
            return;
          }
      }
      wait := Handshake();
    }
  }
}
