/**
 The server's handshake as it runs (ssl/handshake_server.cc, ssl_run_handshake in
 ssl/handshake.cc): transitions that write the fields of the handshake and report what
 they wait for, and the loops that call them. Each transition is its function in
 HandshakeServer.
 */
module HandshakeServerLoop {
  import opened Fragments
  import opened HandshakeFlow
  import Spec = HandshakeServer
  import opened HandshakeServerRuns

  type State = Spec.State
  type Env = Spec.Env
  type Machine = Spec.Machine

  class ServerHandshake {
    const env: (nat, Machine) -> Env
    var state: State
    var wait: Wait
    var session: bool
    var certRequest: bool
    var parameters: bool
    var peerKey: bool
    var terms: Spec.Terms
    var clock: nat
    ghost var trace: Trace
    ghost var modern: bool

    /** The handshake's fields, with w as what it waits for. */
    function Hs(w: Wait): Machine
      reads `state, `session, `certRequest, `parameters, `peerKey, `terms
    {
      Spec.Machine(state, w, session, certRequest, parameters, peerKey, terms)
    }

    ghost function Value(w: Wait): Conn
      reads this
    {
      Conn(Hs(w), trace, modern, clock)
    }

    /** The fields and the messages since the start of the call are those of the outcome. */
    twostate predicate Performed(o: Spec.Outcome, w: Wait)
      reads `state, `session, `certRequest, `parameters, `peerKey, `terms, `trace
    {
      Hs(w) == o.next && trace == old(trace) + o.items
    }

    /** The messages so far are a first part of one handshake, of the kind the session says. */
    ghost predicate Valid()
      reads this
    {
      Inv(Value(wait))
    }

    constructor (env: (nat, Machine) -> Env)
      ensures this.env == env && wait == Ok && Value(Ok) == Accept()
      ensures Valid()
    {
      this.env := env;
      state, wait, session, certRequest, parameters, peerKey := Spec.StartAccept, Ok, false, false, false, false;
      terms := Spec.Terms(false, false, false, false, false);
      clock, trace, modern := 0, [], false;
      new;
      StartTraced(Value(Ok));
    }

    /** A message, or a change of keys, that this call sends or accepts. */
    ghost method Note(p: Party, m: Message)
      modifies `trace
      ensures trace == old(trace) + [Item(p, m)]
    {
      trace := trace + [Item(p, m)];
    }

    method DoStartAccept(e: Env) returns (w: Wait)
      requires state.StartAccept?
      modifies `state
      ensures Performed(Spec.DoStartAccept(old(Hs(Ok)), e), w)
    {
      state := Spec.ReadClientHello;
      return Ok;
    }

    method DoReadClientHello(e: Env) returns (w: Wait)
      requires state.ReadClientHello?
      modifies `state
      ensures Performed(Spec.DoReadClientHello(old(Hs(Ok)), e), w)
    {
      if e.message.None? { return ReadMessage; }
      if !e.message.value.ClientHello? { return Error; }
      if e.retry { return Callback; }
      if !e.ok { return Error; }
      state := Spec.SelectCertificate;
      return Ok;
    }

    method DoSelectCertificate(e: Env) returns (w: Wait)
      requires state.SelectCertificate?
      modifies `state
      ensures Performed(Spec.DoSelectCertificate(old(Hs(Ok)), e), w)
    {
      if e.message.None? { return ReadMessage; }
      if e.retry { return Callback; }
      if !e.ok { return Error; }
      state := if e.tls13 then Spec.Tls13 else Spec.SelectParameters;
      return Ok;
    }

    method DoTls13(e: Env) returns (w: Wait)
      requires state.Tls13?
      modifies `state
      ensures Performed(Spec.DoTls13(old(Hs(Ok)), e), w)
    {
      if e.retry { return Callback; }
      if !e.ok { return Error; }
      state := Spec.FinishServerHandshake;
      return Ok;
    }

    /** The session is looked up, and with it the kind of the handshake is settled. */
    method DoSelectParameters(e: Env) returns (w: Wait)
      requires state.SelectParameters?
      modifies `state, `session, `certRequest, `terms, `trace
      ensures Performed(Spec.DoSelectParameters(old(Hs(Ok)), e), w)
    {
      if e.message.None? { return ReadMessage; }
      if e.retry { return Callback; }
      if !e.ok { return Error; }
      session := e.sessionFound;
      if !session {
        certRequest := e.requestCertificate && e.terms.certAuth;
      }
      terms := e.terms;
      Note(Client, ClientHello);
      state := Spec.SendServerHello;
      return Ok;
    }

    method DoSendServerHello(e: Env) returns (w: Wait)
      requires state.SendServerHello?
      modifies `state, `terms, `trace
      ensures Performed(Spec.DoSendServerHello(old(Hs(Ok)), e), w)
    {
      if !e.ok { return Error; }
      if e.dropChannelId {
        terms := terms.(channelId := false);
      }
      Note(Server, ServerHello);
      state := if session then Spec.SendServerFinished else Spec.SendServerCertificate;
      return Ok;
    }

    method DoSendServerCertificate(e: Env) returns (w: Wait)
      requires state.SendServerCertificate?
      modifies `state, `parameters, `trace
      ensures Performed(Spec.DoSendServerCertificate(old(Hs(Ok)), e), w)
    {
      if !e.ok { return Error; }
      if terms.certAuth {
        Note(Server, Certificate);
        if terms.statusExpected {
          Note(Server, CertificateStatus);
        }
      }
      parameters := e.parameters;
      state := Spec.SendServerKeyExchange;
      return Ok;
    }

    method DoSendServerKeyExchange(e: Env) returns (w: Wait)
      requires state.SendServerKeyExchange?
      modifies `state, `parameters, `trace
      ensures Performed(Spec.DoSendServerKeyExchange(old(Hs(Ok)), e), w)
    {
      if parameters {
        if !e.ok { return Error; }
        if e.retry { return Callback; }
        Note(Server, ServerKeyExchange);
        parameters := false;
      }
      state := Spec.SendServerHelloDone;
      return Ok;
    }

    method DoSendServerHelloDone(e: Env) returns (w: Wait)
      requires state.SendServerHelloDone?
      modifies `state, `trace
      ensures Performed(Spec.DoSendServerHelloDone(old(Hs(Ok)), e), w)
    {
      if !e.ok { return Error; }
      if certRequest {
        Note(Server, CertificateRequest);
      }
      Note(Server, ServerHelloDone);
      state := Spec.ReadClientCertificate;
      return Flush;
    }

    /** In SSL 3.0 a client without a certificate sends no Certificate message. */
    method DoReadClientCertificate(e: Env) returns (w: Wait)
      requires state.ReadClientCertificate?
      modifies `state, `peerKey, `trace
      ensures Performed(Spec.DoReadClientCertificate(old(Hs(Ok)), e), w)
    {
      if certRequest {
        if e.message.None? { return ReadMessage; }
        if !e.ok { return Error; }
        if e.message.value.Certificate? {
          peerKey := e.certificatePresent;
          Note(Client, Certificate);
        } else if !e.ssl3 || !e.message.value.ClientKeyExchange? {
          return Error;
        }
      }
      state := Spec.VerifyClientCertificate;
      return Ok;
    }

    method DoVerifyClientCertificate(e: Env) returns (w: Wait)
      requires state.VerifyClientCertificate?
      modifies `state
      ensures Performed(Spec.DoVerifyClientCertificate(old(Hs(Ok)), e), w)
    {
      if peerKey {
        if e.retry { return Callback; }
        if !e.ok { return Error; }
      }
      state := Spec.ReadClientKeyExchange;
      return Ok;
    }

    method DoReadClientKeyExchange(e: Env) returns (w: Wait)
      requires state.ReadClientKeyExchange?
      modifies `state, `trace
      ensures Performed(Spec.DoReadClientKeyExchange(old(Hs(Ok)), e), w)
    {
      if e.message.None? { return ReadMessage; }
      if !e.message.value.ClientKeyExchange? || !e.ok { return Error; }
      if e.retry { return Callback; }
      Note(Client, ClientKeyExchange);
      state := Spec.ReadClientCertificateVerify;
      return Ok;
    }

    method DoReadClientCertificateVerify(e: Env) returns (w: Wait)
      requires state.ReadClientCertificateVerify?
      modifies `state, `trace
      ensures Performed(Spec.DoReadClientCertificateVerify(old(Hs(Ok)), e), w)
    {
      if peerKey {
        if e.message.None? { return ReadMessage; }
        if !e.message.value.CertificateVerify? || !e.ok { return Error; }
        Note(Client, CertificateVerify);
      }
      state := Spec.ReadChangeCipherSpecRecord;
      return Ok;
    }

    method DoReadChangeCipherSpec(e: Env) returns (w: Wait)
      requires state.ReadChangeCipherSpecRecord?
      modifies `state
      ensures Performed(Spec.DoReadChangeCipherSpec(old(Hs(Ok)), e), w)
    {
      state := Spec.ProcessChangeCipherSpec;
      return ReadChangeCipherSpec;
    }

    method DoProcessChangeCipherSpec(e: Env) returns (w: Wait)
      requires state.ProcessChangeCipherSpec?
      modifies `state, `trace
      ensures Performed(Spec.DoProcessChangeCipherSpec(old(Hs(Ok)), e), w)
    {
      if !e.ok { return Error; }
      Note(Client, CipherChange);
      state := Spec.ReadNextProto;
      return Ok;
    }

    method DoReadNextProto(e: Env) returns (w: Wait)
      requires state.ReadNextProto?
      modifies `state, `trace
      ensures Performed(Spec.DoReadNextProto(old(Hs(Ok)), e), w)
    {
      if terms.nextProto {
        if e.message.None? { return ReadMessage; }
        if !e.message.value.NextProto? || !e.ok { return Error; }
        Note(Client, NextProto);
      }
      state := Spec.ReadChannelId;
      return Ok;
    }

    method DoReadChannelId(e: Env) returns (w: Wait)
      requires state.ReadChannelId?
      modifies `state, `trace
      ensures Performed(Spec.DoReadChannelId(old(Hs(Ok)), e), w)
    {
      if terms.channelId {
        if e.message.None? { return ReadMessage; }
        if !e.message.value.ChannelId? || !e.ok { return Error; }
        Note(Client, ChannelId);
      }
      state := Spec.ReadClientFinished;
      return Ok;
    }

    method DoReadClientFinished(e: Env) returns (w: Wait)
      requires state.ReadClientFinished?
      modifies `state, `trace
      ensures Performed(Spec.DoReadClientFinished(old(Hs(Ok)), e), w)
    {
      if e.message.None? { return ReadMessage; }
      if !e.message.value.Finished? || !e.ok { return Error; }
      Note(Client, Finished);
      state := if session then Spec.FinishServerHandshake else Spec.SendServerFinished;
      return Ok;
    }

    /** The ticket, the change of keys and Finished go out together. */
    method DoSendServerFinished(e: Env) returns (w: Wait)
      requires state.SendServerFinished?
      modifies `state, `trace
      ensures Performed(Spec.DoSendServerFinished(old(Hs(Ok)), e), w)
    {
      if !e.ok { return Error; }
      if terms.ticketExpected {
        Note(Server, NewSessionTicket);
      }
      Note(Server, ChangeCipherSpec);
      Note(Server, CipherChange);
      Note(Server, Finished);
      state := if session then Spec.ReadChangeCipherSpecRecord else Spec.FinishServerHandshake;
      return Flush;
    }

    method DoFinishServerHandshake(e: Env) returns (w: Wait)
      requires state.FinishServerHandshake?
      modifies `state
      ensures Performed(Spec.DoFinishServerHandshake(old(Hs(Ok)), e), w)
    {
      state := Spec.Done;
      return Ok;
    }

    /** The switch in the loop of ssl_server_handshake. */
    method Switch(e: Env) returns (w: Wait)
      requires !state.Done?
      modifies `state, `session, `certRequest, `parameters, `peerKey, `terms, `trace
      ensures Performed(Spec.Step(old(Hs(Ok)), e), w)
    {
      match state {
        case StartAccept => w := DoStartAccept(e);
        case ReadClientHello => w := DoReadClientHello(e);
        case SelectCertificate => w := DoSelectCertificate(e);
        case Tls13 => w := DoTls13(e);
        case SelectParameters => w := DoSelectParameters(e);
        case SendServerHello => w := DoSendServerHello(e);
        case SendServerCertificate => w := DoSendServerCertificate(e);
        case SendServerKeyExchange => w := DoSendServerKeyExchange(e);
        case SendServerHelloDone => w := DoSendServerHelloDone(e);
        case ReadClientCertificate => w := DoReadClientCertificate(e);
        case VerifyClientCertificate => w := DoVerifyClientCertificate(e);
        case ReadClientKeyExchange => w := DoReadClientKeyExchange(e);
        case ReadClientCertificateVerify => w := DoReadClientCertificateVerify(e);
        case ReadChangeCipherSpecRecord => w := DoReadChangeCipherSpec(e);
        case ProcessChangeCipherSpec => w := DoProcessChangeCipherSpec(e);
        case ReadNextProto => w := DoReadNextProto(e);
        case ReadChannelId => w := DoReadChannelId(e);
        case ReadClientFinished => w := DoReadClientFinished(e);
        case SendServerFinished => w := DoSendServerFinished(e);
        case FinishServerHandshake => w := DoFinishServerHandshake(e);
      }
    }

    /** One turn of the loop: a transition, and what it means for the handshake. */
    method Transition(e: Env) returns (w: Wait)
      requires !state.Done?
      modifies `state, `session, `certRequest, `parameters, `peerKey, `terms, `trace
      ensures MovesOn(old(Value(Ok)), Value(w))
      ensures Performed(Spec.Step(old(Hs(Ok)), e), w)
    {
      hide Spec.Step, MovesOn;
      ghost var before := Value(Ok);
      w := Switch(e);
      StepMovesOn(before, e, Value(w));
    }

    /** ssl_server_handshake. */
    method Handshake() returns (w: Wait)
      modifies `state, `session, `certRequest, `parameters, `peerKey, `terms, `trace, `modern, `clock
      ensures Value(w) == Drive(env, old(Value(Ok)))
      ensures w.Ok? ==> state.Done?
      ensures old(Inv(Value(Ok))) ==> Inv(Value(w))
    {
      hide Spec.Step, Spec.Rank, Drive, Inv, Fits;
      ghost var start := Value(Ok);
      while !state.Done?
        invariant Drive(env, Value(Ok)) == Drive(env, start)
        decreases Spec.Rank(state, session)
      {
        DriveTurn(env, Value(Ok));
        w := Transition(env(clock, Hs(Ok)));
        modern := modern || state.Tls13?;
        clock := clock + 1;
        if !w.Ok? {
          StartKept(start);
          return;
        }
      }
      DriveTurn(env, Value(Ok));
      StartKept(start);
      return Ok;
    }

    lemma StartKept(start: Conn)
      requires start.machine.wait.Ok?
      ensures Inv(start) ==> Inv(Drive(env, start))
    {
      hide Inv, Drive;
      if Inv(start) {
        DriveKeeps(env, start);
      }
    }

    /** One round of ssl_run_handshake; `io` tells whether the transport lets the wait end. */
    method RunHandshakeOnce(io: bool)
      requires Valid()
      modifies this
      ensures Valid()
      ensures OneHandshake(Value(wait))
      ensures Value(wait) == Turn(env, old(Value(wait)), io)
    {
      hide Drive, Inv, OneHandshake;
      TurnKeeps(env, Value(wait), io);
      FinishedInOrder(Turn(env, Value(wait), io));
      match wait {
        case Error => return;
        case EarlyReturn =>
          wait := Ok;
          return;
        case Callback =>
          wait := Ok;
          return;
        case Ok =>
        case ReadChangeCipherSpec =>
          if !io {
            return;
          }
          Note(Client, ChangeCipherSpec);
        case _ =>
          if !io {
            return;
          }
      }
      wait := Handshake();
    }
  }
}
