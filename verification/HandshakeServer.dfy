/**
 The server's handshake state machine (ssl/handshake_server.cc), for an initial handshake.
 */
module HandshakeServer {
  import opened Fragments
  import opened HandshakeFlow

  datatype State =
    | StartAccept | ReadClientHello | SelectCertificate | Tls13 | SelectParameters | SendServerHello
    | SendServerCertificate | SendServerKeyExchange | SendServerHelloDone | ReadClientCertificate
    | VerifyClientCertificate | ReadClientKeyExchange | ReadClientCertificateVerify
    | ReadChangeCipherSpecRecord | ProcessChangeCipherSpec | ReadNextProto | ReadChannelId
    | ReadClientFinished | SendServerFinished | FinishServerHandshake | Done

  /** What the server settles when it selects the parameters. */
  datatype Terms = Terms(certAuth: bool, statusExpected: bool, ticketExpected: bool, channelId: bool, nextProto: bool)

  /** What one transition meets, as for the client. */
  datatype Env = Env(
    message: Option<Message>,
    ok: bool,
    retry: bool,
    tls13: bool,
    sessionFound: bool,
    terms: Terms,
    requestCertificate: bool,
    dropChannelId: bool,
    parameters: bool,
    certificatePresent: bool,
    ssl3: bool)

  /**
     `session` is ssl->session != NULL, `parameters` says that server_params is not empty,
     `peerKey` that the client's certificate chain is not.
   */
  datatype Machine = Machine(
    state: State,
    wait: Wait,
    session: bool,
    certRequest: bool,
    parameters: bool,
    peerKey: bool,
    terms: Terms)

  datatype Outcome = Outcome(next: Machine, items: Trace)

  // ----- the transitions

  function Fail(c: Machine): Outcome { Outcome(c.(wait := Error), []) }

  function Await(c: Machine, w: Wait): Outcome { Outcome(c.(wait := w), []) }

  function Go(c: Machine, s: State): Outcome { Outcome(c.(state := s), []) }

  function GoWith(c: Machine, s: State, p: Party, m: Message): Outcome { Outcome(c.(state := s), [Item(p, m)]) }

  function Maybe(b: bool, p: Party, m: Message): Trace { if b then [Item(p, m)] else [] }

  /** What is left to do; it depends on whether the session is resumed. */
  function Rank(s: State, session: bool): nat {
    match s
    case StartAccept => 21
    case ReadClientHello => 20
    case SelectCertificate => 19
    case SelectParameters => 18
    case SendServerHello => 17
    case SendServerCertificate => 16
    case SendServerKeyExchange => 15
    case SendServerHelloDone => 14
    case ReadClientCertificate => 13
    case VerifyClientCertificate => 12
    case ReadClientKeyExchange => 11
    case ReadClientCertificateVerify => 10
    case ReadChangeCipherSpecRecord => 8
    case ProcessChangeCipherSpec => 7
    case ReadNextProto => 6
    case ReadChannelId => 5
    case ReadClientFinished => 4
    case SendServerFinished => if session then 9 else 3
    case Tls13 => 2
    case FinishServerHandshake => 1
    case Done => 0
  }

  /** Whatever the environment does, a transition that moves or does not wait gets closer to the end. */
  predicate Progress(c: Machine, d: Machine) {
    d.wait.Ok? || d.state != c.state ==> Rank(d.state, d.session) < Rank(c.state, c.session)
  }

  /** The place in the flow of the next message when the machine is in this state. */
  function At(m: Machine): nat {
    match m.state
    case StartAccept => 0
    case ReadClientHello => 0
    case SelectCertificate => 0
    case Tls13 => 0
    case SelectParameters => 0
    case SendServerHello => 4
    case SendServerCertificate => 5
    case SendServerKeyExchange => 7
    case SendServerHelloDone => 8
    case ReadClientCertificate => 10
    case VerifyClientCertificate => 11
    case ReadClientKeyExchange => 11
    case ReadClientCertificateVerify => 12
    case ReadChangeCipherSpecRecord => if m.session then 9 else 13
    case ProcessChangeCipherSpec =>
      (if m.session then 9 else 13) + if m.wait.ReadChangeCipherSpec? then 0 else 1
    case ReadNextProto => if m.session then 11 else 15
    case ReadChannelId => if m.session then 12 else 16
    case ReadClientFinished => if m.session then 13 else 17
    case SendServerFinished => if m.session then 5 else 18
    case FinishServerHandshake => End(m.session)
    case Done => End(m.session)
  }

  predicate BeforeHello(s: State) {
    s.StartAccept? || s.ReadClientHello? || s.SelectCertificate? || s.SelectParameters?
  }

  /** States of the key exchange, which a resumed session does not have. */
  predicate InKeyExchange(s: State) {
    || s.SendServerCertificate? || s.SendServerKeyExchange? || s.SendServerHelloDone? || s.ReadClientCertificate?
    || s.VerifyClientCertificate? || s.ReadClientKeyExchange? || s.ReadClientCertificateVerify?
  }

  predicate Sound(m: Machine) {
    && (m.wait.ReadChangeCipherSpec? ==> m.state.ProcessChangeCipherSpec?)
    && (InKeyExchange(m.state) ==> !m.session)
  }

  /**
     A transition gets closer to the end or waits, and sends or accepts just what the flow
     has between its two states.
   */
  ghost predicate Advances(c: Machine, o: Outcome) {
    && Progress(c, o.next)
    && (Sound(c) && c.wait.Ok? && !o.next.wait.Error? && !o.next.state.Tls13? && !c.state.Tls13? ==>
          && Sound(o.next)
          && Fits(o.next.session, At(c), o.items, At(o.next))
          && (!BeforeHello(c.state) ==> o.next.session == c.session))
  }

  ghost function Allowed(c: Machine): iset<Outcome> {
    iset o: Outcome | Advances(c, o)
  }

  function DoStartAccept(c: Machine, e: Env): (o: Outcome)
    requires c.state.StartAccept?
    ensures o in Allowed(c)
  {
    Go(c, ReadClientHello)
  }

  function DoReadClientHello(c: Machine, e: Env): (o: Outcome)
    requires c.state.ReadClientHello?
    ensures o in Allowed(c)
  {
    if e.message.None? then Await(c, ReadMessage)
    else if !e.message.value.ClientHello? then Fail(c)
    else if e.retry then Await(c, Callback)
    else if !e.ok then Fail(c)
    else Go(c, SelectCertificate)
  }

  function DoSelectCertificate(c: Machine, e: Env): (o: Outcome)
    requires c.state.SelectCertificate?
    ensures o in Allowed(c)
  {
    if e.message.None? then Await(c, ReadMessage)
    else if e.retry then Await(c, Callback)
    else if !e.ok then Fail(c)
    else if e.tls13 then Go(c, Tls13)
    else Go(c, SelectParameters)
  }

  /** The TLS 1.3 machine is one step here: it fails, waits, or ends. */
  function DoTls13(c: Machine, e: Env): (o: Outcome)
    requires c.state.Tls13?
    ensures o in Allowed(c)
  {
    if e.retry then Await(c, Callback) else if !e.ok then Fail(c) else Go(c, FinishServerHandshake)
  }

  /** The session is looked up, and with it the kind of the handshake is settled. */
  function DoSelectParameters(c: Machine, e: Env): (o: Outcome)
    requires c.state.SelectParameters?
    ensures o in Allowed(c)
  {
    FitsThenSkips(e.sessionFound, 0, Item(Client, ClientHello), 4);
    hide Fits, Place, Required;
    if e.message.None? then Await(c, ReadMessage)
    else if e.retry then Await(c, Callback)
    else if !e.ok then Fail(c)
    else
      var request := if e.sessionFound then c.certRequest else e.requestCertificate && e.terms.certAuth;
      GoWith(c.(session := e.sessionFound, certRequest := request, terms := e.terms),
             SendServerHello, Client, ClientHello)
  }

  /** Channel IDs are given up without ECDHE, or when the session's hash was not recorded. */
  function ChannelIdSettled(terms: Terms, drop: bool): Terms {
    if drop then terms.(channelId := false) else terms
  }

  function DoSendServerHello(c: Machine, e: Env): (o: Outcome)
    requires c.state.SendServerHello?
    ensures o in Allowed(c)
  {
    FitsSimply(c.session, 4, [Item(Server, ServerHello)], 5);
    hide Fits, Place, Required, ChannelIdSettled;
    if !e.ok then Fail(c)
    else
      var terms := ChannelIdSettled(c.terms, e.dropChannelId);
      if c.session then Outcome(c.(state := SendServerFinished, terms := terms), [Item(Server, ServerHello)])
      else Outcome(c.(state := SendServerCertificate, terms := terms), [Item(Server, ServerHello)])
  }

  function DoSendServerCertificate(c: Machine, e: Env): (o: Outcome)
    requires c.state.SendServerCertificate?
    ensures o in Allowed(c)
  {
    if !e.ok then Fail(c)
    else
      var certificate := Maybe(c.terms.certAuth, Server, Certificate);
      var status := Maybe(c.terms.certAuth && c.terms.statusExpected, Server, CertificateStatus);
      FitsSimply(false, 5, certificate, 6);
      FitsSimply(false, 6, status, 7);
      FitsJoin(false, 5, certificate, 6, status, 7);
      Outcome(c.(state := SendServerKeyExchange, parameters := e.parameters), certificate + status)
  }

  function DoSendServerKeyExchange(c: Machine, e: Env): (o: Outcome)
    requires c.state.SendServerKeyExchange?
    ensures o in Allowed(c)
  {
    FitsSimply(false, 7, [], 8);
    FitsSimply(false, 7, [Item(Server, ServerKeyExchange)], 8);
    hide Fits, Place, Required;
    if !c.parameters then Go(c, SendServerHelloDone)
    else if !e.ok then Fail(c)
    else if e.retry then Await(c, Callback)
    else GoWith(c.(parameters := false), SendServerHelloDone, Server, ServerKeyExchange)
  }

  function DoSendServerHelloDone(c: Machine, e: Env): (o: Outcome)
    requires c.state.SendServerHelloDone?
    ensures o in Allowed(c)
  {
    if !e.ok then Fail(c)
    else
      var request := Maybe(c.certRequest, Server, CertificateRequest);
      FitsSimply(false, 8, request, 9);
      FitsSimply(false, 9, [Item(Server, ServerHelloDone)], 10);
      FitsJoin(false, 8, request, 9, [Item(Server, ServerHelloDone)], 10);
      Outcome(c.(state := ReadClientCertificate, wait := Flush), request + [Item(Server, ServerHelloDone)])
  }

  /** In SSL 3.0 a client without a certificate sends no Certificate message. */
  function OnClientCertificate(c: Machine, e: Env, m: Message): (o: Outcome)
    requires c.state.ReadClientCertificate?
    ensures o in Allowed(c)
  {
    FitsSimply(false, 10, [], 11);
    FitsSimply(false, 10, [Item(Client, Certificate)], 11);
    hide Fits, Place, Required;
    if !e.ok then Fail(c)
    else if m.Certificate? then
      GoWith(c.(peerKey := e.certificatePresent), VerifyClientCertificate, Client, Certificate)
    else if e.ssl3 && m.ClientKeyExchange? then Go(c, VerifyClientCertificate)
    else Fail(c)
  }

  function DoReadClientCertificate(c: Machine, e: Env): (o: Outcome)
    requires c.state.ReadClientCertificate?
    ensures o in Allowed(c)
  {
    if !c.certRequest then Go(c, VerifyClientCertificate)
    else if e.message.None? then Await(c, ReadMessage)
    else OnClientCertificate(c, e, e.message.value)
  }

  function DoVerifyClientCertificate(c: Machine, e: Env): (o: Outcome)
    requires c.state.VerifyClientCertificate?
    ensures o in Allowed(c)
  {
    if !c.peerKey then Go(c, ReadClientKeyExchange)
    else if e.retry then Await(c, Callback)
    else if !e.ok then Fail(c)
    else Go(c, ReadClientKeyExchange)
  }

  function DoReadClientKeyExchange(c: Machine, e: Env): (o: Outcome)
    requires c.state.ReadClientKeyExchange?
    ensures o in Allowed(c)
  {
    FitsSimply(false, 11, [Item(Client, ClientKeyExchange)], 12);
    hide Fits, Place, Required;
    if e.message.None? then Await(c, ReadMessage)
    else if !e.message.value.ClientKeyExchange? || !e.ok then Fail(c)
    else if e.retry then Await(c, Callback)
    else GoWith(c, ReadClientCertificateVerify, Client, ClientKeyExchange)
  }

  function DoReadClientCertificateVerify(c: Machine, e: Env): (o: Outcome)
    requires c.state.ReadClientCertificateVerify?
    ensures o in Allowed(c)
  {
    FitsSimply(false, 12, [], 13);
    FitsSimply(false, 12, [Item(Client, CertificateVerify)], 13);
    hide Fits, Place, Required;
    if !c.peerKey then Go(c, ReadChangeCipherSpecRecord)
    else if e.message.None? then Await(c, ReadMessage)
    else if !e.message.value.CertificateVerify? || !e.ok then Fail(c)
    else GoWith(c, ReadChangeCipherSpecRecord, Client, CertificateVerify)
  }

  function DoReadChangeCipherSpec(c: Machine, e: Env): (o: Outcome)
    requires c.state.ReadChangeCipherSpecRecord?
    ensures o in Allowed(c)
  {
    Go(c.(wait := ReadChangeCipherSpec), ProcessChangeCipherSpec)
  }

  function DoProcessChangeCipherSpec(c: Machine, e: Env): (o: Outcome)
    requires c.state.ProcessChangeCipherSpec?
    ensures o in Allowed(c)
  {
    var k := if c.session then 10 else 14;
    FitsSimply(c.session, k, [Item(Client, CipherChange)], k + 1);
    hide Fits, Place, Required;
    if !e.ok then Fail(c) else GoWith(c, ReadNextProto, Client, CipherChange)
  }

  function TakeNextProto(c: Machine, present: bool): (o: Outcome)
    requires c.state.ReadNextProto?
    ensures o in Allowed(c)
  {
    var k := if c.session then 11 else 15;
    FitsSimply(c.session, k, Maybe(present, Client, NextProto), k + 1);
    hide Fits, Place, Required;
    Outcome(c.(state := ReadChannelId), Maybe(present, Client, NextProto))
  }

  function DoReadNextProto(c: Machine, e: Env): (o: Outcome)
    requires c.state.ReadNextProto?
    ensures o in Allowed(c)
  {
    if !c.terms.nextProto then TakeNextProto(c, false)
    else if e.message.None? then Await(c, ReadMessage)
    else if !e.message.value.NextProto? || !e.ok then Fail(c)
    else TakeNextProto(c, true)
  }

  function TakeChannelId(c: Machine, present: bool): (o: Outcome)
    requires c.state.ReadChannelId?
    ensures o in Allowed(c)
  {
    var k := if c.session then 12 else 16;
    FitsSimply(c.session, k, Maybe(present, Client, ChannelId), k + 1);
    hide Fits, Place, Required;
    Outcome(c.(state := ReadClientFinished), Maybe(present, Client, ChannelId))
  }

  function DoReadChannelId(c: Machine, e: Env): (o: Outcome)
    requires c.state.ReadChannelId?
    ensures o in Allowed(c)
  {
    if !c.terms.channelId then TakeChannelId(c, false)
    else if e.message.None? then Await(c, ReadMessage)
    else if !e.message.value.ChannelId? || !e.ok then Fail(c)
    else TakeChannelId(c, true)
  }

  function DoReadClientFinished(c: Machine, e: Env): (o: Outcome)
    requires c.state.ReadClientFinished?
    ensures o in Allowed(c)
  {
    var k := if c.session then 13 else 17;
    FitsSimply(c.session, k, [Item(Client, Finished)], k + 1);
    hide Fits, Place, Required;
    if e.message.None? then Await(c, ReadMessage)
    else if !e.message.value.Finished? || !e.ok then Fail(c)
    else if c.session then GoWith(c, FinishServerHandshake, Client, Finished)
    else GoWith(c, SendServerFinished, Client, Finished)
  }

  function FinishItems(terms: Terms): Trace {
    Maybe(terms.ticketExpected, Server, NewSessionTicket) + [Item(Server, ChangeCipherSpec)] +
    [Item(Server, CipherChange)] + [Item(Server, Finished)]
  }

  lemma FinishFits(r: bool, terms: Terms)
    ensures Fits(r, if r then 5 else 18, FinishItems(terms), if r then 9 else 22)
  {
    hide Fits;
    var n := if r then 5 else 18;
    var ticket, ccs := Maybe(terms.ticketExpected, Server, NewSessionTicket), [Item(Server, ChangeCipherSpec)];
    var keys, last := [Item(Server, CipherChange)], [Item(Server, Finished)];
    FitsSimply(r, n, ticket, n + 1);
    FitsSimply(r, n + 1, ccs, n + 2);
    FitsSimply(r, n + 2, keys, n + 3);
    FitsSimply(r, n + 3, last, n + 4);
    hide *;
    FitsJoin(r, n, ticket, n + 1, ccs, n + 2);
    FitsJoin(r, n, ticket + ccs, n + 2, keys, n + 3);
    FitsJoin(r, n, ticket + ccs + keys, n + 3, last, n + 4);
    assert FinishItems(terms) == ticket + ccs + keys + last;
  }

  /** The ticket, the change of keys and Finished go out together. */
  function SendFinish(c: Machine): (o: Outcome)
    requires c.state.SendServerFinished?
    ensures o in Allowed(c)
  {
    FinishFits(c.session, c.terms);
    hide Fits, FinishItems;
    if c.session then Outcome(c.(state := ReadChangeCipherSpecRecord, wait := Flush), FinishItems(c.terms))
    else Outcome(c.(state := FinishServerHandshake, wait := Flush), FinishItems(c.terms))
  }

  function DoSendServerFinished(c: Machine, e: Env): (o: Outcome)
    requires c.state.SendServerFinished?
    ensures o in Allowed(c)
  {
    if !e.ok then Fail(c) else SendFinish(c)
  }

  function DoFinishServerHandshake(c: Machine, e: Env): (o: Outcome)
    requires c.state.FinishServerHandshake?
    ensures o in Allowed(c)
  {
    Go(c, Done)
  }

  /** The body of the loop in ssl_server_handshake. */
  function Step(c: Machine, e: Env): (o: Outcome)
    requires !c.state.Done?
    ensures o in Allowed(c)
  {
    match c.state
    case StartAccept => DoStartAccept(c, e)
    case ReadClientHello => DoReadClientHello(c, e)
    case SelectCertificate => DoSelectCertificate(c, e)
    case Tls13 => DoTls13(c, e)
    case SelectParameters => DoSelectParameters(c, e)
    case SendServerHello => DoSendServerHello(c, e)
    case SendServerCertificate => DoSendServerCertificate(c, e)
    case SendServerKeyExchange => DoSendServerKeyExchange(c, e)
    case SendServerHelloDone => DoSendServerHelloDone(c, e)
    case ReadClientCertificate => DoReadClientCertificate(c, e)
    case VerifyClientCertificate => DoVerifyClientCertificate(c, e)
    case ReadClientKeyExchange => DoReadClientKeyExchange(c, e)
    case ReadClientCertificateVerify => DoReadClientCertificateVerify(c, e)
    case ReadChangeCipherSpecRecord => DoReadChangeCipherSpec(c, e)
    case ProcessChangeCipherSpec => DoProcessChangeCipherSpec(c, e)
    case ReadNextProto => DoReadNextProto(c, e)
    case ReadChannelId => DoReadChannelId(c, e)
    case ReadClientFinished => DoReadClientFinished(c, e)
    case SendServerFinished => DoSendServerFinished(c, e)
    case FinishServerHandshake => DoFinishServerHandshake(c, e)
  }
}
