/**
 The client's handshake state machine (ssl/handshake_client.cc) and the loops that drive
 it (ssl_run_handshake in ssl/handshake.cc), for an initial handshake.
 */
module HandshakeClient {
  import opened Fragments
  import opened HandshakeFlow

  datatype State =
    | StartConnect | EnterEarlyData | ReadHelloVerifyRequest | ReadServerHello | Tls13
    | ReadServerCertificate | ReadCertificateStatus | VerifyServerCertificate
    | ReadServerKeyExchange | ReadCertificateRequest | ReadServerHelloDone
    | SendClientCertificate | SendClientKeyExchange | SendClientCertificateVerify
    | SendClientFinished | FinishFlight | ReadSessionTicket | ProcessChangeCipherSpec
    | ReadServerFinished | FinishClientHandshake | Done

  /** What ServerHello settles. */
  datatype Terms = Terms(
    certAuth: bool,
    statusExpected: bool,
    ticketExpected: bool,
    channelId: bool,
    nextProto: bool,
    needsKeyExchange: bool)

  /**
     What one transition meets: the message that get_message finds, whether every check
     and callback in it succeeds or asks to be retried, and the values it takes from outside.
   */
  datatype Env = Env(
    message: Option<Message>,
    ok: bool,
    retry: bool,
    sessionUsable: bool,
    earlyOffered: bool,
    tls13: bool,
    sameSession: bool,
    terms: Terms,
    hasCertificate: bool,
    ssl3: bool,
    falseStart: bool)

  /** The fields of the handshake that decide its course; `session` is ssl->session != NULL. */
  datatype Machine = Machine(
    state: State,
    wait: Wait,
    dtls: bool,
    session: bool,
    earlyOffered: bool,
    certRequest: bool,
    terms: Terms)

  /** The state after a transition, and what was sent or accepted in it. */
  datatype Outcome = Outcome(next: Machine, items: Trace)

  // ----- the transitions

  function Fail(c: Machine): Outcome { Outcome(c.(wait := Error), []) }

  function Await(c: Machine, w: Wait): Outcome { Outcome(c.(wait := w), []) }

  function Go(c: Machine, s: State): Outcome { Outcome(c.(state := s), []) }

  function GoWith(c: Machine, s: State, p: Party, m: Message): Outcome { Outcome(c.(state := s), [Item(p, m)]) }

  /** What is left to do; it depends on whether the session is resumed. */
  function Rank(s: State, session: bool): nat {
    match s
    case StartConnect => 20
    case EnterEarlyData => 19
    case ReadHelloVerifyRequest => 18
    case ReadServerHello => 17
    case ReadServerCertificate => 16
    case ReadCertificateStatus => 15
    case VerifyServerCertificate => 14
    case ReadServerKeyExchange => 13
    case ReadCertificateRequest => 12
    case ReadServerHelloDone => 11
    case SendClientCertificate => 10
    case SendClientKeyExchange => 9
    case SendClientCertificateVerify => 8
    case SendClientFinished => if session then 3 else 7
    case FinishFlight => if session then 2 else 6
    case ReadSessionTicket => if session then 7 else 5
    case ProcessChangeCipherSpec => if session then 6 else 4
    case ReadServerFinished => if session then 5 else 3
    case Tls13 => 2
    case FinishClientHandshake => 1
    case Done => 0
  }

  /** Whatever the environment does, a transition that moves or does not wait gets closer to the end. */
  predicate Progress(c: Machine, d: Machine) {
    d.wait.Ok? || d.state != c.state ==> Rank(d.state, d.session) < Rank(c.state, c.session)
  }

  /** The place in the flow of the next message when the machine is in this state. */
  function At(m: Machine): nat {
    match m.state
    case StartConnect => 0
    case EnterEarlyData => 1
    case ReadHelloVerifyRequest => 2
    case ReadServerHello => 4
    case ReadServerCertificate => 5
    case ReadCertificateStatus => 6
    case VerifyServerCertificate => 7
    case ReadServerKeyExchange => 7
    case ReadCertificateRequest => 8
    case ReadServerHelloDone => 9
    case SendClientCertificate => 10
    case SendClientKeyExchange => 11
    case SendClientCertificateVerify => 12
    case SendClientFinished => if m.session then 9 else 13
    case FinishFlight => if m.session then 14 else 18
    case ReadSessionTicket => if m.session then 5 else 18
    case ProcessChangeCipherSpec =>
      (if m.session then 6 else 19) + if m.wait.ReadChangeCipherSpec? then 0 else 1
    case ReadServerFinished => if m.session then 8 else 21
    case FinishClientHandshake => End(m.session)
    case Done => End(m.session)
    case Tls13 => 0
  }

  predicate BeforeHello(s: State) {
    s.StartConnect? || s.EnterEarlyData? || s.ReadHelloVerifyRequest? || s.ReadServerHello?
  }

  /** States of the key exchange, which a resumed session does not have. */
  predicate InKeyExchange(s: State) {
    || s.ReadServerCertificate? || s.ReadCertificateStatus? || s.VerifyServerCertificate? || s.ReadServerKeyExchange?
    || s.ReadCertificateRequest? || s.ReadServerHelloDone? || s.SendClientCertificate? || s.SendClientKeyExchange?
    || s.SendClientCertificateVerify?
  }

  predicate Sound(m: Machine) {
    && (m.wait.ReadChangeCipherSpec? ==> m.state.ProcessChangeCipherSpec?)
    && (InKeyExchange(m.state) ==> !m.session)
    && (m.earlyOffered ==> BeforeHello(m.state))
  }

  /**
     A transition gets closer to the end or waits, and sends or accepts just what the flow
     has between its two states.
   */
  ghost predicate Advances(c: Machine, o: Outcome) {
    && Progress(c, o.next)
    && (Sound(c) && c.wait.Ok? && !o.next.wait.Error? && !o.next.state.Tls13? && !c.state.Tls13? ==>
          && Sound(o.next)
          && Fits(o.next.session, At(c), o.items, At(o.next))
          && (!BeforeHello(c.state) ==> o.next.session == c.session))
  }

  ghost function Allowed(c: Machine): iset<Outcome> {
    iset o: Outcome | Advances(c, o)
  }

  function DoStartConnect(c: Machine, e: Env): (o: Outcome)
    requires c.state.StartConnect?
    ensures o in Allowed(c)
  {
    FitsSimply(c.session && e.sessionUsable, 0, [Item(Client, ClientHello)], 1);
    hide Fits, Place, Required;
    if !e.ok then Fail(c)
    else
      var d := c.(session := c.session && e.sessionUsable, earlyOffered := e.earlyOffered, wait := Flush);
      GoWith(d, EnterEarlyData, Client, ClientHello)
  }

  function DoEnterEarlyData(c: Machine, e: Env): (o: Outcome)
    requires c.state.EnterEarlyData?
    ensures o in Allowed(c)
  {
    FitsThenSkips(c.session, 1, Item(Client, EarlyChangeCipherSpec), 4);
    if c.dtls then Go(c, ReadHelloVerifyRequest)
    else if !c.earlyOffered then Go(c, ReadServerHello)
    else if !e.ok then Fail(c)
    else GoWith(c.(wait := EarlyReturn), ReadServerHello, Client, EarlyChangeCipherSpec)
  }

  function DoReadHelloVerifyRequest(c: Machine, e: Env): (o: Outcome)
    requires c.state.ReadHelloVerifyRequest?
    ensures o in Allowed(c)
  {
    FitsPair(c.session, 2, Item(Server, HelloVerifyRequest), Item(Client, RepeatedClientHello));
    hide Fits, Place, Required;
    if e.message.None? then Await(c, ReadMessage)
    else if !e.message.value.HelloVerifyRequest? then Go(c, ReadServerHello)
    else if !e.ok then Fail(c)
    else
      Outcome(c.(state := ReadServerHello, wait := Flush),
              [Item(Server, HelloVerifyRequest), Item(Client, RepeatedClientHello)])
  }

  function DoReadServerHello(c: Machine, e: Env): (o: Outcome)
    requires c.state.ReadServerHello?
    ensures o in Allowed(c)
  {
    FitsSimply(c.session && e.sameSession, 4, [Item(Server, ServerHello)], 5);
    hide Fits, Place, Required;
    if e.message.None? then Await(c, ReadMessage)
    else if !e.message.value.ServerHello? || !e.ok then Fail(c)
    else if e.tls13 then Go(c, Tls13)
    else if c.earlyOffered then Fail(c)
    else
      var resumes := c.session && e.sameSession;
      GoWith(c.(session := resumes, terms := e.terms),
             if resumes then ReadSessionTicket else ReadServerCertificate, Server, ServerHello)
  }

  /** The TLS 1.3 machine is one step here: it fails, waits, or ends. */
  function DoTls13(c: Machine, e: Env): (o: Outcome)
    requires c.state.Tls13?
    ensures o in Allowed(c)
  {
    if e.retry then Await(c, Callback) else if !e.ok then Fail(c) else Go(c, FinishClientHandshake)
  }

  function DoReadServerCertificate(c: Machine, e: Env): (o: Outcome)
    requires c.state.ReadServerCertificate?
    ensures o in Allowed(c)
  {
    FitsSimply(false, 5, [], 6);
    FitsSimply(false, 5, [Item(Server, Certificate)], 6);
    hide Fits, Place, Required;
    if !c.terms.certAuth then Go(c, ReadCertificateStatus)
    else if e.message.None? then Await(c, ReadMessage)
    else if !e.message.value.Certificate? || !e.ok then Fail(c)
    else GoWith(c, ReadCertificateStatus, Server, Certificate)
  }

  function DoReadCertificateStatus(c: Machine, e: Env): (o: Outcome)
    requires c.state.ReadCertificateStatus?
    ensures o in Allowed(c)
  {
    FitsSimply(false, 6, [], 7);
    FitsSimply(false, 6, [Item(Server, CertificateStatus)], 7);
    hide Fits, Place, Required;
    if !c.terms.statusExpected then Go(c, VerifyServerCertificate)
    else if e.message.None? then Await(c, ReadMessage)
    else if !e.message.value.CertificateStatus? then Go(c, VerifyServerCertificate)
    else if !e.ok then Fail(c)
    else GoWith(c, VerifyServerCertificate, Server, CertificateStatus)
  }

  function DoVerifyServerCertificate(c: Machine, e: Env): (o: Outcome)
    requires c.state.VerifyServerCertificate?
    ensures o in Allowed(c)
  {
    if !c.terms.certAuth then Go(c, ReadServerKeyExchange)
    else if e.retry then Await(c, Callback)
    else if !e.ok then Fail(c)
    else Go(c, ReadServerKeyExchange)
  }

  function DoReadServerKeyExchange(c: Machine, e: Env): (o: Outcome)
    requires c.state.ReadServerKeyExchange?
    ensures o in Allowed(c)
  {
    FitsSimply(false, 7, [], 8);
    FitsSimply(false, 7, [Item(Server, ServerKeyExchange)], 8);
    hide Fits, Place, Required;
    if e.message.None? then Await(c, ReadMessage)
    else if !e.message.value.ServerKeyExchange? then
      if c.terms.needsKeyExchange then Fail(c) else Go(c, ReadCertificateRequest)
    else if !e.ok then Fail(c)
    else GoWith(c, ReadCertificateRequest, Server, ServerKeyExchange)
  }

  /** The message after the key exchange: a request, or already the end of the server's flight. */
  function OnCertificateRequest(c: Machine, ok: bool, m: Message): (o: Outcome)
    requires c.state.ReadCertificateRequest?
    ensures o in Allowed(c)
  {
    FitsSimply(false, 8, [], 9);
    FitsSimply(false, 8, [Item(Server, CertificateRequest)], 9);
    hide Fits, Place, Required;
    if m.ServerHelloDone? then Go(c, ReadServerHelloDone)
    else if !m.CertificateRequest? || !ok then Fail(c)
    else GoWith(c.(certRequest := true), ReadServerHelloDone, Server, CertificateRequest)
  }

  function DoReadCertificateRequest(c: Machine, e: Env): (o: Outcome)
    requires c.state.ReadCertificateRequest?
    ensures o in Allowed(c)
  {
    if !c.terms.certAuth then Go(c, ReadServerHelloDone)
    else if e.message.None? then Await(c, ReadMessage)
    else OnCertificateRequest(c, e.ok, e.message.value)
  }

  function DoReadServerHelloDone(c: Machine, e: Env): (o: Outcome)
    requires c.state.ReadServerHelloDone?
    ensures o in Allowed(c)
  {
    FitsSimply(false, 9, [Item(Server, ServerHelloDone)], 10);
    hide Fits, Place, Required;
    if e.message.None? then Await(c, ReadMessage)
    else if !e.message.value.ServerHelloDone? || !e.ok then Fail(c)
    else GoWith(c, SendClientCertificate, Server, ServerHelloDone)
  }

  function DoSendClientCertificate(c: Machine, e: Env): (o: Outcome)
    requires c.state.SendClientCertificate?
    ensures o in Allowed(c)
  {
    FitsSimply(false, 10, [], 11);
    FitsSimply(false, 10, [Item(Client, Certificate)], 11);
    hide Fits, Place, Required;
    if !c.certRequest then Go(c, SendClientKeyExchange)
    else if e.retry then Await(c, Callback)
    else if !e.ok then Fail(c)
    else if !e.hasCertificate && e.ssl3 then Go(c, SendClientKeyExchange)
    else GoWith(c, SendClientKeyExchange, Client, Certificate)
  }

  function DoSendClientKeyExchange(c: Machine, e: Env): (o: Outcome)
    requires c.state.SendClientKeyExchange?
    ensures o in Allowed(c)
  {
    FitsSimply(false, 11, [Item(Client, ClientKeyExchange)], 12);
    hide Fits, Place, Required;
    if !e.ok then Fail(c) else GoWith(c, SendClientCertificateVerify, Client, ClientKeyExchange)
  }

  function DoSendClientCertificateVerify(c: Machine, e: Env): (o: Outcome)
    requires c.state.SendClientCertificateVerify?
    ensures o in Allowed(c)
  {
    FitsSimply(false, 12, [], 13);
    FitsSimply(false, 12, [Item(Client, CertificateVerify)], 13);
    hide Fits, Place, Required;
    if !c.certRequest || !e.hasCertificate then Go(c, SendClientFinished)
    else if !e.ok then Fail(c)
    else if e.retry then Await(c, Callback)
    else GoWith(c, SendClientFinished, Client, CertificateVerify)
  }

  function Maybe(b: bool, p: Party, m: Message): Trace { if b then [Item(p, m)] else [] }

  function FinishItems(terms: Terms): Trace {
    [Item(Client, ChangeCipherSpec)] + [Item(Client, CipherChange)] + Maybe(terms.nextProto, Client, NextProto) +
    Maybe(terms.channelId, Client, ChannelId) + [Item(Client, Finished)]
  }

  lemma FinishFits(r: bool, terms: Terms)
    ensures Fits(r, if r then 9 else 13, FinishItems(terms), if r then 14 else 18)
  {
    hide Fits;
    var n := if r then 9 else 13;
    var ccs, keys, last := [Item(Client, ChangeCipherSpec)], [Item(Client, CipherChange)], [Item(Client, Finished)];
    var proto, channel := Maybe(terms.nextProto, Client, NextProto), Maybe(terms.channelId, Client, ChannelId);
    FitsSimply(r, n, ccs, n + 1);
    FitsSimply(r, n + 1, keys, n + 2);
    FitsSimply(r, n + 2, proto, n + 3);
    FitsSimply(r, n + 3, channel, n + 4);
    FitsSimply(r, n + 4, last, n + 5);
    hide *;
    FitsJoin(r, n, ccs, n + 1, keys, n + 2);
    FitsJoin(r, n, ccs + keys, n + 2, proto, n + 3);
    FitsJoin(r, n, ccs + keys + proto, n + 3, channel, n + 4);
    FitsJoin(r, n, ccs + keys + proto + channel, n + 4, last, n + 5);
    assert FinishItems(terms) == ccs + keys + proto + channel + last;
  }

  /** Keys, the optional messages and Finished go out together. */
  function SendFinish(c: Machine): (o: Outcome)
    requires c.state.SendClientFinished?
    ensures o in Allowed(c)
  {
    FinishFits(c.session, c.terms);
    hide Fits, FinishItems;
    Outcome(c.(state := FinishFlight, wait := Flush), FinishItems(c.terms))
  }

  /** The channel ID is looked up before anything is sent. */
  function DoSendClientFinished(c: Machine, e: Env): (o: Outcome)
    requires c.state.SendClientFinished?
    ensures o in Allowed(c)
  {
    if !e.ok then Fail(c)
    else if c.terms.channelId && e.retry then Await(c, Callback)
    else SendFinish(c)
  }

  function DoFinishFlight(c: Machine, e: Env): (o: Outcome)
    requires c.state.FinishFlight?
    ensures o in Allowed(c)
  {
    if c.session then Go(c, FinishClientHandshake)
    else if !e.ok then Fail(c)
    else Go(if e.falseStart then c.(wait := EarlyReturn) else c, ReadSessionTicket)
  }

  /** Then the server's ChangeCipherSpec is awaited, with its ticket or without. */
  function AwaitKeys(c: Machine, ticket: bool): (o: Outcome)
    requires c.state.ReadSessionTicket?
    ensures o in Allowed(c)
  {
    var k := if c.session then 5 else 18;
    FitsSimply(c.session, k, Maybe(ticket, Server, NewSessionTicket), k + 1);
    hide Fits, Place, Required;
    Outcome(c.(state := ProcessChangeCipherSpec, wait := ReadChangeCipherSpec), Maybe(ticket, Server, NewSessionTicket))
  }

  function DoReadSessionTicket(c: Machine, e: Env): (o: Outcome)
    requires c.state.ReadSessionTicket?
    ensures o in Allowed(c)
  {
    if !c.terms.ticketExpected then AwaitKeys(c, false)
    else if e.message.None? then Await(c, ReadMessage)
    else if !e.message.value.NewSessionTicket? || !e.ok then Fail(c)
    else AwaitKeys(c, true)
  }

  function DoProcessChangeCipherSpec(c: Machine, e: Env): (o: Outcome)
    requires c.state.ProcessChangeCipherSpec?
    ensures o in Allowed(c)
  {
    var k := if c.session then 7 else 20;
    FitsSimply(c.session, k, [Item(Server, CipherChange)], k + 1);
    hide Fits, Place, Required;
    if !e.ok then Fail(c) else GoWith(c, ReadServerFinished, Server, CipherChange)
  }

  function DoReadServerFinished(c: Machine, e: Env): (o: Outcome)
    requires c.state.ReadServerFinished?
    ensures o in Allowed(c)
  {
    var k := if c.session then 8 else 21;
    FitsSimply(c.session, k, [Item(Server, Finished)], k + 1);
    hide Fits, Place, Required;
    if e.message.None? then Await(c, ReadMessage)
    else if !e.message.value.Finished? || !e.ok then Fail(c)
    else if c.session then GoWith(c, SendClientFinished, Server, Finished)
    else GoWith(c, FinishClientHandshake, Server, Finished)
  }

  function DoFinishClientHandshake(c: Machine, e: Env): (o: Outcome)
    requires c.state.FinishClientHandshake?
    ensures o in Allowed(c)
  {
    if !e.ok then Fail(c) else Go(c, Done)
  }

  /** The body of the loop in ssl_client_handshake. */
  function Step(c: Machine, e: Env): (o: Outcome)
    requires !c.state.Done?
    ensures o in Allowed(c)
  {
    match c.state
    case StartConnect => DoStartConnect(c, e)
    case EnterEarlyData => DoEnterEarlyData(c, e)
    case ReadHelloVerifyRequest => DoReadHelloVerifyRequest(c, e)
    case ReadServerHello => DoReadServerHello(c, e)
    case Tls13 => DoTls13(c, e)
    case ReadServerCertificate => DoReadServerCertificate(c, e)
    case ReadCertificateStatus => DoReadCertificateStatus(c, e)
    case VerifyServerCertificate => DoVerifyServerCertificate(c, e)
    case ReadServerKeyExchange => DoReadServerKeyExchange(c, e)
    case ReadCertificateRequest => DoReadCertificateRequest(c, e)
    case ReadServerHelloDone => DoReadServerHelloDone(c, e)
    case SendClientCertificate => DoSendClientCertificate(c, e)
    case SendClientKeyExchange => DoSendClientKeyExchange(c, e)
    case SendClientCertificateVerify => DoSendClientCertificateVerify(c, e)
    case SendClientFinished => DoSendClientFinished(c, e)
    case FinishFlight => DoFinishFlight(c, e)
    case ReadSessionTicket => DoReadSessionTicket(c, e)
    case ProcessChangeCipherSpec => DoProcessChangeCipherSpec(c, e)
    case ReadServerFinished => DoReadServerFinished(c, e)
    case FinishClientHandshake => DoFinishClientHandshake(c, e)
  }
}
