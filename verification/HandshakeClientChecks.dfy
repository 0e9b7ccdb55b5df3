/**
 What a client's handshake has checked when it is finished: the states it has been through, the
 message that each of them accepted, and that no check or callback in it had failed.
 */
module HandshakeClientChecks {
  import opened Fragments
  import opened HandshakeFlow
  import opened HandshakeClient
  import opened HandshakeClientRuns

  // ----- when a state is left

  /** The server's message that the state is there for, as the terms have it. */
  function Awaited(m: Machine): Option<Message> {
    match m.state
    case ReadHelloVerifyRequest => Some(HelloVerifyRequest)
    case ReadServerHello => Some(ServerHello)
    case ReadServerCertificate => if m.terms.certAuth then Some(Certificate) else None
    case ReadCertificateStatus => if m.terms.statusExpected then Some(CertificateStatus) else None
    case ReadServerKeyExchange => Some(ServerKeyExchange)
    case ReadCertificateRequest => if m.terms.certAuth then Some(CertificateRequest) else None
    case ReadServerHelloDone => Some(ServerHelloDone)
    case ReadSessionTicket => if m.terms.ticketExpected then Some(NewSessionTicket) else None
    case ReadServerFinished => Some(Finished)
    case _ => None
  }

  /** Another message, x, may stand there instead: it is left to a later state. */
  predicate MayLack(m: Machine, x: Message) {
    || m.state.ReadHelloVerifyRequest?
    || m.state.ReadCertificateStatus?
    || (m.state.ReadServerKeyExchange? && !m.terms.needsKeyExchange)
    || (m.state.ReadCertificateRequest? && x.ServerHelloDone?)
  }

  /** The state has nothing to do under these terms. */
  predicate Idle(m: Machine, e: Env) {
    || (m.state.EnterEarlyData? && (m.dtls || !m.earlyOffered))
    || ((m.state.ReadServerCertificate? || m.state.VerifyServerCertificate? || m.state.ReadCertificateRequest?) &&
        !m.terms.certAuth)
    || (m.state.ReadCertificateStatus? && !m.terms.statusExpected)
    || (m.state.SendClientCertificate? && !m.certRequest)
    || (m.state.SendClientCertificateVerify? && !(m.certRequest && e.hasCertificate))
    || (m.state.FinishFlight? && m.session)
    || (m.state.ReadSessionTicket? && !m.terms.ticketExpected)
  }

  /** The application is asked, and may put the answer off. */
  predicate Asks(m: Machine, e: Env) {
    || m.state.Tls13? || m.state.VerifyServerCertificate? || m.state.SendClientCertificate?
    || m.state.SendClientCertificateVerify? || (m.state.SendClientFinished? && m.terms.channelId)
  }

  /** Every check succeeds and the application has answered; early data cannot go on before TLS 1.3. */
  predicate Passes(m: Machine, e: Env) {
    e.ok && !(Asks(m, e) && e.retry) && !(m.state.ReadServerHello? && m.earlyOffered && !e.tls13)
  }

  predicate Moves(m: Machine, e: Env) {
    match Awaited(m)
    case Some(x) => e.message.Some? && if e.message.value == x then Passes(m, e) else MayLack(m, e.message.value)
    case None => Idle(m, e) || Passes(m, e)
  }

  /** The Finished flight of the client, with the extensions that were agreed. */
  function LastFlight(terms: Terms): Trace {
    [Item(Client, ChangeCipherSpec), Item(Client, CipherChange)]
    + (if terms.nextProto then [Item(Client, NextProto)] else [])
    + (if terms.channelId then [Item(Client, ChannelId)] else [])
    + [Item(Client, Finished)]
  }

  /** What is accepted or sent when the state is left. */
  function Taken(m: Machine, e: Env): Trace {
    if Idle(m, e) || (m.state.ReadServerHello? && e.tls13) then []
    else if Awaited(m).Some? then
      if e.message != Awaited(m) then []
      else [Item(Server, Awaited(m).value)] +
           if m.state.ReadHelloVerifyRequest? then [Item(Client, RepeatedClientHello)] else []
    else
      match m.state
      case StartConnect => [Item(Client, ClientHello)]
      case EnterEarlyData => [Item(Client, EarlyChangeCipherSpec)]
      case SendClientCertificate => if e.ssl3 && !e.hasCertificate then [] else [Item(Client, Certificate)]
      case SendClientKeyExchange => [Item(Client, ClientKeyExchange)]
      case SendClientCertificateVerify => [Item(Client, CertificateVerify)]
      case SendClientFinished => LastFlight(m.terms)
      case ProcessChangeCipherSpec => [Item(Server, CipherChange)]
      case _ => []
  }

  /** The state after this one, in a handshake that resumes a session or does not. */
  function NextState(m: Machine, resumed: bool): State {
    match m.state
    case StartConnect => EnterEarlyData
    case EnterEarlyData => if m.dtls then ReadHelloVerifyRequest else ReadServerHello
    case ReadHelloVerifyRequest => ReadServerHello
    case ReadServerHello => if resumed then ReadSessionTicket else ReadServerCertificate
    case ReadServerCertificate => ReadCertificateStatus
    case ReadCertificateStatus => VerifyServerCertificate
    case VerifyServerCertificate => ReadServerKeyExchange
    case ReadServerKeyExchange => ReadCertificateRequest
    case ReadCertificateRequest => ReadServerHelloDone
    case ReadServerHelloDone => SendClientCertificate
    case SendClientCertificate => SendClientKeyExchange
    case SendClientKeyExchange => SendClientCertificateVerify
    case SendClientCertificateVerify => SendClientFinished
    case SendClientFinished => FinishFlight
    case FinishFlight => if resumed then FinishClientHandshake else ReadSessionTicket
    case ReadSessionTicket => ProcessChangeCipherSpec
    case ProcessChangeCipherSpec => ReadServerFinished
    case ReadServerFinished => if resumed then SendClientFinished else FinishClientHandshake
    case Tls13 => FinishClientHandshake
    case FinishClientHandshake => Done
    case Done => Done
  }

  /** What the driving loop has to do before the next state. */
  function WaitAfter(m: Machine, e: Env): Wait {
    match m.state
    case StartConnect => Flush
    case EnterEarlyData => if Idle(m, e) then Ok else EarlyReturn
    case ReadHelloVerifyRequest => if e.message == Some(HelloVerifyRequest) then Flush else Ok
    case SendClientFinished => Flush
    case FinishFlight => if !m.session && e.falseStart then EarlyReturn else Ok
    case ReadSessionTicket => ReadChangeCipherSpec
    case _ => Ok
  }

  function SessionAfter(m: Machine, e: Env): bool {
    m.session && (m.state.StartConnect? ==> e.sessionUsable) &&
    (m.state.ReadServerHello? && !e.tls13 ==> e.sameSession)
  }

  /** The whole machine after a state is left. */
  function Onward(m: Machine, e: Env): Machine {
    var modern := m.state.ReadServerHello? && e.tls13;
    Machine(
      if modern then State.Tls13 else NextState(m, SessionAfter(m, e)),
      WaitAfter(m, e),
      m.dtls,
      SessionAfter(m, e),
      if m.state.StartConnect? then e.earlyOffered else m.earlyOffered,
      m.certRequest || (m.state.ReadCertificateRequest? && m.terms.certAuth && e.message == Some(CertificateRequest)),
      if m.state.ReadServerHello? && !modern then e.terms else m.terms)
  }

  /** The machine stays where it is: a message is missing, the application asks for time, or a check failed. */
  ghost predicate Stays(m: Machine, e: Env, o: Outcome) {
    && o.items == [] && o.next == m.(wait := o.next.wait)
    && (o.next.wait == ReadMessage <==> Awaited(m).Some? && e.message.None?)
    && (o.next.wait == Callback ==> Asks(m, e) && e.retry)
    && (o.next.wait.ReadMessage? || o.next.wait.Callback? || o.next.wait.Error?)
  }

  /**
     A state is left exactly when the message it is there for was accepted, or may be lacking,
     and every check and callback in it succeeded; what happens then is settled.
   */
  ghost predicate Exact(m: Machine, e: Env) {
    m.wait.Ok? && !m.state.Done? ==>
      var o := Step(m, e);
      if Moves(m, e) then o == Outcome(Onward(m, e), Taken(m, e)) else Stays(m, e, o)
  }

  lemma {:induction false} StartIsExact(m: Machine, e: Env)
    requires m.state.StartConnect? || m.state.EnterEarlyData? || m.state.Tls13?
    ensures Exact(m, e)
  {
    hide Advances, Progress, Rank, Fits, At, LastFlight;
  }

  lemma {:induction false} VerifyRequestIsExact(m: Machine, e: Env)
    requires m.state.ReadHelloVerifyRequest?
    ensures Exact(m, e)
  {
    hide Advances, Progress, Rank, Fits, At, LastFlight;
  }

  lemma {:induction false} HelloIsExact(m: Machine, e: Env)
    requires m.state.ReadServerHello?
    ensures Exact(m, e)
  {
    hide Advances, Progress, Rank, Fits, At, LastFlight;
  }

  lemma {:induction false} CertificateIsExact(m: Machine, e: Env)
    requires m.state.ReadServerCertificate? || m.state.VerifyServerCertificate?
    ensures Exact(m, e)
  {
    hide Advances, Progress, Rank, Fits, At, LastFlight;
  }

  lemma {:induction false} StatusIsExact(m: Machine, e: Env)
    requires m.state.ReadCertificateStatus? || m.state.ReadServerHelloDone?
    ensures Exact(m, e)
  {
    hide Advances, Progress, Rank, Fits, At, LastFlight;
  }

  lemma {:induction false} KeyExchangeIsExact(m: Machine, e: Env)
    requires m.state.ReadServerKeyExchange? || m.state.ReadCertificateRequest?
    ensures Exact(m, e)
  {
    hide Advances, Progress, Rank, Fits, At, LastFlight;
  }

  lemma {:induction false} AnswerIsExact(m: Machine, e: Env)
    requires
      m.state.SendClientCertificate? || m.state.SendClientKeyExchange? || m.state.SendClientCertificateVerify?
    ensures Exact(m, e)
  {
    hide Advances, Progress, Rank, Fits, At, LastFlight;
  }

  lemma {:induction false} FlightsAreExact(m: Machine, e: Env)
    requires !BeforeHello(m.state) && !InKeyExchange(m.state) && !m.state.Tls13?
    ensures Exact(m, e)
  {
    hide Advances, Progress, Rank, Fits, At;
    if m.state.SendClientFinished? {
      FlightIsLast(m.terms);
    }
  }

  lemma {:induction false} FlightIsLast(terms: Terms)
    ensures FinishItems(terms) == LastFlight(terms)
  {
  }

  lemma {:induction false} StepIsExact(m: Machine, e: Env)
    ensures Exact(m, e)
  {
    hide Exact;
    match m.state
    case StartConnect | EnterEarlyData | Tls13 => StartIsExact(m, e);
    case ReadHelloVerifyRequest => VerifyRequestIsExact(m, e);
    case ReadServerHello => HelloIsExact(m, e);
    case ReadServerCertificate | VerifyServerCertificate => CertificateIsExact(m, e);
    case ReadCertificateStatus | ReadServerHelloDone => StatusIsExact(m, e);
    case ReadServerKeyExchange | ReadCertificateRequest => KeyExchangeIsExact(m, e);
    case SendClientCertificate | SendClientKeyExchange | SendClientCertificateVerify => AnswerIsExact(m, e);
    case _ => FlightsAreExact(m, e);
  }

  // ----- the states of a run

  /** A state that was left, with the machine as it was in it and what it met. */
  datatype Passed = Passed(m: Machine, e: Env)

  function DriveLog(env: (nat, Machine) -> Env, c: Conn): seq<Passed>
    requires c.machine.wait.Ok?
    decreases Rank(c.machine.state, c.machine.session)
  {
    if c.machine.state.Done? then []
    else
      var e := env(c.clock, c.machine);
      var d := After(c, Step(c.machine, e));
      (if d.machine.state != c.machine.state then [Passed(c.machine, e)] else []) +
      if d.machine.wait.Ok? then DriveLog(env, d) else []
  }

  function TurnLog(env: (nat, Machine) -> Env, c: Conn, io: bool): seq<Passed> {
    var go := c.(machine := c.machine.(wait := Ok));
    match c.machine.wait
    case Flush => if io then DriveLog(env, go) else []
    case ReadMessage => if io then DriveLog(env, go) else []
    case ReadChangeCipherSpec =>
      if io then DriveLog(env, go.(trace := c.trace + [Item(Server, ChangeCipherSpec)])) else []
    case Ok => DriveLog(env, c)
    case _ => []
  }

  /** The states left in a run, in order. */
  function RunLog(env: (nat, Machine) -> Env, c: Conn, io: seq<bool>): seq<Passed>
    decreases |io|
  {
    if io == [] then [] else TurnLog(env, c, io[0]) + RunLog(env, Turn(env, c, io[0]), io[1..])
  }

  /** The states of a handshake of one kind. */
  predicate OnPath(s: State, dtls: bool, resumed: bool) {
    !s.Tls13? && (s.ReadHelloVerifyRequest? ==> dtls) && (InKeyExchange(s) ==> !resumed)
  }

  /** How many states come before this one. */
  function Index(s: State, dtls: bool, resumed: bool): nat {
    var hello := if dtls then 3 else 2;
    match s
    case StartConnect => 0
    case EnterEarlyData => 1
    case ReadHelloVerifyRequest => 2
    case ReadServerHello => hello
    case ReadServerCertificate => hello + 1
    case ReadCertificateStatus => hello + 2
    case VerifyServerCertificate => hello + 3
    case ReadServerKeyExchange => hello + 4
    case ReadCertificateRequest => hello + 5
    case ReadServerHelloDone => hello + 6
    case SendClientCertificate => hello + 7
    case SendClientKeyExchange => hello + 8
    case SendClientCertificateVerify => hello + 9
    case SendClientFinished => hello + if resumed then 4 else 10
    case FinishFlight => hello + if resumed then 5 else 11
    case ReadSessionTicket => hello + if resumed then 1 else 12
    case ProcessChangeCipherSpec => hello + if resumed then 2 else 13
    case ReadServerFinished => hello + if resumed then 3 else 14
    case FinishClientHandshake => hello + if resumed then 6 else 15
    case Done => hello + if resumed then 7 else 16
    case Tls13 => 0
  }

  /** What the states of the log accepted and sent; the server's ChangeCipherSpec comes before its keys. */
  function Given(p: Passed): Trace {
    (if p.m.state.ProcessChangeCipherSpec? then [Item(Server, ChangeCipherSpec)] else []) + Taken(p.m, p.e)
  }

  function LogTrace(log: seq<Passed>): Trace {
    if log == [] then [] else LogTrace(log[..|log| - 1]) + Given(log[|log| - 1])
  }

  /** The ChangeCipherSpec that has come in while the keys have not changed. */
  function Half(m: Machine): Trace {
    if m.state.ProcessChangeCipherSpec? && !m.wait.ReadChangeCipherSpec? then [Item(Server, ChangeCipherSpec)] else []
  }

  /** Entry i is state i of the path, was left rightly, and after ServerHello under the terms of now. */
  ghost predicate EntryOk(log: seq<Passed>, i: nat, m: Machine)
    requires i < |log|
  {
    var p := log[i];
    && OnPath(p.m.state, m.dtls, m.session) && Index(p.m.state, m.dtls, m.session) == i
    && p.m.dtls == m.dtls && Moves(p.m, p.e)
    && (!BeforeHello(p.m.state) ==> p.m.terms == m.terms && p.m.session == m.session)
  }

  /** The log leads to the connection: every state before its state, once and in order. */
  ghost predicate Logged(c: Conn, log: seq<Passed>) {
    var m := c.machine;
    && OnPath(m.state, m.dtls, m.session)
    && (m.wait.ReadChangeCipherSpec? ==> m.state.ProcessChangeCipherSpec?)
    && |log| == Index(m.state, m.dtls, m.session)
    && (forall i: nat | i < |log| :: EntryOk(log, i, m))
    && c.trace == LogTrace(log) + Half(m)
  }

  ghost predicate LogInv(c: Conn, log: seq<Passed>) {
    c.machine.wait.Error? || c.modern || Logged(c, log)
  }

  lemma {:induction false} OnwardIsNext(m: Machine, e: Env)
    requires OnPath(m.state, m.dtls, m.session) && !m.state.Done?
    ensures Onward(m, e).state != m.state
    ensures var n := Onward(m, e);
      n.state.Tls13? ||
      (&& OnPath(n.state, n.dtls, n.session) && n.dtls == m.dtls
       && Index(n.state, n.dtls, n.session) == Index(m.state, m.dtls, m.session) + 1
       && (n.state.ProcessChangeCipherSpec? <==> n.wait.ReadChangeCipherSpec?)
       && (!BeforeHello(m.state) ==> n.session == m.session && n.terms == m.terms)
       && (BeforeHello(m.state) ==> Index(m.state, n.dtls, n.session) == Index(m.state, m.dtls, m.session)))
  {
  }

  lemma {:induction false} EntriesStay(log: seq<Passed>, m: Machine, n: Machine, p: Passed)
    requires forall i: nat | i < |log| :: EntryOk(log, i, m)
    requires n.dtls == m.dtls && |log| == Index(m.state, m.dtls, m.session) && OnPath(m.state, m.dtls, m.session)
    requires if BeforeHello(m.state) then true else n.session == m.session && n.terms == m.terms
    requires p.m == m && Moves(p.m, p.e)
    requires BeforeHello(m.state) ==> Index(m.state, n.dtls, n.session) == Index(m.state, m.dtls, m.session)
    ensures forall i: nat | i < |log| + 1 :: EntryOk(log + [p], i, n)
  {
    hide Moves;
    forall i: nat | i < |log| + 1
      ensures EntryOk(log + [p], i, n)
    {
      if i < |log| {
        assert EntryOk(log, i, m);
        if BeforeHello(m.state) {
          EarlyEntry(log[i].m.state, m, n, i);
        }
      }
    }
  }

  /** Before ServerHello the path does not depend on the kind of the handshake. */
  lemma {:induction false} EarlyEntry(s: State, m: Machine, n: Machine, i: nat)
    requires BeforeHello(m.state) && n.dtls == m.dtls && i < Index(m.state, m.dtls, m.session)
    requires OnPath(s, m.dtls, m.session) && Index(s, m.dtls, m.session) == i
    ensures BeforeHello(s) && OnPath(s, n.dtls, n.session) && Index(s, n.dtls, n.session) == i
  {
  }

  lemma {:induction false} LogTraceGrows(log: seq<Passed>, p: Passed)
    ensures LogTrace(log + [p]) == LogTrace(log) + Given(p)
  {
    hide Given;
    assert (log + [p])[..|log|] == log;
  }

  lemma {:induction false} StepKeepsLog(c: Conn, log: seq<Passed>, e: Env)
    requires Logged(c, log) && c.machine.wait.Ok? && !c.machine.state.Done?
    ensures var d := After(c, Step(c.machine, e));
      LogInv(d, if d.machine.state != c.machine.state then log + [Passed(c.machine, e)] else log)
  {
    var m := c.machine;
    StepIsExact(m, e);
    PathGoesOn(c, log, e);
    hide Step, Index, OnPath, Moves, Taken, Onward, EntryOk, Logged;
    if Moves(m, e) {
      if !Onward(m, e).state.Tls13? {
        MovedIsLogged(c, log, e);
      }
    } else {
      WaitIsLogged(c, log, Step(m, e));
    }
  }

  lemma {:induction false} PathGoesOn(c: Conn, log: seq<Passed>, e: Env)
    requires Logged(c, log) && !c.machine.state.Done?
    ensures Onward(c.machine, e).state != c.machine.state
  {
    hide Onward, EntryOk, LogTrace;
    OnwardIsNext(c.machine, e);
  }

  lemma {:induction false} MovedIsLogged(c: Conn, log: seq<Passed>, e: Env)
    requires Logged(c, log) && c.machine.wait.Ok? && !c.machine.state.Done?
    requires Moves(c.machine, e) && !Onward(c.machine, e).state.Tls13?
    ensures Logged(After(c, Outcome(Onward(c.machine, e), Taken(c.machine, e))), log + [Passed(c.machine, e)])
  {
    var (m, p) := (c.machine, Passed(c.machine, e));
    OnwardIsNext(m, e);
    hide Index, OnPath, Moves, Taken, Onward, EntryOk;
    EntriesStay(log, m, Onward(m, e), p);
    LogTraceGrows(log, p);
    hide LogTrace;
    TraceGrows(LogTrace(log), Half(m), Taken(m, e), Given(p));
  }

  lemma {:induction false} WaitIsLogged(c: Conn, log: seq<Passed>, o: Outcome)
    requires Logged(c, log) && c.machine.wait.Ok? && o.items == [] && o.next == c.machine.(wait := o.next.wait)
    requires !o.next.wait.ReadChangeCipherSpec?
    ensures Logged(After(c, o), log)
  {
    hide Index, OnPath, EntryOk, LogTrace;
    EntriesWait(log, c.machine, o.next);
    assert c.trace + [] == c.trace;
  }

  lemma {:induction false} EntriesWait(log: seq<Passed>, m: Machine, n: Machine)
    requires n == m.(wait := n.wait) && forall i: nat | i < |log| :: EntryOk(log, i, m)
    ensures forall i: nat | i < |log| :: EntryOk(log, i, n)
  {
    hide Moves, OnPath, Index;
    forall i: nat | i < |log|
      ensures EntryOk(log, i, n)
    {
      assert EntryOk(log, i, m);
    }
  }

  lemma {:induction false} TraceGrows(t: Trace, half: Trace, taken: Trace, given: Trace)
    requires given == half + taken
    ensures (t + half) + taken == t + given == t + given + []
  {
  }

  // ----- every run

  lemma {:induction false} WithoutChange(c: Conn, log: seq<Passed>)
    requires Logged(c, log) && !c.machine.wait.ReadChangeCipherSpec?
    ensures Logged(c.(machine := c.machine.(wait := Ok)), log)
  {
    hide EntryOk, OnPath, Index, LogTrace;
    EntriesWait(log, c.machine, c.machine.(wait := Ok));
  }

  lemma {:induction false} WithChange(c: Conn, log: seq<Passed>)
    requires Logged(c, log) && c.machine.wait.ReadChangeCipherSpec?
    ensures Logged(c.(machine := c.machine.(wait := Ok), trace := c.trace + [Item(Server, ChangeCipherSpec)]), log)
  {
    hide EntryOk, OnPath, Index, LogTrace;
    EntriesWait(log, c.machine, c.machine.(wait := Ok));
    assert c.trace == LogTrace(log);
  }

  lemma {:induction false} DriveKeepsLog(env: (nat, Machine) -> Env, c: Conn, log: seq<Passed>)
    requires LogInv(c, log) && c.machine.wait.Ok?
    ensures LogInv(Drive(env, c), log + DriveLog(env, c))
    ensures c.modern ==> Drive(env, c).modern
    decreases Rank(c.machine.state, c.machine.session)
  {
    hide Logged, Step, Rank;
    assert log + [] == log;
    if !c.machine.state.Done? {
      var e := env(c.clock, c.machine);
      var d := After(c, Step(c.machine, e));
      var one := if d.machine.state != c.machine.state then [Passed(c.machine, e)] else [];
      if !c.modern {
        StepKeepsLog(c, log, e);
      }
      if d.machine.wait.Ok? {
        DriveKeepsLog(env, d, log + one);
        assert log + one + DriveLog(env, d) == log + (one + DriveLog(env, d));
      } else {
        assert one + [] == one;
      }
    }
  }

  lemma {:induction false} TurnKeepsLog(env: (nat, Machine) -> Env, c: Conn, log: seq<Passed>, io: bool)
    requires LogInv(c, log)
    ensures LogInv(Turn(env, c, io), log + TurnLog(env, c, io))
  {
    hide Logged, Drive, DriveLog;
    assert log + [] == log;
    var go := c.(machine := c.machine.(wait := Ok));
    if !c.machine.wait.Error? {
      if c.machine.wait.ReadChangeCipherSpec? {
        if io {
          if !c.modern { WithChange(c, log); }
          DriveKeepsLog(env, go.(trace := c.trace + [Item(Server, ChangeCipherSpec)]), log);
        }
      } else {
        if !c.modern { WithoutChange(c, log); }
        DriveKeepsLog(env, go, log);
      }
    }
  }

  lemma {:induction false} RunKeepsLog(env: (nat, Machine) -> Env, c: Conn, log: seq<Passed>, io: seq<bool>)
    requires LogInv(c, log)
    ensures LogInv(Run(env, c, io), log + RunLog(env, c, io))
    decreases |io|
  {
    hide LogInv, Turn, TurnLog;
    if io == [] {
      assert log + [] == log;
    } else {
      var more := TurnLog(env, c, io[0]);
      TurnKeepsLog(env, c, log, io[0]);
      RunKeepsLog(env, Turn(env, c, io[0]), log + more, io[1..]);
      var rest := RunLog(env, Turn(env, c, io[0]), io[1..]);
      assert log + more + rest == log + (more + rest);
    }
  }

  /**
     A client that has finished without TLS 1.3 has been through every state of its kind of
     handshake, once and in order, has left each only when its message was accepted and its checks
     and callbacks had succeeded, and its messages are those of the states.
   */
  ghost predicate ThroughEveryState(c: Conn, log: seq<Passed>) {
    c.machine.state.Done? && c.machine.wait.Ok? && !c.modern ==>
      var m := c.machine;
      && |log| == Index(State.Done, m.dtls, m.session)
      && (forall i: nat | i < |log| :: EntryOk(log, i, m))
      && c.trace == LogTrace(log)
  }

  lemma {:induction false} EveryStateIsPassed(env: (nat, Machine) -> Env, dtls: bool, session: bool, io: seq<bool>)
    ensures var start := Connect(dtls, session); ThroughEveryState(Run(env, start, io), RunLog(env, start, io))
  {
    var start := Connect(dtls, session);
    StartsLogged(start);
    hide Run, RunLog, LogInv, ThroughEveryState, Step, Drive, Turn;
    RunKeepsLog(env, start, [], io);
    NothingBefore(RunLog(env, start, io));
    LoggedIsThrough(Run(env, start, io), RunLog(env, start, io));
  }

  lemma {:induction false} NothingBefore(log: seq<Passed>)
    ensures [] + log == log
  {
  }

  lemma {:induction false} StartsLogged(c: Conn)
    requires c.machine.state.StartConnect? && c.machine.wait.Ok? && c.trace == []
    ensures LogInv(c, [])
  {
  }

  lemma {:induction false} LoggedIsThrough(c: Conn, log: seq<Passed>)
    requires LogInv(c, log)
    ensures ThroughEveryState(c, log)
  {
    hide EntryOk, OnPath, LogTrace;
    assert LogTrace(log) + [] == LogTrace(log);
  }

  /** Item x of the trace was accepted from the server in a state that had passed its checks. */
  ghost predicate AcceptedChecked(log: seq<Passed>, x: Message) {
    exists p :: p in log && Awaited(p.m) == Some(x) && p.e.message == Some(x) && p.e.ok
  }

  /** The state was passed, with its checks and its callback. */
  ghost predicate PassedChecked(log: seq<Passed>, s: State) {
    exists p :: p in log && p.m.state == s && p.e.ok && !(Asks(p.m, p.e) && p.e.retry)
  }

  predicate OfServer(x: Item) {
    x.from.Server? && !x.message.ChangeCipherSpec? && !x.message.CipherChange?
  }

  lemma {:induction false} TakenChecked(p: Passed, x: Item)
    requires Moves(p.m, p.e) && x in Given(p) && OfServer(x)
    ensures Awaited(p.m) == Some(x.message) && p.e.message == Some(x.message) && p.e.ok
  {
  }

  lemma {:induction false} LoggedIsChecked(log: seq<Passed>, x: Item)
    requires forall p | p in log :: Moves(p.m, p.e)
    requires x in LogTrace(log) && OfServer(x)
    ensures AcceptedChecked(log, x.message)
    decreases |log|
  {
    hide Moves, Given, Awaited;
    var before, p := log[..|log| - 1], log[|log| - 1];
    if x in LogTrace(before) {
      LoggedIsChecked(before, x);
      var q :| q in before && Awaited(q.m) == Some(x.message) && q.e.message == Some(x.message) && q.e.ok;
      assert q in log;
    } else {
      TakenChecked(p, x);
      assert p in log;
    }
  }

  /** Every state of the path is in the log. */
  lemma {:induction false} StateIsInLog(c: Conn, log: seq<Passed>, s: State)
    requires ThroughEveryState(c, log) && c.machine.state.Done? && c.machine.wait.Ok? && !c.modern
    requires OnPath(s, c.machine.dtls, c.machine.session) && !s.Done?
    ensures var i := Index(s, c.machine.dtls, c.machine.session); i < |log| && EntryOk(log, i, c.machine)
    ensures log[Index(s, c.machine.dtls, c.machine.session)].m.state == s
  {
    var m := c.machine;
    hide Moves, LogTrace;
    var i := Index(s, m.dtls, m.session);
    assert i < |log|;
    assert EntryOk(log, i, m);
    OneState(s, log[i].m.state, m.dtls, m.session);
  }

  lemma {:induction false} OneState(s: State, t: State, dtls: bool, resumed: bool)
    requires OnPath(s, dtls, resumed) && OnPath(t, dtls, resumed) && Index(s, dtls, resumed) == Index(t, dtls, resumed)
    ensures s == t
  {
  }

  /**
     So whatever a finished client accepted from the server had passed its check: every message,
     the Finished among them, and in a handshake that authenticates by certificate the
     certificate, verified.
   */
  lemma {:induction false} ClientHasChecked(env: (nat, Machine) -> Env, dtls: bool, session: bool, io: seq<bool>)
    requires var c := Run(env, Connect(dtls, session), io);
      c.machine.state.Done? && c.machine.wait.Ok? && !c.modern
    ensures var (c, log) := (Run(env, Connect(dtls, session), io), RunLog(env, Connect(dtls, session), io));
      && (forall x | x in c.trace && OfServer(x) :: AcceptedChecked(log, x.message))
      && AcceptedChecked(log, ServerHello) && AcceptedChecked(log, Finished)
      && (!c.machine.session && c.machine.terms.certAuth ==>
            AcceptedChecked(log, Certificate) && PassedChecked(log, VerifyServerCertificate))
      && (!c.machine.session && c.machine.terms.needsKeyExchange ==> AcceptedChecked(log, ServerKeyExchange))
      && (c.machine.terms.ticketExpected ==> AcceptedChecked(log, NewSessionTicket))
  {
    var c, log := Run(env, Connect(dtls, session), io), RunLog(env, Connect(dtls, session), io);
    EveryStateIsPassed(env, dtls, session, io);
    hide Run, RunLog;
    AllMove(c, log);
    forall x | x in c.trace && OfServer(x)
      ensures AcceptedChecked(log, x.message)
    {
      LoggedIsChecked(log, x);
    }
    MustBeAccepted(c, log);
  }

  lemma {:induction false} AllMove(c: Conn, log: seq<Passed>)
    requires ThroughEveryState(c, log) && c.machine.state.Done? && c.machine.wait.Ok? && !c.modern
    ensures c.trace == LogTrace(log) && forall p | p in log :: Moves(p.m, p.e)
  {
    hide Moves, LogTrace, OnPath, Index;
    forall p | p in log
      ensures Moves(p.m, p.e)
    {
      var i: nat :| i < |log| && log[i] == p;
      assert EntryOk(log, i, c.machine);
    }
  }

  lemma {:induction false} MustBeAccepted(c: Conn, log: seq<Passed>)
    requires ThroughEveryState(c, log) && c.machine.state.Done? && c.machine.wait.Ok? && !c.modern
    ensures AcceptedChecked(log, ServerHello) && AcceptedChecked(log, Finished)
    ensures c.machine.terms.ticketExpected ==> AcceptedChecked(log, NewSessionTicket)
    ensures !c.machine.session && c.machine.terms.needsKeyExchange ==> AcceptedChecked(log, ServerKeyExchange)
    ensures !c.machine.session && c.machine.terms.certAuth ==>
      AcceptedChecked(log, Certificate) && PassedChecked(log, VerifyServerCertificate)
  {
    hide ThroughEveryState, AcceptedChecked, PassedChecked;
    AcceptedIn(c, log, ReadServerHello);
    AcceptedIn(c, log, ReadServerFinished);
    if c.machine.terms.ticketExpected {
      AcceptedIn(c, log, ReadSessionTicket);
    }
    if !c.machine.session && c.machine.terms.needsKeyExchange {
      AcceptedIn(c, log, ReadServerKeyExchange);
    }
    if !c.machine.session && c.machine.terms.certAuth {
      AcceptedIn(c, log, ReadServerCertificate);
      VerifiedIn(c, log);
    }
  }

  /** A message that the final terms ask for has been accepted in its state. */
  lemma {:induction false} AcceptedIn(c: Conn, log: seq<Passed>, s: State)
    requires ThroughEveryState(c, log) && c.machine.state.Done? && c.machine.wait.Ok? && !c.modern
    requires OnPath(s, c.machine.dtls, c.machine.session)
    requires Awaited(c.machine.(state := s)).Some? && forall x :: !MayLack(c.machine.(state := s), x)
    ensures AcceptedChecked(log, Awaited(c.machine.(state := s)).value)
  {
    var m := c.machine;
    StateIsInLog(c, log, s);
    var i := Index(s, m.dtls, m.session);
    hide ThroughEveryState, Index, OnPath;
    var p := log[i];
    assert p in log;
    assert Awaited(p.m) == Awaited(m.(state := s));
    assert p.e.message.Some?;
    assert !MayLack(m.(state := s), p.e.message.value);
  }

  lemma {:induction false} VerifiedIn(c: Conn, log: seq<Passed>)
    requires ThroughEveryState(c, log) && c.machine.state.Done? && c.machine.wait.Ok? && !c.modern
    requires !c.machine.session && c.machine.terms.certAuth
    ensures PassedChecked(log, VerifyServerCertificate)
  {
    var m := c.machine;
    StateIsInLog(c, log, VerifyServerCertificate);
    var i := Index(VerifyServerCertificate, m.dtls, m.session);
    hide ThroughEveryState, Index, OnPath;
    assert log[i] in log;
  }
}
