/**
 What a server's handshake has checked when it is finished: the states it has been through, the
 message that each of them accepted, and that no check or callback in it had failed.
 */
module HandshakeServerChecks {
  import opened Fragments
  import opened HandshakeFlow
  import opened HandshakeServer
  import opened HandshakeServerRuns

  // ----- when a state is left

  /** The client's message that the state consumes, as the terms have it. */
  function Awaited(m: Machine): Option<Message> {
    match m.state
    case ReadClientCertificate => if m.certRequest then Some(Certificate) else None
    case ReadClientKeyExchange => Some(ClientKeyExchange)
    case ReadClientCertificateVerify => if m.peerKey then Some(CertificateVerify) else None
    case ReadNextProto => if m.terms.nextProto then Some(NextProto) else None
    case ReadChannelId => if m.terms.channelId then Some(ChannelId) else None
    case ReadClientFinished => Some(Finished)
    case _ => None
  }

  /** Three states look at the ClientHello before it is done with. */
  predicate LooksAtHello(s: State) {
    s.ReadClientHello? || s.SelectCertificate? || s.SelectParameters?
  }

  /** In SSL 3.0 the next message may come in place of a certificate. */
  predicate MayLack(m: Machine, e: Env, x: Message) {
    m.state.ReadClientCertificate? && e.ssl3 && x.ClientKeyExchange?
  }

  /** The state has nothing to do under these terms. */
  predicate Idle(m: Machine) {
    || m.state.StartAccept? || m.state.ReadChangeCipherSpecRecord? || m.state.FinishServerHandshake?
    || (m.state.SendServerKeyExchange? && !m.parameters)
    || (m.state.ReadClientCertificate? && !m.certRequest)
    || ((m.state.VerifyClientCertificate? || m.state.ReadClientCertificateVerify?) && !m.peerKey)
    || (m.state.ReadNextProto? && !m.terms.nextProto)
    || (m.state.ReadChannelId? && !m.terms.channelId)
  }

  /** The application is asked, and may put the answer off. */
  predicate Asks(m: Machine) {
    || LooksAtHello(m.state) || m.state.Tls13? || m.state.SendServerKeyExchange?
    || m.state.VerifyClientCertificate? || m.state.ReadClientKeyExchange?
  }

  /** Every check succeeds and the application has answered. */
  predicate Passes(m: Machine, e: Env) {
    e.ok && !(Asks(m) && e.retry)
  }

  predicate Moves(m: Machine, e: Env) {
    if LooksAtHello(m.state) then
      e.message.Some? && (m.state.ReadClientHello? ==> e.message.value.ClientHello?) && Passes(m, e)
    else
      match Awaited(m)
      case Some(x) => e.message.Some? && (e.message.value == x || MayLack(m, e, e.message.value)) && Passes(m, e)
      case None => Idle(m) || Passes(m, e)
  }

  /** The server's flight up to its Finished. */
  function LastFlight(terms: Terms): Trace {
    (if terms.ticketExpected then [Item(Server, NewSessionTicket)] else [])
    + [Item(Server, ChangeCipherSpec), Item(Server, CipherChange), Item(Server, Finished)]
  }

  /** What is accepted or sent when the state is left. */
  function Taken(m: Machine, e: Env): Trace {
    if Idle(m) then []
    else if Awaited(m).Some? then
      if e.message == Awaited(m) then [Item(Client, Awaited(m).value)] else []
    else
      match m.state
      case SelectParameters => [Item(Client, ClientHello)]
      case SendServerHello => [Item(Server, ServerHello)]
      case SendServerCertificate =>
        (if m.terms.certAuth then [Item(Server, Certificate)] else []) +
        (if m.terms.certAuth && m.terms.statusExpected then [Item(Server, CertificateStatus)] else [])
      case SendServerKeyExchange => [Item(Server, ServerKeyExchange)]
      case SendServerHelloDone =>
        (if m.certRequest then [Item(Server, CertificateRequest)] else []) + [Item(Server, ServerHelloDone)]
      case ProcessChangeCipherSpec => [Item(Client, CipherChange)]
      case SendServerFinished => LastFlight(m.terms)
      case _ => []
  }

  /** The state after this one, in a handshake that resumes a session or does not. */
  function NextState(s: State, resumed: bool): State {
    match s
    case StartAccept => ReadClientHello
    case ReadClientHello => SelectCertificate
    case SelectCertificate => SelectParameters
    case SelectParameters => SendServerHello
    case SendServerHello => if resumed then SendServerFinished else SendServerCertificate
    case SendServerCertificate => SendServerKeyExchange
    case SendServerKeyExchange => SendServerHelloDone
    case SendServerHelloDone => ReadClientCertificate
    case ReadClientCertificate => VerifyClientCertificate
    case VerifyClientCertificate => ReadClientKeyExchange
    case ReadClientKeyExchange => ReadClientCertificateVerify
    case ReadClientCertificateVerify => ReadChangeCipherSpecRecord
    case ReadChangeCipherSpecRecord => ProcessChangeCipherSpec
    case ProcessChangeCipherSpec => ReadNextProto
    case ReadNextProto => ReadChannelId
    case ReadChannelId => ReadClientFinished
    case ReadClientFinished => if resumed then FinishServerHandshake else SendServerFinished
    case SendServerFinished => if resumed then ReadChangeCipherSpecRecord else FinishServerHandshake
    case Tls13 => FinishServerHandshake
    case FinishServerHandshake => Done
    case Done => Done
  }

  /** What the driving loop has to do before the next state. */
  function WaitAfter(m: Machine): Wait {
    match m.state
    case SendServerHelloDone => Flush
    case SendServerFinished => Flush
    case ReadChangeCipherSpecRecord => ReadChangeCipherSpec
    case _ => Ok
  }

  function TermsAfter(m: Machine, e: Env): Terms {
    if m.state.SelectParameters? then e.terms
    else if m.state.SendServerHello? && e.dropChannelId then m.terms.(channelId := false)
    else m.terms
  }

  /** The whole machine after a state is left. */
  function Onward(m: Machine, e: Env): Machine {
    var session := if m.state.SelectParameters? then e.sessionFound else m.session;
    Machine(
      if m.state.SelectCertificate? && e.tls13 then State.Tls13 else NextState(m.state, session),
      WaitAfter(m),
      session,
      if m.state.SelectParameters? && !e.sessionFound then e.requestCertificate && e.terms.certAuth else m.certRequest,
      if m.state.SendServerCertificate? then e.parameters else m.parameters && !m.state.SendServerKeyExchange?,
      if m.state.ReadClientCertificate? && m.certRequest && e.message == Some(Certificate) then e.certificatePresent
      else m.peerKey,
      TermsAfter(m, e))
  }

  /** The machine stays where it is: a message is missing, the application asks for time, or a check failed. */
  ghost predicate Stays(m: Machine, e: Env, o: Outcome) {
    && o.items == [] && o.next == m.(wait := o.next.wait)
    && (o.next.wait == ReadMessage <==> (LooksAtHello(m.state) || Awaited(m).Some?) && e.message.None?)
    && (o.next.wait == Callback ==> Asks(m) && e.retry)
    && (o.next.wait.ReadMessage? || o.next.wait.Callback? || o.next.wait.Error?)
  }

  /**
     A state is left exactly when the message it is there for was accepted, or may be lacking,
     and every check and callback in it succeeded; what happens then is settled.
   */
  ghost predicate Exact(m: Machine, e: Env) {
    m.wait.Ok? && !m.state.Done? ==>
      var o := Step(m, e);
      if Moves(m, e) then o == Outcome(Onward(m, e), Taken(m, e)) else Stays(m, e, o)
  }

  lemma {:induction false} HelloIsExact(m: Machine, e: Env)
    requires LooksAtHello(m.state)
    ensures Exact(m, e)
  {
    hide Advances, Progress, Rank, Fits, At, LastFlight;
  }

  lemma {:induction false} StartIsExact(m: Machine, e: Env)
    requires m.state.StartAccept? || m.state.Tls13?
    ensures Exact(m, e)
  {
    hide Advances, Progress, Rank, Fits, At, LastFlight;
  }

  lemma {:induction false} ServerFlightIsExact(m: Machine, e: Env)
    requires m.state.SendServerHello? || m.state.SendServerCertificate?
    ensures Exact(m, e)
  {
    hide Advances, Progress, Rank, Fits, At, LastFlight;
  }

  lemma {:induction false} KeyExchangeIsExact(m: Machine, e: Env)
    requires m.state.SendServerKeyExchange? || m.state.SendServerHelloDone?
    ensures Exact(m, e)
  {
    hide Advances, Progress, Rank, Fits, At, LastFlight;
  }

  lemma {:induction false} CertificateIsExact(m: Machine, e: Env)
    requires m.state.ReadClientCertificate? || m.state.VerifyClientCertificate?
    ensures Exact(m, e)
  {
    hide Advances, Progress, Rank, Fits, At, LastFlight;
  }

  lemma {:induction false} ClientKeysAreExact(m: Machine, e: Env)
    requires m.state.ReadClientKeyExchange? || m.state.ReadClientCertificateVerify?
    ensures Exact(m, e)
  {
    hide Advances, Progress, Rank, Fits, At, LastFlight;
  }

  lemma {:induction false} NextProtoIsExact(m: Machine, e: Env)
    requires m.state.ReadNextProto?
    ensures Exact(m, e)
  {
    hide Advances, Progress, Rank, Fits, At, LastFlight;
  }

  lemma {:induction false} ChannelIdIsExact(m: Machine, e: Env)
    requires m.state.ReadChannelId?
    ensures Exact(m, e)
  {
    hide Advances, Progress, Rank, Fits, At, LastFlight;
  }

  lemma {:induction false} FinishIsExact(m: Machine, e: Env)
    requires
      || m.state.ReadChangeCipherSpecRecord? || m.state.ProcessChangeCipherSpec? || m.state.ReadClientFinished?
      || m.state.SendServerFinished? || m.state.FinishServerHandshake? || m.state.Done?
    ensures Exact(m, e)
  {
    hide Advances, Progress, Rank, Fits, At;
    if m.state.SendServerFinished? {
      FlightIsLast(m.terms);
    }
  }

  lemma {:induction false} FlightIsLast(terms: Terms)
    ensures FinishItems(terms) == LastFlight(terms)
  {
  }

  lemma {:induction false} StepIsExact(m: Machine, e: Env)
    ensures Exact(m, e)
  {
    hide Exact;
    match m.state
    case StartAccept | Tls13 => StartIsExact(m, e);
    case ReadClientHello | SelectCertificate | SelectParameters => HelloIsExact(m, e);
    case SendServerHello | SendServerCertificate => ServerFlightIsExact(m, e);
    case SendServerKeyExchange | SendServerHelloDone => KeyExchangeIsExact(m, e);
    case ReadClientCertificate | VerifyClientCertificate => CertificateIsExact(m, e);
    case ReadClientKeyExchange | ReadClientCertificateVerify => ClientKeysAreExact(m, e);
    case ReadNextProto => NextProtoIsExact(m, e);
    case ReadChannelId => ChannelIdIsExact(m, e);
    case _ => FinishIsExact(m, e);
  }

  // ----- the states of a run

  /** A state that was left, with the machine as it was in it and what it met. */
  datatype Passed = Passed(m: Machine, e: Env)

  function DriveLog(env: (nat, Machine) -> Env, c: Conn): seq<Passed>
    requires c.machine.wait.Ok?
    decreases Rank(c.machine.state, c.machine.session)
  {
    if c.machine.state.Done? then []
    else
      var e := env(c.clock, c.machine);
      var d := After(c, Step(c.machine, e));
      (if d.machine.state != c.machine.state then [Passed(c.machine, e)] else []) +
      if d.machine.wait.Ok? then DriveLog(env, d) else []
  }

  function TurnLog(env: (nat, Machine) -> Env, c: Conn, io: bool): seq<Passed> {
    var go := c.(machine := c.machine.(wait := Ok));
    match c.machine.wait
    case Flush => if io then DriveLog(env, go) else []
    case ReadMessage => if io then DriveLog(env, go) else []
    case ReadChangeCipherSpec =>
      if io then DriveLog(env, go.(trace := c.trace + [Item(Client, ChangeCipherSpec)])) else []
    case Ok => DriveLog(env, c)
    case _ => []
  }

  /** The states left in a run, in order. */
  function RunLog(env: (nat, Machine) -> Env, c: Conn, io: seq<bool>): seq<Passed>
    decreases |io|
  {
    if io == [] then [] else TurnLog(env, c, io[0]) + RunLog(env, Turn(env, c, io[0]), io[1..])
  }

  /** The states of a handshake of one kind. */
  predicate OnPath(s: State, resumed: bool) {
    !s.Tls13? && (InKeyExchange(s) ==> !resumed)
  }

  /** How many states come before this one. */
  function Index(s: State, resumed: bool): nat {
    match s
    case StartAccept => 0
    case ReadClientHello => 1
    case SelectCertificate => 2
    case SelectParameters => 3
    case SendServerHello => 4
    case SendServerCertificate => 5
    case SendServerKeyExchange => 6
    case SendServerHelloDone => 7
    case ReadClientCertificate => 8
    case VerifyClientCertificate => 9
    case ReadClientKeyExchange => 10
    case ReadClientCertificateVerify => 11
    case ReadChangeCipherSpecRecord => if resumed then 6 else 12
    case ProcessChangeCipherSpec => if resumed then 7 else 13
    case ReadNextProto => if resumed then 8 else 14
    case ReadChannelId => if resumed then 9 else 15
    case ReadClientFinished => if resumed then 10 else 16
    case SendServerFinished => if resumed then 5 else 17
    case FinishServerHandshake => if resumed then 11 else 18
    case Done => if resumed then 12 else 19
    case Tls13 => 0
  }

  /** The terms are settled once ServerHello is out, and the client's key once its certificate is in. */
  predicate Settled(s: State) { !BeforeHello(s) && !s.SendServerHello? }

  predicate KeySettled(s: State) {
    Settled(s) && !s.SendServerCertificate? && !s.SendServerKeyExchange? && !s.SendServerHelloDone? &&
    !s.ReadClientCertificate?
  }

  /** What the states of the log accepted and sent; the client's ChangeCipherSpec comes before its keys. */
  function Given(p: Passed): Trace {
    (if p.m.state.ProcessChangeCipherSpec? then [Item(Client, ChangeCipherSpec)] else []) + Taken(p.m, p.e)
  }

  function LogTrace(log: seq<Passed>): Trace {
    if log == [] then [] else LogTrace(log[..|log| - 1]) + Given(log[|log| - 1])
  }

  /** The ChangeCipherSpec that has come in while the keys have not changed. */
  function Half(m: Machine): Trace {
    if m.state.ProcessChangeCipherSpec? && !m.wait.ReadChangeCipherSpec? then [Item(Client, ChangeCipherSpec)] else []
  }

  /** Entry i is state i of the path, was left rightly, and once they are settled under the terms of now. */
  ghost predicate EntryOk(log: seq<Passed>, i: nat, m: Machine)
    requires i < |log|
  {
    var p := log[i];
    && OnPath(p.m.state, m.session) && Index(p.m.state, m.session) == i && Moves(p.m, p.e)
    && (Settled(p.m.state) ==>
          p.m.terms == m.terms && p.m.session == m.session && p.m.certRequest == m.certRequest)
    && (KeySettled(p.m.state) ==> p.m.peerKey == m.peerKey)
  }

  /** The log leads to the connection: every state before its state, once and in order. */
  ghost predicate Logged(c: Conn, log: seq<Passed>) {
    var m := c.machine;
    && OnPath(m.state, m.session)
    && (m.wait.ReadChangeCipherSpec? ==> m.state.ProcessChangeCipherSpec?)
    && |log| == Index(m.state, m.session)
    && (forall i: nat | i < |log| :: EntryOk(log, i, m))
    && c.trace == LogTrace(log) + Half(m)
  }

  ghost predicate LogInv(c: Conn, log: seq<Passed>) {
    c.machine.wait.Error? || c.modern || Logged(c, log)
  }

  /** n comes after m: what was settled stays. */
  predicate Follows(m: Machine, n: Machine) {
    && (Settled(m.state) ==> n.terms == m.terms && n.session == m.session && n.certRequest == m.certRequest)
    && (KeySettled(m.state) ==> n.peerKey == m.peerKey)
    && (!BeforeHello(m.state) ==> n.session == m.session)
    && Index(m.state, n.session) == Index(m.state, m.session)
  }

  lemma {:induction false} OnwardIsNext(m: Machine, e: Env)
    requires OnPath(m.state, m.session) && !m.state.Done?
    ensures Onward(m, e).state != m.state
    ensures var n := Onward(m, e);
      n.state.Tls13? ||
      (&& OnPath(n.state, n.session) && Follows(m, n)
       && Index(n.state, n.session) == Index(m.state, m.session) + 1
       && (n.state.ProcessChangeCipherSpec? <==> n.wait.ReadChangeCipherSpec?))
  {
  }

  lemma {:induction false} EntriesStay(log: seq<Passed>, m: Machine, n: Machine, p: Passed)
    requires forall i: nat | i < |log| :: EntryOk(log, i, m)
    requires |log| == Index(m.state, m.session) && OnPath(m.state, m.session) && OnPath(m.state, n.session)
    requires Follows(m, n) && p.m == m && Moves(p.m, p.e)
    ensures forall i: nat | i < |log| + 1 :: EntryOk(log + [p], i, n)
  {
    hide Moves;
    forall i: nat | i < |log| + 1
      ensures EntryOk(log + [p], i, n)
    {
      if i < |log| {
        assert EntryOk(log, i, m);
        EarlierEntry(log[i].m.state, m, n, i);
      }
    }
  }

  /** Before the terms are settled the path does not depend on the kind of the handshake. */
  lemma {:induction false} EarlierEntry(s: State, m: Machine, n: Machine, i: nat)
    requires Follows(m, n) && OnPath(m.state, m.session) && i < Index(m.state, m.session)
    requires OnPath(s, m.session) && Index(s, m.session) == i
    ensures OnPath(s, n.session) && Index(s, n.session) == i
    ensures (Settled(s) ==> Settled(m.state)) && (KeySettled(s) ==> KeySettled(m.state))
  {
  }

  lemma {:induction false} LogTraceGrows(log: seq<Passed>, p: Passed)
    ensures LogTrace(log + [p]) == LogTrace(log) + Given(p)
  {
    hide Given;
    assert (log + [p])[..|log|] == log;
  }

  lemma {:induction false} StepKeepsLog(c: Conn, log: seq<Passed>, e: Env)
    requires Logged(c, log) && c.machine.wait.Ok? && !c.machine.state.Done?
    ensures var d := After(c, Step(c.machine, e));
      LogInv(d, if d.machine.state != c.machine.state then log + [Passed(c.machine, e)] else log)
  {
    var m := c.machine;
    StepIsExact(m, e);
    PathGoesOn(c, log, e);
    hide Step, Index, OnPath, Moves, Taken, Onward, EntryOk, Logged;
    if Moves(m, e) {
      if !Onward(m, e).state.Tls13? {
        MovedIsLogged(c, log, e);
      }
    } else {
      WaitIsLogged(c, log, Step(m, e));
    }
  }

  lemma {:induction false} PathGoesOn(c: Conn, log: seq<Passed>, e: Env)
    requires Logged(c, log) && !c.machine.state.Done?
    ensures Onward(c.machine, e).state != c.machine.state
  {
    hide Onward, EntryOk, LogTrace;
    OnwardIsNext(c.machine, e);
  }

  lemma {:induction false} MovedIsLogged(c: Conn, log: seq<Passed>, e: Env)
    requires Logged(c, log) && c.machine.wait.Ok? && !c.machine.state.Done?
    requires Moves(c.machine, e) && !Onward(c.machine, e).state.Tls13?
    ensures Logged(After(c, Outcome(Onward(c.machine, e), Taken(c.machine, e))), log + [Passed(c.machine, e)])
  {
    var (m, p) := (c.machine, Passed(c.machine, e));
    OnwardIsNext(m, e);
    KindStays(m, e);
    hide Index, OnPath, Moves, Taken, Onward, EntryOk;
    EntriesStay(log, m, Onward(m, e), p);
    LogTraceGrows(log, p);
    hide LogTrace;
    TraceGrows(LogTrace(log), Half(m), Taken(m, e), Given(p));
  }

  lemma {:induction false} WaitIsLogged(c: Conn, log: seq<Passed>, o: Outcome)
    requires Logged(c, log) && c.machine.wait.Ok? && o.items == [] && o.next == c.machine.(wait := o.next.wait)
    requires !o.next.wait.ReadChangeCipherSpec?
    ensures Logged(After(c, o), log)
  {
    hide Index, OnPath, EntryOk, LogTrace;
    EntriesWait(log, c.machine, o.next);
    assert c.trace + [] == c.trace;
  }

  lemma {:induction false} EntriesWait(log: seq<Passed>, m: Machine, n: Machine)
    requires n == m.(wait := n.wait) && forall i: nat | i < |log| :: EntryOk(log, i, m)
    ensures forall i: nat | i < |log| :: EntryOk(log, i, n)
  {
    hide Moves, OnPath, Index;
    forall i: nat | i < |log|
      ensures EntryOk(log, i, n)
    {
      assert EntryOk(log, i, m);
    }
  }

  lemma {:induction false} KindStays(m: Machine, e: Env)
    requires OnPath(m.state, m.session)
    ensures OnPath(m.state, Onward(m, e).session)
  {
  }

  lemma {:induction false} TraceGrows(t: Trace, half: Trace, taken: Trace, given: Trace)
    requires given == half + taken
    ensures (t + half) + taken == t + given == t + given + []
  {
  }

  // ----- every run

  lemma {:induction false} WithoutChange(c: Conn, log: seq<Passed>)
    requires Logged(c, log) && !c.machine.wait.ReadChangeCipherSpec?
    ensures Logged(c.(machine := c.machine.(wait := Ok)), log)
  {
    hide EntryOk, OnPath, Index, LogTrace;
    EntriesWait(log, c.machine, c.machine.(wait := Ok));
  }

  lemma {:induction false} WithChange(c: Conn, log: seq<Passed>)
    requires Logged(c, log) && c.machine.wait.ReadChangeCipherSpec?
    ensures Logged(c.(machine := c.machine.(wait := Ok), trace := c.trace + [Item(Client, ChangeCipherSpec)]), log)
  {
    hide EntryOk, OnPath, Index, LogTrace;
    EntriesWait(log, c.machine, c.machine.(wait := Ok));
    assert c.trace == LogTrace(log);
  }

  lemma {:induction false} DriveKeepsLog(env: (nat, Machine) -> Env, c: Conn, log: seq<Passed>)
    requires LogInv(c, log) && c.machine.wait.Ok?
    ensures LogInv(Drive(env, c), log + DriveLog(env, c))
    ensures c.modern ==> Drive(env, c).modern
    decreases Rank(c.machine.state, c.machine.session)
  {
    hide Logged, Step, Rank;
    assert log + [] == log;
    if !c.machine.state.Done? {
      var e := env(c.clock, c.machine);
      var d := After(c, Step(c.machine, e));
      var one := if d.machine.state != c.machine.state then [Passed(c.machine, e)] else [];
      if !c.modern {
        StepKeepsLog(c, log, e);
      }
      if d.machine.wait.Ok? {
        DriveKeepsLog(env, d, log + one);
        assert log + one + DriveLog(env, d) == log + (one + DriveLog(env, d));
      } else {
        assert one + [] == one;
      }
    }
  }

  lemma {:induction false} TurnKeepsLog(env: (nat, Machine) -> Env, c: Conn, log: seq<Passed>, io: bool)
    requires LogInv(c, log)
    ensures LogInv(Turn(env, c, io), log + TurnLog(env, c, io))
  {
    hide Logged, Drive, DriveLog;
    assert log + [] == log;
    var go := c.(machine := c.machine.(wait := Ok));
    if !c.machine.wait.Error? {
      if c.machine.wait.ReadChangeCipherSpec? {
        if io {
          if !c.modern { WithChange(c, log); }
          DriveKeepsLog(env, go.(trace := c.trace + [Item(Client, ChangeCipherSpec)]), log);
        }
      } else {
        if !c.modern { WithoutChange(c, log); }
        DriveKeepsLog(env, go, log);
      }
    }
  }

  lemma {:induction false} RunKeepsLog(env: (nat, Machine) -> Env, c: Conn, log: seq<Passed>, io: seq<bool>)
    requires LogInv(c, log)
    ensures LogInv(Run(env, c, io), log + RunLog(env, c, io))
    decreases |io|
  {
    hide LogInv, Turn, TurnLog;
    if io == [] {
      assert log + [] == log;
    } else {
      var more := TurnLog(env, c, io[0]);
      TurnKeepsLog(env, c, log, io[0]);
      RunKeepsLog(env, Turn(env, c, io[0]), log + more, io[1..]);
      var rest := RunLog(env, Turn(env, c, io[0]), io[1..]);
      assert log + more + rest == log + (more + rest);
    }
  }

  /**
     A server that has finished without TLS 1.3 has been through every state of its kind of
     handshake, once and in order, has left each only when its message was accepted and its checks
     and callbacks had succeeded, and its messages are those of the states.
   */
  ghost predicate ThroughEveryState(c: Conn, log: seq<Passed>) {
    c.machine.state.Done? && c.machine.wait.Ok? && !c.modern ==>
      var m := c.machine;
      && |log| == Index(State.Done, m.session)
      && (forall i: nat | i < |log| :: EntryOk(log, i, m))
      && c.trace == LogTrace(log)
  }

  lemma {:induction false} EveryStateIsPassed(env: (nat, Machine) -> Env, io: seq<bool>)
    ensures var start := Accept(); ThroughEveryState(Run(env, start, io), RunLog(env, start, io))
  {
    var start := Accept();
    StartsLogged(start);
    hide Run, RunLog, LogInv, ThroughEveryState, Step, Drive, Turn;
    RunKeepsLog(env, start, [], io);
    NothingBefore(RunLog(env, start, io));
    LoggedIsThrough(Run(env, start, io), RunLog(env, start, io));
  }

  lemma {:induction false} NothingBefore(log: seq<Passed>)
    ensures [] + log == log
  {
  }

  lemma {:induction false} StartsLogged(c: Conn)
    requires c.machine.state.StartAccept? && c.machine.wait.Ok? && c.trace == []
    ensures LogInv(c, [])
  {
  }

  lemma {:induction false} LoggedIsThrough(c: Conn, log: seq<Passed>)
    requires LogInv(c, log)
    ensures ThroughEveryState(c, log)
  {
    hide EntryOk, OnPath, LogTrace;
    assert LogTrace(log) + [] == LogTrace(log);
  }

  /** Item x of the trace was accepted from the client in a state that had passed its checks. */
  ghost predicate AcceptedChecked(log: seq<Passed>, x: Message) {
    exists p :: p in log && Awaited(p.m) == Some(x) && p.e.message == Some(x) && p.e.ok
  }

  /** The state was passed, with its checks and its callback. */
  ghost predicate PassedChecked(log: seq<Passed>, s: State) {
    exists p :: p in log && p.m.state == s && p.e.ok && !(Asks(p.m) && p.e.retry)
  }

  /** The ClientHello was one, and the application had taken it. */
  ghost predicate HelloChecked(log: seq<Passed>) {
    exists p :: p in log && p.m.state.ReadClientHello? && p.e.message == Some(ClientHello) && p.e.ok && !p.e.retry
  }

  /** The request for a certificate was answered; in SSL 3.0 the answer may be to go on without. */
  ghost predicate RequestAnswered(log: seq<Passed>) {
    exists p :: p in log && p.m.state.ReadClientCertificate? && p.e.ok &&
      (p.e.message == Some(Certificate) || (p.e.ssl3 && p.e.message == Some(ClientKeyExchange)))
  }

  predicate OfClient(x: Item) {
    && x.from.Client? && !x.message.ChangeCipherSpec? && !x.message.CipherChange?
    && !x.message.ClientHello?
  }

  lemma {:induction false} TakenChecked(p: Passed, x: Item)
    requires Moves(p.m, p.e) && x in Given(p) && OfClient(x)
    ensures Awaited(p.m) == Some(x.message) && p.e.message == Some(x.message) && p.e.ok
  {
  }

  lemma {:induction false} LoggedIsChecked(log: seq<Passed>, x: Item)
    requires forall p | p in log :: Moves(p.m, p.e)
    requires x in LogTrace(log) && OfClient(x)
    ensures AcceptedChecked(log, x.message)
    decreases |log|
  {
    hide Moves, Given, Awaited;
    var before, p := log[..|log| - 1], log[|log| - 1];
    if x in LogTrace(before) {
      LoggedIsChecked(before, x);
      var q :| q in before && Awaited(q.m) == Some(x.message) && q.e.message == Some(x.message) && q.e.ok;
      assert q in log;
    } else {
      TakenChecked(p, x);
      assert p in log;
    }
  }

  /** Every state of the path is in the log. */
  lemma {:induction false} StateIsInLog(c: Conn, log: seq<Passed>, s: State)
    requires ThroughEveryState(c, log) && c.machine.state.Done? && c.machine.wait.Ok? && !c.modern
    requires OnPath(s, c.machine.session) && !s.Done?
    ensures var i := Index(s, c.machine.session); i < |log| && EntryOk(log, i, c.machine)
    ensures log[Index(s, c.machine.session)].m.state == s
  {
    var m := c.machine;
    hide Moves, LogTrace;
    var i := Index(s, m.session);
    assert i < |log|;
    assert EntryOk(log, i, m);
    OneState(s, log[i].m.state, m.session);
  }

  lemma {:induction false} OneState(s: State, t: State, resumed: bool)
    requires OnPath(s, resumed) && OnPath(t, resumed) && Index(s, resumed) == Index(t, resumed)
    ensures s == t
  {
  }

  /**
     So whatever a finished server accepted from the client had passed its check: the ClientHello,
     every later message, the Finished among them, and a certificate that gave it a key to verify
     with was verified, and so was the signature made with it.
   */
  lemma {:induction false} ServerHasChecked(env: (nat, Machine) -> Env, io: seq<bool>)
    requires var c := Run(env, Accept(), io); c.machine.state.Done? && c.machine.wait.Ok? && !c.modern
    ensures var (c, log) := (Run(env, Accept(), io), RunLog(env, Accept(), io));
      && (forall x | x in c.trace && OfClient(x) :: AcceptedChecked(log, x.message))
      && HelloChecked(log) && MustHaves(c.machine, log)
  {
    var c, log := Run(env, Accept(), io), RunLog(env, Accept(), io);
    EveryStateIsPassed(env, io);
    hide Run, RunLog, MustHaves;
    AllMove(c, log);
    forall x | x in c.trace && OfClient(x)
      ensures AcceptedChecked(log, x.message)
    {
      LoggedIsChecked(log, x);
    }
    HelloIsIn(c, log);
    MustBeAccepted(c, log);
  }

  /** What a finished handshake of the kind and terms of m must have accepted. */
  ghost predicate MustHaves(m: Machine, log: seq<Passed>) {
    && AcceptedChecked(log, Finished)
    && (m.terms.nextProto ==> AcceptedChecked(log, NextProto))
    && (m.terms.channelId ==> AcceptedChecked(log, ChannelId))
    && (!m.session ==> AcceptedChecked(log, ClientKeyExchange))
    && (!m.session && m.certRequest ==> RequestAnswered(log))
    && (!m.session && m.peerKey ==>
          PassedChecked(log, VerifyClientCertificate) && AcceptedChecked(log, CertificateVerify))
  }

  lemma {:induction false} AllMove(c: Conn, log: seq<Passed>)
    requires ThroughEveryState(c, log) && c.machine.state.Done? && c.machine.wait.Ok? && !c.modern
    ensures c.trace == LogTrace(log) && forall p | p in log :: Moves(p.m, p.e)
  {
    hide Moves, LogTrace, OnPath, Index;
    forall p | p in log
      ensures Moves(p.m, p.e)
    {
      var i: nat :| i < |log| && log[i] == p;
      assert EntryOk(log, i, c.machine);
    }
  }

  lemma {:induction false} MustBeAccepted(c: Conn, log: seq<Passed>)
    requires ThroughEveryState(c, log) && c.machine.state.Done? && c.machine.wait.Ok? && !c.modern
    ensures MustHaves(c.machine, log)
  {
    hide ThroughEveryState, AcceptedChecked, PassedChecked, RequestAnswered;
    var m := c.machine;
    AcceptedIn(c, log, ReadClientFinished);
    if m.terms.nextProto {
      AcceptedIn(c, log, ReadNextProto);
    }
    if m.terms.channelId {
      AcceptedIn(c, log, ReadChannelId);
    }
    if !m.session {
      FullMustBeAccepted(c, log);
    }
  }

  lemma {:induction false} FullMustBeAccepted(c: Conn, log: seq<Passed>)
    requires ThroughEveryState(c, log) && c.machine.state.Done? && c.machine.wait.Ok? && !c.modern && !c.machine.session
    ensures AcceptedChecked(log, ClientKeyExchange) && (c.machine.certRequest ==> RequestAnswered(log))
    ensures c.machine.peerKey ==>
      PassedChecked(log, VerifyClientCertificate) && AcceptedChecked(log, CertificateVerify)
  {
    hide ThroughEveryState, AcceptedChecked, PassedChecked, RequestAnswered;
    AcceptedIn(c, log, ReadClientKeyExchange);
    if c.machine.certRequest {
      AnsweredIn(c, log);
    }
    if c.machine.peerKey {
      AcceptedIn(c, log, ReadClientCertificateVerify);
      VerifiedIn(c, log);
    }
  }

  /** A message that the final terms ask for has been accepted in its state. */
  lemma {:induction false} AcceptedIn(c: Conn, log: seq<Passed>, s: State)
    requires ThroughEveryState(c, log) && c.machine.state.Done? && c.machine.wait.Ok? && !c.modern
    requires OnPath(s, c.machine.session) && KeySettled(s) && !s.Done?
    requires Awaited(c.machine.(state := s)).Some?
    ensures AcceptedChecked(log, Awaited(c.machine.(state := s)).value)
  {
    var m := c.machine;
    StateIsInLog(c, log, s);
    var i := Index(s, m.session);
    hide ThroughEveryState, Index, OnPath;
    var p := log[i];
    assert p in log;
    assert Awaited(p.m) == Awaited(m.(state := s));
  }

  lemma {:induction false} AnsweredIn(c: Conn, log: seq<Passed>)
    requires ThroughEveryState(c, log) && c.machine.state.Done? && c.machine.wait.Ok? && !c.modern
    requires !c.machine.session && c.machine.certRequest
    ensures RequestAnswered(log)
  {
    var m := c.machine;
    StateIsInLog(c, log, ReadClientCertificate);
    var i := Index(ReadClientCertificate, m.session);
    hide ThroughEveryState, Index, OnPath;
    assert log[i] in log;
  }

  lemma {:induction false} VerifiedIn(c: Conn, log: seq<Passed>)
    requires ThroughEveryState(c, log) && c.machine.state.Done? && c.machine.wait.Ok? && !c.modern
    requires !c.machine.session && c.machine.peerKey
    ensures PassedChecked(log, VerifyClientCertificate)
  {
    var m := c.machine;
    StateIsInLog(c, log, VerifyClientCertificate);
    var i := Index(VerifyClientCertificate, m.session);
    hide ThroughEveryState, Index, OnPath;
    assert log[i] in log;
  }

  lemma {:induction false} HelloIsIn(c: Conn, log: seq<Passed>)
    requires ThroughEveryState(c, log) && c.machine.state.Done? && c.machine.wait.Ok? && !c.modern
    ensures HelloChecked(log)
  {
    var m := c.machine;
    StateIsInLog(c, log, ReadClientHello);
    var i := Index(ReadClientHello, m.session);
    hide ThroughEveryState, Index, OnPath;
    assert log[i] in log;
  }
}
