/** A client and a server that talked to each other and both finished. */
module HandshakeAgreement {
  import opened HandshakeFlow
  import C = HandshakeClientRuns
  import ClientMachine = HandshakeClient
  import S = HandshakeServerRuns
  import ServerMachine = HandshakeServer

  /**
     Over any runs of the two programs: if both finish without TLS 1.3, and each accepted
     exactly the messages that the other sent, in the order sent, then both resumed the
     session or both did not, and the two saw the same interleaving of all messages.
   */
  lemma SameHandshake(
    clientEnv: (nat, ClientMachine.Machine) -> ClientMachine.Env, dtls: bool, session: bool, clientIo: seq<bool>,
    serverEnv: (nat, ServerMachine.Machine) -> ServerMachine.Env, serverIo: seq<bool>)
    requires
      var c := C.Run(clientEnv, C.Connect(dtls, session), clientIo);
      var s := S.Run(serverEnv, S.Accept(), serverIo);
      && c.machine.state.Done? && c.machine.wait.Ok? && !c.modern
      && s.machine.state.Done? && s.machine.wait.Ok? && !s.modern
      && From(c.trace, Server) == From(s.trace, Server) && From(s.trace, Client) == From(c.trace, Client)
    ensures
      var c := C.Run(clientEnv, C.Connect(dtls, session), clientIo);
      var s := S.Run(serverEnv, S.Accept(), serverIo);
      c.machine.session == s.machine.session && c.trace == s.trace
  {
    hide C.Run, S.Run, Complete, Keys, From;
    C.ClientOrder(clientEnv, dtls, session, clientIo);
    S.ServerOrder(serverEnv, serverIo);
    var c := C.Run(clientEnv, C.Connect(dtls, session), clientIo);
    var s := S.Run(serverEnv, S.Accept(), serverIo);
    PartiesAgree(c.machine.session, c.trace, s.machine.session, s.trace);
  }
}
