/**
 The transport object of transport/smtp/smtp.go. Its methods change the connection, the session
 and the counters in place; each is proved to do what the function of SmtpClient of the same
 operation says, so that the results of SmtpSafety, SmtpEnvelopes and SmtpResults hold of the object.
 */
module SmtpTransport {
  import opened Octets
  import opened SmtpProtocol
  import opened SmtpClient
  import opened SmtpSafety
  import opened SmtpEnvelopes
  import SmtpData

  class Transport {
    const cfg: Config
    const net: Server

    var conn: Option<nat>           // conn and text of the source, which are set and cleared together
    var started: bool
    var usingTls: bool
    var capabilities: Capabilities
    var restartCounter: nat
    var messageTimed: bool          // lastMessageTime is not the zero time
    var dialled: nat                // connections closed so far: the identity of the next one
    var answers: nat                // answers taken from the world so far
    ghost var log: seq<Event>

    ghost function View(): State
      reads this
    {
      State(conn, started, usingTls, capabilities, restartCounter, messageTimed, dialled, answers, log)
    }

    constructor (cfg: Config, net: Server)
      ensures this.cfg == cfg && this.net == net && View() == FRESH && AtRest()
    {
      this.cfg, this.net := cfg, net;
      conn, started, usingTls, capabilities := None, false, false, map[];
      restartCounter, messageTimed, dialled, answers, log := 0, false, 0, 0, [];
      new;
      assert Rests(PolicyOf(cfg), FRESH, INITIAL);
    }

    /** The next answer of the world. */
    method Await() returns (io: Io)
      modifies this`answers
      ensures io == net(old(answers)) && answers == old(answers) + 1
    {
      io := net(answers);
      answers := answers + 1;
    }

    method CloseConnection()
      modifies this
      ensures View() == Terminate(old(View()))
    {
      if conn.Some? {
        log := log + [Close(conn.value)];
        dialled := dialled + 1;
      }
      conn := None;
      started := false;
      usingTls := false;
    }

    method ExecuteCommand(command: Command, codes: set<int>) returns (error: Option<Error>, reply: Reply)
      modifies this
      ensures Step(View(), error, reply) == Execute(net, old(View()), command, codes)
    {
      if conn.None? {
        return Some(TransportError(0, None)), NO_REPLY;
      }
      var io := Await();
      log := log + [Exchange(conn.value, command, OutcomeOf(io))];
      if !io.ok || io.reply.None? {
        CloseConnection();
        return Some(TransportError(0, None)), NO_REPLY;
      }
      reply := io.reply.value;
      error := if reply.code in codes then None else Some(TransportError(reply.code, None));
    }

    method ContextError(e: Error) returns (r: Error)
      ensures r == ContextErr(net, View(), e)
    {
      r := e;
      if Code(e) == 0 {
        var io := net(answers);
        if io.cancelled {
          r := Error.ContextError;
        }
      }
    }

    // ----- opening a session -----

    method Dialling() returns (error: Option<Error>)
      modifies this
      ensures Step(View(), error, NO_REPLY) == Connect(cfg, net, old(View()))
    {
      var io := Await();
      if !io.ok {
        return Some(if io.cancelled then Error.ContextError else TransportError(0, None));
      }
      log := log + [Dial(dialled, cfg.implicitTls)];
      conn := Some(dialled);
      usingTls := cfg.implicitTls;
      error := None;
    }

    method AwaitGreeting() returns (error: Option<Error>)
      requires conn.Some?
      modifies this
      ensures View() == ReadGreeting(net, old(View())).s && error == ReadGreeting(net, old(View())).error
    {
      var io := Await();
      if io.ok && io.reply.Some? {
        log := log + [Greeting(conn.value, Replied(io.reply.value))];
        error := if io.reply.value.code == 220 then None else Some(TransportError(io.reply.value.code, None));
      } else {
        log := log + [Greeting(conn.value, ReadFailed)];
        error := Some(TransportError(0, None));
      }
    }

    method ShakeHands() returns (error: Option<Error>)
      requires conn.Some?
      modifies this
      ensures Step(View(), error, NO_REPLY) == Handshaking(net, old(View()))
    {
      var io := Await();
      log := log + [Handshake(conn.value, io.ok)];
      if io.ok {
        usingTls := true;
        error := None;
      } else {
        error := Some(if io.cancelled then Error.ContextError else TransportError(0, None));
      }
    }

    method UpgradeToTls() returns (error: Option<Error>)
      modifies this
      ensures Step(View(), error, NO_REPLY) == Upgrade(net, old(View()))
    {
      hide Execute, Handshaking, Terminate;
      var e, reply := ExecuteCommand(StartTls, {220});
      if e.Some? {
        var c := ContextError(e.value);
        return Some(c);
      }
      error := ShakeHands();
      if error.Some? {
        return;
      }
      e, reply := ExecuteCommand(Ehlo, {250});
      if e.Some? {
        var c := ContextError(e.value);
        return Some(c);
      }
      capabilities := reply.capabilities;
      error := None;
    }

    method RunMechanism(m: Mechanism) returns (error: Option<Error>)
      modifies this
      ensures View() == Authenticate(cfg, net, old(View()), m).s && error == Authenticate(cfg, net, old(View()), m).error
    {
      hide Execute;
      var reply;
      match m
      case Plain =>
        error, reply := ExecuteCommand(Auth(Plain), {235});
      case Login =>
        error, reply := ExecuteCommand(Auth(Login), {334});
        if error.None? {
          error, reply := ExecuteCommand(AuthContinue, {334});
          if error.None? {
            error, reply := ExecuteCommand(AuthContinue, {235});
          }
        }
      case CramMd5 =>
        if cfg.password == "" {
          error := Some(InvalidArgument);
        } else {
          error, reply := ExecuteCommand(Auth(CramMd5), {334});
          if error.None? {
            if !reply.decodableChallenge {
              error := Some(TransportError(0, None));
            } else {
              error, reply := ExecuteCommand(AuthContinue, {235});
            }
          }
        }
    }

    method HandleAuthentication(modes: seq<string>) returns (error: Option<Error>)
      modifies this
      ensures Step(View(), error, NO_REPLY) == HandleAuth(cfg, net, old(View()), modes)
    {
      if cfg.username == "" {
        return None;
      }
      hide Authenticate, Execute;
      var lastCode, tried, i := 0, false, 0;
      ghost var start := View();
      while i < |cfg.authenticators|
        invariant 0 <= i <= |cfg.authenticators|
        invariant TryMechanisms(cfg, net, start, modes, cfg.authenticators, 0, false)
               == TryMechanisms(cfg, net, View(), modes, cfg.authenticators[i..], lastCode, tried)
      {
        var m := cfg.authenticators[i];
        assert cfg.authenticators[i..][1..] == cfg.authenticators[i + 1..];
        if Keyword(m) in modes {
          tried := true;
          var e := RunMechanism(m);
          if e.None? {
            return None;
          }
          lastCode := Code(e.value);
          var _, _ := ExecuteCommand(Rset, {250});
        }
        i := i + 1;
      }
      error := Some(TransportError(if lastCode != 0 then lastCode else if tried then 535 else 504, None));
    }

    method Finish(tlsStarted: bool) returns (error: Option<Error>)
      modifies this
      ensures Step(View(), error, NO_REPLY) == FinishHelo(cfg, net, old(View()), tlsStarted)
    {
      hide HandleAuth;
      if !tlsStarted && cfg.requireTls {
        return Some(TransportError(0, None));
      }
      if "AUTH" in capabilities {
        if cfg.username != "" && !tlsStarted && !cfg.allowPlaintextAuth {
          return Some(TransportError(0, None));
        }
        error := HandleAuthentication(capabilities["AUTH"]);
        if error.Some? {
          var c := ContextError(error.value);
          error := Some(c);
        }
      } else {
        error := None;
      }
    }

    method Greet() returns (error: Option<Error>)
      modifies this
      ensures Step(View(), error, NO_REPLY) == Hello(cfg, net, old(View()))
    {
      hide Execute, Upgrade, FinishHelo;
      var e, reply := ExecuteCommand(Ehlo, {250});
      if e.Some? {
        var h, _ := ExecuteCommand(Helo, {250});
        if h.Some? {
          var c := ContextError(if Code(h.value) == 0 then e.value else h.value);
          return Some(c);
        }
        capabilities := map[];
        return None;
      }
      capabilities := reply.capabilities;
      var tlsStarted := usingTls;
      if cfg.autoTls && !usingTls && "STARTTLS" in capabilities {
        error := UpgradeToTls();
        if error.Some? {
          return;
        }
        tlsStarted := true;
      }
      error := Finish(tlsStarted);
    }

    method Open() returns (error: Option<Error>)
      modifies this
      ensures View() == Start(cfg, net, old(View())).s && error == Start(cfg, net, old(View())).error
    {
      hide Connect, ReadGreeting, Hello, Terminate;
      if started {
        return None;
      }
      error := Dialling();
      if error.Some? {
        return;
      }
      error := AwaitGreeting();
      if error.None? {
        error := Greet();
      }
      if error.Some? {
        CloseConnection();
        var c := ContextError(error.value);
        return Some(c);
      }
      started := true;
      messageTimed := false;
    }

    // ----- one message -----

    method WriteMailFrom(req: Request) returns (error: Option<Error>)
      modifies this
      ensures View() == MailFrom(net, old(View()), req).s && error == MailFrom(net, old(View()), req).error
    {
      hide Execute;
      if req.sender.encoded.None? || (req.utf8 && "SMTPUTF8" !in capabilities) {
        return Some(InvalidArgument);
      }
      var reply;
      error, reply := ExecuteCommand(Mail(req.sender.encoded.value, req.utf8), {250});
    }

    method WriteRcptTo(recipient: Address) returns (error: Option<Error>)
      modifies this
      ensures View() == RcptTo(net, old(View()), recipient).s && error == RcptTo(net, old(View()), recipient).error
    {
      hide Execute;
      if recipient.encoded.None? {
        return Some(InvalidArgument);
      }
      var reply;
      error, reply := ExecuteCommand(Rcpt(recipient.encoded.value), RCPT_CODES);
    }

    method WriteRecipients(recipients: seq<Address>) returns (error: Option<Error>)
      modifies this
      ensures View() == Recipients(net, old(View()), recipients).s && error == Recipients(net, old(View()), recipients).error
    {
      hide RcptTo;
      var i := 0;
      ghost var start := View();
      while i < |recipients|
        invariant 0 <= i <= |recipients|
        invariant Recipients(net, start, recipients) == Recipients(net, View(), recipients[i..])
      {
        assert recipients[i..][1..] == recipients[i + 1..];
        error := WriteRcptTo(recipients[i]);
        if error.Some? {
          return;
        }
        i := i + 1;
      }
      error := None;
    }

    /** writeData: the stuffed payload, and whether it ends with CRLF. */
    method WriteData(data: seq<Octet>) returns (error: Option<Error>, endsWithCrlf: bool)
      modifies this
      ensures var stuffed := SmtpData.DotStuff(SmtpData.Normalize(data));
              && View() == WritePayload(net, old(View()), stuffed).s && error == WritePayload(net, old(View()), stuffed).error
              && (error.None? ==> endsWithCrlf == SmtpData.EndsWithCrlf(stuffed))
    {
      var normalized := SmtpData.NormalizeCrlf(data);
      var stuffed := SmtpData.DotStuffing(normalized);
      endsWithCrlf := SmtpData.EndsWithCrlf(stuffed);
      if conn.None? {
        return Some(TransportError(0, None)), endsWithCrlf;
      }
      var io := Await();
      log := log + [Payload(conn.value, stuffed, io.ok)];
      if io.ok {
        error := None;
      } else {
        CloseConnection();
        error := Some(TransportError(0, None));
      }
    }

    method WriteContent(data: seq<Octet>) returns (error: Option<Error>)
      modifies this
      ensures View() == Content(net, old(View()), data).s && error == Content(net, old(View()), data).error
    {
      hide Execute, WritePayload;
      var reply;
      error, reply := ExecuteCommand(Data, {354});
      if error.Some? {
        return;
      }
      var endsWithCrlf;
      error, endsWithCrlf := WriteData(data);
      if error.Some? {
        return;
      }
      error, reply := ExecuteCommand(EndOfData(SmtpData.Terminator(endsWithCrlf)), {250});
    }

    method Converse(req: Request) returns (error: Option<Error>)
      modifies this
      ensures View() == Conversation(net, old(View()), req).s && error == Conversation(net, old(View()), req).error
    {
      hide MailFrom, Recipients, Content;
      error := WriteMailFrom(req);
      if error.None? {
        error := WriteRecipients(req.recipients);
        if error.None? {
          error := WriteContent(req.data);
        }
      }
    }

    method QuitSession()
      modifies this
      ensures View() == Stop(net, old(View()))
    {
      hide Execute, Terminate;
      if !started {
        return;
      }
      var _, _ := ExecuteCommand(Quit, {221});
      CloseConnection();
    }

    method PingServer()
      modifies this
      ensures View() == Ping(net, old(View()))
    {
      hide Execute, Stop;
      if !started {
        return;
      }
      var error, _ := ExecuteCommand(Noop, {250});
      if error.Some? {
        QuitSession();
      }
    }

    method CountMessage()
      modifies this
      ensures View() == CheckRestartThreshold(cfg, net, old(View()))
    {
      hide Stop;
      if !started || cfg.restartThreshold == 0 {
        return;
      }
      restartCounter := restartCounter + 1;
      if restartCounter < cfg.restartThreshold {
        return;
      }
      QuitSession();
      restartCounter := 0;
    }

    method Deliver(req: Request) returns (error: Option<Error>)
      modifies this
      ensures View() == DoSend(cfg, net, old(View()), req).s && error == DoSend(cfg, net, old(View()), req).error
    {
      hide Ping, Start, Conversation;
      var io := Await();
      if messageTimed && io.idle {
        PingServer();
      }
      error := Open();
      if error.Some? {
        return;
      }
      error := Converse(req);
      if error.Some? {
        var c := ContextError(error.value);
        messageTimed := false;
        return Some(c);
      }
      messageTimed := true;
    }

    method BaseTransportSend(req: Request) returns (error: Option<Error>)
      modifies this
      ensures View() == BaseSend(cfg, net, old(View()), req).s && error == BaseSend(cfg, net, old(View()), req).error
    {
      hide DoSend;
      var io := Await();
      if io.cancelled {
        return Some(Error.ContextError);
      }
      if req.rejected.Some? {
        return Some(if req.rejected.value.BadArgument? then InvalidArgument else LogicError);
      }
      error := Deliver(req);
      if error.Some? {
        error := Some(Wrap(error.value));
      }
    }

    method AfterFailure(e: Error, retry: bool)
      modifies this
      ensures View() == CleanUp(net, old(View()), e, retry)
    {
      hide Execute, Terminate;
      if !IsInvalidArgument(e) {
        if retry {
          CloseConnection();
        } else if started {
          var error, _ := ExecuteCommand(Rset, {250});
          if error.Some? {
            CloseConnection();
          }
        }
      }
    }

    method SendAttempts(req: Request) returns (error: Option<Error>)
      modifies this
      ensures View() == Attempts(cfg, net, old(View()), req, 0).s && error == Attempts(cfg, net, old(View()), req, 0).error
    {
      hide BaseSend, CleanUp, CheckRestartThreshold;
      var attempt := 0;
      ghost var start := View();
      while true
        invariant attempt <= cfg.retryAttempts
        invariant Attempts(cfg, net, start, req, 0) == Attempts(cfg, net, View(), req, attempt)
        decreases cfg.retryAttempts - attempt
      {
        error := BaseTransportSend(req);
        if error.None? {
          CountMessage();
          return;
        }
        var retry := IsTransient(error.value) && attempt < cfg.retryAttempts;
        AfterFailure(error.value, retry);
        if !retry {
          return;
        }
        var io := Await();
        if io.cancelled {
          return Some(Error.ContextError);
        }
        attempt := attempt + 1;
      }
    }

    /**
     Transport.Send. From a legal log and a client at rest, and for a harmless message, the log stays
     legal and the client rests again, whatever the server does.
     */
    method SendMessage(req: Request) returns (error: Option<Error>)
      modifies this
      ensures View() == Send(cfg, net, old(View()), req).s && error == Send(cfg, net, old(View()), req).error
      ensures old(AtRest()) && Harmless(cfg, old(View()), req) ==> AtRest()
    {
      hide Attempts;
      ghost var before := View();
      log := log + [SendCalled];
      error := SendAttempts(req);
      log := log + [SendReturned(error.None?)];
      if AtRestState(cfg, before) && Harmless(cfg, before, req) {
        var w: Watch :| Rests(PolicyOf(cfg), before, w) && w.verdict.NoSend?;
        ghost var v := SendTracks(PolicyOf(cfg), cfg, net, before, w, req);
      }
    }

    method Disconnect()
      modifies this
      ensures View() == Stop(net, old(View()))
      ensures old(AtRest()) ==> AtRest() && !started
    {
      hide Stop;
      ghost var before := View();
      QuitSession();
      if AtRestState(cfg, before) {
        var w: Watch :| Rests(PolicyOf(cfg), before, w) && w.verdict.NoSend?;
        ghost var v := StopTracks(PolicyOf(cfg), net, before, w);
      }
    }

    /** Nothing in flight, and a log the monitor accepts. */
    ghost predicate AtRest()
      reads this
    {
      AtRestState(cfg, View())
    }
  }

  ghost predicate AtRestState(cfg: Config, s: State) {
    exists w: Watch :: Rests(PolicyOf(cfg), s, w) && w.verdict.NoSend?
  }
}
