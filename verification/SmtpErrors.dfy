/**
 Which errors Send answers with: the context's own error exactly where the context is over and the
 server has not said otherwise.
 */
module SmtpErrors {
  import opened Octets
  import opened SmtpProtocol
  import opened SmtpClient
  import opened SmtpRetries

  ghost predicate NeverOver(net: Server) {
    forall k: nat :: !net(k).cancelled
  }

  ghost predicate AlwaysOver(net: Server) {
    forall k: nat :: net(k).cancelled
  }

  predicate IsContextError(x: Step) { x.error == Some(ContextError) }

  /** A failure that the server explains with a code, or that is put down to the context. */
  predicate Explained(x: Step) {
    x.error.Some? ==> IsContextError(x) || Code(x.error.value) != 0
  }

  // ----- the context is never over -----

  lemma ExecuteIsNoContextError(net: Server, s: State, command: Command, codes: set<int>)
    ensures !IsContextError(Execute(net, s, command, codes))
  {
  }

  lemma {:induction false} TryIsNoContextError(
    cfg: Config, net: Server, s: State, modes: seq<string>, mechanisms: seq<Mechanism>, lastCode: int, tried: bool)
    ensures !IsContextError(TryMechanisms(cfg, net, s, modes, mechanisms, lastCode, tried))
    decreases |mechanisms|
  {
    hide Authenticate, Execute;
    if mechanisms != [] {
      if Keyword(mechanisms[0]) !in modes {
        TryIsNoContextError(cfg, net, s, modes, mechanisms[1..], lastCode, tried);
      } else {
        var a := Authenticate(cfg, net, s, mechanisms[0]);
        if a.error.Some? {
          TryIsNoContextError(cfg, net, Execute(net, a.s, Rset, {250}).s, modes, mechanisms[1..], Code(a.error.value), true);
        }
      }
    }
  }

  lemma FinishIsNoContextError(cfg: Config, net: Server, s: State, tls: bool)
    requires NeverOver(net)
    ensures !IsContextError(FinishHelo(cfg, net, s, tls))
  {
    hide TryMechanisms;
    if "AUTH" in s.capabilities {
      TryIsNoContextError(cfg, net, s, s.capabilities["AUTH"], cfg.authenticators, 0, false);
    }
  }

  lemma UpgradeIsNoContextError(net: Server, s: State)
    requires NeverOver(net)
    ensures !IsContextError(Upgrade(net, s))
  {
    hide Execute;
    var x := Execute(net, s, StartTls, {220});
    ExecuteIsNoContextError(net, s, StartTls, {220});
    if x.error.None? {
      ExecuteIsNoContextError(net, Handshaking(net, x.s).s, Ehlo, {250});
    }
  }

  lemma AfterEhloIsNoContextError(cfg: Config, net: Server, s: State)
    requires NeverOver(net)
    ensures !IsContextError(AfterEhlo(cfg, net, s))
  {
    hide Upgrade, FinishHelo, NeverOver;
    UpgradeIsNoContextError(net, s);
    FinishIsNoContextError(cfg, net, Upgrade(net, s).s, true);
    FinishIsNoContextError(cfg, net, s, s.usingTls);
  }

  lemma HelloIsNoContextError(cfg: Config, net: Server, s: State)
    requires NeverOver(net)
    ensures !IsContextError(Hello(cfg, net, s))
  {
    hide Execute, AfterEhlo;
    var e := Execute(net, s, Ehlo, {250});
    ExecuteIsNoContextError(net, s, Ehlo, {250});
    ExecuteIsNoContextError(net, e.s, Helo, {250});
    AfterEhloIsNoContextError(cfg, net, e.s.(capabilities := e.reply.capabilities));
  }

  lemma StartIsNoContextError(cfg: Config, net: Server, s: State)
    requires NeverOver(net)
    ensures !IsContextError(Start(cfg, net, s))
  {
    hide Hello, Terminate;
    var c := Connect(cfg, net, s);
    if c.error.None? {
      HelloIsNoContextError(cfg, net, ReadGreeting(net, c.s).s);
    }
  }

  lemma {:induction false} RecipientsAreNoContextError(net: Server, s: State, recipients: seq<Address>)
    ensures !IsContextError(Recipients(net, s, recipients))
    decreases |recipients|
  {
    hide Execute;
    if recipients != [] {
      if recipients[0].encoded.Some? {
        ExecuteIsNoContextError(net, s, Rcpt(recipients[0].encoded.value), RCPT_CODES);
      }
      RecipientsAreNoContextError(net, RcptTo(net, s, recipients[0]).s, recipients[1..]);
    }
  }

  lemma ContentIsNoContextError(net: Server, s: State, data: seq<Octet>)
    ensures !IsContextError(Content(net, s, data))
  {
  }

  lemma ConversationIsNoContextError(net: Server, s: State, req: Request)
    ensures !IsContextError(Conversation(net, s, req))
  {
    hide Recipients, Content;
    var m := MailFrom(net, s, req);
    RecipientsAreNoContextError(net, m.s, req.recipients);
    ContentIsNoContextError(net, Recipients(net, m.s, req.recipients).s, req.data);
  }

  lemma BaseSendIsNoContextError(cfg: Config, net: Server, s: State, req: Request)
    requires NeverOver(net)
    ensures !IsContextError(BaseSend(cfg, net, s, req))
  {
    hide Start, Conversation, PingIfIdle;
    var t := PingIfIdle(net, s.(answers := s.answers + 1));
    StartIsNoContextError(cfg, net, t);
    ConversationIsNoContextError(net, Start(cfg, net, t).s, req);
  }

  /** One turn of the loop, as far as the error is concerned. */
  lemma AttemptsUnfold(cfg: Config, net: Server, s: State, req: Request, attempt: nat)
    requires attempt <= cfg.retryAttempts && NeverOver(net)
    ensures var x, a := BaseSend(cfg, net, s, req), Attempts(cfg, net, s, req, attempt);
      if x.error.Some? && IsTransient(x.error.value) && attempt < cfg.retryAttempts then
        var t := CleanUp(net, x.s, x.error.value, true);
        a == Attempts(cfg, net, t.(answers := t.answers + 1), req, attempt + 1)
      else a.error == x.error
  {
    hide BaseSend, CleanUp, CheckRestartThreshold;
  }

  lemma {:induction false} AttemptsAreNoContextError(cfg: Config, net: Server, s: State, req: Request, attempt: nat)
    requires NeverOver(net) && attempt <= cfg.retryAttempts
    ensures !IsContextError(Attempts(cfg, net, s, req, attempt))
    decreases cfg.retryAttempts - attempt
  {
    hide BaseSend, CleanUp, CheckRestartThreshold, NeverOver, Attempts;
    var x := BaseSend(cfg, net, s, req);
    BaseSendIsNoContextError(cfg, net, s, req);
    AttemptsUnfold(cfg, net, s, req, attempt);
    if x.error.Some? && IsTransient(x.error.value) && attempt < cfg.retryAttempts {
      var t := CleanUp(net, x.s, x.error.value, true);
      AttemptsAreNoContextError(cfg, net, t.(answers := t.answers + 1), req, attempt + 1);
    }
  }

  /** As long as the context is not over, Send never answers with the context's error. */
  lemma SendIsNoContextError(cfg: Config, net: Server, s: State, req: Request)
    requires NeverOver(net)
    ensures Send(cfg, net, s, req).error != Some(ContextError)
  {
    hide Attempts;
    AttemptsAreNoContextError(cfg, net, s.(log := s.log + [SendCalled]), req, 0);
  }

  // ----- the context is over -----

  /** Once the context is over, every failure of delivery is explained by a code of the server or by the context. */
  lemma FailuresAreExplained(cfg: Config, net: Server, s: State, req: Request)
    requires AlwaysOver(net)
    ensures Explained(DoSend(cfg, net, s, req)) && Explained(Start(cfg, net, s))
  {
    StartIsExplained(cfg, net, s);
    StartIsExplained(cfg, net, PingIfIdle(net, s));
    hide Start, PingIfIdle, Conversation;
  }

  lemma StartIsExplained(cfg: Config, net: Server, s: State)
    requires AlwaysOver(net)
    ensures Explained(Start(cfg, net, s))
  {
    hide Hello, Terminate, ReadGreeting;
  }

  /** Where the context is over when Send is called, nothing is sent: Send only resets the session, if there is one, and answers with the context's error. */
  lemma SendAfterTheEnd(cfg: Config, net: Server, s: State, req: Request)
    requires net(s.answers).cancelled
    ensures Send(cfg, net, s, req).error == Some(ContextError)
    ensures !s.started ==> Send(cfg, net, s, req).s.log == s.log + [SendCalled, SendReturned(false)]
  {
    var t := s.(log := s.log + [SendCalled]);
    assert BaseSend(cfg, net, t, req) == Fail(t.(answers := t.answers + 1), ContextError);
    hide BaseSend, Execute, Terminate;
    assert s.log + [SendCalled] + [SendReturned(false)] == s.log + [SendCalled, SendReturned(false)];
  }

  /** A message that is turned away before it is sent leaves no trace on the wire either. */
  lemma RejectedIsNotSent(cfg: Config, net: Server, s: State, req: Request)
    requires !net(s.answers).cancelled && req.rejected.Some? && !s.started
    ensures Send(cfg, net, s, req).error == Some(if req.rejected.value.BadArgument? then InvalidArgument else LogicError)
    ensures Send(cfg, net, s, req).s.log == s.log + [SendCalled, SendReturned(false)]
  {
    var t := s.(log := s.log + [SendCalled]);
    hide DoSend, Execute, Terminate;
    assert s.log + [SendCalled] + [SendReturned(false)] == s.log + [SendCalled, SendReturned(false)];
  }

  // ----- refused greetings, timed messages -----

  predicate Replies(net: Server, k: nat) { net(k).ok && net(k).reply.Some? }

  function ReplyCode(net: Server, k: nat): int
    requires Replies(net, k)
  {
    net(k).reply.value.code
  }

  /** A server that greets with anything but 220 is left with that code. */
  lemma RefusedConnection(cfg: Config, net: Server, s: State)
    requires !s.started && net(s.answers).ok && Replies(net, s.answers + 1) && ReplyCode(net, s.answers + 1) !in {0, 220}
    ensures Start(cfg, net, s).error == Some(TransportError(ReplyCode(net, s.answers + 1), None))
  {
    hide Hello, Terminate;
  }

  /** A server that takes neither EHLO nor HELO is left with the code it gave to HELO. */
  lemma RefusedGreetings(cfg: Config, net: Server, s: State)
    requires s.conn.Some? && Replies(net, s.answers) && Replies(net, s.answers + 1)
    requires ReplyCode(net, s.answers) != 250 && ReplyCode(net, s.answers + 1) !in {0, 250}
    ensures Hello(cfg, net, s).error == Some(TransportError(ReplyCode(net, s.answers + 1), None))
  {
    hide AfterEhlo;
    CommandTells(net, s, Ehlo, {250});
  }

  /** A session counts as idle only after a message that was delivered over it. */
  lemma TimedExactlyAfterDelivery(cfg: Config, net: Server, s: State, req: Request)
    requires Start(cfg, net, PingIfIdle(net, s)).error.None?
    ensures DoSend(cfg, net, s, req).s.messageTimed <==> DoSend(cfg, net, s, req).error.None?
  {
    hide Start, PingIfIdle, Conversation;
  }

  /** A session that was just started has delivered nothing yet. */
  lemma FreshSessionIsNotTimed(cfg: Config, net: Server, s: State)
    requires !s.started && Start(cfg, net, s).error.None?
    ensures !Start(cfg, net, s).s.messageTimed
  {
    hide Connect, ReadGreeting, Hello, Terminate;
  }

  /** What went wrong in delivery is what Send's caller sees: an error of the context, or a transport error with its code, stays; an invalid argument is still known as one. */
  lemma DeliveryErrorsArrive(cfg: Config, net: Server, s: State, req: Request)
    requires !net(s.answers).cancelled && req.rejected.None?
    ensures var x, y := DoSend(cfg, net, s.(answers := s.answers + 1), req), BaseSend(cfg, net, s, req);
      && y.s == x.s && (x.error.None? <==> y.error.None?)
      && (x.error.Some? ==>
            && Code(y.error.value) == Code(x.error.value) && (IsContextError(y) <==> IsContextError(x))
            && (IsInvalidArgument(y.error.value) <==> x.error.value.InvalidArgument?))
  {
    hide DoSend, Wrap, IsInvalidArgument, PlainError, Code;
    DoSendError(cfg, net, s.(answers := s.answers + 1), req);
    var x := DoSend(cfg, net, s.(answers := s.answers + 1), req);
    if x.error.Some? {
      WrapKeeps(x.error.value);
    }
  }

  lemma WrapKeeps(e: Error)
    requires PlainError(e)
    ensures Code(Wrap(e)) == Code(e) && (Wrap(e) == ContextError <==> e == ContextError)
    ensures IsInvalidArgument(Wrap(e)) <==> e.InvalidArgument?
  {
  }
}
