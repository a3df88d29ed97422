/**
 Results about single calls of the SMTP client: what exactly a delivered message was on the wire,
 and the exact conditions under which two promises of the transport hold.
 */
module SmtpResults {
  import opened Octets
  import opened SmtpProtocol
  import opened SmtpClient
  import opened SmtpSafety
  import SmtpData

  // ----- AUTH dialogues -----

  predicate Says(net: Server, k: nat, code: int) {
    net(k).ok && net(k).reply.Some? && net(k).reply.value.code == code
  }

  /** The server asks for a continuation where the mechanism has none, or sends a challenge that cannot be decoded. */
  predicate AsksTooMuch(cfg: Config, net: Server, at: nat, m: Mechanism) {
    match m
    case Plain => Says(net, at, 334)
    case Login => Says(net, at, 334) && Says(net, at + 1, 334) && Says(net, at + 2, 334)
    case CramMd5 =>
      cfg.password != "" && Says(net, at, 334) && (!net(at).reply.value.decodableChallenge || Says(net, at + 1, 334))
  }

  /** A mechanism ended while the server waits for a continuation: the last reply was 334. */
  predicate Dangling(s: State, x: Step) {
    && x.error.Some? && x.s.conn.Some? && |x.s.log| > |s.log|
    && var e := x.s.log[|x.s.log| - 1]; e.Exchange? && e.outcome.Replied? && e.outcome.reply.code == 334
  }

  /** What one command tells: kept and answered with 334 exactly if the server says so. */
  lemma OneStep(net: Server, s: State, command: Command, codes: set<int>)
    requires s.conn.Some?
    ensures var x := Execute(net, s, command, codes);
      && x.s.answers == s.answers + 1 && |x.s.log| > |s.log|
      && (x.s.conn.Some? ==> OutcomeOf(net(s.answers)).Replied? && x.s.log[|x.s.log| - 1] == Exchange(s.conn.value, command, Replied(x.reply)))
      && (OutcomeOf(net(s.answers)).Replied? ==> x.s.conn.Some? && x.reply == net(s.answers).reply.value)
      && (x.error.None? <==> x.s.conn.Some? && x.reply.code in codes)
  {
  }

  lemma LoginLeftOpen(cfg: Config, net: Server, s: State)
    requires s.conn.Some?
    ensures Dangling(s, Authenticate(cfg, net, s, Login)) <==> AsksTooMuch(cfg, net, s.answers, Login)
  {
    hide Execute, Terminate;
    OneStep(net, s, Auth(Login), {334});
    var a := Execute(net, s, Auth(Login), {334});
    if a.error.None? {
      OneStep(net, a.s, AuthContinue, {334});
      var user := Execute(net, a.s, AuthContinue, {334});
      if user.error.None? {
        OneStep(net, user.s, AuthContinue, {235});
      }
    }
  }

  lemma CramLeftOpen(cfg: Config, net: Server, s: State)
    requires s.conn.Some?
    ensures Dangling(s, Authenticate(cfg, net, s, CramMd5)) <==> AsksTooMuch(cfg, net, s.answers, CramMd5)
  {
    hide Execute, Terminate;
    OneStep(net, s, Auth(CramMd5), {334});
    var a := Execute(net, s, Auth(CramMd5), {334});
    if a.error.None? {
      OneStep(net, a.s, AuthContinue, {235});
    }
  }

  /**
   The client leaves an AUTH dialogue open exactly if the server asks for more than the mechanism
   has to say; then it goes on with RSET. Section 4 of RFC 4954 asks for a line "*" before that.
   */
  lemma DialogueLeftOpen(cfg: Config, net: Server, s: State, m: Mechanism)
    requires s.conn.Some?
    ensures Dangling(s, Authenticate(cfg, net, s, m)) <==> AsksTooMuch(cfg, net, s.answers, m)
  {
    match m
    case Plain =>
      hide Execute, Terminate;
      OneStep(net, s, Auth(Plain), {235});
    case Login =>
      hide *;
      LoginLeftOpen(cfg, net, s);
    case CramMd5 =>
      hide *;
      CramLeftOpen(cfg, net, s);
  }

  // ----- overlapping calls -----

  /** A server that refuses two of its answers, 550 and then 503, and accepts every other command. */
  function Refusing(at: nat): Server {
    (k: nat) => Io(true, Some(Reply(if k == at then 550 else if k == at + 2 then 503 else 250, map[], true)), false, false)
  }

  predicate Sendable(req: Request) {
    req.sender.encoded.Some? && !req.utf8 && req.recipients != [] && req.recipients[0].encoded.Some?
  }

  lemma FirstIsRefused(cfg: Config, s: State, req: Request)
    requires s.started && s.conn.Some? && Sendable(req)
    ensures var x := DoSend(cfg, Refusing(s.answers + 2), s, req);
      && x.error == Some(TransportError(550, None)) && x.s.started && x.s.conn == s.conn && x.s.answers == s.answers + 3
      && |x.s.log| == |s.log| + 2 && x.s.log[..|s.log|] == s.log && AcceptedMail(x.s.log[|s.log|], s.conn.value)
      && !Ends(x.s.log[|s.log| + 1], s.conn.value)
  {
    var net := Refusing(s.answers + 2);
    var t := s.(answers := s.answers + 1);
    assert PingIfIdle(net, s) == t && Start(cfg, net, t) == Done(t);
    var m := MailFrom(net, t, req);
    assert m.error.None?;
    var r := Recipients(net, m.s, req.recipients);
    assert r.error == Some(TransportError(550, None));
    hide Terminate, Content;
  }

  lemma SecondIsRefused(cfg: Config, s: State, at: nat, req: Request)
    requires s.started && s.conn.Some? && Sendable(req) && s.answers == at + 1
    ensures var x := DoSend(cfg, Refusing(at), s, req);
      && x.error == Some(TransportError(503, None)) && x.s.log == s.log + [x.s.log[|s.log|]]
      && MailCommand(x.s.log[|s.log|]) && x.s.log[|s.log|].conn == s.conn.value
  {
    var net := Refusing(at);
    var t := s.(answers := s.answers + 1);
    assert PingIfIdle(net, s) == t && Start(cfg, net, t) == Done(t);
    assert MailFrom(net, t, req).error == Some(TransportError(503, None));
    hide Terminate, Content, Recipients;
  }

  /**
   Send gives the mutex back between a failed doSend and its RSET. A second call whose doSend
   comes in between writes MAIL into the transaction that the first has left open.
   */
  lemma OverlapMeetsOpenTransaction(cfg: Config, s: State, first: Request, second: Request)
    requires s.started && s.conn.Some? && Sendable(first) && Sendable(second)
    ensures var net, m := Refusing(s.answers + 2), |s.log|;
      var log := DoSend(cfg, net, DoSend(cfg, net, s, first).s, second).s.log;
      && |log| == m + 3 && AcceptedMail(log[m], s.conn.value) && MailCommand(log[m + 2]) && log[m + 2].conn == s.conn.value
      && !EndedBetween(log, m, m + 2, s.conn.value)
  {
    var x := DoSend(cfg, Refusing(s.answers + 2), s, first);
    FirstIsRefused(cfg, s, first);
    SecondIsRefused(cfg, x.s, s.answers + 2, second);
    hide DoSend, Ends, AcceptedMail, Refusing;
  }

  // ----- a delivered message on the wire -----

  /**
   The wire form of one delivered message on connection `conn`: MAIL accepted, each recipient
   accepted once and in envelope order, DATA answered with 354, the payload, the acknowledged mark.
   */
  predicate DeliversMessage(events: seq<Event>, conn: nat, req: Request) {
    var n := |req.recipients|;
    && |events| == n + 4
    && req.sender.encoded.Some? && AllEncodable(req.recipients)
    && AcceptedMail(events[0], conn) && events[0].command == Mail(req.sender.encoded.value, req.utf8)
    && AcceptRecipients(events[1..n + 1], conn, req.recipients)
    && PayloadInvitation(events[n + 1], conn)
    && IsPayload(events[n + 2], conn)
    && Delivery(events[n + 3]) && events[n + 3].conn == conn
    && events[n + 2].octets + events[n + 3].command.mark == SmtpData.Stream(req.data)
  }

  predicate AcceptRecipients(events: seq<Event>, conn: nat, recipients: seq<Address>) {
    && |events| == |recipients|
    && forall i :: 0 <= i < |events| ==>
         AcceptedRcpt(events[i], conn) && recipients[i].encoded == Some(events[i].command.recipient)
  }

  lemma ExecuteWrites(net: Server, s: State, command: Command, codes: set<int>)
    requires Execute(net, s, command, codes).error.None?
    ensures var x := Execute(net, s, command, codes);
            && s.conn.Some? && x.s.conn == s.conn && x.reply.code in codes
            && x.s.log == s.log + [Exchange(s.conn.value, command, Replied(x.reply))]
  {
  }

  lemma {:induction false} RecipientsWrite(net: Server, s: State, recipients: seq<Address>) returns (events: seq<Event>)
    requires Recipients(net, s, recipients).error.None? && s.conn.Some?
    ensures var x := Recipients(net, s, recipients);
            x.s.conn == s.conn && x.s.log == s.log + events && AcceptRecipients(events, s.conn.value, recipients)
    decreases |recipients|
  {
    hide Execute;
    if recipients == [] {
      events := [];
    } else {
      var x := RcptTo(net, s, recipients[0]);
      ExecuteWrites(net, s, Rcpt(recipients[0].encoded.value), RCPT_CODES);
      var more := RecipientsWrite(net, x.s, recipients[1..]);
      var first := x.s.log[|s.log|];
      events := [first] + more;
      assert x.s.log + more == s.log + events;
      forall i | 0 <= i < |events|
        ensures AcceptedRcpt(events[i], s.conn.value) && recipients[i].encoded == Some(events[i].command.recipient)
      {
        if i > 0 {
          assert events[i] == more[i - 1] && recipients[i] == recipients[1..][i - 1];
        }
      }
    }
  }

  lemma ContentWrites(net: Server, s: State, data: seq<Octet>) returns (d: Event, p: Event, e: Event)
    requires Content(net, s, data).error.None? && s.conn.Some?
    ensures Content(net, s, data).s.log == s.log + [d, p, e]
    ensures PayloadInvitation(d, s.conn.value) && IsPayload(p, s.conn.value) && Delivery(e) && e.conn == s.conn.value
    ensures p.octets + e.command.mark == SmtpData.Stream(data)
  {
    hide Execute;
    var x := Execute(net, s, Data, {354});
    ExecuteWrites(net, s, Data, {354});
    var stuffed := SmtpData.DotStuff(SmtpData.Normalize(data));
    var mark := SmtpData.Terminator(SmtpData.EndsWithCrlf(stuffed));
    var y := WritePayload(net, x.s, stuffed);
    ExecuteWrites(net, y.s, EndOfData(mark), {250});
    d := Exchange(s.conn.value, Data, Replied(x.reply));
    p := Payload(s.conn.value, stuffed, true);
    e := Exchange(s.conn.value, EndOfData(mark), Replied(Execute(net, y.s, EndOfData(mark), {250}).reply));
  }

  lemma ConversationWrites(net: Server, s: State, req: Request) returns (events: seq<Event>)
    requires Conversation(net, s, req).error.None?
    ensures s.conn.Some? && Conversation(net, s, req).s.log == s.log + events && DeliversMessage(events, s.conn.value, req)
  {
    hide Execute, Content, Recipients, DeliversMessage;
    var m := MailFrom(net, s, req);
    ExecuteWrites(net, s, Mail(req.sender.encoded.value, req.utf8), {250});
    var conn := s.conn.value;
    var mail := Exchange(conn, Mail(req.sender.encoded.value, req.utf8), Replied(m.reply));
    var r := Recipients(net, m.s, req.recipients);
    var rcpts := RecipientsWrite(net, m.s, req.recipients);
    var d, p, e := ContentWrites(net, r.s, req.data);
    events := Assemble(mail, rcpts, d, p, e, conn, req);
    assert s.log + [mail] + rcpts + [d, p, e] == s.log + events;
  }

  lemma Assemble(mail: Event, rcpts: seq<Event>, d: Event, p: Event, e: Event, conn: nat, req: Request) returns (events: seq<Event>)
    requires req.sender.encoded.Some? && AcceptedMail(mail, conn) && mail.command == Mail(req.sender.encoded.value, req.utf8)
    requires AcceptRecipients(rcpts, conn, req.recipients)
    requires PayloadInvitation(d, conn) && IsPayload(p, conn) && Delivery(e) && e.conn == conn
    requires p.octets + e.command.mark == SmtpData.Stream(req.data)
    ensures events == [mail] + rcpts + [d, p, e] && DeliversMessage(events, conn, req)
  {
    hide SmtpData.Stream;
    events := [mail] + rcpts + [d, p, e];
    assert events[1..|rcpts| + 1] == rcpts;
    AcceptedAreEncodable(rcpts, conn, req.recipients);
  }

  lemma AcceptedAreEncodable(events: seq<Event>, conn: nat, recipients: seq<Address>)
    requires AcceptRecipients(events, conn, recipients)
    ensures AllEncodable(recipients)
  {
    forall r | r in recipients ensures r.encoded.Some? {
      var i :| 0 <= i < |recipients| && recipients[i] == r;
      assert AcceptedRcpt(events[i], conn);
    }
  }

  lemma RestartExtends(cfg: Config, net: Server, s: State) returns (more: seq<Event>)
    ensures CheckRestartThreshold(cfg, net, s).log == s.log + more
  {
    var t := CheckRestartThreshold(cfg, net, s);
    more := t.log[|s.log|..];
  }

  lemma {:induction false} AttemptsDeliver(cfg: Config, net: Server, s: State, req: Request, attempt: nat)
    returns (before: seq<Event>, conn: nat, events: seq<Event>, after: seq<Event>)
    requires attempt <= cfg.retryAttempts && Attempts(cfg, net, s, req, attempt).error.None?
    ensures Attempts(cfg, net, s, req, attempt).s.log == before + events + after && DeliversMessage(events, conn, req)
    decreases cfg.retryAttempts - attempt
  {
    hide DoSend, CleanUp, CheckRestartThreshold;
    var x := BaseSend(cfg, net, s, req);
    if x.error.None? {
      before, conn, events := DoSendDelivers(cfg, net, s.(answers := s.answers + 1), req);
      after := RestartExtends(cfg, net, x.s);
    } else {
      var t := CleanUp(net, x.s, x.error.value, true);
      before, conn, events, after := AttemptsDeliver(cfg, net, t.(answers := t.answers + 1), req, attempt + 1);
    }
  }

  lemma DoSendDelivers(cfg: Config, net: Server, s: State, req: Request) returns (before: seq<Event>, conn: nat, events: seq<Event>)
    requires DoSend(cfg, net, s, req).error.None?
    ensures DoSend(cfg, net, s, req).s.log == before + events && DeliversMessage(events, conn, req)
  {
    hide Start, PingIfIdle, Conversation;
    var o := Start(cfg, net, PingIfIdle(net, s));
    events := ConversationWrites(net, o.s, req);
    before, conn := o.s.log, o.s.conn.value;
  }

  /**
   When Send reports success, its log holds exactly one uninterrupted transaction of that message,
   and a receiver of section 4.5.2 of RFC 5321 gets the normalised message from its payload.
   */
  lemma DeliveredMessageOnTheWire(cfg: Config, net: Server, s: State, req: Request)
    returns (before: seq<Event>, conn: nat, events: seq<Event>, after: seq<Event>)
    requires Send(cfg, net, s, req).error.None?
    ensures Send(cfg, net, s, req).s.log == before + events + after && DeliversMessage(events, conn, req)
    ensures SmtpData.Receive(events[|req.recipients| + 2].octets + events[|req.recipients| + 3].command.mark)
         == Some(SmtpData.Received(SmtpData.WithFinalCrlf(SmtpData.Normalize(req.data)), []))
  {
    hide Attempts, SmtpData.Receive;
    var called := s.(log := s.log + [SendCalled]);
    before, conn, events, after := AttemptsDeliver(cfg, net, called, req, 0);
    after := after + [SendReturned(true)];
    SmtpData.ReceiverRecoversMessage(req.data, []);
    assert SmtpData.Stream(req.data) + [] == SmtpData.Stream(req.data);
  }

  // ----- the TLS requirement -----

  /** A server that understands HELO only. */
  function HeloOnly(k: nat): Io {
    Io(true, Some(Reply(if k == 1 then 220 else if k == 2 then 502 else 250, map[], false)), false, false)
  }

  lemma HeloSession(cfg: Config)
    ensures var x := Start(cfg, HeloOnly, FRESH); x.error.None? && x.s.usingTls == cfg.implicitTls
  {
    var c := Connect(cfg, HeloOnly, FRESH);
    var g := ReadGreeting(HeloOnly, c.s);
    assert g.error.None? && g.s.answers == 2;
    var e := Execute(HeloOnly, g.s, Ehlo, {250});
    assert e.error == Some(TransportError(502, None));
    var h := Execute(HeloOnly, e.s, Helo, {250});
    assert h.error.None? && h.s.usingTls == cfg.implicitTls;
  }

  /**
   Whatever requireTls says, a session is sure to be under TLS for every server exactly when TLS is
   implicit: the HELO fallback returns before the requirement is looked at. StartTracks proves the
   requirement for the sessions that EHLO opened.
   */
  lemma TlsCertainExactlyWhenImplicit(cfg: Config)
    ensures (forall net: Server :: Start(cfg, net, FRESH).error.None? ==> Start(cfg, net, FRESH).s.usingTls) <==> cfg.implicitTls
  {
    hide Start;
    HeloSession(cfg);
    if cfg.implicitTls {
      forall net: Server ensures Start(cfg, net, FRESH).error.None? ==> Start(cfg, net, FRESH).s.usingTls {
        assert Rests(PolicyOf(cfg), FRESH, INITIAL);
        var v := StartTracks(PolicyOf(cfg), cfg, net, FRESH, INITIAL);
      }
    }
  }
}
