/**
 Which messages one Send of the SMTP client handles cleanly, whatever the server does, and what
 every run of such Sends keeps. The condition is exact: for every other message some server makes
 Send break the order of commands or return inside an open transaction.
 */
module SmtpEnvelopes {
  import opened Octets
  import opened SmtpProtocol
  import opened SmtpClient
  import opened SmtpSafety

  // ----- messages for which MAIL is never written -----

  /** Whether some session this configuration can open offers SMTPUTF8: one without TLS that needs it knows HELO only. */
  predicate CanOfferUtf8(cfg: Config) {
    cfg.implicitTls || cfg.autoTls || !cfg.requireTls
  }

  /** Whether the next session may offer SMTPUTF8: the open one, or one opened anew after a failed ping. */
  predicate MayMeetUtf8(cfg: Config, s: State) {
    (s.started && "SMTPUTF8" in s.capabilities) || ((!s.started || s.messageTimed) && CanOfferUtf8(cfg))
  }

  /** Turned away before MAIL: by the checks before the hook, by the sender's address, or for want of SMTPUTF8. */
  predicate Blocked(cfg: Config, s: State, req: Request) {
    req.rejected.Some? || req.sender.encoded.None? || (req.utf8 && !MayMeetUtf8(cfg, s))
  }

  /** Someone to send to, and everyone with a wire form. */
  predicate Complete(req: Request) {
    req.recipients != [] && AllEncodable(req.recipients)
  }

  predicate Harmless(cfg: Config, s: State, req: Request) {
    Blocked(cfg, s, req) || Complete(req)
  }

  /** The same message without a sender: what is proved of failed attempts of such messages holds of any that wrote no MAIL. */
  function Mute(req: Request): Request { req.(sender := Address(None)) }

  /** A session that was opened anew has no SMTPUTF8 when the configuration allows none. */
  lemma NoUtf8Session(cfg: Config, net: Server, s: State)
    requires !CanOfferUtf8(cfg) && !s.started
    ensures Start(cfg, net, s).error.None? ==> "SMTPUTF8" !in Start(cfg, net, s).s.capabilities
  {
    var c := Connect(cfg, net, s);
    if c.error.None? {
      var g := ReadGreeting(net, c.s);
      assert !g.s.usingTls;
      if g.error.None? {
        NoUtf8Hello(cfg, net, g.s);
        hide Hello;
      }
    }
  }

  lemma NoUtf8Hello(cfg: Config, net: Server, s: State)
    requires !CanOfferUtf8(cfg) && !s.usingTls
    ensures Hello(cfg, net, s).error.None? ==> "SMTPUTF8" !in Hello(cfg, net, s).s.capabilities
  {
    var e := Execute(net, s, Ehlo, {250});
    assert e.error.None? ==> !e.s.usingTls;
    hide Execute;
  }

  lemma PingKeepsCapabilities(net: Server, s: State)
    ensures PingIfIdle(net, s).started ==> s.started && PingIfIdle(net, s).capabilities == s.capabilities
    ensures !s.messageTimed ==> PingIfIdle(net, s) == s.(answers := s.answers + 1)
  {
  }

  lemma NotTransient(e: Error)
    requires e.InvalidArgument?
    ensures !IsTransient(e) && !IsTransient(Wrap(e)) && IsInvalidArgument(e) && IsInvalidArgument(Wrap(e))
  {
  }

  /** The hook writes no MAIL for such a message: it fails and leaves the client at rest. */
  predicate WroteNoMail(policy: Policy, w: Watch, x: Step, v: Watch) {
    && x.error.Some? && Rests(policy, x.s, v) && SameAccount(w, v)
    && (IsInvalidArgument(x.error.value) ==> !IsTransient(x.error.value))
  }

  lemma NoMailFrom(net: Server, s: State, req: Request)
    requires req.sender.encoded.None? || (req.utf8 && "SMTPUTF8" !in s.capabilities)
    ensures Conversation(net, s, req) == Fail(s, InvalidArgument)
  {
  }

  lemma BlockedDoSend(policy: Policy, cfg: Config, net: Server, s: State, w: Watch, req: Request) returns (v: Watch)
    requires policy == PolicyOf(cfg) && Rests(policy, s, w) && req.rejected.None? && Blocked(cfg, s, req)
    ensures var x := DoSend(cfg, net, s, req);
      && WroteNoMail(policy, w, x, v)
      && (IsTransient(x.error.value) ==> Blocked(cfg, Terminate(x.s), req))
  {
    var t := PingIfIdle(net, s);
    PingKeepsCapabilities(net, s);
    var o := Start(cfg, net, t);
    if !CanOfferUtf8(cfg) && !t.started {
      NoUtf8Session(cfg, net, t);
    }
    assert t.started ==> o == Done(t);
    hide PingIfIdle, Start, Conversation;
    v := PingIfIdleTracks(policy, net, s, w);
    v := StartTracks(policy, cfg, net, t, v);
    if o.error.None? {
      NoMailFrom(net, o.s, req);
      NotTransient(InvalidArgument);
      assert DoSend(cfg, net, s, req) == Fail(o.s.(messageTimed := false), ContextErr(net, o.s, InvalidArgument));
      assert Rests(policy, o.s.(messageTimed := false), v);
    }
  }

  lemma BlockedBaseSend(policy: Policy, cfg: Config, net: Server, s: State, w: Watch, req: Request) returns (v: Watch)
    requires policy == PolicyOf(cfg) && Rests(policy, s, w) && Blocked(cfg, s, req)
    ensures var x := BaseSend(cfg, net, s, req);
      && WroteNoMail(policy, w, x, v)
      && (IsTransient(x.error.value) ==> Blocked(cfg, Terminate(x.s), req))
  {
    hide DoSend;
    var t := s.(answers := s.answers + 1);
    assert Rests(policy, t, w);
    if net(s.answers).cancelled || req.rejected.Some? {
      v := w;
    } else {
      assert Blocked(cfg, t, req);
      v := BlockedDoSend(policy, cfg, net, t, w, req);
      var x := DoSend(cfg, net, t, req);
      WrapKeepsClass(x.error.value);
      hide Blocked;
    }
  }

  lemma FailedWithoutMail(policy: Policy, w: Watch, req: Request, x: Step, v: Watch)
    requires WroteNoMail(policy, w, x, v) && MayMail(policy, w)
    ensures AttemptFailed(policy, w.attempts + 1, Mute(req), x, v)
  {
  }

  lemma {:induction false} BlockedAttempts(policy: Policy, cfg: Config, net: Server, s: State, w: Watch, req: Request, attempt: nat) returns (v: Watch)
    requires policy == PolicyOf(cfg) && Rests(policy, s, w) && MayMail(policy, w) && Blocked(cfg, s, req)
    requires w.attempts <= attempt <= cfg.retryAttempts
    ensures Concluded(policy, Mute(req), Attempts(cfg, net, s, req, attempt), v)
    decreases cfg.retryAttempts - attempt
  {
    hide BaseSend, Blocked;
    var x := BaseSend(cfg, net, s, req);
    var u := BlockedBaseSend(policy, cfg, net, s, w, req);
    FailedWithoutMail(policy, w, req, x, u);
    v := FailureTracks(policy, cfg, net, Mute(req), x, u, attempt);
    var retry := IsTransient(x.error.value) && attempt < cfg.retryAttempts;
    var t := CleanUp(net, x.s, x.error.value, retry);
    assert retry ==> t == Terminate(x.s);
    hide CleanUp;
    if retry && !net(t.answers).cancelled {
      var next := t.(answers := t.answers + 1);
      assert Rests(policy, next, v);
      StillBlocked(cfg, t, next, req);
      assert Attempts(cfg, net, s, req, attempt) == Attempts(cfg, net, next, req, attempt + 1);
      v := BlockedAttempts(policy, cfg, net, next, v, req, attempt + 1);
    }
  }

  lemma StillBlocked(cfg: Config, t: State, next: State, req: Request)
    requires Blocked(cfg, t, req) && next == t.(answers := next.answers)
    ensures Blocked(cfg, next, req)
  {
  }

  // ----- one Send, and every run -----

  /** The attempts of one Send, from its call to the moment it returns. */
  lemma AttemptsFromCall(policy: Policy, cfg: Config, net: Server, s: State, w: Watch, req: Request) returns (v: Watch)
    requires policy == PolicyOf(cfg) && Rests(policy, s, w) && w.verdict.NoSend? && Harmless(cfg, s, req)
    ensures var x := Attempts(cfg, net, s.(log := s.log + [SendCalled]), req, 0);
      Rests(policy, x.s, v) && !v.verdict.NoSend? && (x.error.None? <==> v.verdict.Accepted?)
  {
    hide Attempts;
    RunSnoc(policy, s.log, SendCalled);
    var called := w.(attempts := 0, floor := 0, verdict := Undecided);
    if Blocked(cfg, s, req) {
      assert Blocked(cfg, s.(log := s.log + [SendCalled]), req);
      v := BlockedAttempts(policy, cfg, net, s.(log := s.log + [SendCalled]), called, req, 0);
    } else {
      v := AttemptsTrack(policy, cfg, net, s.(log := s.log + [SendCalled]), called, req, 0);
    }
  }

  /** One Send of a harmless message, whatever the server does: the log stays legal up to and including the return, and the client rests again. */
  lemma SendTracks(policy: Policy, cfg: Config, net: Server, s: State, w: Watch, req: Request) returns (v: Watch)
    requires policy == PolicyOf(cfg) && Rests(policy, s, w) && w.verdict.NoSend? && Harmless(cfg, s, req)
    ensures Rests(policy, Send(cfg, net, s, req).s, v) && v.verdict.NoSend?
  {
    hide Attempts;
    v := AttemptsFromCall(policy, cfg, net, s, w, req);
    var x := Attempts(cfg, net, s.(log := s.log + [SendCalled]), req, 0);
    RunSnoc(policy, x.s.log, SendReturned(x.error.None?));
    v := v.(verdict := NoSend);
  }

  /** Every message is turned away before MAIL or has a recipient, and only recipients with a wire form. */
  predicate Sound(calls: seq<Call>) {
    forall c :: c in calls && c.SendCall? ==> c.req.rejected.Some? || c.req.sender.encoded.None? || Complete(c.req)
  }

  lemma {:induction false} RunTracks(policy: Policy, cfg: Config, net: Server, s: State, w: Watch, calls: seq<Call>)
    requires policy == PolicyOf(cfg) && Rests(policy, s, w) && w.verdict.NoSend? && Sound(calls)
    ensures Legal(policy, RunCalls(cfg, net, s, calls).log)
    decreases |calls|
  {
    if calls != [] {
      match calls[0]
      case SendCall(req) =>
        var v := SendTracks(policy, cfg, net, s, w, req);
        RunTracks(policy, cfg, net, Send(cfg, net, s, req).s, v, calls[1..]);
      case CloseCall =>
        var v := StopTracks(policy, net, s, w);
        RunTracks(policy, cfg, net, Stop(net, s), v, calls[1..]);
    }
  }

  /** Every program of serialised calls against every server leaves a log the monitor accepts. */
  lemma EveryRunIsLegal(cfg: Config, net: Server, calls: seq<Call>)
    requires Sound(calls)
    ensures Legal(PolicyOf(cfg), RunCalls(cfg, net, FRESH, calls).log)
  {
    assert Rests(PolicyOf(cfg), FRESH, INITIAL);
    RunTracks(PolicyOf(cfg), cfg, net, FRESH, INITIAL, calls);
  }

  // ----- every other message -----

  /** A server on a good network: `codes` says what it answers when, 250 otherwise; `dead` is when writing fails. */
  function Host(codes: map<nat, int>, dead: set<nat>, idle: bool, capabilities: Capabilities): Server {
    (k: nat) => Io(k !in dead, Some(Reply(if k in codes then codes[k] else 250, capabilities, true)), false, idle)
  }

  /** From answer `from` on every command is accepted. */
  ghost predicate Obliging(net: Server, from: nat) {
    forall k: nat :: k >= from ==> net(k).ok && net(k).reply.Some? && net(k).reply.value.code == 250 && !net(k).cancelled
  }

  /** A recipient without a wire form stops an obliging server's client inside the transaction. */
  lemma {:induction false} StopsAtUnencodable(policy: Policy, net: Server, s: State, w: Watch, recipients: seq<Address>) returns (v: Watch)
    requires Obliging(net, s.answers) && Underway(policy, s, w) && InMail(w) && !AllEncodable(recipients)
    ensures var x := Recipients(net, s, recipients);
      x.error == Some(InvalidArgument) && Tracks(policy, x.s, v) && v.phase.Mailing? && x.s.started && !v.verdict.NoSend?
    decreases |recipients|
  {
    var x := RcptTo(net, s, recipients[0]);
    assert recipients[0].encoded.None? ==> x == Fail(s, InvalidArgument);
    assert recipients[0].encoded.Some? ==> x.error.None? && x.s.answers == s.answers + 1;
    hide RcptTo;
    v := RcptTracks(policy, net, s, w, recipients[0]);
    if recipients[0].encoded.None? {
      v := w;
    } else {
      assert AllEncodable(recipients[1..]) ==> AllEncodable(recipients);
      v := StopsAtUnencodable(policy, net, x.s, v, recipients[1..]);
    }
  }

  /** A message that such a server's client does not handle: no recipients, or one without a wire form. */
  predicate Troublesome(s: State, req: Request) {
    req.sender.encoded.Some? && !Complete(req) && (req.utf8 ==> "SMTPUTF8" in s.capabilities)
  }

  /** Where such a conversation ends: inside the transaction with an invalid argument, or after a DATA that nobody was to receive. */
  predicate GoneWrong(policy: Policy, x: Step, v: Watch) {
    if x.error == Some(InvalidArgument) then Tracks(policy, x.s, v) && v.phase.Mailing? && x.s.started && !v.verdict.NoSend?
    else x.error == Some(TransportError(250, None)) && !Legal(policy, x.s.log)
  }

  lemma DataWithoutRecipients(policy: Policy, net: Server, s: State, w: Watch, data: seq<Octet>)
    requires Obliging(net, s.answers) && Underway(policy, s, w) && w.phase == Mailing([], false)
    ensures var x := Content(net, s, data); x.error == Some(TransportError(250, None)) && !Legal(policy, x.s.log)
  {
    var d := Execute(net, s, Data, {354});
    assert d.error == Some(TransportError(250, None));
    var e := Exchange(s.conn.value, Data, Replied(d.reply));
    assert d.s.log == s.log + [e];
    hide Execute, WritePayload;
    RunSnoc(policy, s.log, e);
  }

  lemma ConversationGoesWrong(policy: Policy, net: Server, s: State, w: Watch, req: Request) returns (v: Watch)
    requires Obliging(net, s.answers) && Tracks(policy, s, w) && s.started && w.phase.Open? && MayMail(policy, w) && Troublesome(s, req)
    ensures GoneWrong(policy, Conversation(net, s, req), v)
  {
    var m := MailFrom(net, s, req);
    assert m.error.None? && m.s.answers == s.answers + 1;
    hide MailFrom, Content;
    v := MailFromTracks(policy, net, s, w, req);
    if req.recipients == [] {
      assert Recipients(net, m.s, req.recipients) == Done(m.s);
      DataWithoutRecipients(policy, net, m.s, v, req.data);
    } else {
      hide Recipients;
      v := StopsAtUnencodable(policy, net, m.s, v, req.recipients);
    }
  }

  /** The hook before the conversation: ping and start have succeeded, and from then on the server obliges. */
  ghost predicate Opened(cfg: Config, net: Server, s: State, req: Request) {
    var o := Start(cfg, net, PingIfIdle(net, s));
    o.error.None? && Obliging(net, o.s.answers) && Troublesome(o.s, req) && Patient(net)
  }

  /** The context is never over. */
  ghost predicate Patient(net: Server) {
    forall k: nat :: !net(k).cancelled
  }

  lemma DoSendGoesWrong(cfg: Config, net: Server, s: State, w: Watch, req: Request) returns (v: Watch)
    requires Rests(PolicyOf(cfg), s, w) && MayMail(PolicyOf(cfg), w) && Opened(cfg, net, s, req)
    ensures GoneWrong(PolicyOf(cfg), DoSend(cfg, net, s, req), v)
  {
    var policy := PolicyOf(cfg);
    hide PingIfIdle, Start, Conversation, Troublesome;
    var t := PingIfIdle(net, s);
    v := PingIfIdleTracks(policy, net, s, w);
    var o := Start(cfg, net, t);
    v := StartTracks(policy, cfg, net, t, v);
    v := ConversationGoesWrong(policy, net, o.s, v, req);
    var c := Conversation(net, o.s, req);
    hide Obliging;
    ErrorStays(net, c);
  }

  lemma ErrorStays(net: Server, c: Step)
    requires c.error == Some(InvalidArgument) || c.error == Some(TransportError(250, None))
    requires Code(c.error.value) != 0 || !net(c.s.answers).cancelled
    ensures ContextErr(net, c.s, c.error.value) == c.error.value
  {
  }

  /** A log that broke the order of commands stays broken. */
  lemma StaysIllegal(policy: Policy, log: seq<Event>, longer: seq<Event>)
    requires !Legal(policy, log) && log <= longer
    ensures !Legal(policy, longer)
  {
    assert longer[..|log|] == log;
    if Legal(policy, longer) {
      LegalPrefix(policy, longer, |log|);
    }
  }

  lemma CleanUpExtends(net: Server, s: State, e: Error, retry: bool)
    ensures s.log <= CleanUp(net, s, e, retry).log
  {
    ExecuteExtends(net, s, Rset, {250});
    hide Execute;
  }

  lemma ExecuteExtends(net: Server, s: State, command: Command, codes: set<int>)
    ensures s.log <= Execute(net, s, command, codes).s.log
  {
  }

  lemma SendGoesWrong(cfg: Config, net: Server, s: State, w: Watch, req: Request)
    requires Rests(PolicyOf(cfg), s, w) && w.verdict.NoSend? && req.rejected.None? && !net(s.answers).cancelled
    requires Opened(cfg, net, s.(answers := s.answers + 1, log := s.log + [SendCalled]), req)
    ensures !Legal(PolicyOf(cfg), Send(cfg, net, s, req).s.log)
  {
    var policy := PolicyOf(cfg);
    RunSnoc(policy, s.log, SendCalled);
    var called := s.(log := s.log + [SendCalled]);
    var w0 := w.(attempts := 0, floor := 0, verdict := Undecided);
    var t := called.(answers := called.answers + 1);
    assert Rests(policy, t, w0) && MayMail(policy, w0);
    hide DoSend, Attempts, CleanUp, Opened, Rests, Tracks, Legal;
    var v := DoSendGoesWrong(cfg, net, t, w0, req);
    var x := DoSend(cfg, net, t, req);
    hide GoneWrong;
    WrongError(policy, x, v);
    WrongEndsSend(cfg, net, called, req);
    var a := Attempts(cfg, net, called, req, 0);
    assert Send(cfg, net, s, req).s.log == a.s.log + [SendReturned(false)];
    hide *;
    WrongLog(policy, net, x, v, a.s);
  }

  lemma WrongError(policy: Policy, x: Step, v: Watch)
    requires GoneWrong(policy, x, v)
    ensures x.error == Some(InvalidArgument) || x.error == Some(TransportError(250, None))
  {
  }

  lemma WrongLog(policy: Policy, net: Server, x: Step, v: Watch, end: State)
    requires GoneWrong(policy, x, v)
    requires end == if x.error == Some(InvalidArgument) then x.s else CleanUp(net, x.s, x.error.value, false)
    ensures !Legal(policy, end.log + [SendReturned(false)])
  {
    hide Tracks, CleanUp, Legal;
    if x.error == Some(InvalidArgument) {
      ReturnInTransaction(policy, x.s, v);
    } else {
      CleanUpExtends(net, x.s, x.error.value, false);
      StaysIllegal(policy, x.s.log, end.log + [SendReturned(false)]);
    }
  }

  lemma ReturnInTransaction(policy: Policy, s: State, v: Watch)
    requires Tracks(policy, s, v) && v.phase.Mailing? && !v.verdict.NoSend?
    ensures !Legal(policy, s.log + [SendReturned(false)])
  {
    RunSnoc(policy, s.log, SendReturned(false));
  }

  /** Neither error is transient: Send ends with the first attempt, after RSET unless the argument was invalid. */
  lemma WrongEndsSend(cfg: Config, net: Server, s: State, req: Request)
    requires !net(s.answers).cancelled && req.rejected.None?
    requires var x := DoSend(cfg, net, s.(answers := s.answers + 1), req);
      x.error == Some(InvalidArgument) || x.error == Some(TransportError(250, None))
    ensures var x, a := DoSend(cfg, net, s.(answers := s.answers + 1), req), Attempts(cfg, net, s, req, 0);
      && a.error.Some?
      && a.s == if x.error == Some(InvalidArgument) then x.s else CleanUp(net, x.s, x.error.value, false)
  {
    hide DoSend, Execute, Terminate;
    var b := BaseSend(cfg, net, s, req);
    assert IsInvalidArgument(TransportError(0, Some(InvalidArgument)));
  }

  // ----- a server for each of them -----

  /** One that opens a session with a client that has none: by HELO, which asks for nothing. */
  lemma StartsByHelo(cfg: Config, s: State, idle: bool) returns (net: Server)
    requires !s.started
    ensures net == Host(map[s.answers + 1 := 220, s.answers + 2 := 500], {}, idle, map[])
    ensures Start(cfg, net, s).error.None? && Start(cfg, net, s).s.answers == s.answers + 4
  {
    net := Host(map[s.answers + 1 := 220, s.answers + 2 := 500], {}, idle, map[]);
    var c := Connect(cfg, net, s);
    var g := ReadGreeting(net, c.s);
    assert g.error.None? && g.s.answers == s.answers + 2;
    var e := Execute(net, g.s, Ehlo, {250});
    assert e.error == Some(TransportError(500, None)) && e.s.answers == s.answers + 3;
    var h := Execute(net, e.s, Helo, {250});
    assert h.error.None?;
    hide Execute, Connect, ReadGreeting, AfterEhlo;
  }

  const UTF8: Capabilities := map["SMTPUTF8" := []]
  const UTF8_OVER_TLS: Capabilities := map["SMTPUTF8" := [], "STARTTLS" := []]

  lemma StartsWithUtf8(cfg: Config, s: State, codes: map<nat, int>, dead: set<nat>, idle: bool)
    requires !s.started && (cfg.implicitTls || !cfg.requireTls) && (forall k :: k in dead ==> k < s.answers)
    requires forall k: nat :: k >= s.answers && k in codes ==> k == s.answers + 1
    requires s.answers + 1 in codes && codes[s.answers + 1] == 220
    ensures var x := Start(cfg, Host(codes, dead, idle, UTF8), s);
      x.error.None? && x.s.answers == s.answers + 3 && x.s.capabilities == UTF8
  {
    var net := Host(codes, dead, idle, UTF8);
    var c := Connect(cfg, net, s);
    var g := ReadGreeting(net, c.s);
    assert g.error.None? && g.s.answers == s.answers + 2 && g.s.usingTls == cfg.implicitTls;
    var e := Execute(net, g.s, Ehlo, {250});
    assert e.error.None? && e.s.answers == s.answers + 3 && e.reply.capabilities == UTF8;
    hide Execute, Connect, ReadGreeting;
  }

  lemma StartsWithUtf8OverTls(cfg: Config, s: State, codes: map<nat, int>, dead: set<nat>, idle: bool)
    requires !s.started && cfg.autoTls && !cfg.implicitTls && (forall k :: k in dead ==> k < s.answers)
    requires forall k: nat :: k >= s.answers && k in codes ==> k == s.answers + 1 || k == s.answers + 3
    requires s.answers + 1 in codes && codes[s.answers + 1] == 220 && s.answers + 3 in codes && codes[s.answers + 3] == 220
    ensures var x := Start(cfg, Host(codes, dead, idle, UTF8_OVER_TLS), s);
      x.error.None? && x.s.answers == s.answers + 6 && x.s.capabilities == UTF8_OVER_TLS
  {
    var net := Host(codes, dead, idle, UTF8_OVER_TLS);
    var c := Connect(cfg, net, s);
    var g := ReadGreeting(net, c.s);
    assert g.error.None? && g.s.answers == s.answers + 2 && !g.s.usingTls;
    var e := Execute(net, g.s, Ehlo, {250});
    assert e.error.None? && e.s.answers == s.answers + 3 && e.reply.capabilities == UTF8_OVER_TLS && !e.s.usingTls && e.s.conn.Some?;
    hide Connect, ReadGreeting;
    var t := e.s.(capabilities := UTF8_OVER_TLS);
    UpgradesToTls(net, t);
    hide Execute, Upgrade;
  }

  lemma UpgradesToTls(net: Server, s: State)
    requires s.conn.Some? && net(s.answers).ok && net(s.answers).reply.Some? && net(s.answers).reply.value.code == 220
    requires net(s.answers + 1).ok && net(s.answers + 2).ok && net(s.answers + 2).reply.Some? && net(s.answers + 2).reply.value.code == 250
    requires net(s.answers + 2).reply.value.capabilities == UTF8_OVER_TLS
    ensures var x := Upgrade(net, s); x.error.None? && x.s.answers == s.answers + 3 && x.s.capabilities == UTF8_OVER_TLS
  {
    var x := Execute(net, s, StartTls, {220});
    assert x.error.None? && x.s.answers == s.answers + 1 && x.s.conn.Some?;
    var h := Handshaking(net, x.s);
    assert h.error.None? && h.s.answers == s.answers + 2 && h.s.conn.Some?;
    var e := Execute(net, h.s, Ehlo, {250});
    hide Handshaking;
  }

  lemma OpensWithUtf8(cfg: Config, s: State, dead: set<nat>, idle: bool) returns (net: Server)
    requires !s.started && CanOfferUtf8(cfg) && (forall k :: k in dead ==> k < s.answers)
    ensures var x := Start(cfg, net, s); x.error.None? && Obliging(net, x.s.answers) && "SMTPUTF8" in x.s.capabilities
    ensures Patient(net) && forall k: nat :: k < s.answers ==> (net(k).ok <==> k !in dead) && net(k).idle == idle
  {
    var a := s.answers;
    hide Start;
    if cfg.requireTls && !cfg.implicitTls {
      net := Host(map[a + 1 := 220, a + 3 := 220], dead, idle, UTF8_OVER_TLS);
      StartsWithUtf8OverTls(cfg, s, map[a + 1 := 220, a + 3 := 220], dead, idle);
    } else {
      net := Host(map[a + 1 := 220], dead, idle, UTF8);
      StartsWithUtf8(cfg, s, map[a + 1 := 220], dead, idle);
    }
  }

  /** For every message that is not harmless some server opens a session and then obliges. */
  lemma FindServer(cfg: Config, s: State, req: Request) returns (net: Server)
    requires (s.started <==> s.conn.Some?) && !Harmless(cfg, s, req)
    ensures Opened(cfg, net, s, req)
  {
    hide Start, PingIfIdle, Opened, MayMeetUtf8;
    if s.started && (req.utf8 ==> "SMTPUTF8" in s.capabilities) {
      net := Host(map[], {}, false, map[]);
      OpenAlready(cfg, net, s, req);
    } else if !s.started && !req.utf8 {
      net := FindByHelo(cfg, s, req);
    } else {
      MeetsUtf8(cfg, s);
      if s.started {
        net := FindAfterPing(cfg, s, req);
      } else {
        net := FindFresh(cfg, s, req);
      }
    }
  }

  lemma MeetsUtf8(cfg: Config, s: State)
    requires MayMeetUtf8(cfg, s) && !(s.started && "SMTPUTF8" in s.capabilities)
    ensures (s.started ==> s.messageTimed) && CanOfferUtf8(cfg)
  {
  }

  lemma OpenAlready(cfg: Config, net: Server, s: State, req: Request)
    requires net == Host(map[], {}, false, map[]) && s.started && Troublesome(s, req)
    ensures Opened(cfg, net, s, req)
  {
    var t := s.(answers := s.answers + 1);
    assert PingIfIdle(net, s) == t && Start(cfg, net, t) == Done(t);
    hide Start, PingIfIdle;
  }

  lemma FindByHelo(cfg: Config, s: State, req: Request) returns (net: Server)
    requires !s.started && !req.utf8 && req.sender.encoded.Some? && !Complete(req)
    ensures Opened(cfg, net, s, req)
  {
    var t := s.(answers := s.answers + 1);
    hide Start, Ping;
    net := StartsByHelo(cfg, t, false);
    assert PingIfIdle(net, s) == t;
    hide PingIfIdle;
  }

  lemma FindFresh(cfg: Config, s: State, req: Request) returns (net: Server)
    requires !s.started && CanOfferUtf8(cfg) && req.sender.encoded.Some? && !Complete(req)
    ensures Opened(cfg, net, s, req)
  {
    var t := s.(answers := s.answers + 1);
    hide Start, Ping, Obliging;
    net := OpensWithUtf8(cfg, t, {}, false);
    assert PingIfIdle(net, s) == t;
    hide PingIfIdle;
  }

  lemma FindAfterPing(cfg: Config, s: State, req: Request) returns (net: Server)
    requires s.started && s.conn.Some? && s.messageTimed && CanOfferUtf8(cfg)
    requires req.sender.encoded.Some? && !Complete(req)
    ensures Opened(cfg, net, s, req)
  {
    var lost := LostState(s);
    hide Start, Ping, PingIfIdle, Obliging;
    net := OpensWithUtf8(cfg, lost, {s.answers + 1}, true);
    PingIsLostTo(net, s);
  }

  /** The client after a ping that could not be written. */
  function LostState(s: State): State
    requires s.conn.Some?
  {
    Terminate(Record(s.(answers := s.answers + 1), Exchange(s.conn.value, Noop, WriteFailed)))
  }

  lemma PingIsLostTo(net: Server, s: State)
    requires s.started && s.conn.Some? && s.messageTimed && net(s.answers).idle && !net(s.answers + 1).ok
    ensures PingIfIdle(net, s) == LostState(s)
  {
    var t := s.(answers := s.answers + 1);
    assert Execute(net, t, Noop, {250}).s == LostState(s) && Execute(net, t, Noop, {250}).error.Some?;
    hide Execute;
  }

  /**
   From a client at rest, started or not, Send of a message keeps the order of commands and leaves
   no transaction behind, whatever the server answers, if and only if the message is harmless: it is
   turned away before MAIL, or it has recipients and all of them have a wire form.
   */
  lemma CleanExactlyWhenHarmless(cfg: Config, s: State, w: Watch, req: Request)
    requires Rests(PolicyOf(cfg), s, w) && w.verdict.NoSend?
    ensures (forall net: Server :: Legal(PolicyOf(cfg), Send(cfg, net, s, req).s.log)) <==> Harmless(cfg, s, req)
  {
    hide Send, Rests;
    if Harmless(cfg, s, req) {
      forall net: Server ensures Legal(PolicyOf(cfg), Send(cfg, net, s, req).s.log) {
        var v := SendTracks(PolicyOf(cfg), cfg, net, s, w, req);
        RestsIsLegal(PolicyOf(cfg), Send(cfg, net, s, req).s, v);
      }
    } else {
      var t := s.(answers := s.answers + 1, log := s.log + [SendCalled]);
      assert !Harmless(cfg, t, req) && req.rejected.None?;
      hide Harmless, Opened;
      StartedAtRest(PolicyOf(cfg), s, w);
      var net := FindServer(cfg, t, req);
      OpenedIsPatient(cfg, net, t, req);
      SendGoesWrong(cfg, net, s, w, req);
    }
  }

  lemma RestsIsLegal(policy: Policy, s: State, w: Watch)
    requires Rests(policy, s, w)
    ensures Legal(policy, s.log)
  {
  }

  lemma StartedAtRest(policy: Policy, s: State, w: Watch)
    requires Rests(policy, s, w)
    ensures s.started <==> s.conn.Some?
  {
  }

  lemma OpenedIsPatient(cfg: Config, net: Server, s: State, req: Request)
    requires Opened(cfg, net, s, req)
    ensures Patient(net)
  {
    hide Start, PingIfIdle;
  }
}
