/**
 Whole-run safety of the SMTP client: whatever the server answers, the log of every run is
 accepted by the monitor of SmtpProtocol, so that everything proved there of legal logs holds.
 */
module SmtpSafety {
  import opened Octets
  import opened SmtpProtocol
  import opened SmtpClient
  import SmtpData

  /** The client's fields agree with what the monitor has seen on the wire. */
  predicate Coupled(s: State, w: Watch) {
    && s.dialled == w.conn
    && (s.conn.Some? <==> !w.phase.Closed?)
    && (s.conn.Some? ==> s.conn.value == w.conn)
    && s.usingTls == w.secure
    && (w.phase.Closed? ==> !w.secure)
    && (s.started ==> InSession(w.phase) && w.capabilities == Some(s.capabilities))
  }

  /** The phases a started client can be in. */
  predicate InSession(p: Phase) {
    p.Open? || InTransaction(p)
  }

  predicate Tracks(policy: Policy, s: State, w: Watch) {
    Run(policy, s.log) == Some(w) && Coupled(s, w)
  }

  /** Between two calls: no transaction, and connected exactly when started. */
  predicate Rests(policy: Policy, s: State, w: Watch) {
    Tracks(policy, s, w) && Idle(w.phase) && (s.started <==> s.conn.Some?)
  }

  /** The account of the Send in progress is untouched. */
  predicate SameAccount(w: Watch, v: Watch) {
    v.attempts == w.attempts && v.floor == w.floor && v.verdict == w.verdict && w.conn <= v.conn
  }

  function Shut(w: Watch): Watch {
    w.(conn := w.conn + 1, phase := Closed, secure := false, capabilities := None)
  }

  // ----- one command -----

  lemma TerminateTracks(policy: Policy, s: State, w: Watch) returns (v: Watch)
    requires Tracks(policy, s, w)
    ensures Tracks(policy, Terminate(s), v) && v == (if s.conn.None? then w else Shut(w))
  {
    if s.conn.None? {
      v := w;
    } else {
      RunSnoc(policy, s.log, Close(s.conn.value));
      v := Shut(w);
    }
  }

  /** Commands that may be sent before the session is started only. */
  predicate SetUp(c: Command) {
    c.Ehlo? || c.Helo? || c.StartTls? || c.Auth? || c.AuthContinue?
  }

  lemma AnsweredKeepsSession(policy: Policy, w: Watch, command: Command, reply: Reply)
    requires Allowed(policy, w, command) && !SetUp(command) && InSession(w.phase)
    ensures InSession(Answered(w, command, reply).phase) && Answered(w, command, reply).capabilities == w.capabilities
  {
  }

  lemma AnsweredKeepsConnection(policy: Policy, w: Watch, command: Command, reply: Reply)
    requires Allowed(policy, w, command)
    ensures var v := Answered(w, command, reply); v.conn == w.conn && v.secure == w.secure && !v.phase.Closed?
    ensures var v := Unanswered(w, command); v.conn == w.conn && v.phase.Lost?
    ensures !command.Mail? && !command.EndOfData? ==> SameAccount(w, Answered(w, command, reply)) && SameAccount(w, Unanswered(w, command))
  {
  }

  /** The only two ways a command ends: answered with the connection kept, or unanswered and closed. */
  predicate Executed(w: Watch, command: Command, codes: set<int>, x: Step, v: Watch) {
    if x.s.conn.Some? then
      && v == Answered(w, command, x.reply)
      && x.error == (if x.reply.code in codes then None else Some(TransportError(x.reply.code, None)))
    else
      && x.error == Some(TransportError(0, None))
      && (v == w || v == Shut(Unanswered(w, command)))
  }

  lemma ExecuteTracks(policy: Policy, net: Server, s: State, w: Watch, command: Command, codes: set<int>) returns (v: Watch)
    requires Tracks(policy, s, w)
    requires s.conn.Some? ==> Allowed(policy, w, command)
    requires s.started ==> !SetUp(command)
    ensures var x := Execute(net, s, command, codes); Tracks(policy, x.s, v) && Executed(w, command, codes, x, v)
    ensures Execute(net, s, command, codes).s.started == (s.started && Execute(net, s, command, codes).s.conn.Some?)
    ensures !command.Mail? && !command.EndOfData? ==> SameAccount(w, v)
  {
    if s.conn.None? {
      v := w;
    } else {
      var outcome := OutcomeOf(net(s.answers));
      AnsweredKeepsConnection(policy, w, command, if outcome.Replied? then outcome.reply else NO_REPLY);
      var t := Record(s, Exchange(w.conn, command, outcome));
      if outcome.Replied? {
        v := ReplyTracks(policy, s, w, command, outcome.reply);
      } else {
        RunSnoc(policy, s.log, Exchange(w.conn, command, outcome));
        v := CloseTracks(policy, t, Unanswered(w, command));
      }
    }
  }

  lemma ReplyTracks(policy: Policy, s: State, w: Watch, command: Command, reply: Reply) returns (v: Watch)
    requires Tracks(policy, s, w) && s.conn == Some(w.conn) && Allowed(policy, w, command)
    requires s.started ==> !SetUp(command)
    ensures v == Answered(w, command, reply) && Tracks(policy, Record(s, Exchange(w.conn, command, Replied(reply))), v)
  {
    RunSnoc(policy, s.log, Exchange(w.conn, command, Replied(reply)));
    v := Answered(w, command, reply);
    AnsweredKeepsConnection(policy, w, command, reply);
    if s.started {
      AnsweredKeepsSession(policy, w, command, reply);
    }
  }

  lemma CloseTracks(policy: Policy, t: State, lost: Watch) returns (v: Watch)
    requires Run(policy, t.log) == Some(lost) && t.conn == Some(lost.conn) && t.dialled == lost.conn && lost.phase.Lost?
    ensures v == Shut(lost) && Tracks(policy, Terminate(t), v)
  {
    RunSnoc(policy, t.log, Close(lost.conn));
    v := Shut(lost);
  }

  // ----- opening a session -----

  lemma ConnectTracks(policy: Policy, cfg: Config, net: Server, s: State, w: Watch) returns (v: Watch)
    requires Tracks(policy, s, w) && s.conn.None? && !s.started
    ensures var x := Connect(cfg, net, s); Tracks(policy, x.s, v) && !x.s.started && SameAccount(w, v)
    ensures Connect(cfg, net, s).error.None? ==> v.phase.Dialled? && v.secure == cfg.implicitTls
    ensures Connect(cfg, net, s).error.Some? ==> Connect(cfg, net, s).s.conn.None?
  {
    if net(s.answers).ok {
      RunSnoc(policy, s.log, Dial(s.dialled, cfg.implicitTls));
      v := w.(phase := Dialled, secure := cfg.implicitTls, capabilities := None);
    } else {
      v := w;
    }
  }

  lemma GreetingTracks(policy: Policy, net: Server, s: State, w: Watch) returns (v: Watch)
    requires Tracks(policy, s, w) && s.conn.Some? && w.phase.Dialled? && !s.started
    ensures var x := ReadGreeting(net, s); Tracks(policy, x.s, v) && !x.s.started && x.s.conn.Some? && SameAccount(w, v)
    ensures ReadGreeting(net, s).error.None? ==> v.phase.Greeted? && v.secure == w.secure
  {
    var io := net(s.answers);
    var outcome := if io.ok && io.reply.Some? then Replied(io.reply.value) else ReadFailed;
    RunSnoc(policy, s.log, Greeting(w.conn, outcome));
    v := w.(phase := if outcome.Replied? && outcome.reply.code == 220 then Greeted else Lost);
  }

  lemma HandshakeTracks(policy: Policy, net: Server, s: State, w: Watch) returns (v: Watch)
    requires Tracks(policy, s, w) && s.conn.Some? && w.phase.Upgrading? && !s.started
    ensures var x := Handshaking(net, s); Tracks(policy, x.s, v) && !x.s.started && x.s.conn.Some? && SameAccount(w, v)
    ensures Handshaking(net, s).error.None? ==> v.phase.Greeted? && Handshaking(net, s).s.usingTls
  {
    var ok := net(s.answers).ok;
    RunSnoc(policy, s.log, Handshake(w.conn, ok));
    v := if ok then w.(phase := Greeted, secure := true, capabilities := None) else w.(phase := Lost);
  }

  /** A session the client may still authenticate in. */
  predicate MayAuth(policy: Policy, w: Watch) {
    (w.phase.Open? || w.phase.Authenticating?) && (w.secure || policy.plaintextAuth) && Offers(w.capabilities, "AUTH")
  }

  /** A greeted session without a transaction, whose capabilities the client knows. */
  predicate SessionOpen(s: State, w: Watch) {
    s.conn.Some? && w.phase.Open? && w.capabilities == Some(s.capabilities)
  }

  lemma UpgradeTracks(policy: Policy, net: Server, s: State, w: Watch) returns (v: Watch)
    requires Tracks(policy, s, w) && SessionOpen(s, w) && !s.started && !s.usingTls && "STARTTLS" in s.capabilities
    ensures var x := Upgrade(net, s); Tracks(policy, x.s, v) && !x.s.started && SameAccount(w, v)
    ensures Upgrade(net, s).error.None? ==> SessionOpen(Upgrade(net, s).s, v) && v.secure
  {
    var x := Execute(net, s, StartTls, {220});
    v := ExecuteTracks(policy, net, s, w, StartTls, {220});
    if x.error.None? {
      var h := Handshaking(net, x.s);
      v := HandshakeTracks(policy, net, x.s, v);
      if h.error.None? {
        v := GreetAgainTracks(policy, net, h.s, v);
      }
    }
  }

  lemma GreetAgainTracks(policy: Policy, net: Server, s: State, w: Watch) returns (v: Watch)
    requires Tracks(policy, s, w) && s.conn.Some? && w.phase.Greeted? && !s.started
    ensures var x := Execute(net, s, Ehlo, {250}); Tracks(policy, x.s, v) && !x.s.started && SameAccount(w, v)
    ensures Execute(net, s, Ehlo, {250}).error.None? ==>
              v.phase.Open? && v.secure == w.secure && v.capabilities == Some(Execute(net, s, Ehlo, {250}).reply.capabilities)
    ensures Execute(net, s, Ehlo, {250}).error.Some? && Execute(net, s, Ehlo, {250}).s.conn.Some? ==> v == w
  {
    v := ExecuteTracks(policy, net, s, w, Ehlo, {250});
  }

  /** Authenticating keeps a session that may authenticate again, or leaves no connection. */
  predicate AuthKeeps(policy: Policy, s: State, w: Watch, t: State, v: Watch) {
    && Tracks(policy, t, v) && !t.started && SameAccount(w, v) && t.capabilities == s.capabilities
    && (t.conn.Some? ==> MayAuth(policy, v) && v.capabilities == w.capabilities && v.secure == w.secure)
  }

  predicate AfterAuth(policy: Policy, s: State, w: Watch, x: Step, v: Watch) {
    AuthKeeps(policy, s, w, x.s, v) && (x.error.None? ==> x.s.conn.Some? && v.phase.Open?)
  }

  lemma AuthCommandTracks(policy: Policy, net: Server, s: State, w: Watch, command: Command, codes: set<int>) returns (v: Watch)
    requires Tracks(policy, s, w) && !s.started && (s.conn.Some? ==> MayAuth(policy, w))
    requires command.Auth? || command.Rset? || (command.AuthContinue? && (s.conn.Some? ==> w.phase.Authenticating?))
    ensures var x := Execute(net, s, command, codes); AuthKeeps(policy, s, w, x.s, v)
    ensures var x := Execute(net, s, command, codes); x.error.None? ==> x.s.conn.Some? && x.reply.code in codes
    ensures var x := Execute(net, s, command, codes);
            x.error.None? && !command.Rset? ==> v.phase == (if x.reply.code == 334 then Authenticating else Open)
  {
    v := ExecuteTracks(policy, net, s, w, command, codes);
  }

  lemma AuthenticateTracks(policy: Policy, cfg: Config, net: Server, s: State, w: Watch, m: Mechanism) returns (v: Watch)
    requires Tracks(policy, s, w) && !s.started && (s.conn.Some? ==> MayAuth(policy, w))
    ensures AfterAuth(policy, s, w, Authenticate(cfg, net, s, m), v)
  {
    match m
    case Plain =>
      v := AuthCommandTracks(policy, net, s, w, Auth(Plain), {235});
    case Login =>
      var a := Execute(net, s, Auth(Login), {334});
      v := AuthCommandTracks(policy, net, s, w, Auth(Login), {334});
      if a.error.None? {
        var user := Execute(net, a.s, AuthContinue, {334});
        v := AuthCommandTracks(policy, net, a.s, v, AuthContinue, {334});
        if user.error.None? {
          v := AuthCommandTracks(policy, net, user.s, v, AuthContinue, {235});
        }
      }
    case CramMd5 =>
      if cfg.password == "" {
        v := w;
      } else {
        var a := Execute(net, s, Auth(CramMd5), {334});
        v := AuthCommandTracks(policy, net, s, w, Auth(CramMd5), {334});
        if a.error.None? && a.reply.decodableChallenge {
          v := AuthCommandTracks(policy, net, a.s, v, AuthContinue, {235});
        }
      }
  }

  /** One mechanism that failed, and the RSET before the next. */
  lemma FailedMechanismTracks(policy: Policy, cfg: Config, net: Server, s: State, w: Watch, m: Mechanism) returns (v: Watch)
    requires Tracks(policy, s, w) && !s.started && (s.conn.Some? ==> MayAuth(policy, w))
    ensures AuthKeeps(policy, s, w, Execute(net, Authenticate(cfg, net, s, m).s, Rset, {250}).s, v)
  {
    var a := Authenticate(cfg, net, s, m);
    v := AuthenticateTracks(policy, cfg, net, s, w, m);
    v := AuthCommandTracks(policy, net, a.s, v, Rset, {250});
  }

  lemma AuthKeepsTwice(policy: Policy, s: State, w: Watch, t: State, u: Watch, r: State, v: Watch)
    requires AuthKeeps(policy, s, w, t, u) && AuthKeeps(policy, t, u, r, v)
    requires r.conn.Some? ==> t.conn.Some?
    ensures AuthKeeps(policy, s, w, r, v)
  {
  }

  lemma {:induction false} TryMechanismsTracks(policy: Policy, cfg: Config, net: Server, s: State, w: Watch,
                                               modes: seq<string>, mechanisms: seq<Mechanism>, lastCode: int, tried: bool)
    returns (v: Watch)
    requires Tracks(policy, s, w) && !s.started && (s.conn.Some? ==> MayAuth(policy, w))
    ensures AfterAuth(policy, s, w, TryMechanisms(cfg, net, s, modes, mechanisms, lastCode, tried), v)
    ensures TryMechanisms(cfg, net, s, modes, mechanisms, lastCode, tried).s.conn.Some? ==> s.conn.Some?
    decreases |mechanisms|
  {
    if mechanisms == [] {
      v := w;
    } else if Keyword(mechanisms[0]) !in modes {
      v := TryMechanismsTracks(policy, cfg, net, s, w, modes, mechanisms[1..], lastCode, tried);
    } else {
      var a := Authenticate(cfg, net, s, mechanisms[0]);
      DeadStaysDead(cfg, net, s, mechanisms[0]);
      if a.error.None? {
        v := AuthenticateTracks(policy, cfg, net, s, w, mechanisms[0]);
      } else {
        var r := Execute(net, a.s, Rset, {250}).s;
        var u := FailedMechanismTracks(policy, cfg, net, s, w, mechanisms[0]);
        v := TryMechanismsTracks(policy, cfg, net, r, u, modes, mechanisms[1..], Code(a.error.value), true);
        AuthKeepsTwice(policy, s, w, r, u, TryMechanisms(cfg, net, r, modes, mechanisms[1..], Code(a.error.value), true).s, v);
      }
    }
  }

  /** An authenticator on a dead connection writes nothing and cannot revive it. */
  lemma DeadStaysDead(cfg: Config, net: Server, s: State, m: Mechanism)
    ensures Authenticate(cfg, net, s, m).s.conn.Some? ==> s.conn.Some?
    ensures s.conn.None? ==> Authenticate(cfg, net, s, m).s == s && Authenticate(cfg, net, s, m).error.Some?
  {
  }

  lemma FinishHeloTracks(policy: Policy, cfg: Config, net: Server, s: State, w: Watch) returns (v: Watch)
    requires policy == PolicyOf(cfg) && Tracks(policy, s, w) && SessionOpen(s, w) && !s.started
    ensures var x := FinishHelo(cfg, net, s, s.usingTls); Tracks(policy, x.s, v) && !x.s.started && SameAccount(w, v)
    ensures FinishHelo(cfg, net, s, s.usingTls).error.None? ==> SessionOpen(FinishHelo(cfg, net, s, s.usingTls).s, v)
    ensures FinishHelo(cfg, net, s, s.usingTls).error.None? && (cfg.requireTls || w.secure) ==> v.secure
  {
    if (!s.usingTls && cfg.requireTls) || "AUTH" !in s.capabilities
      || (cfg.username != "" && !s.usingTls && !cfg.allowPlaintextAuth) || cfg.username == "" {
      v := w;
    } else {
      v := TryMechanismsTracks(policy, cfg, net, s, w, s.capabilities["AUTH"], cfg.authenticators, 0, false);
    }
  }

  /** Success of EHLO, STARTTLS, AUTH and the HELO fallback: an open session; TLS if it is required and EHLO was understood. */
  predicate Greets(policy: Policy, cfg: Config, w: Watch, x: Step, v: Watch) {
    && Tracks(policy, x.s, v) && !x.s.started && SameAccount(w, v)
    && (x.error.None? ==> SessionOpen(x.s, v))
    && (x.error.None? && cfg.requireTls ==> v.secure || HeloLast(x.s))
    && (x.error.None? && w.secure ==> v.secure)
  }

  predicate HeloLast(s: State) {
    s.log != [] && var e := s.log[|s.log| - 1]; e.Exchange? && e.command.Helo? && e.outcome.Replied? && e.outcome.reply.code == 250
  }

  lemma AfterEhloTracks(policy: Policy, cfg: Config, net: Server, s: State, w: Watch) returns (v: Watch)
    requires policy == PolicyOf(cfg) && Tracks(policy, s, w) && SessionOpen(s, w) && !s.started
    ensures Greets(policy, cfg, w, AfterEhlo(cfg, net, s), v)
  {
    if cfg.autoTls && !s.usingTls && "STARTTLS" in s.capabilities {
      var u := Upgrade(net, s);
      v := UpgradeTracks(policy, net, s, w);
      if u.error.None? {
        v := FinishHeloTracks(policy, cfg, net, u.s, v);
      }
    } else {
      v := FinishHeloTracks(policy, cfg, net, s, w);
    }
  }

  lemma HelloTracks(policy: Policy, cfg: Config, net: Server, s: State, w: Watch) returns (v: Watch)
    requires policy == PolicyOf(cfg) && Tracks(policy, s, w) && s.conn.Some? && w.phase.Greeted? && !s.started
    ensures Greets(policy, cfg, w, Hello(cfg, net, s), v)
  {
    var e := Execute(net, s, Ehlo, {250});
    v := GreetAgainTracks(policy, net, s, w);
    if e.error.Some? {
      var h := Execute(net, e.s, Helo, {250});
      v := ExecuteTracks(policy, net, e.s, v, Helo, {250});
      assert h.error.None? ==> HeloLast(h.s);
    } else {
      v := AfterEhloTracks(policy, cfg, net, e.s.(capabilities := e.reply.capabilities), v);
    }
  }

  /**
   Opening a session either ends with a started client on an open session, whose capabilities are
   those of the connection's last EHLO (none after HELO), or with no connection at all.
   */
  lemma StartTracks(policy: Policy, cfg: Config, net: Server, s: State, w: Watch) returns (v: Watch)
    requires policy == PolicyOf(cfg) && Rests(policy, s, w)
    ensures var x := Start(cfg, net, s); Rests(policy, x.s, v) && SameAccount(w, v)
    ensures Start(cfg, net, s).error.None? <==> Start(cfg, net, s).s.started
    ensures !s.started && Start(cfg, net, s).error.None? && cfg.requireTls ==>
              Start(cfg, net, s).s.usingTls || HeloLast(Start(cfg, net, s).s)
    ensures !s.started && Start(cfg, net, s).error.None? && cfg.implicitTls ==> Start(cfg, net, s).s.usingTls
  {
    if s.started {
      v := w;
    } else {
      hide Connect, ReadGreeting, Hello, Run, Greets;
      var c := Connect(cfg, net, s);
      v := ConnectTracks(policy, cfg, net, s, w);
      if c.error.None? {
        var u := v;
        v := SessionTracks(policy, cfg, net, c.s, u);
        var g := ReadGreeting(net, c.s);
        var h := if g.error.Some? then g else Hello(cfg, net, g.s);
        v := StartedOrNot(policy, cfg, u, h, v);
        assert SameAccount(w, v);
      }
    }
  }

  /** The greeting and what follows it. */
  lemma SessionTracks(policy: Policy, cfg: Config, net: Server, s: State, w: Watch) returns (v: Watch)
    requires policy == PolicyOf(cfg) && Tracks(policy, s, w) && s.conn.Some? && w.phase.Dialled? && !s.started
    ensures var g := ReadGreeting(net, s); Greets(policy, cfg, w, if g.error.Some? then g else Hello(cfg, net, g.s), v)
  {
    hide ReadGreeting, Hello, Run;
    var g := ReadGreeting(net, s);
    v := GreetingTracks(policy, net, s, w);
    if g.error.None? {
      v := HelloTracks(policy, cfg, net, g.s, v);
    }
  }

  /** A session is started, or its connection is given up. */
  lemma StartedOrNot(policy: Policy, cfg: Config, w: Watch, h: Step, u: Watch) returns (v: Watch)
    requires Greets(policy, cfg, w, h, u)
    ensures SameAccount(w, v)
    ensures h.error.Some? ==> Rests(policy, Terminate(h.s), v) && !Terminate(h.s).started
    ensures h.error.None? ==> Rests(policy, h.s.(started := true, messageTimed := false), v)
    ensures h.error.None? && cfg.requireTls ==> h.s.usingTls || HeloLast(h.s)
    ensures h.error.None? && w.secure ==> h.s.usingTls
  {
    v := u;
    hide Run;
    if h.error.Some? {
      v := TerminateTracks(policy, h.s, u);
    }
  }

  // ----- keeping and ending a session -----

  lemma StopTracks(policy: Policy, net: Server, s: State, w: Watch) returns (v: Watch)
    requires Tracks(policy, s, w) && (s.started <==> s.conn.Some?) && (s.started ==> SessionPhase(w.phase))
    ensures Rests(policy, Stop(net, s), v) && SameAccount(w, v) && !Stop(net, s).started
  {
    if s.started {
      v := ExecuteTracks(policy, net, s, w, Quit, {221});
      v := TerminateTracks(policy, Execute(net, s, Quit, {221}).s, v);
    } else {
      v := w;
    }
  }

  lemma NoopTracks(policy: Policy, net: Server, s: State, w: Watch) returns (v: Watch)
    requires Rests(policy, s, w)
    ensures Rests(policy, Execute(net, s, Noop, {250}).s, v) && SameAccount(w, v)
  {
    v := ExecuteTracks(policy, net, s, w, Noop, {250});
  }

  lemma PingTracks(policy: Policy, net: Server, s: State, w: Watch) returns (v: Watch)
    requires Rests(policy, s, w)
    ensures Rests(policy, Ping(net, s), v) && SameAccount(w, v)
  {
    if s.started {
      var x := Execute(net, s, Noop, {250});
      v := NoopTracks(policy, net, s, w);
      if x.error.Some? {
        var u := v;
        assert Ping(net, s) == Stop(net, x.s);
        v := StopTracks(policy, net, x.s, u);
      }
    } else {
      v := w;
    }
  }

  lemma PingIfIdleTracks(policy: Policy, net: Server, s: State, w: Watch) returns (v: Watch)
    requires Rests(policy, s, w)
    ensures Rests(policy, PingIfIdle(net, s), v) && SameAccount(w, v)
  {
    hide Ping;
    var t := s.(answers := s.answers + 1);
    if s.messageTimed && net(s.answers).idle {
      assert Rests(policy, t, w);
      assert PingIfIdle(net, s) == Ping(net, t);
      v := PingTracks(policy, net, t, w);
    } else {
      assert PingIfIdle(net, s) == t;
      v := w;
    }
  }

  lemma RestartTracks(policy: Policy, cfg: Config, net: Server, s: State, w: Watch) returns (v: Watch)
    requires Rests(policy, s, w)
    ensures Rests(policy, CheckRestartThreshold(cfg, net, s), v) && SameAccount(w, v)
  {
    if s.started && cfg.restartThreshold != 0 {
      var t := s.(restartCounter := s.restartCounter + 1);
      if t.restartCounter < cfg.restartThreshold {
        v := w;
      } else {
        v := StopTracks(policy, net, t, w);
      }
    } else {
      v := w;
    }
  }

  // ----- one message -----

  predicate MayMail(policy: Policy, w: Watch) {
    (w.verdict.Undecided? || w.verdict.Deferred?) && w.attempts < policy.maxAttempts && w.conn >= w.floor
  }

  /** MAIL was accepted and nothing refused since; the message is still undecided. */
  predicate Underway(policy: Policy, s: State, w: Watch) {
    Tracks(policy, s, w) && s.started && s.conn.Some? && w.verdict.Undecided? && w.floor == w.conn + 1
  }

  /** How a conversation that failed leaves things. A 4xx code is never an unknown fate. */
  predicate GaveUp(policy: Policy, attempts: nat, x: Step, v: Watch) {
    && x.error.Some? && Tracks(policy, x.s, v) && v.attempts <= attempts
    && (x.s.started <==> x.s.conn.Some?) && (x.s.conn.Some? ==> SessionPhase(v.phase))
    && v.floor <= (if x.s.conn.Some? then v.conn + 1 else v.conn)
    && (v.verdict.Undecided? || v.verdict.Deferred? || (v.verdict.Unknown? && !IsTransient(x.error.value)))
  }

  /** Only an address or a missing SMTPUTF8 is an invalid argument, and then the connection is kept. */
  predicate InvalidOnlyHere(x: Step, v: Watch, unencodable: bool) {
    x.error.Some? && IsInvalidArgument(x.error.value)
    ==> x.s.conn.Some? && (v.phase.Open? || unencodable) && !IsTransient(x.error.value)
  }

  predicate AllEncodable(recipients: seq<Address>) {
    forall r :: r in recipients ==> r.encoded.Some?
  }

  /** The envelopes Send mishandles: a recipient without a wire form after a sender that has one. */
  predicate Unencodable(req: Request) {
    req.sender.encoded.Some? && !AllEncodable(req.recipients)
  }

  lemma MailFromTracks(policy: Policy, net: Server, s: State, w: Watch, req: Request) returns (v: Watch)
    requires Tracks(policy, s, w) && s.started && w.phase.Open? && MayMail(policy, w)
    ensures var x := MailFrom(net, s, req);
            if x.error.None? then
              && Underway(policy, x.s, v) && v.phase == Mailing([], false) && v.attempts == w.attempts + 1
              && req.sender.encoded.Some?
            else GaveUp(policy, w.attempts + 1, x, v) && InvalidOnlyHere(x, v, false)
  {
    if req.sender.encoded.None? || (req.utf8 && "SMTPUTF8" !in s.capabilities) {
      v := w;
    } else {
      v := ExecuteTracks(policy, net, s, w, Mail(req.sender.encoded.value, req.utf8), {250});
    }
  }

  lemma RcptTracks(policy: Policy, net: Server, s: State, w: Watch, recipient: Address) returns (v: Watch)
    requires Underway(policy, s, w) && InMail(w)
    ensures var x := RcptTo(net, s, recipient);
            if x.error.None? then
              && Underway(policy, x.s, v) && v.attempts == w.attempts && recipient.encoded.Some?
              && v.phase == Mailing(w.phase.recipients + [recipient.encoded.value], false)
            else GaveUp(policy, w.attempts, x, v) && InvalidOnlyHere(x, v, recipient.encoded.None?)
  {
    if recipient.encoded.None? {
      v := w;
    } else {
      v := ExecuteTracks(policy, net, s, w, Rcpt(recipient.encoded.value), RCPT_CODES);
    }
  }

  function Encoded(recipients: seq<Address>): seq<string>
    requires AllEncodable(recipients)
  {
    if recipients == [] then [] else [recipients[0].encoded.value] + Encoded(recipients[1..])
  }

  /** What a list of RCPTs comes to: all accepted in order, or given up at the first that fails. */
  predicate RecipientsDone(policy: Policy, w: Watch, recipients: seq<Address>, x: Step, v: Watch) {
    if x.error.None? then
      && Underway(policy, x.s, v) && v.attempts == w.attempts && AllEncodable(recipients) && w.phase.Mailing?
      && v.phase == Mailing(w.phase.recipients + Encoded(recipients), false)
    else GaveUp(policy, w.attempts, x, v) && InvalidOnlyHere(x, v, !AllEncodable(recipients))
  }

  lemma RecipientsCons(policy: Policy, w: Watch, u: Watch, recipients: seq<Address>, x: Step, v: Watch)
    requires recipients != [] && recipients[0].encoded.Some? && w.phase.Mailing? && u.attempts == w.attempts
    requires u.phase == Mailing(w.phase.recipients + [recipients[0].encoded.value], false)
    requires RecipientsDone(policy, u, recipients[1..], x, v)
    ensures RecipientsDone(policy, w, recipients, x, v)
  {
    assert AllEncodable(recipients[1..]) <==> AllEncodable(recipients);
    if AllEncodable(recipients) {
      assert u.phase.recipients + Encoded(recipients[1..]) == w.phase.recipients + Encoded(recipients);
    }
  }

  /** Each recipient once, in envelope order; any that fails ends the list. */
  lemma {:induction false} RecipientsTrack(policy: Policy, net: Server, s: State, w: Watch, recipients: seq<Address>) returns (v: Watch)
    requires Underway(policy, s, w) && InMail(w)
    ensures RecipientsDone(policy, w, recipients, Recipients(net, s, recipients), v)
    decreases |recipients|
  {
    if recipients == [] {
      v := w;
      assert w.phase.recipients + Encoded([]) == w.phase.recipients;
    } else {
      var x := RcptTo(net, s, recipients[0]);
      v := RcptTracks(policy, net, s, w, recipients[0]);
      if x.error.None? {
        var u := v;
        v := RecipientsTrack(policy, net, x.s, u, recipients[1..]);
        RecipientsCons(policy, w, u, recipients, Recipients(net, x.s, recipients[1..]), v);
      }
    }
  }

  lemma PayloadTracks(policy: Policy, net: Server, s: State, w: Watch, octets: seq<Octet>) returns (v: Watch)
    requires Underway(policy, s, w) && w.phase.DataReady?
    ensures var x := WritePayload(net, s, octets);
            if x.error.None? then Underway(policy, x.s, v) && v.phase.PayloadSent? && v.attempts == w.attempts
            else GaveUp(policy, w.attempts, x, v) && !IsInvalidArgument(x.error.value)
  {
    var ok := net(s.answers).ok;
    RunSnoc(policy, s.log, Payload(w.conn, octets, ok));
    v := w.(phase := if ok then PayloadSent else Lost);
    if !ok {
      v := CloseTracks(policy, Record(s, Payload(w.conn, octets, ok)), v);
    }
  }

  /** A message handed over and acknowledged. */
  predicate HandedOver(policy: Policy, s: State, w: Watch) {
    Tracks(policy, s, w) && s.started && w.phase.Open? && w.verdict.Accepted?
  }

  lemma ContentTracks(policy: Policy, net: Server, s: State, w: Watch, data: seq<Octet>) returns (v: Watch)
    requires Underway(policy, s, w) && InMail(w) && w.phase.recipients != []
    ensures var x := Content(net, s, data);
            if x.error.None? then HandedOver(policy, x.s, v) && v.attempts == w.attempts
            else GaveUp(policy, w.attempts, x, v) && !IsInvalidArgument(x.error.value)
  {
    hide Execute, WritePayload;
    var d := Execute(net, s, Data, {354});
    v := ExecuteTracks(policy, net, s, w, Data, {354});
    if d.error.None? {
      var stuffed := SmtpData.DotStuff(SmtpData.Normalize(data));
      var p := WritePayload(net, d.s, stuffed);
      v := PayloadTracks(policy, net, d.s, v, stuffed);
      if p.error.None? {
        v := ExecuteTracks(policy, net, p.s, v, EndOfData(SmtpData.Terminator(SmtpData.EndsWithCrlf(stuffed))), {250});
      }
    }
  }

  lemma ConversationTracks(policy: Policy, net: Server, s: State, w: Watch, req: Request) returns (v: Watch)
    requires Tracks(policy, s, w) && s.started && w.phase.Open? && MayMail(policy, w)
    requires req.recipients != [] || MailFrom(net, s, req).error.Some?
    ensures var x := Conversation(net, s, req);
            if x.error.None? then HandedOver(policy, x.s, v) && v.attempts == w.attempts + 1
            else GaveUp(policy, w.attempts + 1, x, v) && InvalidOnlyHere(x, v, Unencodable(req))
  {
    hide MailFrom, Recipients, Content;
    var m := MailFrom(net, s, req);
    v := MailFromTracks(policy, net, s, w, req);
    if m.error.None? {
      var r := Recipients(net, m.s, req.recipients);
      v := RecipientsTrack(policy, net, m.s, v, req.recipients);
      if r.error.None? {
        assert [] + Encoded(req.recipients) != [];
        v := ContentTracks(policy, net, r.s, v, req.data);
      }
    }
  }

  lemma DoSendTracks(policy: Policy, cfg: Config, net: Server, s: State, w: Watch, req: Request) returns (v: Watch)
    requires policy == PolicyOf(cfg) && Rests(policy, s, w) && MayMail(policy, w) && req.recipients != []
    ensures var x := DoSend(cfg, net, s, req);
            if x.error.None? then HandedOver(policy, x.s, v) && v.attempts <= w.attempts + 1
            else GaveUp(policy, w.attempts + 1, x, v) && InvalidOnlyHere(x, v, Unencodable(req))
  {
    hide PingIfIdle, Start, Conversation;
    var t := PingIfIdle(net, s);
    v := PingIfIdleTracks(policy, net, s, w);
    var o := Start(cfg, net, t);
    v := StartTracks(policy, cfg, net, t, v);
    if o.error.None? {
      v := ConversationTracks(policy, net, o.s, v, req);
    }
  }

  lemma WrapKeepsClass(e: Error)
    ensures IsInvalidArgument(Wrap(e)) == IsInvalidArgument(e) && IsTransient(Wrap(e)) == IsTransient(e)
  {
  }

  /** An attempt that failed: how its connection is left before Send cleans up. */
  predicate AttemptFailed(policy: Policy, attempts: nat, req: Request, x: Step, v: Watch) {
    && GaveUp(policy, attempts, x, v)
    && (IsInvalidArgument(x.error.value) ==> (Idle(v.phase) || Unencodable(req)) && !IsTransient(x.error.value))
  }

  lemma RejectedTracks(policy: Policy, s: State, w: Watch, req: Request, e: Error)
    requires Rests(policy, s, w) && MayMail(policy, w) && !IsTransient(e)
    ensures AttemptFailed(policy, w.attempts + 1, req, Fail(s.(answers := s.answers + 1), e), w)
  {
  }

  lemma WrappedFailure(policy: Policy, attempts: nat, req: Request, x: Step, v: Watch)
    requires GaveUp(policy, attempts, x, v) && InvalidOnlyHere(x, v, Unencodable(req))
    ensures AttemptFailed(policy, attempts, req, Fail(x.s, Wrap(x.error.value)), v)
  {
    WrapKeepsClass(x.error.value);
  }

  lemma BaseSendTracks(policy: Policy, cfg: Config, net: Server, s: State, w: Watch, req: Request) returns (v: Watch)
    requires policy == PolicyOf(cfg) && Rests(policy, s, w) && MayMail(policy, w) && req.recipients != []
    ensures var x := BaseSend(cfg, net, s, req);
            if x.error.None? then HandedOver(policy, x.s, v)
            else AttemptFailed(policy, w.attempts + 1, req, x, v)
  {
    hide DoSend;
    var t := s.(answers := s.answers + 1);
    if net(s.answers).cancelled || req.rejected.Some? {
      v := w;
      RejectedTracks(policy, s, w, req, BaseSend(cfg, net, s, req).error.value);
    } else {
      assert Rests(policy, t, w);
      v := DoSendTracks(policy, cfg, net, t, w, req);
      var x := DoSend(cfg, net, t, req);
      if x.error.Some? {
        WrappedFailure(policy, w.attempts + 1, req, x, v);
      }
    }
  }

  /** RSET, or closing: what Send does so that a failed attempt leaves no transaction behind. */
  lemma CleanUpTracks(policy: Policy, net: Server, req: Request, x: Step, v: Watch, attempts: nat, retry: bool) returns (u: Watch)
    requires AttemptFailed(policy, attempts, req, x, v)
    requires retry ==> IsTransient(x.error.value)
    ensures Tracks(policy, CleanUp(net, x.s, x.error.value, retry), u)
    ensures u.attempts == v.attempts && u.verdict == v.verdict
    ensures Rests(policy, CleanUp(net, x.s, x.error.value, retry), u) || Unencodable(req)
    ensures retry ==> Rests(policy, CleanUp(net, x.s, x.error.value, retry), u) && u.conn >= u.floor
  {
    var e := x.error.value;
    if IsInvalidArgument(e) {
      u := v;
    } else if retry {
      u := TerminateTracks(policy, x.s, v);
    } else if x.s.started {
      u := ResetTracks(policy, net, x.s, v);
    } else {
      u := v;
    }
  }

  lemma ResetTracks(policy: Policy, net: Server, s: State, w: Watch) returns (v: Watch)
    requires Tracks(policy, s, w) && s.started && SessionPhase(w.phase)
    ensures var r := Execute(net, s, Rset, {250}); Rests(policy, if r.error.Some? then Terminate(r.s) else r.s, v)
    ensures v.attempts == w.attempts && v.verdict == w.verdict
  {
    var r := Execute(net, s, Rset, {250});
    v := ExecuteTracks(policy, net, s, w, Rset, {250});
    if r.error.Some? {
      v := TerminateTracks(policy, r.s, v);
    }
  }

  /** After all attempts: the verdict matches the answer, and the client rests unless a recipient could not be encoded. */
  predicate Concluded(policy: Policy, req: Request, x: Step, v: Watch) {
    && Tracks(policy, x.s, v) && !v.verdict.NoSend?
    && (x.error.None? <==> v.verdict.Accepted?)
    && (Rests(policy, x.s, v) || Unencodable(req))
  }

  /** A failed attempt is over: cleaned up, and either the Send ends or the next attempt may write MAIL. */
  lemma FailureTracks(policy: Policy, cfg: Config, net: Server, req: Request, x: Step, v: Watch, attempt: nat) returns (u: Watch)
    requires policy == PolicyOf(cfg) && attempt <= cfg.retryAttempts && AttemptFailed(policy, attempt + 1, req, x, v)
    ensures var retry := IsTransient(x.error.value) && attempt < cfg.retryAttempts;
            var t := CleanUp(net, x.s, x.error.value, retry);
            && Concluded(policy, req, Fail(t, x.error.value), u)
            && (retry ==> Rests(policy, t, u) && MayMail(policy, u) && u.attempts <= attempt + 1)
  {
    var retry := IsTransient(x.error.value) && attempt < cfg.retryAttempts;
    u := CleanUpTracks(policy, net, req, x, v, attempt + 1, retry);
  }

  lemma {:induction false} AttemptsTrack(policy: Policy, cfg: Config, net: Server, s: State, w: Watch, req: Request, attempt: nat) returns (v: Watch)
    requires policy == PolicyOf(cfg) && Rests(policy, s, w) && MayMail(policy, w) && req.recipients != []
    requires w.attempts <= attempt <= cfg.retryAttempts
    ensures Concluded(policy, req, Attempts(cfg, net, s, req, attempt), v)
    decreases cfg.retryAttempts - attempt
  {
    hide BaseSend, CleanUp, CheckRestartThreshold;
    var x := BaseSend(cfg, net, s, req);
    var u := BaseSendTracks(policy, cfg, net, s, w, req);
    if x.error.None? {
      v := RestartTracks(policy, cfg, net, x.s, u);
      assert Attempts(cfg, net, s, req, attempt) == Done(CheckRestartThreshold(cfg, net, x.s));
    } else {
      v := FailureTracks(policy, cfg, net, req, x, u, attempt);
      var retry := IsTransient(x.error.value) && attempt < cfg.retryAttempts;
      var t := CleanUp(net, x.s, x.error.value, retry);
      if retry && !net(t.answers).cancelled {
        var next := t.(answers := t.answers + 1);
        assert Rests(policy, next, v);
        assert Attempts(cfg, net, s, req, attempt) == Attempts(cfg, net, next, req, attempt + 1);
        v := AttemptsTrack(policy, cfg, net, next, v, req, attempt + 1);
      }
    }
  }
}
