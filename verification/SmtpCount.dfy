/**
 The restart threshold on whole runs of the client: with serialised calls no connection carries more
 messages than the threshold. SmtpRestart has the bound for senders whose steps interleave.
 */
module SmtpCount {
  import opened Octets
  import opened SmtpProtocol
  import opened SmtpClient
  import SmtpData

  // ----- steps that deliver nothing -----

  predicate NoDelivery(log: seq<Event>, from: nat) {
    forall i :: from <= i < |log| ==> !Delivery(log[i])
  }

  /** The connection in use is always the one after those that were closed. */
  predicate Numbered(s: State) { s.conn.Some? ==> s.conn.value == s.dialled }

  /** Connected exactly when started. */
  predicate InSync(s: State) { s.started <==> s.conn.Some? }

  /** From `s` to `t` nothing was delivered and the counter was left alone. */
  predicate Quiet(s: State, t: State) {
    && s.log <= t.log && NoDelivery(t.log, |s.log|) && t.restartCounter == s.restartCounter
    && (Numbered(s) ==> Numbered(t)) && s.dialled <= t.dialled && (s.conn.Some? && t.conn.None? ==> s.dialled < t.dialled)
  }

  /** And if there still is a connection, it is the same one, in the same session. */
  predicate Kept(s: State, t: State) {
    Quiet(s, t) && (t.conn.Some? ==> t.conn == s.conn && t.dialled == s.dialled && t.started == s.started) && (InSync(s) ==> InSync(t))
  }

  lemma QuietTwice(s: State, t: State, u: State)
    requires Quiet(s, t) && Quiet(t, u)
    ensures Quiet(s, u)
  {
    assert s.log <= u.log;
    forall i | |s.log| <= i < |u.log| ensures !Delivery(u.log[i]) {
      assert i < |t.log| ==> u.log[i] == t.log[i];
    }
  }

  lemma KeptTwice(s: State, t: State, u: State)
    requires Kept(s, t) && Kept(t, u)
    ensures Kept(s, u)
  {
    QuietTwice(s, t, u);
  }

  lemma TerminateIsQuiet(s: State)
    ensures Kept(s, Terminate(s))
  {
  }

  lemma RecordIsQuiet(s: State, e: Event)
    requires !Delivery(e)
    ensures Kept(s, Record(s, e))
  {
  }

  lemma ExecuteIsQuiet(net: Server, s: State, command: Command, codes: set<int>)
    requires !command.EndOfData?
    ensures Kept(s, Execute(net, s, command, codes).s)
  {
    if s.conn.Some? {
      var outcome := OutcomeOf(net(s.answers));
      var t := Record(s, Exchange(s.conn.value, command, outcome));
      RecordIsQuiet(s, Exchange(s.conn.value, command, outcome));
      TerminateIsQuiet(t);
      hide Record, Terminate, Kept;
      KeptTwiceIf(s, t, Terminate(t));
      KeptSame(t);
    } else {
      KeptSame(s);
    }
  }

  lemma KeptTwiceIf(s: State, t: State, u: State)
    requires Kept(s, t)
    ensures Kept(t, u) ==> Kept(s, u)
  {
    hide Kept;
    if Kept(t, u) {
      KeptTwice(s, t, u);
    }
  }

  lemma KeptSame(s: State)
    ensures Kept(s, s) && Quiet(s, s)
  {
  }

  // ----- opening a session -----

  lemma ConnectIsQuiet(cfg: Config, net: Server, s: State)
    requires s.conn.None?
    ensures Quiet(s, Connect(cfg, net, s).s)
  {
  }

  lemma GreetingIsQuiet(net: Server, s: State)
    requires s.conn.Some?
    ensures Quiet(s, ReadGreeting(net, s).s)
  {
  }

  lemma UpgradeIsQuiet(net: Server, s: State)
    ensures Quiet(s, Upgrade(net, s).s) && (Upgrade(net, s).error.None? ==> Upgrade(net, s).s.conn.Some?)
  {
    var x := Execute(net, s, StartTls, {220});
    ExecuteIsQuiet(net, s, StartTls, {220});
    hide Execute;
    if x.error.None? {
      var h := Handshaking(net, x.s);
      assert Quiet(x.s, h.s);
      QuietTwice(s, x.s, h.s);
      hide Handshaking, Quiet;
      if h.error.None? {
        var e := Execute(net, h.s, Ehlo, {250});
        ExecuteIsQuiet(net, h.s, Ehlo, {250});
        Capable(h.s, e.s, e.reply.capabilities);
        QuietTwice(s, h.s, e.s);
        QuietTwice(s, h.s, e.s.(capabilities := e.reply.capabilities));
      }
    }
  }

  /** Capabilities play no part. */
  lemma Capable(s: State, t: State, capabilities: Capabilities)
    requires Kept(s, t)
    ensures Quiet(s, t) && Quiet(s, t.(capabilities := capabilities))
  {
  }

  lemma AuthenticateIsQuiet(cfg: Config, net: Server, s: State, m: Mechanism)
    ensures Quiet(s, Authenticate(cfg, net, s, m).s)
    ensures Authenticate(cfg, net, s, m).error.None? ==> Authenticate(cfg, net, s, m).s.conn.Some?
  {
    hide Execute, Quiet;
    KeptSame(s);
    match m
    case Plain =>
      ExecuteIsQuiet(net, s, Auth(Plain), {235});
    case Login =>
      ExecuteIsQuiet(net, s, Auth(Login), {334});
      var a := Execute(net, s, Auth(Login), {334});
      ExecuteIsQuiet(net, a.s, AuthContinue, {334});
      var user := Execute(net, a.s, AuthContinue, {334});
      ExecuteIsQuiet(net, user.s, AuthContinue, {235});
      QuietTwice(s, a.s, user.s);
      QuietTwice(s, user.s, Execute(net, user.s, AuthContinue, {235}).s);
    case CramMd5 =>
      ExecuteIsQuiet(net, s, Auth(CramMd5), {334});
      var a := Execute(net, s, Auth(CramMd5), {334});
      ExecuteIsQuiet(net, a.s, AuthContinue, {235});
      QuietTwice(s, a.s, Execute(net, a.s, AuthContinue, {235}).s);
  }

  lemma {:induction false} MechanismsAreQuiet(cfg: Config, net: Server, s: State, modes: seq<string>, mechanisms: seq<Mechanism>, lastCode: int, tried: bool)
    ensures var x := TryMechanisms(cfg, net, s, modes, mechanisms, lastCode, tried); Quiet(s, x.s) && (x.error.None? ==> x.s.conn.Some?)
    decreases |mechanisms|
  {
    hide Authenticate, Execute, Quiet;
    if mechanisms == [] {
      KeptSame(s);
    } else if Keyword(mechanisms[0]) !in modes {
      MechanismsAreQuiet(cfg, net, s, modes, mechanisms[1..], lastCode, tried);
    } else {
      var a := Authenticate(cfg, net, s, mechanisms[0]);
      AuthenticateIsQuiet(cfg, net, s, mechanisms[0]);
      if a.error.Some? {
        var r := Execute(net, a.s, Rset, {250});
        ExecuteIsQuiet(net, a.s, Rset, {250});
        QuietTwice(s, a.s, r.s);
        MechanismsAreQuiet(cfg, net, r.s, modes, mechanisms[1..], Code(a.error.value), true);
        QuietTwice(s, r.s, TryMechanisms(cfg, net, r.s, modes, mechanisms[1..], Code(a.error.value), true).s);
      }
    }
  }

  lemma FinishIsQuiet(cfg: Config, net: Server, s: State, tlsStarted: bool)
    requires s.conn.Some?
    ensures var x := FinishHelo(cfg, net, s, tlsStarted); Quiet(s, x.s) && (x.error.None? ==> x.s.conn.Some?)
  {
    hide TryMechanisms, Quiet;
    KeptSame(s);
    if "AUTH" in s.capabilities {
      MechanismsAreQuiet(cfg, net, s, s.capabilities["AUTH"], cfg.authenticators, 0, false);
    }
  }

  lemma AfterEhloIsQuiet(cfg: Config, net: Server, s: State)
    requires s.conn.Some?
    ensures var x := AfterEhlo(cfg, net, s); Quiet(s, x.s) && (x.error.None? ==> x.s.conn.Some?)
  {
    hide Upgrade, FinishHelo, Quiet;
    UpgradeIsQuiet(net, s);
    var u := Upgrade(net, s);
    FinishIsQuiet(cfg, net, s, s.usingTls);
    if u.error.None? {
      FinishIsQuiet(cfg, net, u.s, true);
      QuietTwice(s, u.s, FinishHelo(cfg, net, u.s, true).s);
    }
  }

  lemma HelloIsQuiet(cfg: Config, net: Server, s: State)
    ensures var x := Hello(cfg, net, s); Quiet(s, x.s) && (x.error.None? ==> x.s.conn.Some?)
  {
    hide Execute, AfterEhlo, Quiet, Kept;
    var e := Execute(net, s, Ehlo, {250});
    ExecuteIsQuiet(net, s, Ehlo, {250});
    Capable(s, e.s, e.reply.capabilities);
    if e.error.Some? {
      var h := Execute(net, e.s, Helo, {250});
      ExecuteIsQuiet(net, e.s, Helo, {250});
      Capable(e.s, h.s, map[]);
      QuietTwice(s, e.s, h.s);
      QuietTwice(s, e.s, h.s.(capabilities := map[]));
    } else {
      var t := e.s.(capabilities := e.reply.capabilities);
      AfterEhloIsQuiet(cfg, net, t);
      QuietTwice(s, t, AfterEhlo(cfg, net, t).s);
    }
  }

  lemma StartIsQuiet(cfg: Config, net: Server, s: State)
    requires InSync(s)
    ensures var x := Start(cfg, net, s); Quiet(s, x.s) && InSync(x.s) && (x.error.None? ==> x.s.started)
  {
    KeptSame(s);
    if !s.started {
      hide Connect, ReadGreeting, Hello, Quiet, Kept;
      var c := Connect(cfg, net, s);
      ConnectIsQuiet(cfg, net, s);
      if c.error.None? {
        var g := ReadGreeting(net, c.s);
        GreetingIsQuiet(net, c.s);
        QuietTwice(s, c.s, g.s);
        var h := if g.error.Some? then g else Hello(cfg, net, g.s);
        HelloIsQuiet(cfg, net, g.s);
        QuietTwice(s, g.s, Hello(cfg, net, g.s).s);
        TerminateIsQuiet(h.s);
        QuietOfKept(h.s, Terminate(h.s));
        QuietTwice(s, h.s, Terminate(h.s));
        Flagged(s, h.s);
      }
    }
  }

  lemma QuietOfKept(s: State, t: State)
    requires Kept(s, t)
    ensures Quiet(s, t)
  {
  }

  lemma Flagged(s: State, t: State)
    requires Quiet(s, t)
    ensures Quiet(s, t.(started := true, messageTimed := false))
  {
  }

  // ----- one message -----

  lemma {:induction false} RecipientsAreQuiet(net: Server, s: State, recipients: seq<Address>)
    ensures Kept(s, Recipients(net, s, recipients).s)
    decreases |recipients|
  {
    hide Execute, Kept;
    KeptSame(s);
    if recipients != [] && recipients[0].encoded.Some? {
      var x := RcptTo(net, s, recipients[0]);
      ExecuteIsQuiet(net, s, Rcpt(recipients[0].encoded.value), RCPT_CODES);
      RecipientsAreQuiet(net, x.s, recipients[1..]);
      KeptTwice(s, x.s, Recipients(net, x.s, recipients[1..]).s);
    }
  }

  /** The message was accepted over the connection that is in use, and nothing else happened since `s`. */
  ghost predicate DeliveredOnce(s: State, t: State) {
    exists u: State ::
      && Kept(s, u) && u.conn.Some? && |t.log| == |u.log| + 1 && t.log == u.log + [t.log[|u.log|]]
      && Delivery(t.log[|u.log|]) && t.log[|u.log|].conn == u.conn.value
      && t.conn == u.conn && t.dialled == u.dialled && t.started == u.started && t.restartCounter == u.restartCounter
  }

  lemma MarkDelivers(net: Server, s: State, u: State, mark: seq<Octet>)
    requires Kept(s, u)
    ensures var x := Execute(net, u, EndOfData(mark), {250}); if x.error.None? then DeliveredOnce(s, x.s) else Kept(s, x.s)
  {
    var x := Execute(net, u, EndOfData(mark), {250});
    if u.conn.Some? {
      var outcome := OutcomeOf(net(u.answers));
      var e := Exchange(u.conn.value, EndOfData(mark), outcome);
      var t := Record(u, e);
      if x.error.None? {
        assert x.s == t && t.log == u.log + [e];
        assert t.log[|u.log|] == e;
      } else {
        RecordIsQuiet(u, e);
        TerminateIsQuiet(t);
        assert x.s == t || x.s == Terminate(t);
        hide Record, Terminate, Execute;
        KeptTwice(s, u, t);
        KeptTwice(s, t, Terminate(t));
      }
    }
  }

  lemma PayloadIsQuiet(net: Server, s: State, octets: seq<Octet>)
    ensures Kept(s, WritePayload(net, s, octets).s)
  {
    if s.conn.Some? {
      var e := Payload(s.conn.value, octets, net(s.answers).ok);
      RecordIsQuiet(s, e);
      TerminateIsQuiet(Record(s, e));
      hide Kept, Record, Terminate;
      KeptTwice(s, Record(s, e), Terminate(Record(s, e)));
    } else {
      KeptSame(s);
    }
  }

  lemma ConversationDelivers(net: Server, s: State, req: Request)
    ensures var x := Conversation(net, s, req); if x.error.None? then DeliveredOnce(s, x.s) else Kept(s, x.s)
  {
    hide Execute, Kept, Quiet, Recipients, WritePayload, Content, DeliveredOnce;
    KeptSame(s);
    if req.sender.encoded.Some? {
      var m := MailFrom(net, s, req);
      ExecuteIsQuiet(net, s, Mail(req.sender.encoded.value, req.utf8), {250});
      QuietOfKept(s, m.s);
      if m.error.None? {
        var r := Recipients(net, m.s, req.recipients);
        RecipientsAreQuiet(net, m.s, req.recipients);
        KeptTwice(s, m.s, r.s);
        QuietOfKept(s, r.s);
        if r.error.None? {
          ContentDelivers(net, s, r.s, req.data);
        }
      }
    }
  }

  lemma ContentDelivers(net: Server, s: State, r: State, data: seq<Octet>)
    requires Kept(s, r)
    ensures var x := Content(net, r, data); if x.error.None? then DeliveredOnce(s, x.s) else Kept(s, x.s)
  {
    hide Execute, Kept, Quiet, WritePayload, DeliveredOnce;
    var d := Execute(net, r, Data, {354});
    ExecuteIsQuiet(net, r, Data, {354});
    KeptTwice(s, r, d.s);
    QuietOfKept(s, d.s);
    var stuffed := SmtpData.DotStuff(SmtpData.Normalize(data));
    var p := WritePayload(net, d.s, stuffed);
    PayloadIsQuiet(net, d.s, stuffed);
    KeptTwice(s, d.s, p.s);
    QuietOfKept(s, p.s);
    MarkDelivers(net, s, p.s, SmtpData.Terminator(SmtpData.EndsWithCrlf(stuffed)));
  }

  lemma StopIsQuiet(net: Server, s: State)
    requires InSync(s)
    ensures Quiet(s, Stop(net, s)) && InSync(Stop(net, s))
  {
    KeptSame(s);
    if s.started {
      ExecuteIsQuiet(net, s, Quit, {221});
      var x := Execute(net, s, Quit, {221});
      TerminateIsQuiet(x.s);
      KeptTwice(s, x.s, Terminate(x.s));
    }
  }

  lemma PingIsQuiet(net: Server, s: State)
    requires InSync(s)
    ensures Quiet(s, PingIfIdle(net, s)) && InSync(PingIfIdle(net, s))
  {
    hide *;
    Ticked(s);
    PingOrNot(net, s);
    var t := s.(answers := s.answers + 1);
    NoopIsQuiet(net, t);
    QuietTwice(s, t, Ping(net, t));
  }

  lemma Ticked(s: State)
    ensures Quiet(s, s.(answers := s.answers + 1)) && (InSync(s) ==> InSync(s.(answers := s.answers + 1)))
  {
  }

  lemma PingOrNot(net: Server, s: State)
    ensures var t := s.(answers := s.answers + 1); PingIfIdle(net, s) == t || PingIfIdle(net, s) == Ping(net, t)
  {
    hide Ping;
  }

  lemma NoopIsQuiet(net: Server, s: State)
    requires InSync(s)
    ensures Quiet(s, Ping(net, s)) && InSync(Ping(net, s))
  {
    hide Execute, Quiet, Kept, Stop, InSync;
    KeptSame(s);
    if s.started {
      var x := Execute(net, s, Noop, {250});
      ExecuteIsQuiet(net, s, Noop, {250});
      KeptInSync(s, x.s);
      if x.error.Some? {
        StopIsQuiet(net, x.s);
        QuietTwice(s, x.s, Stop(net, x.s));
      }
    }
  }

  lemma KeptInSync(s: State, t: State)
    requires Kept(s, t) && InSync(s)
    ensures Quiet(s, t) && InSync(t)
  {
    hide Quiet;
  }

  lemma CleanUpIsQuiet(net: Server, s: State, e: Error, retry: bool)
    requires InSync(s)
    ensures Quiet(s, CleanUp(net, s, e, retry)) && InSync(CleanUp(net, s, e, retry))
  {
    KeptSame(s);
    TerminateIsQuiet(s);
    ExecuteIsQuiet(net, s, Rset, {250});
    var r := Execute(net, s, Rset, {250});
    TerminateIsQuiet(r.s);
    hide Execute, Terminate;
    KeptTwice(s, r.s, Terminate(r.s));
  }

  // ----- what connections carry -----

  function Carried(log: seq<Event>, conn: nat): nat {
    if log == [] then 0
    else
      var e := log[|log| - 1];
      Carried(log[..|log| - 1], conn) + (if Delivery(e) && e.conn == conn then 1 else 0)
  }

  lemma {:induction false} CarriedQuietly(log: seq<Event>, longer: seq<Event>, conn: nat)
    requires log <= longer && NoDelivery(longer, |log|)
    ensures Carried(longer, conn) == Carried(log, conn)
    decreases |longer|
  {
    if |longer| > |log| {
      CarriedQuietly(log, longer[..|longer| - 1], conn);
    } else {
      assert longer == log;
    }
  }

  /** Connections carry at most `most` messages, the one in use no more than `counted`, and none was used before its time. */
  ghost predicate Within(s: State, most: nat, counted: nat) {
    && Numbered(s) && InSync(s)
    && (forall c: nat :: Carried(s.log, c) <= most)
    && (forall c: nat :: c > s.dialled || (c == s.dialled && s.conn.None?) ==> Carried(s.log, c) == 0)
    && Carried(s.log, s.dialled) <= counted
  }

  ghost predicate Bounded(s: State, most: nat) {
    s.restartCounter < most && Within(s, most, s.restartCounter)
  }

  lemma QuietKeepsBound(s: State, t: State, most: nat)
    requires Quiet(s, t) && InSync(t) && Bounded(s, most)
    ensures Bounded(t, most)
  {
    forall c: nat ensures Carried(t.log, c) == Carried(s.log, c) {
      CarriedQuietly(s.log, t.log, c);
    }
    hide Carried, NoDelivery;
  }

  lemma DeliveryCounts(s: State, t: State, most: nat)
    requires DeliveredOnce(s, t) && s.started && Bounded(s, most)
    ensures t.started && t.restartCounter == s.restartCounter && Within(t, most, t.restartCounter + 1)
  {
    var u: State :|
      && Kept(s, u) && u.conn.Some? && |t.log| == |u.log| + 1 && t.log == u.log + [t.log[|u.log|]]
      && Delivery(t.log[|u.log|]) && t.log[|u.log|].conn == u.conn.value
      && t.conn == u.conn && t.dialled == u.dialled && t.started == u.started && t.restartCounter == u.restartCounter;
    QuietKeepsBound(s, u, most);
    assert t.log[..|t.log| - 1] == u.log;
    forall c: nat ensures Carried(t.log, c) == Carried(u.log, c) + (if c == u.dialled then 1 else 0) {
    }
    hide Carried, Kept, DeliveredOnce;
  }

  lemma RestartBounds(cfg: Config, net: Server, s: State, most: nat)
    requires cfg.restartThreshold == most > 0 && s.started && s.restartCounter < most && Within(s, most, s.restartCounter + 1)
    ensures Bounded(CheckRestartThreshold(cfg, net, s), most)
  {
    hide *;
    BumpOrStop(cfg, net, s);
    Bumped(s, most);
    if s.restartCounter + 1 >= most {
      StopBounds(net, s.(restartCounter := s.restartCounter + 1), most);
    }
  }

  lemma BumpOrStop(cfg: Config, net: Server, s: State)
    requires cfg.restartThreshold > 0 && s.started
    ensures var t := s.(restartCounter := s.restartCounter + 1);
      CheckRestartThreshold(cfg, net, s) == if t.restartCounter < cfg.restartThreshold then t else Stop(net, t).(restartCounter := 0)
  {
    hide Stop;
  }

  lemma Bumped(s: State, most: nat)
    requires Within(s, most, s.restartCounter + 1)
    ensures var t := s.(restartCounter := s.restartCounter + 1);
      && Within(t, most, t.restartCounter) && (t.restartCounter < most ==> Bounded(t, most))
      && (t.restartCounter == most ==> Within(t, most, most))
  {
    hide Carried;
  }

  /** Stopping leaves a fresh start. */
  lemma StopBounds(net: Server, s: State, most: nat)
    requires s.started && Within(s, most, most) && most > 0
    ensures Bounded(Stop(net, s).(restartCounter := 0), most)
  {
    StopIsQuiet(net, s);
    var end := Stop(net, s);
    assert end.conn.None?;
    hide Stop;
    forall c: nat ensures Carried(end.log, c) == Carried(s.log, c) {
      CarriedQuietly(s.log, end.log, c);
    }
    hide Carried;
  }

  // ----- runs -----

  lemma DoSendCounts(cfg: Config, net: Server, s: State, req: Request, most: nat)
    requires Bounded(s, most)
    ensures var x := DoSend(cfg, net, s, req);
      if x.error.None? then x.s.started && x.s.restartCounter < most && Within(x.s, most, x.s.restartCounter + 1) else Bounded(x.s, most)
  {
    hide PingIfIdle, Start, Conversation, Quiet, Kept, DeliveredOnce, Carried;
    assert InSync(s);
    var t := PingIfIdle(net, s);
    PingIsQuiet(net, s);
    QuietKeepsBound(s, t, most);
    var o := Start(cfg, net, t);
    StartIsQuiet(cfg, net, t);
    QuietKeepsBound(t, o.s, most);
    if o.error.None? {
      var c := Conversation(net, o.s, req);
      ConversationDelivers(net, o.s, req);
      if c.error.None? {
        DeliveryCounts(o.s, c.s, most);
        Timed(c.s, true, most, c.s.restartCounter + 1);
      } else {
        KeptIsBounded(o.s, c.s, most);
        Timed(c.s, false, most, c.s.restartCounter);
      }
    }
  }

  lemma KeptIsBounded(s: State, t: State, most: nat)
    requires Kept(s, t) && Bounded(s, most)
    ensures Bounded(t, most)
  {
    hide Carried;
    QuietKeepsBound(s, t, most);
  }

  lemma Timed(s: State, timed: bool, most: nat, counted: nat)
    requires Within(s, most, counted)
    ensures Within(s.(messageTimed := timed), most, counted)
  {
    hide Carried;
  }

  lemma Answered(s: State, answers: nat, most: nat)
    requires Bounded(s, most)
    ensures Bounded(s.(answers := answers), most)
  {
    hide Carried;
  }

  lemma {:induction false} AttemptsCount(cfg: Config, net: Server, s: State, req: Request, attempt: nat)
    requires cfg.restartThreshold > 0 && attempt <= cfg.retryAttempts && Bounded(s, cfg.restartThreshold)
    ensures Bounded(Attempts(cfg, net, s, req, attempt).s, cfg.restartThreshold)
    decreases cfg.retryAttempts - attempt
  {
    var most := cfg.restartThreshold;
    hide DoSend, CleanUp, CheckRestartThreshold, Within, Quiet;
    var t := s.(answers := s.answers + 1);
    Answered(s, s.answers + 1, most);
    DoSendCounts(cfg, net, t, req, most);
    var x := BaseSend(cfg, net, s, req);
    if x.error.None? {
      RestartBounds(cfg, net, x.s, most);
    } else {
      var retry := IsTransient(x.error.value) && attempt < cfg.retryAttempts;
      var c := CleanUp(net, x.s, x.error.value, retry);
      BoundedInSync(x.s, most);
      CleanUpIsQuiet(net, x.s, x.error.value, retry);
      QuietKeepsBound(x.s, c, most);
      Answered(c, c.answers + 1, most);
      if retry && !net(c.answers).cancelled {
        AttemptsCount(cfg, net, c.(answers := c.answers + 1), req, attempt + 1);
      }
    }
  }

  lemma BoundedInSync(s: State, most: nat)
    requires Bounded(s, most)
    ensures InSync(s)
  {
  }

  lemma Logged(s: State, e: Event, most: nat)
    requires Bounded(s, most) && !OnWire(e)
    ensures Bounded(s.(log := s.log + [e]), most)
  {
    var t := s.(log := s.log + [e]);
    assert Quiet(s, t) && InSync(t);
    hide Quiet, Within;
    QuietKeepsBound(s, t, most);
  }

  lemma {:induction false} RunCounts(cfg: Config, net: Server, s: State, calls: seq<Call>)
    requires cfg.restartThreshold > 0 && Bounded(s, cfg.restartThreshold)
    ensures Bounded(RunCalls(cfg, net, s, calls), cfg.restartThreshold)
    decreases |calls|
  {
    var most := cfg.restartThreshold;
    hide Attempts, Stop, Within, Quiet;
    if calls != [] {
      match calls[0]
      case SendCall(req) =>
        Logged(s, SendCalled, most);
        var called := s.(log := s.log + [SendCalled]);
        AttemptsCount(cfg, net, called, req, 0);
        var x := Attempts(cfg, net, called, req, 0);
        Logged(x.s, SendReturned(x.error.None?), most);
        RunCounts(cfg, net, Send(cfg, net, s, req).s, calls[1..]);
      case CloseCall =>
        BoundedInSync(s, most);
        StopIsQuiet(net, s);
        QuietKeepsBound(s, Stop(net, s), most);
        RunCounts(cfg, net, Stop(net, s), calls[1..]);
    }
  }

  /** Whatever the calls and whatever the server: no connection of a run carries more messages than the threshold. */
  lemma NoConnectionExceedsThreshold(cfg: Config, net: Server, calls: seq<Call>, conn: nat)
    requires cfg.restartThreshold > 0
    ensures Carried(RunCalls(cfg, net, FRESH, calls).log, conn) <= cfg.restartThreshold
  {
    assert Bounded(FRESH, cfg.restartThreshold);
    RunCounts(cfg, net, FRESH, calls);
    hide Carried;
  }
}
