/**
 What Send of the SMTP client does about failure: which attempts it makes, where each of them starts,
 what it answers, and what it leaves of the connection.
 */
module SmtpRetries {
  import opened Octets
  import opened SmtpProtocol
  import opened SmtpClient

  // ----- the attempts of one Send -----

  /** Attempt `i` of a Send, if each one before it was followed by another: every later one starts without a connection. */
  function AttemptStart(cfg: Config, net: Server, s: State, req: Request, i: nat): State {
    if i == 0 then s.(log := s.log + [SendCalled])
    else
      var t := Terminate(BaseSend(cfg, net, AttemptStart(cfg, net, s, req, i - 1), req).s);
      t.(answers := t.answers + 1)
  }

  function AttemptAt(cfg: Config, net: Server, s: State, req: Request, i: nat): Step {
    BaseSend(cfg, net, AttemptStart(cfg, net, s, req, i), req)
  }

  /** The attempt was answered with a 4xx code. */
  predicate Refused(x: Step) {
    x.error.Some? && 400 <= Code(x.error.value) < 500
  }

  /** The wait for the next attempt is cut short. */
  predicate WaitCancelled(net: Server, x: Step) {
    net(Terminate(x.s).answers).cancelled
  }

  /** All attempts before `n` were refused with 4xx and waited for, and `n` is not followed by another. */
  predicate LastAttempt(cfg: Config, net: Server, s: State, req: Request, n: nat) {
    && n <= cfg.retryAttempts
    && (forall i :: 0 <= i < n ==> Refused(AttemptAt(cfg, net, s, req, i)) && !WaitCancelled(net, AttemptAt(cfg, net, s, req, i)))
    && (n == cfg.retryAttempts || !Refused(AttemptAt(cfg, net, s, req, n)) || WaitCancelled(net, AttemptAt(cfg, net, s, req, n)))
  }

  /** What Send makes of its last attempt `x`, when it has made `n` others. */
  predicate Concludes(cfg: Config, net: Server, n: nat, x: Step, state: State, error: Option<Error>) {
    if x.error.None? then error.None? && state == CheckRestartThreshold(cfg, net, x.s)
    else if Refused(x) && n < cfg.retryAttempts then error == Some(ContextError) && state == Terminate(x.s).(answers := Terminate(x.s).answers + 1)
    else error == x.error && state == CleanUp(net, x.s, x.error.value, false)
  }

  // ----- errors with a 4xx code are never invalid arguments -----

  predicate PlainError(e: Error) { Ordinary(e) || e == InvalidArgument }

  lemma {:induction false} RecipientsError(net: Server, s: State, recipients: seq<Address>)
    ensures var x := Recipients(net, s, recipients); x.error.Some? ==> PlainError(x.error.value)
    decreases |recipients|
  {
    hide Execute;
    if recipients != [] {
      RecipientsError(net, RcptTo(net, s, recipients[0]).s, recipients[1..]);
    }
  }

  lemma DoSendError(cfg: Config, net: Server, s: State, req: Request)
    ensures var x := DoSend(cfg, net, s, req); x.error.Some? ==> PlainError(x.error.value)
  {
    hide Execute, Start, PingIfIdle, Recipients, WritePayload;
    var o := Start(cfg, net, PingIfIdle(net, s));
    if o.error.None? {
      var m := MailFrom(net, o.s, req);
      RecipientsError(net, m.s, req.recipients);
      assert m.error.Some? ==> PlainError(m.error.value);
      var r := Recipients(net, m.s, req.recipients);
      ContentError(net, r.s, req.data);
      hide MailFrom, Content;
    }
  }

  lemma ContentError(net: Server, s: State, data: seq<Octet>)
    ensures var x := Content(net, s, data); x.error.Some? ==> PlainError(x.error.value)
  {
    hide Execute;
  }

  lemma RefusedIsNotInvalid(cfg: Config, net: Server, s: State, req: Request)
    requires Refused(BaseSend(cfg, net, s, req))
    ensures !IsInvalidArgument(BaseSend(cfg, net, s, req).error.value)
  {
    hide DoSend;
    DoSendError(cfg, net, s.(answers := s.answers + 1), req);
  }

  // ----- the loop -----

  lemma OneAttempt(cfg: Config, net: Server, s: State, req: Request, attempt: nat)
    requires attempt <= cfg.retryAttempts
    ensures var x, a := BaseSend(cfg, net, s, req), Attempts(cfg, net, s, req, attempt);
      if Refused(x) && attempt < cfg.retryAttempts && !WaitCancelled(net, x)
      then a == Attempts(cfg, net, Terminate(x.s).(answers := Terminate(x.s).answers + 1), req, attempt + 1)
      else Concludes(cfg, net, attempt, x, a.s, a.error)
  {
    var x := BaseSend(cfg, net, s, req);
    hide BaseSend, Terminate, Execute, CheckRestartThreshold, CleanUp;
    if Refused(x) {
      RefusedIsNotInvalid(cfg, net, s, req);
      RetryTerminates(net, x.s, x.error.value);
    }
  }

  lemma RetryTerminates(net: Server, s: State, e: Error)
    requires !IsInvalidArgument(e)
    ensures CleanUp(net, s, e, true) == Terminate(s)
  {
  }

  lemma {:induction false} AttemptsFrom(cfg: Config, net: Server, s: State, req: Request, i: nat, n: nat)
    requires i <= n && LastAttempt(cfg, net, s, req, n)
    ensures var a := Attempts(cfg, net, AttemptStart(cfg, net, s, req, i), req, i);
      Concludes(cfg, net, n, AttemptAt(cfg, net, s, req, n), a.s, a.error)
    decreases n - i
  {
    hide BaseSend, Attempts, Terminate, Concludes, WaitCancelled, Refused;
    OneAttempt(cfg, net, AttemptStart(cfg, net, s, req, i), req, i);
    var x := AttemptAt(cfg, net, s, req, i);
    if i < n {
      assert Refused(x) && !WaitCancelled(net, x);
      AttemptsFrom(cfg, net, s, req, i + 1, n);
      NextStart(cfg, net, s, req, i);
    }
  }

  lemma NextStart(cfg: Config, net: Server, s: State, req: Request, i: nat)
    ensures var t := Terminate(AttemptAt(cfg, net, s, req, i).s); AttemptStart(cfg, net, s, req, i + 1) == t.(answers := t.answers + 1)
  {
    hide BaseSend, Terminate;
  }

  /**
   Send is its last attempt: attempts before it were refused with 4xx, each next one starts from the
   terminated state of the one before, and the answer is success, the last error, or that of the context.
   */
  lemma SendIsItsLastAttempt(cfg: Config, net: Server, s: State, req: Request, n: nat)
    requires LastAttempt(cfg, net, s, req, n)
    ensures var x := Send(cfg, net, s, req);
      exists state: State :: x.s == state.(log := state.log + [SendReturned(x.error.None?)])
        && Concludes(cfg, net, n, AttemptAt(cfg, net, s, req, n), state, x.error)
  {
    var a := Attempts(cfg, net, AttemptStart(cfg, net, s, req, 0), req, 0);
    hide BaseSend, Attempts, Concludes, LastAttempt, AttemptAt;
    AttemptsFrom(cfg, net, s, req, 0, n);
    assert Send(cfg, net, s, req).s == a.s.(log := a.s.log + [SendReturned(a.error.None?)]);
  }

  /** There always is a last attempt. */
  lemma {:induction false} SomeAttemptIsLast(cfg: Config, net: Server, s: State, req: Request, i: nat) returns (n: nat)
    requires i <= cfg.retryAttempts
    requires forall j :: 0 <= j < i ==> Refused(AttemptAt(cfg, net, s, req, j)) && !WaitCancelled(net, AttemptAt(cfg, net, s, req, j))
    ensures LastAttempt(cfg, net, s, req, n)
    decreases cfg.retryAttempts - i
  {
    hide AttemptAt, WaitCancelled, Refused;
    var x := AttemptAt(cfg, net, s, req, i);
    if i == cfg.retryAttempts || !Refused(x) || WaitCancelled(net, x) {
      n := i;
    } else {
      n := SomeAttemptIsLast(cfg, net, s, req, i + 1);
    }
  }

  /** Every Send makes at most retryAttempts + 1 attempts, goes on exactly after 4xx, and answers what the last one came to. */
  lemma SendRetries(cfg: Config, net: Server, s: State, req: Request) returns (n: nat)
    ensures LastAttempt(cfg, net, s, req, n)
    ensures var x := Send(cfg, net, s, req);
      exists state: State :: x.s == state.(log := state.log + [SendReturned(x.error.None?)])
        && Concludes(cfg, net, n, AttemptAt(cfg, net, s, req, n), state, x.error)
  {
    hide Send, Concludes, LastAttempt, AttemptAt;
    n := SomeAttemptIsLast(cfg, net, s, req, 0);
    SendIsItsLastAttempt(cfg, net, s, req, n);
  }

  /** A Send that is refused with 4xx no more often than it may retry, and is then accepted, delivers the message. */
  lemma RetriesDeliver(cfg: Config, net: Server, s: State, req: Request, n: nat)
    requires n <= cfg.retryAttempts && AttemptAt(cfg, net, s, req, n).error.None?
    requires forall i :: 0 <= i < n ==> Refused(AttemptAt(cfg, net, s, req, i)) && !WaitCancelled(net, AttemptAt(cfg, net, s, req, i))
    ensures Send(cfg, net, s, req).error.None?
  {
    assert !Refused(AttemptAt(cfg, net, s, req, n));
    hide AttemptAt, WaitCancelled, Refused, Send;
    SendIsItsLastAttempt(cfg, net, s, req, n);
  }

  // ----- what is left of the connection -----

  /** One command on a live connection: what is logged, and whether the connection is kept. */
  lemma CommandTells(net: Server, s: State, command: Command, codes: set<int>)
    requires s.conn.Some?
    ensures var x, e := Execute(net, s, command, codes), Exchange(s.conn.value, command, OutcomeOf(net(s.answers)));
      if OutcomeOf(net(s.answers)).Replied? then x.s == s.(answers := s.answers + 1, log := s.log + [e])
      else x.s.conn.None? && !x.s.started && x.s.log == s.log + [e] + [Close(s.conn.value)]
    ensures var x := Execute(net, s, command, codes);
      x.error.None? <==> OutcomeOf(net(s.answers)).Replied? && OutcomeOf(net(s.answers)).reply.code in codes
  {
    assert s.log + [Exchange(s.conn.value, command, OutcomeOf(net(s.answers)))] + [Close(s.conn.value)]
        == (s.log + [Exchange(s.conn.value, command, OutcomeOf(net(s.answers)))]) + [Close(s.conn.value)];
  }

  predicate Answers(net: Server, k: nat, code: int) {
    net(k).ok && net(k).reply.Some? && net(k).reply.value.code == code
  }

  /** After a failed last attempt RSET is written, and the session goes on exactly if it is answered with 250; nothing happens after an invalid argument. */
  lemma ResetOrClose(net: Server, s: State, e: Error)
    requires s.started && s.conn.Some?
    ensures IsInvalidArgument(e) ==> CleanUp(net, s, e, false) == s
    ensures var t := CleanUp(net, s, e, false);
      !IsInvalidArgument(e) ==>
        && |t.log| > |s.log| && t.log[|s.log|] == Exchange(s.conn.value, Rset, OutcomeOf(net(s.answers)))
        && (if Answers(net, s.answers, 250) then t == s.(answers := s.answers + 1, log := t.log) && |t.log| == |s.log| + 1
            else t.conn.None? && !t.started && t.log[|t.log| - 1] == Close(s.conn.value))
  {
    CommandTells(net, s, Rset, {250});
    hide Execute;
  }

  /** A connection that was idle too long is asked whether it is alive, and given up unless it says so; any other is left alone. */
  lemma PingTells(net: Server, s: State)
    requires s.started && s.conn.Some?
    ensures var t := PingIfIdle(net, s);
      if !s.messageTimed || !net(s.answers).idle then t == s.(answers := s.answers + 1)
      else
        && |t.log| > |s.log| && t.log[|s.log|] == Exchange(s.conn.value, Noop, OutcomeOf(net(s.answers + 1)))
        && (if Answers(net, s.answers + 1, 250) then t == s.(answers := s.answers + 2, log := t.log) && |t.log| == |s.log| + 1
            else t.conn.None? && !t.started && t.log[|t.log| - 1] == Close(s.conn.value))
  {
    if s.messageTimed && net(s.answers).idle {
      var p := s.(answers := s.answers + 1);
      CommandTells(net, p, Noop, {250});
      var x := Execute(net, p, Noop, {250});
      if x.s.started {
        StopTells(net, x.s);
      }
      hide Execute, Stop;
    }
  }

  /** A session ends with QUIT and the close of its connection, whatever the answer. */
  lemma StopTells(net: Server, s: State)
    requires s.started && s.conn.Some?
    ensures var t := Stop(net, s);
      t.conn.None? && !t.started && t.log == s.log + [Exchange(s.conn.value, Quit, OutcomeOf(net(s.answers))), Close(s.conn.value)]
  {
    CommandTells(net, s, Quit, {221});
    var x := Execute(net, s, Quit, {221});
    hide Execute;
    var e, c := Exchange(s.conn.value, Quit, OutcomeOf(net(s.answers))), Close(s.conn.value);
    assert s.log + [e] + [c] == s.log + [e, c];
  }

  /** The session ends when the counter reaches the threshold, and not before. */
  lemma RestartTells(cfg: Config, net: Server, s: State)
    requires s.started && s.conn.Some?
    ensures var t := CheckRestartThreshold(cfg, net, s);
      t.started <==> cfg.restartThreshold == 0 || s.restartCounter + 1 < cfg.restartThreshold
    ensures var t := CheckRestartThreshold(cfg, net, s);
      t.started ==> t == s.(restartCounter := if cfg.restartThreshold == 0 then s.restartCounter else s.restartCounter + 1)
    ensures var t := CheckRestartThreshold(cfg, net, s); !t.started ==> t.restartCounter == 0
  {
    StopTells(net, s.(restartCounter := s.restartCounter + 1));
    hide Stop;
  }
}
