/**
 The restart threshold of transport/smtp/smtp.go under concurrent senders. A send holds the mutex
 while its message is accepted and takes it again to bump the counter, so the steps of different
 senders interleave between the two; the counter survives reconnects.
 */
module SmtpRestart {
  import Numbers
  import SmtpClient

  /** Senders are 0 .. senders-1; `threshold` messages are to share a connection. */
  datatype Setting = Setting(senders: nat, threshold: nat)

  /**
   `carried` messages were accepted on the current connection; `closed` holds the numbers of the
   earlier ones. `pending` senders had a message accepted and have not bumped the counter yet;
   `pendingHere` are those of them whose message went over the current connection.
   */
  datatype State = State(
    started: bool, carried: nat, closed: seq<nat>, counter: nat, pending: set<nat>, pendingHere: set<nat>)

  /** One stretch of work under the mutex. */
  datatype Step =
    | Connect            // start opens a connection
    | Accept(sender: nat) // doSend reads 250 for the end of data
    | Bump(sender: nat)  // checkRestartThreshold of that send
    | Drop               // terminate or stop for any other reason: failure, ping, Close

  const INITIAL := State(false, 0, [], 0, {}, {})

  function Disconnect(s: State): State
    requires s.started
  {
    s.(started := false, carried := 0, closed := s.closed + [s.carried], pendingHere := {})
  }

  predicate Enabled(t: Setting, s: State, step: Step) {
    match step
    case Connect => !s.started
    case Accept(sender) => s.started && sender < t.senders && sender !in s.pending
    case Bump(sender) => sender in s.pending
    case Drop => s.started
  }

  function Next(t: Setting, s: State, step: Step): State
    requires Enabled(t, s, step)
  {
    match step
    case Connect => s.(started := true)
    case Accept(sender) =>
      s.(carried := s.carried + 1, pending := s.pending + {sender}, pendingHere := s.pendingHere + {sender})
    case Bump(sender) =>
      var b := s.(pending := s.pending - {sender}, pendingHere := s.pendingHere - {sender});
      if !s.started || t.threshold == 0 then b
      else if s.counter + 1 < t.threshold then b.(counter := s.counter + 1)
      else Disconnect(b).(counter := 0)
    case Drop => Disconnect(s)
  }

  /** Bump does to the counter and to the connection what checkRestartThreshold of the client does. */
  lemma BumpIsCheckRestartThreshold(t: Setting, s: State, sender: nat, cfg: SmtpClient.Config, net: SmtpClient.Server, c: SmtpClient.State)
    requires Enabled(t, s, Bump(sender)) && cfg.restartThreshold == t.threshold
    requires c.started == s.started && c.restartCounter == s.counter
    ensures var after := SmtpClient.CheckRestartThreshold(cfg, net, c);
      && after.started == Next(t, s, Bump(sender)).started
      && after.restartCounter == Next(t, s, Bump(sender)).counter
  {
    hide SmtpClient.Execute;
    if s.started && t.threshold != 0 && s.counter + 1 >= t.threshold {
      assert !SmtpClient.Stop(net, c.(restartCounter := c.restartCounter + 1)).started;
    }
  }

  predicate CanRun(t: Setting, s: State, steps: seq<Step>)
    decreases |steps|
  {
    steps == [] || (Enabled(t, s, steps[0]) && CanRun(t, Next(t, s, steps[0]), steps[1..]))
  }

  function Run(t: Setting, s: State, steps: seq<Step>): State
    requires CanRun(t, s, steps)
    decreases |steps|
  {
    if steps == [] then s else Run(t, Next(t, s, steps[0]), steps[1..])
  }

  /** A message not yet counted belongs to a pending sender, and the counter stays below the threshold. */
  predicate Invariant(t: Setting, s: State) {
    && s.counter < t.threshold
    && s.pendingHere <= s.pending && (forall x :: x in s.pending ==> x < t.senders)
    && s.carried <= s.counter + |s.pendingHere|
    && (!s.started ==> s.carried == 0)
    && (forall i :: 0 <= i < |s.closed| ==> s.closed[i] < t.threshold + t.senders)
  }

  lemma InvariantBounds(t: Setting, s: State)
    requires Invariant(t, s) && t.senders > 0
    ensures s.carried <= t.threshold + t.senders - 1
  {
    Numbers.SizeBelow(s.pendingHere, t.senders);
  }

  lemma InvariantStep(t: Setting, s: State, step: Step)
    requires Invariant(t, s) && t.senders > 0 && Enabled(t, s, step)
    ensures Invariant(t, Next(t, s, step))
  {
    InvariantBounds(t, s);
    if step.Accept? {
      assert |s.pendingHere + {step.sender}| == |s.pendingHere| + 1;
    }
  }

  lemma {:induction false} InvariantRun(t: Setting, s: State, steps: seq<Step>)
    requires Invariant(t, s) && t.senders > 0 && CanRun(t, s, steps)
    ensures Invariant(t, Run(t, s, steps))
    decreases |steps|
  {
    if steps != [] {
      InvariantStep(t, s, steps[0]);
      InvariantRun(t, Next(t, s, steps[0]), steps[1..]);
    }
  }

  /**
   In every interleaving of `senders` senders under a positive threshold, no connection ever carries
   more than threshold + senders - 1 accepted messages: the threshold itself for a single sender.
   */
  lemma NoConnectionCarriesMore(t: Setting, steps: seq<Step>)
    requires t.senders > 0 && t.threshold > 0 && CanRun(t, INITIAL, steps)
    ensures var s := Run(t, INITIAL, steps);
      && s.carried <= t.threshold + t.senders - 1
      && forall i :: 0 <= i < |s.closed| ==> s.closed[i] <= t.threshold + t.senders - 1
  {
    InvariantRun(t, INITIAL, steps);
    InvariantBounds(t, Run(t, INITIAL, steps));
  }

  // ----- the bound is reached -----

  lemma {:induction false} RunAppend(t: Setting, s: State, a: seq<Step>, b: seq<Step>)
    requires CanRun(t, s, a) && CanRun(t, Run(t, s, a), b)
    ensures CanRun(t, s, a + b) && Run(t, s, a + b) == Run(t, Run(t, s, a), b)
    decreases |a|
  {
    if a == [] {
      assert a + b == b;
    } else {
      assert (a + b)[1..] == a[1..] + b;
      RunAppend(t, Next(t, s, a[0]), a[1..], b);
    }
  }

  lemma RunOne(t: Setting, s: State, step: Step)
    requires Enabled(t, s, step)
    ensures CanRun(t, s, [step]) && Run(t, s, [step]) == Next(t, s, step)
  {
    assert [step][1..] == [];
  }

  /** A run goes on with one more step. */
  lemma RunSnoc(t: Setting, steps: seq<Step>, step: Step)
    requires CanRun(t, INITIAL, steps) && Enabled(t, Run(t, INITIAL, steps), step)
    ensures CanRun(t, INITIAL, steps + [step]) && Run(t, INITIAL, steps + [step]) == Next(t, Run(t, INITIAL, steps), step)
  {
    hide Enabled, Next;
    RunOne(t, Run(t, INITIAL, steps), step);
    RunAppend(t, INITIAL, steps, [step]);
  }

  lemma CountOne(t: Setting, n: nat)
    requires 0 < n < t.threshold && t.senders > 0
    ensures var s := State(true, n - 1, [], n - 1, {}, {});
      && Enabled(t, s, Accept(0)) && Enabled(t, Next(t, s, Accept(0)), Bump(0))
      && Next(t, Next(t, s, Accept(0)), Bump(0)) == State(true, n, [], n, {}, {})
  {
    assert {} + {0} == {0} && {0} - {0} == {};
  }

  /** `n` messages of sender 0, each counted before the next, on a fresh connection. */
  lemma {:induction false} CountedMessages(t: Setting, n: nat) returns (steps: seq<Step>)
    requires n < t.threshold && t.senders > 0
    ensures CanRun(t, INITIAL, steps) && Run(t, INITIAL, steps) == State(true, n, [], n, {}, {})
  {
    if n == 0 {
      assert Enabled(t, INITIAL, Connect) && Next(t, INITIAL, Connect) == State(true, 0, [], 0, {}, {});
      hide *;
      RunOne(t, INITIAL, Connect);
      steps := [Connect];
    } else {
      hide *;
      var before := CountedMessages(t, n - 1);
      CountOne(t, n);
      RunSnoc(t, before, Accept(0));
      RunSnoc(t, before + [Accept(0)], Bump(0));
      steps := before + [Accept(0)] + [Bump(0)];
    }
  }

  function Below(n: nat): (s: set<nat>)
    ensures forall x: nat :: x in s <==> x < n
  {
    if n == 0 then {} else Below(n - 1) + {n - 1}
  }

  /** Senders 0 .. m-1 each have a message accepted before any of them bumps the counter. */
  lemma {:induction false} UncountedMessages(t: Setting, n: nat, m: nat) returns (steps: seq<Step>)
    requires n < t.threshold && 0 < t.senders && m <= t.senders
    ensures CanRun(t, INITIAL, steps) && Run(t, INITIAL, steps) == State(true, n + m, [], n, Below(m), Below(m))
  {
    if m == 0 {
      assert Below(0) == {};
      steps := CountedMessages(t, n);
    } else {
      AcceptOne(t, n, m);
      hide *;
      var before := UncountedMessages(t, n, m - 1);
      RunSnoc(t, before, Accept(m - 1));
      steps := before + [Accept(m - 1)];
    }
  }

  lemma AcceptOne(t: Setting, n: nat, m: nat)
    requires 0 < m <= t.senders
    ensures var s := State(true, n + m - 1, [], n, Below(m - 1), Below(m - 1));
      Enabled(t, s, Accept(m - 1)) && Next(t, s, Accept(m - 1)) == State(true, n + m, [], n, Below(m), Below(m))
  {
  }

  /** The bound is exact: for every setting some interleaving reaches it. */
  lemma BoundIsReached(t: Setting) returns (steps: seq<Step>)
    requires t.senders > 0 && t.threshold > 0
    ensures CanRun(t, INITIAL, steps) && Run(t, INITIAL, steps).carried == t.threshold + t.senders - 1
  {
    steps := UncountedMessages(t, t.threshold - 1, t.senders);
  }
}
