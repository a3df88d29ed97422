/**
 What opening a session has put on the wire, read off the events: which greeting counts, that TLS was
 started if it could be, and that a user was authenticated if the server asks for it.
 */
module SmtpSessions {
  import opened Octets
  import opened SmtpProtocol
  import opened SmtpClient
  import opened SmtpRetries

  // ----- AUTH, by its events -----

  predicate IsAuthEvent(e: Event, conn: nat) {
    e.Exchange? && e.conn == conn && (e.command.Auth? || e.command.AuthContinue? || e.command.Rset?)
  }

  predicate AllAnswered(events: seq<Event>) {
    forall i :: 0 <= i < |events| ==> events[i].Exchange? && events[i].outcome.Replied?
  }

  predicate OnConnection(events: seq<Event>, conn: nat) {
    forall i :: 0 <= i < |events| ==> IsAuthEvent(events[i], conn)
  }

  /** The mechanisms for which AUTH was written, in order. */
  function Tried(events: seq<Event>): seq<Mechanism> {
    if events == [] then []
    else (if events[0].Exchange? && events[0].command.Auth? then [events[0].command.mechanism] else []) + Tried(events[1..])
  }

  lemma {:induction false} TriedConcat(a: seq<Event>, b: seq<Event>)
    ensures Tried(a + b) == Tried(a) + Tried(b)
    decreases |a|
  {
    if a == [] {
      assert a + b == b && [] + Tried(b) == Tried(b);
    } else {
      assert (a + b)[1..] == a[1..] + b;
      TriedConcat(a[1..], b);
    }
  }

  /** The configured mechanisms that the server advertises, in configured order. */
  function Advertised(configured: seq<Mechanism>, modes: seq<string>): seq<Mechanism> {
    if configured == [] then []
    else
      var keyword := match configured[0] case Plain => "PLAIN" case Login => "LOGIN" case CramMd5 => "CRAM-MD5";
      (if keyword in modes then [configured[0]] else []) + Advertised(configured[1..], modes)
  }

  /** CRAM-MD5 refuses to work with an empty password, before it writes anything. */
  predicate Writes(password: string, m: Mechanism) {
    !m.CramMd5? || password != ""
  }

  /** Those of `mechanisms` that write anything. */
  function Usable(password: string, mechanisms: seq<Mechanism>): seq<Mechanism> {
    if mechanisms == [] then []
    else (if Writes(password, mechanisms[0]) then [mechanisms[0]] else []) + Usable(password, mechanisms[1..])
  }

  // ----- the dialogue of one mechanism -----

  /** How many commands a mechanism takes: LOGIN sends the user and the password, CRAM-MD5 its response. */
  function Length(m: Mechanism): nat {
    match m case Plain => 1 case Login => 3 case CramMd5 => 2
  }

  /** AUTH and continuations. */
  predicate Shaped(m: Mechanism, events: seq<Event>) {
    && |events| <= Length(m)
    && (forall i :: 0 <= i < |events| ==> events[i].Exchange?)
    && (events != [] ==> events[0].command == Auth(m))
    && (forall i :: 0 < i < |events| ==> events[i].command.AuthContinue?)
  }

  /** The dialogue of mechanism `m` ended well: all of it is answered with 334, and the last command with 235. */
  predicate Accepted(m: Mechanism, events: seq<Event>) {
    && Shaped(m, events) && |events| == Length(m) && AllAnswered(events)
    && (forall i :: 0 <= i < |events| - 1 ==> events[i].outcome.reply.code == 334)
    && events[|events| - 1].outcome.reply.code == 235
  }

  /** The code with which a dialogue failed: that of its last reply, 0 if there was none or if it was a challenge that could not be decoded. */
  function FailureCode(m: Mechanism, events: seq<Event>): int {
    if events == [] then 0
    else
      var e := events[|events| - 1];
      if !e.Exchange? || !e.outcome.Replied? then 0
      else if m.CramMd5? && e.command.Auth? && e.outcome.reply.code == 334 then 0
      else e.outcome.reply.code
  }

  /** What follows `events` on the connection: its close, if one of them failed. */
  function Ending(events: seq<Event>, conn: nat): seq<Event> {
    if AllAnswered(events) then [] else [Close(conn)]
  }

  /** `events` are all that was written between `s` and `t`, and the connection lives exactly if all of them were answered. */
  predicate Wrote(s: State, t: State, events: seq<Event>) {
    && s.conn.Some? && OnConnection(events, s.conn.value)
    && t.log == s.log + events + Ending(events, s.conn.value)
    && t.conn == (if AllAnswered(events) then s.conn else None)
    && (AllAnswered(events) ==> t.capabilities == s.capabilities && t.usingTls == s.usingTls)
  }

  predicate Dialogue(password: string, s: State, m: Mechanism, x: Step, events: seq<Event>) {
    && Wrote(s, x.s, events) && Shaped(m, events) && (events == [] <==> !Writes(password, m))
    && (x.error.None? <==> Accepted(m, events))
    && (x.error.Some? ==> Code(x.error.value) == FailureCode(m, events))
  }

  /** One more command. */
  lemma Continue(net: Server, start: State, s: State, events: seq<Event>, command: Command, codes: set<int>) returns (more: seq<Event>)
    requires Wrote(start, s, events) && AllAnswered(events)
    requires command.Auth? || command.AuthContinue? || command.Rset?
    ensures var x, e := Execute(net, s, command, codes), Exchange(start.conn.value, command, OutcomeOf(net(s.answers)));
      && more == events + [e] && Wrote(start, x.s, more) && (AllAnswered(more) <==> e.outcome.Replied?)
      && (x.error.None? <==> e.outcome.Replied? && e.outcome.reply.code in codes)
      && (x.error.Some? ==> Code(x.error.value) == if e.outcome.Replied? then e.outcome.reply.code else 0)
      && (e.outcome.Replied? ==> x.reply == e.outcome.reply)
  {
    var x, e := Execute(net, s, command, codes), Exchange(s.conn.value, command, OutcomeOf(net(s.answers)));
    CommandTells(net, s, command, codes);
    more := events + [e];
    assert more[|events|] == e && forall i :: 0 <= i < |events| ==> more[i] == events[i];
    assert x.error.Some? ==> Code(x.error.value) == if e.outcome.Replied? then e.outcome.reply.code else 0;
    assert e.outcome.Replied? ==> x.reply == e.outcome.reply;
    hide Execute, OutcomeOf;
    assert start.log + events + [] == start.log + events;
    assert start.log + events + [e] == start.log + more;
    assert start.log + more + [] == start.log + more;
  }

  lemma NothingWritten(s: State)
    requires s.conn.Some?
    ensures Wrote(s, s, [])
  {
    assert s.log + [] + [] == s.log;
  }

  lemma PlainDialogue(cfg: Config, net: Server, s: State) returns (events: seq<Event>)
    requires s.conn.Some?
    ensures Dialogue(cfg.password, s, Plain, Authenticate(cfg, net, s, Plain), events)
  {
    NothingWritten(s);
    hide Execute, OutcomeOf, Wrote;
    events := Continue(net, s, s, [], Auth(Plain), {235});
  }

  lemma LoginDialogue(cfg: Config, net: Server, s: State) returns (events: seq<Event>)
    requires s.conn.Some?
    ensures Dialogue(cfg.password, s, Login, Authenticate(cfg, net, s, Login), events)
  {
    NothingWritten(s);
    hide Execute, OutcomeOf, Wrote;
    events := Continue(net, s, s, [], Auth(Login), {334});
    var a := Execute(net, s, Auth(Login), {334});
    if a.error.None? {
      events := Continue(net, s, a.s, events, AuthContinue, {334});
      var b := Execute(net, a.s, AuthContinue, {334});
      if b.error.None? {
        events := Continue(net, s, b.s, events, AuthContinue, {235});
      }
    }
  }

  lemma CramDialogue(cfg: Config, net: Server, s: State) returns (events: seq<Event>)
    requires s.conn.Some?
    ensures Dialogue(cfg.password, s, CramMd5, Authenticate(cfg, net, s, CramMd5), events)
  {
    NothingWritten(s);
    hide Execute, OutcomeOf, Wrote;
    events := [];
    if cfg.password != "" {
      events := Continue(net, s, s, [], Auth(CramMd5), {334});
      var a := Execute(net, s, Auth(CramMd5), {334});
      if a.error.None? && a.reply.decodableChallenge {
        events := Continue(net, s, a.s, events, AuthContinue, {235});
      }
    }
  }

  lemma MechanismDialogue(cfg: Config, net: Server, s: State, m: Mechanism) returns (events: seq<Event>)
    requires s.conn.Some?
    ensures Dialogue(cfg.password, s, m, Authenticate(cfg, net, s, m), events)
  {
    hide *;
    match m
    case Plain => events := PlainDialogue(cfg, net, s);
    case Login => events := LoginDialogue(cfg, net, s);
    case CramMd5 => events := CramDialogue(cfg, net, s);
  }

  // ----- one mechanism after the other -----

  function LastOf<T>(s: seq<T>): T
    requires s != []
  {
    s[|s| - 1]
  }

  predicate EndsWith(events: seq<Event>, tail: seq<Event>) {
    |tail| <= |events| && events[|events| - |tail|..] == tail
  }

  predicate IsReset(e: Event) {
    e.Exchange? && e.command.Rset?
  }

  function WithoutReset(events: seq<Event>): seq<Event> {
    if events != [] && IsReset(LastOf(events)) then events[..|events| - 1] else events
  }

  /** No accepted dialogue ends before position `n`. */
  ghost predicate NoneAcceptedBefore(events: seq<Event>, n: int) {
    forall i, j, m :: 0 <= i < j < n && j <= |events| ==> !Accepted(m, events[i..j])
  }

  /** A further AUTH is written only behind RSET. */
  predicate ResetBetween(events: seq<Event>) {
    forall i :: 0 < i < |events| && events[i].Exchange? && events[i].command.Auth? ==> IsReset(events[i - 1])
  }

  /** The first ones of `mechanisms` were tried in order, all but the last in vain, and the last one was accepted. */
  ghost predicate Authenticated(password: string, mechanisms: seq<Mechanism>, events: seq<Event>, dialogue: seq<Event>) {
    && Tried(events) != [] && Tried(events) <= Usable(password, mechanisms)
    && EndsWith(events, dialogue) && Accepted(LastOf(Tried(events)), dialogue) && AllAnswered(events)
    && NoneAcceptedBefore(events, |events|) && ResetBetween(events)
  }

  /**
   All of `mechanisms` were tried in vain, or as many as the connection survived; `dialogue` is that of
   the last mechanism, or nothing if it was not reached, and `code` is what remains.
   */
  ghost predicate AllRefused(password: string, mechanisms: seq<Mechanism>, events: seq<Event>, dialogue: seq<Event>, code: int) {
    && Tried(events) <= Usable(password, mechanisms) && NoneAcceptedBefore(events, |events| + 1) && ResetBetween(events)
    && (AllAnswered(events) ==> Tried(events) == Usable(password, mechanisms) && (mechanisms != [] ==> events != [] && IsReset(LastOf(events))))
    && (if mechanisms == [] then events == [] && code == 504
        else
          var failure := FailureCode(LastOf(mechanisms), dialogue);
          && code == (if failure != 0 then failure else 535)
          && (if Tried(events) == Usable(password, mechanisms)
              then EndsWith(WithoutReset(events), dialogue) && Tried(dialogue) == Usable(password, [LastOf(mechanisms)])
              else dialogue == []))
  }

  lemma WroteMore(s: State, t: State, u: State, first: seq<Event>, second: seq<Event>)
    requires Wrote(s, t, first) && AllAnswered(first) && Wrote(t, u, second)
    ensures Wrote(s, u, first + second) && (AllAnswered(first + second) <==> AllAnswered(second))
  {
    var both := first + second;
    assert forall i :: 0 <= i < |first| ==> both[i] == first[i];
    assert forall i :: 0 <= i < |second| ==> both[|first| + i] == second[i];
    assert OnConnection(both, s.conn.value);
    assert AllAnswered(both) <==> AllAnswered(second);
    assert s.log + both == (s.log + first + []) + second;
    hide OnConnection, AllAnswered;
  }

  lemma {:induction false} ContinuesAreNotTried(events: seq<Event>)
    requires forall i :: 0 <= i < |events| ==> events[i].Exchange? && !events[i].command.Auth?
    ensures Tried(events) == []
    decreases |events|
  {
    if events != [] {
      ContinuesAreNotTried(events[1..]);
    }
  }

  lemma ShapedTried(password: string, m: Mechanism, dialogue: seq<Event>)
    requires Shaped(m, dialogue) && (dialogue == [] <==> !Writes(password, m))
    ensures Tried(dialogue) == Usable(password, [m])
    ensures dialogue != [] ==> Tried(dialogue) == [m]
  {
    assert Usable(password, [m]) == (if Writes(password, m) then [m] else []) by {
      assert [m][1..] == [] && Usable(password, []) == [];
    }
    if dialogue != [] {
      ContinuesAreNotTried(dialogue[1..]);
    }
  }

  /** A dialogue that failed holds no accepted one. */
  lemma NoneAcceptedInside(m: Mechanism, dialogue: seq<Event>, n: int)
    requires Shaped(m, dialogue) && n <= |dialogue| + 1 && (n <= |dialogue| || !Accepted(m, dialogue))
    ensures NoneAcceptedBefore(dialogue, n)
  {
    assert dialogue[0..|dialogue|] == dialogue;
  }

  lemma AcceptedHoldsNoReset(m: Mechanism, events: seq<Event>, k: nat)
    requires k < |events| && IsReset(events[k])
    ensures !Accepted(m, events)
  {
  }

  lemma NoneAcceptedBehindReset(dialogue: seq<Event>, reset: Event, rest: seq<Event>, n: int)
    requires NoneAcceptedBefore(dialogue, |dialogue| + 1) && IsReset(reset) && NoneAcceptedBefore(rest, n)
    ensures NoneAcceptedBefore(dialogue + [reset] + rest, |dialogue| + 1 + n)
  {
    var all, k := dialogue + [reset] + rest, |dialogue|;
    forall i, j, m | 0 <= i < j < k + 1 + n && j <= |all| ensures !Accepted(m, all[i..j]) {
      hide Accepted, IsReset;
      if j <= k {
        assert all[i..j] == dialogue[i..j];
      } else if i > k {
        assert all[i..j] == rest[i - (k + 1)..j - (k + 1)];
      } else {
        assert all[i..j][k - i] == reset;
        AcceptedHoldsNoReset(m, all[i..j], k - i);
      }
    }
  }

  lemma ResetBetweenBehindReset(m: Mechanism, dialogue: seq<Event>, reset: Event, rest: seq<Event>)
    requires Shaped(m, dialogue) && IsReset(reset) && ResetBetween(rest)
    ensures ResetBetween(dialogue + [reset] + rest)
  {
    var all, k := dialogue + [reset] + rest, |dialogue|;
    forall i | 0 < i < |all| && all[i].Exchange? && all[i].command.Auth? ensures IsReset(all[i - 1]) {
      if i > k + 1 {
        assert all[i] == rest[i - (k + 1)] && all[i - 1] == rest[i - (k + 1) - 1];
      } else {
        assert i == k + 1;
      }
    }
  }

  lemma TriedBehindReset(password: string, m: Mechanism, dialogue: seq<Event>, reset: Event, rest: seq<Event>)
    requires Shaped(m, dialogue) && (dialogue == [] <==> !Writes(password, m)) && IsReset(reset)
    ensures Tried(dialogue + [reset] + rest) == Usable(password, [m]) + Tried(rest)
  {
    ShapedTried(password, m, dialogue);
    ContinuesAreNotTried([reset]);
    TriedConcat(dialogue, [reset]);
    TriedConcat(dialogue + [reset], rest);
  }

  lemma UsableOne(password: string, m: Mechanism)
    ensures Usable(password, [m]) == if Writes(password, m) then [m] else []
  {
    assert [m][1..] == [] && Usable(password, []) == [];
  }

  lemma UsableFirst(password: string, m: Mechanism, others: seq<Mechanism>)
    ensures Usable(password, [m] + others) == Usable(password, [m]) + Usable(password, others)
  {
    UsableOne(password, m);
    assert ([m] + others)[1..] == others;
  }

  lemma {:induction false} UnusableLast(password: string, mechanisms: seq<Mechanism>)
    requires mechanisms != [] && Usable(password, mechanisms) == []
    ensures Usable(password, [LastOf(mechanisms)]) == []
    decreases |mechanisms|
  {
    UsableOne(password, mechanisms[0]);
    if |mechanisms| > 1 {
      UnusableLast(password, mechanisms[1..]);
    }
  }

  /** A dialogue that failed. */
  predicate InVain(password: string, m: Mechanism, dialogue: seq<Event>) {
    Shaped(m, dialogue) && (dialogue == [] <==> !Writes(password, m)) && !Accepted(m, dialogue)
  }

  lemma JoinTried(password: string, m: Mechanism, others: seq<Mechanism>, dialogue: seq<Event>, reset: Event, rest: seq<Event>)
    requires InVain(password, m, dialogue) && IsReset(reset)
    ensures var all := dialogue + [reset] + rest;
      && Tried(all) == Usable(password, [m]) + Tried(rest)
      && (Tried(rest) <= Usable(password, others) ==> Tried(all) <= Usable(password, [m] + others))
      && (Tried(rest) == Usable(password, others) <==> Tried(all) == Usable(password, [m] + others))
  {
    TriedBehindReset(password, m, dialogue, reset, rest);
    UsableFirst(password, m, others);
    hide *;
    var head := Usable(password, [m]);
    assert head + Tried(rest) == head + Usable(password, others) ==> (head + Tried(rest))[|head|..] == (head + Usable(password, others))[|head|..];
  }

  lemma JoinOrder(password: string, m: Mechanism, dialogue: seq<Event>, reset: Event, rest: seq<Event>, n: int)
    requires InVain(password, m, dialogue) && IsReset(reset) && NoneAcceptedBefore(rest, n) && ResetBetween(rest)
    ensures var all := dialogue + [reset] + rest; NoneAcceptedBefore(all, |dialogue| + 1 + n) && ResetBetween(all)
  {
    ResetBetweenBehindReset(m, dialogue, reset, rest);
    NoneAcceptedInside(m, dialogue, |dialogue| + 1);
    hide *;
    NoneAcceptedBehindReset(dialogue, reset, rest, n);
  }

  lemma LastTried(a: seq<Mechanism>, b: seq<Mechanism>)
    requires b != []
    ensures a + b != [] && LastOf(a + b) == LastOf(b)
  {
  }

  lemma EndsLater(first: seq<Event>, rest: seq<Event>, tail: seq<Event>)
    requires EndsWith(rest, tail)
    ensures EndsWith(first + rest, tail)
  {
  }

  lemma JoinAuthenticated(password: string, m: Mechanism, others: seq<Mechanism>, dialogue: seq<Event>, reset: Event, rest: seq<Event>, last: seq<Event>)
    requires InVain(password, m, dialogue) && IsReset(reset) && AllAnswered(dialogue + [reset]) && Authenticated(password, others, rest, last)
    ensures Authenticated(password, [m] + others, dialogue + [reset] + rest, last)
  {
    hide InVain, IsReset, NoneAcceptedBefore, ResetBetween, EndsWith, Accepted, Tried, Usable, AllAnswered;
    AnsweredLater(dialogue + [reset], rest);
    JoinTried(password, m, others, dialogue, reset, rest);
    JoinOrder(password, m, dialogue, reset, rest, |rest|);
    LastTried(Usable(password, [m]), Tried(rest));
    EndsLater(dialogue + [reset], rest, last);
  }

  lemma EndsLaterWithoutReset(first: seq<Event>, rest: seq<Event>, tail: seq<Event>)
    requires rest != [] && EndsWith(WithoutReset(rest), tail)
    ensures EndsWith(WithoutReset(first + rest), tail)
  {
    var all := first + rest;
    assert LastOf(all) == LastOf(rest);
    assert WithoutReset(all) == first + WithoutReset(rest);
    hide WithoutReset;
    EndsLater(first, WithoutReset(rest), tail);
  }

  lemma AnsweredLater(first: seq<Event>, rest: seq<Event>)
    requires AllAnswered(first)
    ensures AllAnswered(first + rest) <==> AllAnswered(rest)
  {
    assert forall i :: 0 <= i < |rest| ==> (first + rest)[|first| + i] == rest[i];
  }

  lemma JoinRefused(password: string, m: Mechanism, others: seq<Mechanism>, dialogue: seq<Event>, reset: Event, rest: seq<Event>, last: seq<Event>, code: int)
    requires InVain(password, m, dialogue) && IsReset(reset) && AllAnswered(dialogue + [reset])
    requires others != [] && AllRefused(password, others, rest, last, code)
    ensures AllRefused(password, [m] + others, dialogue + [reset] + rest, last, code)
  {
    assert rest != [];
    hide InVain, IsReset, NoneAcceptedBefore, ResetBetween, EndsWith, WithoutReset, Tried, Usable, FailureCode, AllAnswered;
    JoinTried(password, m, others, dialogue, reset, rest);
    JoinOrder(password, m, dialogue, reset, rest, |rest| + 1);
    AnsweredLater(dialogue + [reset], rest);
    assert LastOf([m] + others) == LastOf(others);
    assert LastOf(dialogue + [reset] + rest) == LastOf(rest);
    if Tried(rest) == Usable(password, others) {
      EndsLaterWithoutReset(dialogue + [reset], rest, last);
    }
  }

  /** The code that remains when the dialogue of the last mechanism failed with `failure`. */
  function Remaining(failure: int): int { if failure != 0 then failure else 535 }

  lemma RefusedLast(password: string, m: Mechanism, dialogue: seq<Event>, reset: Event)
    requires InVain(password, m, dialogue) && IsReset(reset)
    ensures AllRefused(password, [m], dialogue + [reset], dialogue, Remaining(FailureCode(m, dialogue)))
  {
    var all := dialogue + [reset];
    assert LastOf(all) == reset && WithoutReset(all) == dialogue;
    assert EndsWith(dialogue, dialogue);
    ShapedTried(password, m, dialogue);
    hide InVain, IsReset, NoneAcceptedBefore, ResetBetween, EndsWith, WithoutReset, Tried, FailureCode, AllAnswered, Shaped, Writes;
    TriedOnce(password, m, dialogue, reset);
    NoneAcceptedInNothing();
    assert all + [] == all;
    JoinOrder(password, m, dialogue, reset, [], 1);
  }

  lemma TriedOnce(password: string, m: Mechanism, dialogue: seq<Event>, reset: Event)
    requires InVain(password, m, dialogue) && IsReset(reset)
    ensures Tried(dialogue + [reset]) == Usable(password, [m])
  {
    NothingTried(password);
    TriedBehindReset(password, m, dialogue, reset, []);
    hide *;
    assert dialogue + [reset] + [] == dialogue + [reset] && Usable(password, [m]) + [] == Usable(password, [m]);
  }

  lemma NothingTried(password: string)
    ensures Tried([]) == [] == Usable(password, [])
  {
  }

  lemma NoneAcceptedInNothing()
    ensures NoneAcceptedBefore([], 1) && ResetBetween([])
  {
  }

  lemma RefusedAtOnce(password: string, m: Mechanism, dialogue: seq<Event>)
    requires InVain(password, m, dialogue) && !AllAnswered(dialogue)
    ensures AllRefused(password, [m], dialogue, dialogue, Remaining(FailureCode(m, dialogue)))
  {
    assert WithoutReset(dialogue) == dialogue && EndsWith(dialogue, dialogue) && ResetBetween(dialogue);
    ShapedTried(password, m, dialogue);
    NoneAcceptedInside(m, dialogue, |dialogue| + 1);
    hide InVain, NoneAcceptedBefore, ResetBetween, EndsWith, WithoutReset, Tried, FailureCode, AllAnswered, Shaped, Writes;
  }

  lemma MoreMechanisms(a: seq<Mechanism>, b: seq<Mechanism>)
    ensures a <= a + b && (a == a + b <==> b == [])
  {
    assert a == a + b ==> |b| == 0;
  }

  /** The first mechanism is not all there was to try, unless the others write nothing. */
  lemma NotAllTried(password: string, m: Mechanism, others: seq<Mechanism>, tried: seq<Mechanism>)
    requires others != [] && tried == Usable(password, [m])
    ensures tried <= Usable(password, [m] + others) && LastOf([m] + others) == LastOf(others)
    ensures tried == Usable(password, [m] + others) ==> Usable(password, [LastOf(others)]) == []
  {
    hide *;
    UsableFirst(password, m, others);
    MoreMechanisms(tried, Usable(password, others));
    LastTried([m], others);
    if Usable(password, others) == [] {
      UnusableLast(password, others);
    }
  }

  lemma NoDialogue(password: string, m: Mechanism, events: seq<Event>)
    ensures FailureCode(m, []) == 0 && EndsWith(WithoutReset(events), []) && Tried([]) == []
  {
  }

  lemma RefusedKeepsOrder(password: string, mechanisms: seq<Mechanism>, events: seq<Event>, last: seq<Event>, code: int)
    requires AllRefused(password, mechanisms, events, last, code)
    ensures NoneAcceptedBefore(events, |events| + 1) && ResetBetween(events)
  {
  }

  /** The connection is lost while others are still to be tried. */
  lemma CutShort(password: string, m: Mechanism, others: seq<Mechanism>, events: seq<Event>, last: seq<Event>, code: int)
    requires others != [] && AllRefused(password, [m], events, last, code) && !AllAnswered(events)
    requires Tried(events) == Usable(password, [m])
    ensures AllRefused(password, [m] + others, events, [], 535)
  {
    hide *;
    RefusedKeepsOrder(password, [m], events, last, code);
    NotAllTried(password, m, others, Tried(events));
    NoDialogue(password, LastOf(others), events);
    CutParts(password, [m] + others, events);
  }

  lemma CutParts(password: string, mechanisms: seq<Mechanism>, events: seq<Event>)
    requires NoneAcceptedBefore(events, |events| + 1) && ResetBetween(events) && !AllAnswered(events) && mechanisms != []
    requires Tried(events) <= Usable(password, mechanisms) && FailureCode(LastOf(mechanisms), []) == 0
    requires Tried(events) == Usable(password, mechanisms) ==>
      EndsWith(WithoutReset(events), []) && Tried([]) == Usable(password, [LastOf(mechanisms)])
    ensures AllRefused(password, mechanisms, events, [], 535)
  {
    hide NoneAcceptedBefore, ResetBetween, EndsWith, WithoutReset, Tried, Usable, FailureCode, AllAnswered;
  }

  // ----- the loop over the authenticators -----

  /** The code of a failure when there is nothing left to try. */
  function Exhausted(lastCode: int, tried: bool): int {
    if lastCode != 0 then lastCode else if tried then 535 else 504
  }

  lemma AdvertisedFirst(configured: seq<Mechanism>, modes: seq<string>)
    requires configured != []
    ensures Advertised(configured, modes)
         == (if Keyword(configured[0]) in modes then [configured[0]] else []) + Advertised(configured[1..], modes)
  {
  }

  /** Without a connection nothing is written any more. */
  lemma {:induction false} DeadTries(cfg: Config, net: Server, s: State, modes: seq<string>, mechanisms: seq<Mechanism>, lastCode: int, tried: bool)
    requires s.conn.None?
    ensures var x := TryMechanisms(cfg, net, s, modes, mechanisms, lastCode, tried);
      x.s == s && x.error.Some? && Code(x.error.value) == if Advertised(mechanisms, modes) == [] then Exhausted(lastCode, tried) else 535
    decreases |mechanisms|
  {
    if mechanisms != [] {
      AdvertisedFirst(mechanisms, modes);
      if Keyword(mechanisms[0]) !in modes {
        DeadTries(cfg, net, s, modes, mechanisms[1..], lastCode, tried);
      } else {
        var a := Authenticate(cfg, net, s, mechanisms[0]);
        assert a.s == s && a.error.Some? && Code(a.error.value) == 0;
        DeadTries(cfg, net, s, modes, mechanisms[1..], 0, true);
      }
    }
  }

  /** What the loop over `mechanisms` came to, when it began with the state `s`. */
  ghost predicate Tells(password: string, mechanisms: seq<Mechanism>, s: State, x: Step, lastCode: int, tried: bool, events: seq<Event>, dialogue: seq<Event>) {
    && Wrote(s, x.s, events)
    && (x.error.None? ==> Authenticated(password, mechanisms, events, dialogue))
    && (x.error.Some? ==>
          if mechanisms == [] then events == [] && Code(x.error.value) == Exhausted(lastCode, tried)
          else AllRefused(password, mechanisms, events, dialogue, Code(x.error.value)))
  }

  lemma TellsNothing(cfg: Config, net: Server, s: State, modes: seq<string>, lastCode: int, tried: bool)
    requires s.conn.Some?
    ensures Tells(cfg.password, [], s, TryMechanisms(cfg, net, s, modes, [], lastCode, tried), lastCode, tried, [], [])
  {
    NothingWritten(s);
    hide Wrote, AllRefused, Authenticated;
  }

  /** The first mechanism is accepted. */
  lemma TellsAccepted(password: string, m: Mechanism, others: seq<Mechanism>, dialogue: seq<Event>)
    requires Accepted(m, dialogue) && (dialogue == [] <==> !Writes(password, m))
    ensures Authenticated(password, [m] + others, dialogue, dialogue)
  {
    ShapedTried(password, m, dialogue);
    NoneAcceptedInside(m, dialogue, |dialogue|);
    UsableFirst(password, m, others);
    assert EndsWith(dialogue, dialogue) && ResetBetween(dialogue);
    hide NoneAcceptedBefore, Usable, Tried, EndsWith, ResetBetween;
  }

  /** The connection was lost over the first mechanism or the RSET behind it. */
  lemma TellsCut(cfg: Config, net: Server, s: State, t: State, modes: seq<string>, m: Mechanism, rest: seq<Mechanism>, events: seq<Event>, dialogue: seq<Event>, failure: int)
    returns (last: seq<Event>)
    requires Wrote(s, t, events) && !AllAnswered(events) && Tried(events) == Usable(cfg.password, [m])
    requires AllRefused(cfg.password, [m], events, dialogue, Remaining(failure))
    ensures Tells(cfg.password, [m] + Advertised(rest, modes), s, TryMechanisms(cfg, net, t, modes, rest, failure, true), 0, false, events, last)
  {
    DeadTries(cfg, net, t, modes, rest, failure, true);
    hide TryMechanisms, AllRefused, Authenticated, Advertised, Tried, Usable;
    var others := Advertised(rest, modes);
    if others == [] {
      last := dialogue;
      assert [m] + others == [m];
    } else {
      last := [];
      CutShort(cfg.password, m, others, events, dialogue, Remaining(failure));
    }
  }

  /** The first mechanism failed and the session was reset; `x` is what the others came to. */
  lemma TellsMore(password: string, m: Mechanism, others: seq<Mechanism>, s: State, t: State, x: Step, failure: int, dialogue: seq<Event>, reset: Event, rest: seq<Event>, last: seq<Event>)
    returns (final: seq<Event>)
    requires InVain(password, m, dialogue) && IsReset(reset) && failure == FailureCode(m, dialogue)
    requires Wrote(s, t, dialogue + [reset]) && AllAnswered(dialogue + [reset])
    requires Tells(password, others, t, x, failure, true, rest, last)
    ensures Tells(password, [m] + others, s, x, 0, false, dialogue + [reset] + rest, final)
  {
    WroteMore(s, t, x.s, dialogue + [reset], rest);
    final := last;
    hide Wrote, AllRefused, Authenticated, AllAnswered, InVain, IsReset, FailureCode;
    if x.error.None? {
      JoinAuthenticated(password, m, others, dialogue, reset, rest, last);
    } else if others != [] {
      JoinRefused(password, m, others, dialogue, reset, rest, last, Code(x.error.value));
    } else {
      final := dialogue;
      assert dialogue + [reset] + rest == dialogue + [reset] && [m] + others == [m];
      RefusedLast(password, m, dialogue, reset);
    }
  }

  lemma NotAcceptedIsInVain(password: string, s: State, m: Mechanism, a: Step, dialogue: seq<Event>)
    requires Dialogue(password, s, m, a, dialogue) && a.error.Some?
    ensures InVain(password, m, dialogue) && Wrote(s, a.s, dialogue) && Code(a.error.value) == FailureCode(m, dialogue)
  {
    hide Wrote, Accepted, Shaped, FailureCode;
  }

  lemma ResetFollows(net: Server, s: State, a: State, dialogue: seq<Event>) returns (reset: Event)
    requires Wrote(s, a, dialogue) && AllAnswered(dialogue)
    ensures IsReset(reset) && Wrote(s, Execute(net, a, Rset, {250}).s, dialogue + [reset])
  {
    var more := Continue(net, s, a, dialogue, Rset, {250});
    reset := more[|dialogue|];
    hide Execute, Wrote, OutcomeOf;
    assert more == dialogue + [reset];
  }

  /** The connection is lost over the RSET behind the first mechanism. */
  lemma CutByReset(cfg: Config, net: Server, s: State, t: State, modes: seq<string>, m: Mechanism, rest: seq<Mechanism>, dialogue: seq<Event>, reset: Event)
    returns (last: seq<Event>)
    requires InVain(cfg.password, m, dialogue) && IsReset(reset) && Wrote(s, t, dialogue + [reset]) && !AllAnswered(dialogue + [reset])
    ensures Tells(cfg.password, [m] + Advertised(rest, modes), s,
                  TryMechanisms(cfg, net, t, modes, rest, FailureCode(m, dialogue), true), 0, false, dialogue + [reset], last)
  {
    hide *;
    RefusedLast(cfg.password, m, dialogue, reset);
    TriedOnce(cfg.password, m, dialogue, reset);
    last := TellsCut(cfg, net, s, t, modes, m, rest, dialogue + [reset], dialogue, FailureCode(m, dialogue));
  }

  /** The connection is lost over the first mechanism. */
  lemma CutAtOnce(cfg: Config, net: Server, s: State, t: State, modes: seq<string>, m: Mechanism, rest: seq<Mechanism>, dialogue: seq<Event>)
    returns (last: seq<Event>)
    requires InVain(cfg.password, m, dialogue) && Wrote(s, t, dialogue) && !AllAnswered(dialogue)
    ensures Execute(net, t, Rset, {250}).s == t
    ensures Tells(cfg.password, [m] + Advertised(rest, modes), s,
                  TryMechanisms(cfg, net, t, modes, rest, FailureCode(m, dialogue), true), 0, false, dialogue, last)
  {
    assert t.conn.None?;
    hide *;
    DeadCommand(net, t, Rset, {250});
    RefusedAtOnce(cfg.password, m, dialogue);
    TriedInVain(cfg.password, m, dialogue);
    last := TellsCut(cfg, net, s, t, modes, m, rest, dialogue, dialogue, FailureCode(m, dialogue));
  }

  /** What becomes of the connection when the first mechanism fails: it is reset and lives, or nothing more is written. */
  lemma TellsFirst(cfg: Config, net: Server, s: State, modes: seq<string>, m: Mechanism, rest: seq<Mechanism>, a: State, dialogue: seq<Event>)
    returns (alive: bool, reset: Event, events: seq<Event>, last: seq<Event>)
    requires InVain(cfg.password, m, dialogue) && Wrote(s, a, dialogue)
    ensures IsReset(reset)
    ensures alive ==> Wrote(s, Execute(net, a, Rset, {250}).s, dialogue + [reset]) && AllAnswered(dialogue + [reset])
    ensures !alive ==>
      Tells(cfg.password, [m] + Advertised(rest, modes), s,
            TryMechanisms(cfg, net, Execute(net, a, Rset, {250}).s, modes, rest, FailureCode(m, dialogue), true), 0, false, events, last)
  {
    alive, events, last, reset := false, dialogue, [], Exchange(0, Rset, WriteFailed);
    assert IsReset(reset);
    hide *;
    if !AllAnswered(dialogue) {
      last := CutAtOnce(cfg, net, s, a, modes, m, rest, dialogue);
    } else {
      reset := ResetFollows(net, s, a, dialogue);
      events := dialogue + [reset];
      alive := AllAnswered(events);
      if !alive {
        last := CutByReset(cfg, net, s, Execute(net, a, Rset, {250}).s, modes, m, rest, dialogue, reset);
      }
    }
  }

  lemma DeadCommand(net: Server, s: State, command: Command, codes: set<int>)
    requires s.conn.None?
    ensures Execute(net, s, command, codes).s == s
  {
  }

  lemma TriedInVain(password: string, m: Mechanism, dialogue: seq<Event>)
    requires InVain(password, m, dialogue)
    ensures Tried(dialogue) == Usable(password, [m])
  {
    ShapedTried(password, m, dialogue);
  }

  lemma {:induction false} TryTells(cfg: Config, net: Server, s: State, modes: seq<string>, mechanisms: seq<Mechanism>, lastCode: int, tried: bool)
    returns (events: seq<Event>, dialogue: seq<Event>)
    requires s.conn.Some?
    ensures Tells(cfg.password, Advertised(mechanisms, modes), s, TryMechanisms(cfg, net, s, modes, mechanisms, lastCode, tried), lastCode, tried, events, dialogue)
    decreases |mechanisms|
  {
    if mechanisms == [] {
      TellsNothing(cfg, net, s, modes, lastCode, tried);
      events, dialogue := [], [];
    } else {
      AdvertisedFirst(mechanisms, modes);
      hide Tells, Advertised, Dialogue, Authenticate, InVain, Execute, AllAnswered, IsReset, FailureCode;
      if Keyword(mechanisms[0]) !in modes {
        events, dialogue := TryTells(cfg, net, s, modes, mechanisms[1..], lastCode, tried);
        assert [] + Advertised(mechanisms[1..], modes) == Advertised(mechanisms[1..], modes);
      } else {
        var m, rest := mechanisms[0], mechanisms[1..];
        var a := Authenticate(cfg, net, s, m);
        dialogue := MechanismDialogue(cfg, net, s, m);
        events := dialogue;
        if a.error.None? {
          TellsSuccess(cfg.password, m, Advertised(rest, modes), s, a, dialogue, lastCode, tried);
        } else {
          NotAcceptedIsInVain(cfg.password, s, m, a, dialogue);
          var alive, reset, cut, last := TellsFirst(cfg, net, s, modes, m, rest, a.s, dialogue);
          var r := Execute(net, a.s, Rset, {250});
          if alive {
            var more, final := TryTells(cfg, net, r.s, modes, rest, Code(a.error.value), true);
            events := dialogue + [reset] + more;
            dialogue := TellsMore(cfg.password, m, Advertised(rest, modes), s, r.s,
              TryMechanisms(cfg, net, r.s, modes, rest, Code(a.error.value), true), Code(a.error.value), dialogue, reset, more, final);
          } else {
            events, dialogue := cut, last;
          }
          TellsAlways(cfg.password, [m] + Advertised(rest, modes), s, TryMechanisms(cfg, net, s, modes, mechanisms, lastCode, tried), lastCode, tried, events, dialogue);
        }
      }
    }
  }

  lemma TellsAlways(password: string, mechanisms: seq<Mechanism>, s: State, x: Step, lastCode: int, tried: bool, events: seq<Event>, dialogue: seq<Event>)
    requires mechanisms != [] && Tells(password, mechanisms, s, x, 0, false, events, dialogue)
    ensures Tells(password, mechanisms, s, x, lastCode, tried, events, dialogue)
  {
    hide Wrote, AllRefused, Authenticated;
  }

  lemma TellsSuccess(password: string, m: Mechanism, others: seq<Mechanism>, s: State, a: Step, dialogue: seq<Event>, lastCode: int, tried: bool)
    requires Dialogue(password, s, m, a, dialogue) && a.error.None?
    ensures Tells(password, [m] + others, s, Done(a.s), lastCode, tried, dialogue, dialogue)
  {
    hide Wrote, AllRefused, Authenticated, Shaped;
    TellsAccepted(password, m, others, dialogue);
  }

  // ----- from the greeting that counts -----

  /** Credentials are due: there are some, the server takes them, and they may be sent. */
  predicate Due(cfg: Config, capabilities: Capabilities, tls: bool) {
    cfg.username != "" && "AUTH" in capabilities && (tls || (cfg.allowPlaintextAuth && !cfg.requireTls))
  }

  /** An error that is nothing but an SMTP code. */
  predicate PlainCode(e: Error) { e == TransportError(Code(e), None) }

  lemma NoneRefused(password: string)
    ensures AllRefused(password, [], [], [], 504)
  {
    NothingTried(password);
    NoneAcceptedInNothing();
  }

  lemma HandleAuthTells(cfg: Config, net: Server, s: State, modes: seq<string>) returns (events: seq<Event>, dialogue: seq<Event>)
    requires s.conn.Some? && cfg.username != ""
    ensures var x, mechanisms := HandleAuth(cfg, net, s, modes), Advertised(cfg.authenticators, modes);
      && Wrote(s, x.s, events)
      && (x.error.None? ==> Authenticated(cfg.password, mechanisms, events, dialogue))
      && (x.error.Some? ==> AllRefused(cfg.password, mechanisms, events, dialogue, Code(x.error.value)))
  {
    hide TryMechanisms, Advertised, Wrote, Authenticated, AllRefused;
    NoneRefused(cfg.password);
    events, dialogue := TryTells(cfg, net, s, modes, cfg.authenticators, 0, false);
    var x := HandleAuth(cfg, net, s, modes);
    if x.error.Some? && Advertised(cfg.authenticators, modes) == [] {
      dialogue := [];
    }
  }

  lemma RefusedCode(password: string, mechanisms: seq<Mechanism>, events: seq<Event>, dialogue: seq<Event>, code: int)
    requires AllRefused(password, mechanisms, events, dialogue, code)
    ensures code != 0
  {
  }

  lemma FinishTells(cfg: Config, net: Server, s: State, tls: bool) returns (events: seq<Event>, dialogue: seq<Event>)
    requires s.conn.Some?
    ensures var x := FinishHelo(cfg, net, s, tls);
      && Wrote(s, x.s, events)
      && (if Due(cfg, s.capabilities, tls)
          then
            var mechanisms := Advertised(cfg.authenticators, s.capabilities["AUTH"]);
            && (x.error.None? ==> Authenticated(cfg.password, mechanisms, events, dialogue))
            && (x.error.Some? ==> PlainCode(x.error.value) && AllRefused(cfg.password, mechanisms, events, dialogue, Code(x.error.value)))
          else events == [] && (x.error.None? <==> (tls || !cfg.requireTls) && (cfg.username == "" || "AUTH" !in s.capabilities)))
  {
    NothingWritten(s);
    events, dialogue := [], [];
    hide HandleAuth, Wrote, Authenticated, AllRefused, Advertised;
    if Due(cfg, s.capabilities, tls) {
      var modes := s.capabilities["AUTH"];
      events, dialogue := HandleAuthTells(cfg, net, s, modes);
      var a := HandleAuth(cfg, net, s, modes);
      if a.error.Some? {
        RefusedCode(cfg.password, Advertised(cfg.authenticators, modes), events, dialogue, Code(a.error.value));
      }
    } else if cfg.username == "" && "AUTH" in s.capabilities {
      WithoutUser(cfg, net, s);
    }
  }

  lemma WithoutUser(cfg: Config, net: Server, s: State)
    requires cfg.username == "" && "AUTH" in s.capabilities
    ensures HandleAuth(cfg, net, s, s.capabilities["AUTH"]) == Done(s)
  {
  }

  // ----- up to the greeting that counts -----

  predicate EhloAccepted(e: Event) {
    e.Exchange? && e.command.Ehlo? && e.outcome.Replied? && e.outcome.reply.code == 250
  }

  predicate HeloAccepted(e: Event) {
    e.Exchange? && e.command.Helo? && e.outcome.Replied? && e.outcome.reply.code == 250
  }

  predicate IsStartTls(e: Event) {
    e.Exchange? && e.command.StartTls?
  }

  /** Behind an accepted EHLO stands STARTTLS. */
  predicate NoneCounts(events: seq<Event>) {
    forall i :: 0 <= i < |events| && EhloAccepted(events[i]) ==> i + 1 < |events| && IsStartTls(events[i + 1])
  }

  /** One command that expects one code. */
  lemma OneCommand(net: Server, s: State, command: Command, code: int) returns (events: seq<Event>)
    requires s.conn.Some?
    ensures var x := Execute(net, s, command, {code});
      && x.s.log == s.log + events && 1 <= |events| <= 2
      && events[0].Exchange? && events[0].conn == s.conn.value && events[0].command == command
      && (x.error.None? <==> events[0].outcome.Replied? && events[0].outcome.reply.code == code)
      && (x.error.None? ==> |events| == 1 && events[0].outcome.reply == x.reply)
      && (|events| == 1 ==> x.s.conn == s.conn && x.s.capabilities == s.capabilities && x.s.usingTls == s.usingTls)
      && (|events| == 2 ==> x.s.conn.None? && events[1] == Close(s.conn.value))
  {
    CommandTells(net, s, command, {code});
    var x, e := Execute(net, s, command, {code}), Exchange(s.conn.value, command, OutcomeOf(net(s.answers)));
    events := if e.outcome.Replied? then [e] else [e, Close(s.conn.value)];
    assert x.error.None? ==> x.reply == e.outcome.reply;
    hide Execute, OutcomeOf;
    assert s.log + [e] + [Close(s.conn.value)] == s.log + [e, Close(s.conn.value)];
  }

  /** What STARTTLS, the handshake and the second EHLO come to. */
  lemma UpgradeTells(net: Server, s: State) returns (events: seq<Event>, reply: Reply)
    requires s.conn.Some?
    ensures var u := Upgrade(net, s); u.s.log == s.log + events && events != [] && IsStartTls(events[0])
    ensures var u := Upgrade(net, s);
      if u.error.None? then
        && events == [events[0], Handshake(s.conn.value, true), Exchange(s.conn.value, Ehlo, Replied(reply))] && reply.code == 250
        && u.s.conn == s.conn && u.s.capabilities == reply.capabilities && u.s.usingTls
      else forall i :: 0 <= i < |events| ==> !EhloAccepted(events[i])
  {
    var x := Execute(net, s, StartTls, {220});
    events := OneCommand(net, s, StartTls, 220);
    reply := NO_REPLY;
    hide Execute, OutcomeOf;
    if x.error.None? {
      var h := Handshaking(net, x.s);
      events := events + [Handshake(s.conn.value, h.error.None?)];
      if h.error.None? {
        var greeting := OneCommand(net, h.s, Ehlo, 250);
        events := events + greeting;
        reply := Execute(net, h.s, Ehlo, {250}).reply;
      }
    }
  }

  /** The session `t` stands right behind an accepted EHLO, after which nothing but AUTH is due. */
  predicate Counts(cfg: Config, s: State, t: State, before: seq<Event>, reply: Reply, tls: bool) {
    && s.conn.Some? && t.conn == s.conn && reply.code == 250 && t.capabilities == reply.capabilities && t.usingTls == tls
    && t.log == s.log + before + [Exchange(s.conn.value, Ehlo, Replied(reply))]
    && (tls <==> s.usingTls || Handshake(s.conn.value, true) in before)
    && (cfg.autoTls && "STARTTLS" in reply.capabilities ==> tls)
    && (forall i :: 0 <= i < |before| && before[i].Handshake? ==> before[i].conn == s.conn.value)
    && (forall i :: 0 <= i < |before| ==> !before[i].Dial?)
  }

  lemma AfterEhloTells(cfg: Config, net: Server, s: State, t: State, first: seq<Event>, reply: Reply)
    returns (counts: bool, events: seq<Event>, last: State, final: Reply)
    requires s.conn.Some? && t.conn == s.conn && t.log == s.log + first && t.usingTls == s.usingTls && t.capabilities == reply.capabilities
    requires reply.code == 250 && first == [Exchange(s.conn.value, Ehlo, Replied(reply))]
    ensures counts ==>
      Counts(cfg, s, last, events, final, last.usingTls) && AfterEhlo(cfg, net, t) == FinishHelo(cfg, net, last, last.usingTls)
    ensures !counts ==> var x := AfterEhlo(cfg, net, t); x.error.Some? && x.s.log == s.log + events && NoneCounts(events)
  {
    counts, events, last, final := true, [], t, reply;
    hide FinishHelo, Upgrade;
    if cfg.autoTls && !t.usingTls && "STARTTLS" in t.capabilities {
      var upgrade, second := UpgradeTells(net, t);
      var u := Upgrade(net, t);
      last, final := u.s, second;
      counts := u.error.None?;
      if counts {
        events := first + upgrade[..2];
        assert u.s.log == s.log + events + [Exchange(s.conn.value, Ehlo, Replied(second))];
        assert events[2] == Handshake(s.conn.value, true);
      } else {
        events := first + upgrade;
        assert u.s.log == s.log + events;
        FirstDoesNotCount(first[0], upgrade);
      }
    } else {
      assert s.log + [] + first == s.log + first;
    }
  }

  lemma FirstDoesNotCount(first: Event, rest: seq<Event>)
    requires rest != [] && IsStartTls(rest[0]) && forall i :: 0 <= i < |rest| ==> !EhloAccepted(rest[i])
    ensures NoneCounts([first] + rest)
  {
    var all := [first] + rest;
    assert all[1] == rest[0];
    assert forall i :: 0 < i < |all| ==> all[i] == rest[i - 1];
  }

  /** What the greeting of the client comes to: an EHLO that counts, or HELO, or a failure. */
  lemma HelloTells(cfg: Config, net: Server, s: State) returns (counts: bool, events: seq<Event>, t: State, reply: Reply)
    requires s.conn.Some?
    ensures counts ==> Counts(cfg, s, t, events, reply, t.usingTls) && Hello(cfg, net, s) == FinishHelo(cfg, net, t, t.usingTls)
    ensures !counts ==>
      var x := Hello(cfg, net, s);
      && x.s.log == s.log + events && NoneCounts(events)
      && (x.error.None? ==> |events| == 2 && HeloAccepted(events[1]) && events[1].conn == s.conn.value)
      && (x.error.None? ==> x.s.conn == s.conn && x.s.capabilities == map[])
  {
    events := OneCommand(net, s, Ehlo, 250);
    var e := Execute(net, s, Ehlo, {250});
    counts, t, reply := false, e.s.(capabilities := e.reply.capabilities), e.reply;
    hide Execute, AfterEhlo, Counts;
    if e.error.None? {
      counts, events, t, reply := AfterEhloTells(cfg, net, s, t, events, reply);
    } else if e.s.conn.Some? {
      var helo := OneCommand(net, e.s, Helo, 250);
      events := events + helo;
    }
  }

  // ----- start -----

  /** The connection was secured during `events`. */
  predicate Secured(events: seq<Event>, conn: nat) {
    exists e :: e in events && Secures(e, conn)
  }

  /** Start got as far as an EHLO that counts: what stands behind it, and what start answers. */
  ghost predicate Story(cfg: Config, s: State, x: Step, opening: seq<Event>, reply: Reply, behind: seq<Event>, dialogue: seq<Event>) {
    var conn, tls := s.dialled, Secured(opening, s.dialled);
    && reply.code == 250 && OnConnection(behind, conn) && (cfg.autoTls && "STARTTLS" in reply.capabilities ==> tls)
    && x.s.log == s.log + opening + [Exchange(conn, Ehlo, Replied(reply))] + behind + (if x.error.None? then [] else [Close(conn)])
    && (x.error.None? ==> x.s.started && x.s.conn == Some(conn) && x.s.capabilities == reply.capabilities && x.s.usingTls == tls)
    && (if Due(cfg, reply.capabilities, tls)
        then
          var mechanisms := Advertised(cfg.authenticators, reply.capabilities["AUTH"]);
          && (x.error.None? ==> Authenticated(cfg.password, mechanisms, behind, dialogue))
          && (x.error.Some? ==> PlainCode(x.error.value) && AllRefused(cfg.password, mechanisms, behind, dialogue, Code(x.error.value)))
        else behind == [] && (x.error.None? <==> (tls || !cfg.requireTls) && (cfg.username == "" || "AUTH" !in reply.capabilities)))
  }

  /** Start found no EHLO that counts: it failed, or its last event is an accepted HELO. */
  predicate NoStory(s: State, x: Step, events: seq<Event>) {
    && x.s.log == s.log + events && NoneCounts(events)
    && (x.error.None? ==> events != [] && HeloAccepted(LastOf(events)) && LastOf(events).conn == s.dialled)
    && (x.error.None? ==> x.s.started && x.s.conn == Some(s.dialled) && x.s.capabilities == map[])
  }

  lemma SecuredByHandshake(conn: nat, secure: bool, outcome: Outcome, events: seq<Event>)
    requires forall i :: 0 <= i < |events| ==> !events[i].Dial?
    ensures Secured([Dial(conn, secure), Greeting(conn, outcome)] + events, conn) <==> secure || Handshake(conn, true) in events
  {
    var first := [Dial(conn, secure), Greeting(conn, outcome)];
    assert first[0] in first + events;
    assert forall e :: e in events ==> e in first + events;
    assert forall e :: e in first + events ==> e in first || e in events;
  }

  lemma ConnectTells(cfg: Config, net: Server, s: State) returns (outcome: Outcome)
    ensures var c := Connect(cfg, net, s); c.error.Some? ==> c.s.log == s.log
    ensures var c := Connect(cfg, net, s); c.error.None? ==>
      var g := ReadGreeting(net, c.s);
      && g.s.log == s.log + [Dial(s.dialled, cfg.implicitTls), Greeting(s.dialled, outcome)]
      && g.s.conn == Some(s.dialled) && g.s.usingTls == cfg.implicitTls
  {
    var c := Connect(cfg, net, s);
    outcome := ReadFailed;
    if c.error.None? {
      var t := ReadGreeting(net, c.s).s;
      outcome := t.log[|t.log| - 1].outcome;
      assert t.log == c.s.log + [Greeting(s.dialled, outcome)];
    }
  }

  /** What start makes of a session that was opened, and of one that was not. */
  lemma StartConcludes(cfg: Config, net: Server, s: State)
    requires !s.started && Connect(cfg, net, s).error.None?
    ensures var g := ReadGreeting(net, Connect(cfg, net, s).s);
      var h, x := if g.error.Some? then g else Hello(cfg, net, g.s), Start(cfg, net, s);
      && (x.error.None? <==> h.error.None?)
      && (x.error.None? ==> x.s == h.s.(started := true, messageTimed := false))
      && (x.error.Some? ==> x.s.log == h.s.log + (if h.s.conn.None? then [] else [Close(h.s.conn.value)]))
      && (x.error.Some? && PlainCode(h.error.value) && Code(h.error.value) != 0 ==> x.error == h.error)
  {
    hide Connect, ReadGreeting, Hello;
    var g := ReadGreeting(net, Connect(cfg, net, s).s);
    var h := if g.error.Some? then g else Hello(cfg, net, g.s);
    assert h.s.log + [] == h.s.log;
  }

  lemma NothingIsAnswered()
    ensures AllAnswered([])
  {
  }

  lemma AuthenticatedIsAlive(password: string, mechanisms: seq<Mechanism>, events: seq<Event>, dialogue: seq<Event>)
    requires Authenticated(password, mechanisms, events, dialogue)
    ensures AllAnswered(events)
  {
  }

  lemma StoryLog(cfg: Config, s: State, g: State, first: seq<Event>, t: State, before: seq<Event>, reply: Reply, h: State, behind: seq<Event>)
    requires g.conn == Some(s.dialled) && g.log == s.log + first && Counts(cfg, g, t, before, reply, t.usingTls) && Wrote(t, h, behind)
    ensures reply.code == 250 && t.capabilities == reply.capabilities && OnConnection(behind, s.dialled)
    ensures cfg.autoTls && "STARTTLS" in reply.capabilities ==> t.usingTls
    ensures h.log + (if h.conn.None? then [] else [Close(h.conn.value)])
         == s.log + (first + before) + [Exchange(s.dialled, Ehlo, Replied(reply))] + behind + [Close(s.dialled)]
    ensures AllAnswered(behind) ==>
      && h.log == s.log + (first + before) + [Exchange(s.dialled, Ehlo, Replied(reply))] + behind
      && h.conn == Some(s.dialled) && h.capabilities == reply.capabilities && h.usingTls == t.usingTls
  {
    hide OnConnection, AllAnswered;
    var e := [Exchange(s.dialled, Ehlo, Replied(reply))];
    assert t.log == s.log + (first + before) + e;
    assert t.log + behind + [] == t.log + behind;
  }

  /** From the EHLO that counts to the end of start. */
  lemma StoryEnds(cfg: Config, net: Server, s: State, g: State, first: seq<Event>, t: State, before: seq<Event>, reply: Reply, x: Step)
    returns (behind: seq<Event>, dialogue: seq<Event>)
    requires g.conn == Some(s.dialled) && g.log == s.log + first && Counts(cfg, g, t, before, reply, t.usingTls)
    requires t.usingTls == Secured(first + before, s.dialled)
    requires var h := FinishHelo(cfg, net, t, t.usingTls);
      && (x.error.None? <==> h.error.None?)
      && (x.error.None? ==> x.s == h.s.(started := true, messageTimed := false))
      && (x.error.Some? ==> x.s.log == h.s.log + (if h.s.conn.None? then [] else [Close(h.s.conn.value)]))
      && (x.error.Some? && PlainCode(h.error.value) && Code(h.error.value) != 0 ==> x.error == h.error)
    ensures Story(cfg, s, x, first + before, reply, behind, dialogue)
  {
    assert t.conn.Some?;
    hide FinishHelo, Authenticated, AllRefused, Advertised, OnConnection, Secured, Wrote, Counts;
    behind, dialogue := FinishTells(cfg, net, t, t.usingTls);
    var h := FinishHelo(cfg, net, t, t.usingTls);
    StoryLog(cfg, s, g, first, t, before, reply, h.s, behind);
    hide AllAnswered;
    if h.error.None? {
      if Due(cfg, reply.capabilities, t.usingTls) {
        AuthenticatedIsAlive(cfg.password, Advertised(cfg.authenticators, reply.capabilities["AUTH"]), behind, dialogue);
      } else {
        NothingIsAnswered();
      }
    } else if Due(cfg, reply.capabilities, t.usingTls) {
      RefusedCode(cfg.password, Advertised(cfg.authenticators, reply.capabilities["AUTH"]), behind, dialogue, Code(h.error.value));
    }
  }

  lemma CountsSecured(cfg: Config, g: State, t: State, outcome: Outcome, before: seq<Event>, reply: Reply)
    requires Counts(cfg, g, t, before, reply, t.usingTls) && g.usingTls == cfg.implicitTls
    ensures t.usingTls == Secured([Dial(g.conn.value, cfg.implicitTls), Greeting(g.conn.value, outcome)] + before, g.conn.value)
  {
    SecuredByHandshake(g.conn.value, cfg.implicitTls, outcome, before);
    hide Secured;
  }

  lemma NoneCountsBehind(conn: nat, secure: bool, outcome: Outcome, events: seq<Event>, closing: seq<Event>)
    requires NoneCounts(events) && (closing == [] || (|closing| == 1 && closing[0].Close?))
    ensures NoneCounts([Dial(conn, secure), Greeting(conn, outcome)] + events + closing)
  {
    var first := [Dial(conn, secure), Greeting(conn, outcome)];
    var all := first + events + closing;
    forall i | 0 <= i < |all| && EhloAccepted(all[i]) ensures i + 1 < |all| && IsStartTls(all[i + 1]) {
      assert 2 <= i < 2 + |events| && all[i] == events[i - 2];
      assert all[i + 1] == events[i - 2 + 1];
    }
  }

  lemma NoStoryEnds(s: State, g: State, h: Step, x: Step, secure: bool, outcome: Outcome, before: seq<Event>) returns (events: seq<Event>)
    requires g.log == s.log + [Dial(s.dialled, secure), Greeting(s.dialled, outcome)] && h.s.log == g.log + before && NoneCounts(before)
    requires h.error.None? ==> before != [] && HeloAccepted(LastOf(before)) && LastOf(before).conn == s.dialled
    requires h.error.None? ==> h.s.conn == Some(s.dialled) && h.s.capabilities == map[]
    requires x.error.None? <==> h.error.None?
    requires x.error.None? ==> x.s == h.s.(started := true, messageTimed := false)
    requires x.error.Some? ==> x.s.log == h.s.log + (if h.s.conn.None? then [] else [Close(h.s.conn.value)])
    ensures NoStory(s, x, events)
  {
    var first := [Dial(s.dialled, secure), Greeting(s.dialled, outcome)];
    var closing := if x.error.None? || h.s.conn.None? then [] else [Close(h.s.conn.value)];
    events := first + before + closing;
    NoneCountsBehind(s.dialled, secure, outcome, before, closing);
    hide NoneCounts, HeloAccepted;
    assert closing == [] ==> events == first + before;
    assert s.log + events == h.s.log + closing;
  }

  /** Whatever the server does, start that opens a session has either a story or none. */
  lemma StartTells(cfg: Config, net: Server, s: State)
    returns (counts: bool, opening: seq<Event>, reply: Reply, behind: seq<Event>, dialogue: seq<Event>)
    requires !s.started
    ensures counts ==> Story(cfg, s, Start(cfg, net, s), opening, reply, behind, dialogue)
    ensures !counts ==> NoStory(s, Start(cfg, net, s), opening)
  {
    var c, x := Connect(cfg, net, s), Start(cfg, net, s);
    counts, opening, reply, behind, dialogue := false, [], NO_REPLY, [], [];
    var outcome := ConnectTells(cfg, net, s);
    if c.error.Some? {
      assert x == c && s.log + [] == s.log;
    } else {
      StartConcludes(cfg, net, s);
      var g := ReadGreeting(net, c.s);
      hide Start, Connect, ReadGreeting, Hello, Story, Counts;
      opening := [Dial(s.dialled, cfg.implicitTls), Greeting(s.dialled, outcome)];
      var before: seq<Event> := [];
      if g.error.None? {
        var t;
        counts, before, t, reply := HelloTells(cfg, net, g.s);
        if counts {
          CountsSecured(cfg, g.s, t, outcome, before, reply);
          behind, dialogue := StoryEnds(cfg, net, s, g.s, opening, t, before, reply, x);
        }
      }
      if counts {
        opening := opening + before;
      } else {
        opening := NoStoryEnds(s, g.s, if g.error.Some? then g else Hello(cfg, net, g.s), x, cfg.implicitTls, outcome, before);
      }
    }
  }

  // ----- what the log of a started session says -----

  /** The log of the session `t` that began at position `from`: an accepted EHLO or HELO at position `k`, and behind it nothing but AUTH. */
  ghost predicate SessionBegins(cfg: Config, from: nat, conn: nat, t: State, k: nat, dialogue: seq<Event>) {
    && t.started && t.conn == Some(conn) && from <= k < |t.log| && t.log[k].Exchange? && t.log[k].conn == conn
    && OnConnection(t.log[k + 1..], conn)
    && (if HeloAccepted(t.log[k]) then k + 1 == |t.log| && t.capabilities == map[]
        else
          && EhloAccepted(t.log[k])
          && var capabilities := t.log[k].outcome.reply.capabilities;
          && t.capabilities == capabilities
          && t.usingTls == Secured(t.log[from..k], conn)
          && (cfg.autoTls && "STARTTLS" in capabilities ==> t.usingTls)
          && (if cfg.username != "" && "AUTH" in capabilities
              then Authenticated(cfg.password, Advertised(cfg.authenticators, capabilities["AUTH"]), t.log[k + 1..], dialogue)
              else k + 1 == |t.log|))
  }

  lemma StartedByEhlo(cfg: Config, s: State, x: Step, opening: seq<Event>, reply: Reply, behind: seq<Event>, dialogue: seq<Event>)
    requires Story(cfg, s, x, opening, reply, behind, dialogue) && x.error.None?
    ensures SessionBegins(cfg, |s.log|, s.dialled, x.s, |s.log| + |opening|, dialogue)
  {
    hide Secured, Authenticated, AllRefused, OnConnection;
    var t, k := x.s, |s.log| + |opening|;
    assert t.log == s.log + opening + [Exchange(s.dialled, Ehlo, Replied(reply))] + behind;
    assert t.log[|s.log|..k] == opening && t.log[k + 1..] == behind;
  }

  lemma StartedByHelo(cfg: Config, s: State, x: Step, opening: seq<Event>) returns (k: nat)
    requires NoStory(s, x, opening) && x.error.None?
    ensures SessionBegins(cfg, |s.log|, s.dialled, x.s, k, [])
  {
    hide Secured, Authenticated, NoneCounts;
    k := |s.log| + |opening| - 1;
    assert x.s.log[k] == LastOf(opening);
    assert x.s.log[k + 1..] == [];
  }

  /**
   A session is started by an accepted EHLO or HELO, behind which stands nothing but AUTH. Behind an EHLO
   the session uses TLS if the server offered STARTTLS and that may be used, and if the server offers AUTH
   and there is a user, a configured and advertised mechanism was accepted, after those before it in vain.
   */
  lemma StartedSession(cfg: Config, net: Server, s: State) returns (k: nat, dialogue: seq<Event>)
    requires !s.started && Start(cfg, net, s).error.None?
    ensures SessionBegins(cfg, |s.log|, s.dialled, Start(cfg, net, s).s, k, dialogue)
  {
    hide *;
    var counts, opening, reply, behind, last := StartTells(cfg, net, s);
    if counts {
      StartedByEhlo(cfg, s, Start(cfg, net, s), opening, reply, behind, last);
      k, dialogue := |s.log| + |opening|, last;
    } else {
      k := StartedByHelo(cfg, s, Start(cfg, net, s), opening);
      dialogue := [];
    }
  }

  /** Behind position `k` of `log` stands nothing but AUTH, and closes. */
  predicate OnlyAuthBehind(log: seq<Event>, k: nat) {
    forall i :: k < i < |log| ==> log[i].Close? || (log[i].Exchange? && (log[i].command.Auth? || log[i].command.AuthContinue? || log[i].command.Rset?))
  }

  /** The event at position `k` is the last accepted EHLO of `opening`, a greeting and what is `behind` it. */
  lemma GreetingIsUnique(log: seq<Event>, opening: seq<Event>, greeting: Event, rest: seq<Event>, k: nat)
    requires log == opening + [greeting] + rest && k < |log| && OnlyAuthBehind(log, k)
    requires EhloAccepted(log[k]) && greeting.Exchange? && greeting.command.Ehlo?
    requires OnlyAuthBehind([greeting] + rest, 0)
    ensures k == |opening|
  {
    assert log[|opening|] == greeting;
    assert k >= |opening| ==> log[k] == ([greeting] + rest)[k - |opening|];
  }

  lemma NoGreetingCounts(log: seq<Event>, events: seq<Event>, from: nat, k: nat)
    requires NoneCounts(events) && from <= |log| && log[from..] == events && from <= k < |log| && OnlyAuthBehind(log, k)
    ensures !EhloAccepted(log[k])
  {
    assert log[k] == events[k - from];
    assert k + 1 < |log| ==> log[k + 1] == events[k + 1 - from];
  }

  /**
   An accepted EHLO with nothing but AUTH behind it decides start. Where credentials are due, start
   succeeds with an accepted mechanism, or fails when all advertised ones were refused, with the code
   that remains; otherwise nothing is written any more, and start fails only for the lack of TLS.
   */
  lemma DecidedBehindTheGreeting(cfg: Config, net: Server, s: State, k: nat) returns (events: seq<Event>, dialogue: seq<Event>)
    requires !s.started
    requires var log := Start(cfg, net, s).s.log; |s.log| <= k < |log| && EhloAccepted(log[k]) && OnlyAuthBehind(log, k)
    ensures var x := Start(cfg, net, s);
      var capabilities, tls := x.s.log[k].outcome.reply.capabilities, Secured(x.s.log[|s.log|..k], s.dialled);
      && x.s.log[k + 1..] == events + (if x.error.None? then [] else [Close(s.dialled)])
      && (if Due(cfg, capabilities, tls)
          then
            var mechanisms := Advertised(cfg.authenticators, capabilities["AUTH"]);
            && (x.error.None? ==> Authenticated(cfg.password, mechanisms, events, dialogue))
            && (x.error.Some? ==> PlainCode(x.error.value) && AllRefused(cfg.password, mechanisms, events, dialogue, Code(x.error.value)))
          else events == [] && (x.error.None? <==> (tls || !cfg.requireTls) && (cfg.username == "" || "AUTH" !in capabilities)))
  {
    hide *;
    var x := Start(cfg, net, s);
    var counts, opening, reply, behind, last := StartTells(cfg, net, s);
    events, dialogue := behind, last;
    if counts {
      DecidedInStory(cfg, s, x, opening, reply, behind, last, k);
    } else {
      NotDecidedOtherwise(s, x, opening, k);
    }
  }

  lemma DecidedInStory(cfg: Config, s: State, x: Step, opening: seq<Event>, reply: Reply, behind: seq<Event>, dialogue: seq<Event>, k: nat)
    requires Story(cfg, s, x, opening, reply, behind, dialogue)
    requires |s.log| <= k < |x.s.log| && EhloAccepted(x.s.log[k]) && OnlyAuthBehind(x.s.log, k)
    ensures x.s.log[k].outcome.reply == reply && x.s.log[|s.log|..k] == opening
    ensures x.s.log[k + 1..] == behind + (if x.error.None? then [] else [Close(s.dialled)])
    ensures var tls := Secured(opening, s.dialled);
      if Due(cfg, reply.capabilities, tls)
      then
        var mechanisms := Advertised(cfg.authenticators, reply.capabilities["AUTH"]);
        && (x.error.None? ==> Authenticated(cfg.password, mechanisms, behind, dialogue))
        && (x.error.Some? ==> PlainCode(x.error.value) && AllRefused(cfg.password, mechanisms, behind, dialogue, Code(x.error.value)))
      else behind == [] && (x.error.None? <==> (tls || !cfg.requireTls) && (cfg.username == "" || "AUTH" !in reply.capabilities))
  {
    hide Due, Secured, AllRefused, Authenticated, EhloAccepted, OnlyAuthBehind, PlainCode;
    var rest := behind + (if x.error.None? then [] else [Close(s.dialled)]);
    OnlyAuthBehindGreeting(s.dialled, reply, behind, x.error.None?);
    hide OnConnection;
    assert x.s.log == s.log + opening + [Exchange(s.dialled, Ehlo, Replied(reply))] + rest;
    GreetingIsUnique(x.s.log, s.log + opening, Exchange(s.dialled, Ehlo, Replied(reply)), rest, k);
    assert x.s.log[|s.log|..k] == opening;
  }

  lemma NotDecidedOtherwise(s: State, x: Step, opening: seq<Event>, k: nat)
    requires NoStory(s, x, opening) && |s.log| <= k < |x.s.log| && OnlyAuthBehind(x.s.log, k)
    ensures !EhloAccepted(x.s.log[k])
  {
    hide NoneCounts, OnlyAuthBehind, EhloAccepted, HeloAccepted;
    assert x.s.log[|s.log|..] == opening;
    NoGreetingCounts(x.s.log, opening, |s.log|, k);
  }

  lemma OnlyAuthBehindGreeting(conn: nat, reply: Reply, behind: seq<Event>, started: bool)
    requires OnConnection(behind, conn)
    ensures OnlyAuthBehind([Exchange(conn, Ehlo, Replied(reply))] + (behind + (if started then [] else [Close(conn)])), 0)
  {
  }
}
