/**
 Commands and replies in step: the client of SmtpClient on connections whose replies are what
 readResponse takes from the octets the server sends. `Meaning` is what a reply's text says.
 */
module SmtpWire {
  import opened Octets
  import opened SmtpProtocol
  import opened SmtpClient
  import opened SmtpSafety
  import opened SmtpEnvelopes
  import opened SmtpReply
  import Decimals

  type Meaning = string -> Reply

  // ----- one stream of octets -----

  /** What is unread of `stream` after `n` responses, None once one of them could not be read. */
  function After(stream: string, n: nat): Option<string> {
    if n == 0 then Some(stream)
    else
      var before := After(stream, n - 1);
      if before.None? || !Read(before.value, "").Response? then None
      else
        ResponseIsPrefix(before.value, "");
        Some(before.value[|Read(before.value, "").text|..])
  }

  /** The text of the n-th response. */
  function TextAt(stream: string, n: nat): (text: string)
    requires After(stream, n + 1).Some?
  {
    Read(After(stream, n).value, "").text
  }

  function Outcome(meaning: Meaning, stream: string, n: nat): Outcome {
    if After(stream, n + 1).Some? then Replied(meaning(TextAt(stream, n))) else ReadFailed
  }

  /** The first `n` responses, end to end. */
  function Texts(stream: string, n: nat): string
    requires After(stream, n).Some?
    decreases n
  {
    if n == 0 then "" else Texts(stream, n - 1) + TextAt(stream, n - 1)
  }

  lemma {:induction false} NothingIsLost(stream: string, n: nat)
    requires After(stream, n).Some?
    ensures Texts(stream, n) + After(stream, n).value == stream
  {
    if n == 0 {
      assert "" + stream == stream;
    } else {
      NothingIsLost(stream, n - 1);
      hide Read, Texts;
      OneMoreText(stream, n);
      TextsStep(stream, n);
    }
  }

  lemma OneMoreText(stream: string, n: nat)
    requires n > 0 && After(stream, n).Some?
    ensures After(stream, n - 1).Some? && After(stream, n - 1).value == TextAt(stream, n - 1) + After(stream, n).value
  {
    FrontIsRead(After(stream, n - 1).value);
    hide Read;
  }

  lemma FrontIsRead(stream: string)
    requires Read(stream, "").Response?
    ensures var text := Read(stream, "").text; |text| <= |stream| && stream == text + stream[|text|..]
  {
    ResponseIsPrefix(stream, "");
    hide Read;
  }

  lemma TextsStep(stream: string, n: nat)
    requires n > 0 && After(stream, n).Some? && After(stream, n - 1).Some?
    requires After(stream, n - 1).value == TextAt(stream, n - 1) + After(stream, n).value
    ensures Texts(stream, n) + After(stream, n).value == Texts(stream, n - 1) + After(stream, n - 1).value
  {
    hide *;
    TextsMore(stream, n);
    Regroup(Texts(stream, n - 1), TextAt(stream, n - 1), After(stream, n).value);
  }

  lemma TextsMore(stream: string, n: nat)
    requires n > 0 && After(stream, n).Some? && After(stream, n - 1).Some?
    ensures Texts(stream, n) == Texts(stream, n - 1) + TextAt(stream, n - 1)
  {
    hide After, TextAt;
  }

  lemma {:induction false} EarlierWasRead(stream: string, m: nat, n: nat)
    requires m <= n && After(stream, n).Some?
    ensures After(stream, m).Some?
  {
    if m < n {
      EarlierWasRead(stream, m, n - 1);
    }
  }

  predicate Sized(replies: seq<WireReply>) {
    forall i :: 0 <= i < |replies| ==> WellFormed(replies[i]) && |Print(replies[i])| <= MAX_RESPONSE_SIZE
  }

  /** On a stream of well-formed replies, the n-th response is the n-th reply, and what follows it is unread. */
  lemma {:induction false} RepliesInStep(replies: seq<WireReply>, rest: string, n: nat)
    requires Sized(replies) && n <= |replies|
    ensures After(PrintAll(replies) + rest, n) == Some(PrintAll(replies[n..]) + rest)
    ensures n < |replies| ==> After(PrintAll(replies) + rest, n + 1).Some? && TextAt(PrintAll(replies) + rest, n) == Print(replies[n])
    decreases n
  {
    var stream := PrintAll(replies) + rest;
    if n == 0 {
      assert replies[0..] == replies;
    } else {
      RepliesInStep(replies, rest, n - 1);
      NextReply(replies, rest, n - 1);
    }
    if n < |replies| {
      NextReply(replies, rest, n);
    }
  }

  lemma NextReply(replies: seq<WireReply>, rest: string, n: nat)
    requires Sized(replies) && n < |replies|
    ensures var unread := PrintAll(replies[n..]) + rest;
      && Read(unread, "") == Response(Print(replies[n])) && |Print(replies[n])| <= |unread|
      && unread[|Print(replies[n])|..] == PrintAll(replies[n + 1..]) + rest
  {
    hide Read, Print, WellFormed;
    var first, more := Print(replies[n]), PrintAll(replies[n + 1..]) + rest;
    assert replies[n..][1..] == replies[n + 1..];
    assert PrintAll(replies[n..]) + rest == first + more;
    FirstReply(replies[n], more);
    assert (first + more)[|first|..] == more;
  }

  /** A stream that ends inside a reply gives no further response. */
  lemma CutStream(replies: seq<WireReply>, last: WireReply, cut: nat)
    requires Sized(replies) && WellFormed(last) && |Print(last)| <= MAX_RESPONSE_SIZE && cut < |Print(last)|
    ensures After(PrintAll(replies) + Print(last)[..cut], |replies|) == Some(Print(last)[..cut])
    ensures After(PrintAll(replies) + Print(last)[..cut], |replies| + 1).None?
  {
    hide Read, Print, PrintAll, WellFormed;
    var part := Print(last)[..cut];
    RepliesInStep(replies, part, |replies|);
    NothingPrinted(replies);
    FirstReply(last, "");
    assert Print(last) + "" == Print(last);
    CutRepliesAreErrors(Print(last), "", cut);
    assert "" + part == part;
  }

  lemma NothingPrinted(replies: seq<WireReply>)
    ensures forall rest: string :: PrintAll(replies[|replies|..]) + rest == rest
  {
    assert replies[|replies|..] == [];
    assert forall rest: string :: "" + rest == rest;
  }

  // ----- every run -----

  /** The event is a reading of a reply on `conn`: the greeting, or a command that was written. */
  predicate Awaits(e: Event, conn: nat) {
    (e.Greeting? || (e.Exchange? && !e.outcome.WriteFailed?)) && e.conn == conn
  }

  /** What was read on `conn`, in order. */
  function Readings(log: seq<Event>, conn: nat): seq<Outcome> {
    if log == [] then []
    else
      var e := log[|log| - 1];
      Readings(log[..|log| - 1], conn) + (if Awaits(e, conn) then [e.outcome] else [])
  }

  /** The server's octets on `conn` are `stream`, and the client reads its replies from there, one after the other. */
  predicate Fed(meaning: Meaning, log: seq<Event>, conn: nat, stream: string) {
    forall i :: 0 <= i < |Readings(log, conn)| ==> Readings(log, conn)[i] == Outcome(meaning, stream, i)
  }

  predicate AllRead(readings: seq<Outcome>, n: int) {
    forall i :: 0 <= i < |readings| && i < n ==> readings[i].Replied?
  }

  /** The connection is in use: dialled, not closed, and nothing on it has failed or ended. */
  predicate InUse(w: Watch, conn: nat) {
    w.conn == conn && !w.phase.Closed? && !w.phase.Lost?
  }

  /** What the monitor's state says about the readings so far. */
  predicate ReadingsMatch(w: Watch, conn: nat, readings: seq<Outcome>) {
    && (w.conn < conn || (w.conn == conn && w.phase.Closed?) ==> readings == [])
    && (InUse(w, conn) ==> AllRead(readings, |readings|))
    && AllRead(readings, |readings| - 1)
  }

  lemma ReadingStep(policy: Policy, w: Watch, e: Event, conn: nat, readings: seq<Outcome>)
    requires Next(policy, w, e).Some? && ReadingsMatch(w, conn, readings)
    ensures ReadingsMatch(Next(policy, w, e).value, conn, readings + (if Awaits(e, conn) then [e.outcome] else []))
  {
    var v := Next(policy, w, e).value;
    ConnectionStep(policy, w, e);
    assert Awaits(e, conn) ==> InUse(w, conn) && AllRead(readings, |readings|);
    assert Awaits(e, conn) && InUse(v, conn) ==> e.outcome.Replied?;
    assert InUse(v, conn) && v.conn == w.conn ==> InUse(w, conn) || e.Dial?;
    hide Next;
  }

  /** Only the last reading on a connection can have failed, and none has while the connection is in use. */
  lemma {:induction false} FailedReadingIsLast(policy: Policy, log: seq<Event>, conn: nat)
    requires Legal(policy, log)
    ensures ReadingsMatch(Run(policy, log).value, conn, Readings(log, conn))
    decreases |log|
  {
    if log != [] {
      FailedReadingIsLast(policy, log[..|log| - 1], conn);
      ReadingStep(policy, Run(policy, log[..|log| - 1]).value, log[|log| - 1], conn, Readings(log[..|log| - 1], conn));
      hide ReadingsMatch;
    }
  }

  /**
   Whatever the octets: while a connection is in use every command on it has had its reply, the
   readings were the first responses of the stream, and exactly their octets are gone from it.
   */
  lemma NothingOutstanding(policy: Policy, meaning: Meaning, log: seq<Event>, conn: nat, stream: string)
    requires Legal(policy, log) && InUse(Run(policy, log).value, conn) && Fed(meaning, log, conn, stream)
    ensures var n := |Readings(log, conn)|;
      && (forall i :: 0 <= i < n ==> Readings(log, conn)[i].Replied?)
      && After(stream, n).Some? && Texts(stream, n) + After(stream, n).value == stream
  {
    FailedReadingIsLast(policy, log, conn);
    var n := |Readings(log, conn)|;
    if n > 0 {
      assert Readings(log, conn)[n - 1] == Outcome(meaning, stream, n - 1);
    }
    hide Readings, Read, Fed;
    NothingIsLost(stream, n);
  }

  /** A meaning keeps the code that parseCode finds in the text. */
  ghost predicate KeepsCode(meaning: Meaning) {
    forall text: string :: meaning(text).code == ParseCode(text)
  }

  /** If the server sends well-formed replies, the k-th command gets the k-th of them, the greeting counting as the first. */
  lemma EveryCommandGetsItsReply(policy: Policy, meaning: Meaning, log: seq<Event>, conn: nat, replies: seq<WireReply>, rest: string)
    requires Legal(policy, log) && Sized(replies) && Fed(meaning, log, conn, PrintAll(replies) + rest)
    ensures forall i :: 0 <= i < |Readings(log, conn)| && i < |replies| ==>
      && Readings(log, conn)[i] == Replied(meaning(Print(replies[i])))
      && (KeepsCode(meaning) ==> Readings(log, conn)[i].reply.code == Decimals.Value(replies[i].code))
  {
    hide Readings, Print, PrintAll, Read, ParseCode;
    forall i | 0 <= i < |Readings(log, conn)| && i < |replies|
      ensures Readings(log, conn)[i] == Replied(meaning(Print(replies[i])))
      ensures KeepsCode(meaning) ==> Readings(log, conn)[i].reply.code == Decimals.Value(replies[i].code)
    {
      RepliesInStep(replies, rest, i);
      CodeOfPrinted(replies[i]);
    }
  }

  /** If the stream is cut inside a reply, the command that waits for it is the last on that connection, which is not used again. */
  lemma CutClosesConnection(policy: Policy, meaning: Meaning, log: seq<Event>, conn: nat, replies: seq<WireReply>, last: WireReply, cut: nat)
    requires Legal(policy, log) && Sized(replies) && WellFormed(last) && |Print(last)| <= MAX_RESPONSE_SIZE && cut < |Print(last)|
    requires Fed(meaning, log, conn, PrintAll(replies) + Print(last)[..cut])
    ensures |Readings(log, conn)| <= |replies| + 1
    ensures |Readings(log, conn)| == |replies| + 1 ==> !InUse(Run(policy, log).value, conn)
  {
    var stream := PrintAll(replies) + Print(last)[..cut];
    var n := |replies|;
    CutStream(replies, last, cut);
    FailedReadingIsLast(policy, log, conn);
    hide Readings, Print, PrintAll, Read, Sized;
    assert Outcome(meaning, stream, n) == ReadFailed;
  }

  /** All of this holds of every run of the client. */
  lemma RunsStayInStep(cfg: Config, net: Server, calls: seq<Call>, meaning: Meaning, conn: nat, replies: seq<WireReply>, rest: string)
    requires Sound(calls) && Sized(replies) && Fed(meaning, RunCalls(cfg, net, FRESH, calls).log, conn, PrintAll(replies) + rest)
    ensures var log := RunCalls(cfg, net, FRESH, calls).log;
      && Legal(PolicyOf(cfg), log)
      && (forall i :: 0 <= i < |Readings(log, conn)| && i < |replies| ==> Readings(log, conn)[i] == Replied(meaning(Print(replies[i]))))
      && (InUse(Run(PolicyOf(cfg), log).value, conn) ==> forall i :: 0 <= i < |Readings(log, conn)| ==> Readings(log, conn)[i].Replied?)
  {
    var log := RunCalls(cfg, net, FRESH, calls).log;
    hide RunCalls, Readings, Fed, Sized, Print, PrintAll;
    EveryRunIsLegal(cfg, net, calls);
    EveryCommandGetsItsReply(PolicyOf(cfg), meaning, log, conn, replies, rest);
    FailedReadingIsLast(PolicyOf(cfg), log, conn);
  }

  // ----- a server that is a stream -----

  /** The server whose answers from `from` on are the responses of `stream`. */
  function StreamServer(meaning: Meaning, stream: string, from: nat): Server {
    (k: nat) => Io(true, if k >= from && After(stream, k - from + 1).Some? then Some(meaning(TextAt(stream, k - from))) else None, false, false)
  }

  /** Commands one after the other, whatever each of them answers. */
  function RunCommands(net: Server, s: State, commands: seq<(Command, set<int>)>): State {
    if commands == [] then s
    else Execute(net, RunCommands(net, s, commands[..|commands| - 1]), commands[|commands| - 1].0, commands[|commands| - 1].1).s
  }

  /** `t` is `s` after `commands`: connected exactly if each of them got a whole response, and then the k-th had the k-th. */
  predicate InStep(meaning: Meaning, stream: string, s: State, t: State, commands: seq<(Command, set<int>)>)
    requires s.conn.Some?
  {
    && (t.conn.Some? <==> After(stream, |commands|).Some?)
    && (t.conn.Some? ==>
          && t.conn == s.conn && t.answers == s.answers + |commands| && |t.log| == |s.log| + |commands| && s.log <= t.log
          && forall k :: |s.log| <= k < |t.log| ==>
               t.log[k] == Exchange(s.conn.value, commands[k - |s.log|].0, Outcome(meaning, stream, k - |s.log|)))
  }

  /**
   Commands against such a server: the connection is kept exactly as long as whole responses come,
   and then the k-th command has had the k-th of them.
   */
  lemma {:induction false} CommandsStayInStep(meaning: Meaning, stream: string, s: State, commands: seq<(Command, set<int>)>)
    requires s.conn.Some?
    ensures InStep(meaning, stream, s, RunCommands(StreamServer(meaning, stream, s.answers), s, commands), commands)
    decreases |commands|
  {
    hide *;
    if commands == [] {
      NoCommands(meaning, stream, StreamServer(meaning, stream, s.answers), s);
    } else {
      var net, n := StreamServer(meaning, stream, s.answers), |commands| - 1;
      CommandsStayInStep(meaning, stream, s, commands[..n]);
      RunMore(net, s, commands);
      ServerAnswers(meaning, stream, s.answers, n);
      CommandInStep(meaning, stream, net, s, RunCommands(net, s, commands[..n]), commands);
    }
  }

  lemma NoCommands(meaning: Meaning, stream: string, net: Server, s: State)
    requires s.conn.Some?
    ensures InStep(meaning, stream, s, RunCommands(net, s, []), [])
  {
  }

  lemma CommandInStep(meaning: Meaning, stream: string, net: Server, s: State, before: State, commands: seq<(Command, set<int>)>)
    requires s.conn.Some? && commands != [] && InStep(meaning, stream, s, before, commands[..|commands| - 1])
    requires OutcomeOf(net(s.answers + |commands| - 1)) == Outcome(meaning, stream, |commands| - 1)
    ensures var n := |commands| - 1; InStep(meaning, stream, s, Execute(net, before, commands[n].0, commands[n].1).s, commands)
  {
    var n := |commands| - 1;
    var t := Execute(net, before, commands[n].0, commands[n].1).s;
    hide After, Execute, TextAt;
    if before.conn.Some? {
      OneCommand(net, before, commands[n].0, commands[n].1, Outcome(meaning, stream, n));
      hide InStep;
      InStepMore(meaning, stream, s, before, t, commands);
    } else {
      NoConnection(net, before, commands[n].0, commands[n].1);
      hide InStep;
      InStepLost(meaning, stream, s, t, commands);
    }
  }

  lemma RunMore(net: Server, s: State, commands: seq<(Command, set<int>)>)
    requires commands != []
    ensures var n := |commands| - 1;
      RunCommands(net, s, commands) == Execute(net, RunCommands(net, s, commands[..n]), commands[n].0, commands[n].1).s
  {
    hide Execute;
  }

  lemma InStepMore(meaning: Meaning, stream: string, s: State, before: State, t: State, commands: seq<(Command, set<int>)>)
    requires s.conn.Some? && commands != [] && before.conn.Some? && InStep(meaning, stream, s, before, commands[..|commands| - 1])
    requires var n := |commands| - 1;
      && (t.conn.Some? <==> After(stream, n + 1).Some?)
      && (t.conn.Some? ==> t == Record(before, Exchange(before.conn.value, commands[n].0, Outcome(meaning, stream, n))))
    ensures InStep(meaning, stream, s, t, commands)
  {
    hide After, Outcome;
  }

  lemma InStepLost(meaning: Meaning, stream: string, s: State, t: State, commands: seq<(Command, set<int>)>)
    requires s.conn.Some? && commands != [] && t.conn.None? && InStep(meaning, stream, s, t, commands[..|commands| - 1])
    ensures InStep(meaning, stream, s, t, commands)
  {
    NoMoreResponses(stream, |commands| - 1);
    hide After, Outcome;
  }

  lemma ServerAnswers(meaning: Meaning, stream: string, from: nat, n: nat)
    ensures OutcomeOf(StreamServer(meaning, stream, from)(from + n)) == Outcome(meaning, stream, n)
    ensures Outcome(meaning, stream, n).Replied? <==> After(stream, n + 1).Some?
  {
    hide After;
  }

  lemma NoMoreResponses(stream: string, n: nat)
    ensures After(stream, 0).Some? && (After(stream, n).None? ==> After(stream, n + 1).None?)
  {
  }

  lemma NoConnection(net: Server, s: State, command: Command, codes: set<int>)
    requires s.conn.None?
    ensures Execute(net, s, command, codes).s == s
  {
  }

  lemma OneCommand(net: Server, s: State, command: Command, codes: set<int>, outcome: Outcome)
    requires s.conn.Some? && OutcomeOf(net(s.answers)) == outcome
    ensures var t := Execute(net, s, command, codes).s;
      && (t.conn.Some? <==> outcome.Replied?)
      && (t.conn.Some? ==> t == Record(s, Exchange(s.conn.value, command, outcome)))
  {
  }
}
