/**
 The SMTP conversation of transport/smtp/smtp.go as functions from state to state. The server and
 the network are one arbitrary answer per operation; every event on a connection is logged.
 SmtpTransport.dfy proves the methods of the transport against these functions, SmtpSafety.dfy
 proves what every run of them keeps.
 */
module SmtpClient {
  import opened Octets
  import opened SmtpProtocol
  import SmtpData

  /**
   What the world answers to one operation: whether writing (or dialling, or the TLS handshake)
   works, the reply read, None when the stream is cut or malformed, whether the context of the
   call is over by then, and whether the connection had been idle beyond the ping threshold.
   */
  datatype Io = Io(ok: bool, reply: Option<Reply>, cancelled: bool, idle: bool)

  /** Any server: its k-th answer. */
  type Server = nat -> Io

  datatype Error =
    | TransportError(code: int, cause: Option<Error>)
    | InvalidArgument
    | LogicError
    | ContextError

  datatype Config = Config(
    implicitTls: bool, autoTls: bool, requireTls: bool, allowPlaintextAuth: bool,
    username: string, password: string, authenticators: seq<Mechanism>,
    restartThreshold: nat, retryAttempts: nat)

  /** An address with its wire form, None when its domain has no ASCII form. */
  datatype Address = Address(encoded: Option<string>)

  /** Why BaseTransport.Send turns a message away before the transport's hook runs. */
  datatype Rejection = BadArgument | BadUse

  /** What Send is asked to deliver. */
  datatype Request = Request(
    rejected: Option<Rejection>, sender: Address, recipients: seq<Address>, utf8: bool, data: seq<Octet>)

  datatype State = State(
    conn: Option<nat>, started: bool, usingTls: bool, capabilities: Capabilities,
    restartCounter: nat, messageTimed: bool, dialled: nat, answers: nat, log: seq<Event>)

  /** The outcome of one operation: the state it leaves, its error if any, the reply it read. */
  datatype Step = Step(s: State, error: Option<Error>, reply: Reply)

  const RCPT_CODES: set<int> := {250, 251, 252}

  const NO_REPLY := Reply(0, map[], false)

  const FRESH := State(None, false, false, map[], 0, false, 0, 0, [])

  function Done(s: State): Step { Step(s, None, NO_REPLY) }

  function Fail(s: State, e: Error): Step { Step(s, Some(e), NO_REPLY) }

  function PolicyOf(cfg: Config): Policy { Policy(cfg.allowPlaintextAuth, cfg.retryAttempts + 1) }

  function Keyword(m: Mechanism): string {
    match m
    case Plain => "PLAIN"
    case Login => "LOGIN"
    case CramMd5 => "CRAM-MD5"
  }

  /** The SMTP code carried by an error, 0 if none. */
  function Code(e: Error): int { if e.TransportError? then e.code else 0 }

  predicate IsTransient(e: Error) { Transient(Code(e)) }

  predicate IsInvalidArgument(e: Error) {
    e.InvalidArgument? || (e.TransportError? && e.cause.Some? && IsInvalidArgument(e.cause.value))
  }

  /** BaseTransport classifies every delivery failure as a transport error, except a dead context. */
  function Wrap(e: Error): Error {
    if e.ContextError? || e.TransportError? then e else TransportError(0, Some(e))
  }

  /** An error of the network, the server or the context: never a judgement on the arguments. */
  predicate Ordinary(e: Error) {
    e.ContextError? || (e.TransportError? && e.cause.None?)
  }

  function OutcomeOf(io: Io): Outcome {
    if !io.ok then WriteFailed else if io.reply.None? then ReadFailed else Replied(io.reply.value)
  }

  function Record(s: State, e: Event): State { s.(answers := s.answers + 1, log := s.log + [e]) }

  // ----- one command -----

  function Terminate(s: State): State {
    if s.conn.None? then s.(started := false, usingTls := false)
    else s.(conn := None, started := false, usingTls := false, dialled := s.dialled + 1, log := s.log + [Close(s.conn.value)])
  }

  function Execute(net: Server, s: State, command: Command, codes: set<int>): (x: Step)
    ensures x.error.None? ==> x.s.conn.Some?
    ensures x.error.Some? ==> Ordinary(x.error.value)
  {
    if s.conn.None? then Fail(s, TransportError(0, None))
    else
      var outcome := OutcomeOf(net(s.answers));
      var t := Record(s, Exchange(s.conn.value, command, outcome));
      if !outcome.Replied? then Fail(Terminate(t), TransportError(0, None))
      else if outcome.reply.code in codes then Step(t, None, outcome.reply)
      else Step(t, Some(TransportError(outcome.reply.code, None)), outcome.reply)
  }

  /** A failure without an SMTP code becomes the context's error when the context is over. */
  function ContextErr(net: Server, s: State, e: Error): Error {
    if Code(e) == 0 && net(s.answers).cancelled then ContextError else e
  }

  // ----- opening a session -----

  function Connect(cfg: Config, net: Server, s: State): (x: Step)
    ensures x.error.None? ==> x.s.conn.Some?
    ensures x.error.Some? ==> Ordinary(x.error.value)
  {
    var io := net(s.answers);
    if !io.ok then Fail(s.(answers := s.answers + 1), if io.cancelled then ContextError else TransportError(0, None))
    else Done(Record(s, Dial(s.dialled, cfg.implicitTls)).(conn := Some(s.dialled), usingTls := cfg.implicitTls))
  }

  function ReadGreeting(net: Server, s: State): (x: Step)
    requires s.conn.Some?
    ensures x.error.Some? ==> Ordinary(x.error.value)
  {
    var io := net(s.answers);
    var outcome := if io.ok && io.reply.Some? then Replied(io.reply.value) else ReadFailed;
    var t := Record(s, Greeting(s.conn.value, outcome));
    if !outcome.Replied? then Fail(t, TransportError(0, None))
    else if outcome.reply.code == 220 then Step(t, None, outcome.reply)
    else Fail(t, TransportError(outcome.reply.code, None))
  }

  function Handshaking(net: Server, s: State): (x: Step)
    requires s.conn.Some?
    ensures x.error.Some? ==> Ordinary(x.error.value)
  {
    var io := net(s.answers);
    var t := Record(s, Handshake(s.conn.value, io.ok));
    if io.ok then Done(t.(usingTls := true))
    else Fail(t, if io.cancelled then ContextError else TransportError(0, None))
  }

  /** STARTTLS, the handshake, and the second EHLO. */
  function Upgrade(net: Server, s: State): (x: Step)
    ensures x.error.Some? ==> Ordinary(x.error.value)
  {
    var x := Execute(net, s, StartTls, {220});
    if x.error.Some? then Fail(x.s, ContextErr(net, x.s, x.error.value))
    else
      var h := Handshaking(net, x.s);
      if h.error.Some? then h
      else
        var e := Execute(net, h.s, Ehlo, {250});
        if e.error.Some? then Fail(e.s, ContextErr(net, e.s, e.error.value))
        else Done(e.s.(capabilities := e.reply.capabilities))
  }

  function Authenticate(cfg: Config, net: Server, s: State, m: Mechanism): Step {
    match m
    case Plain => Execute(net, s, Auth(Plain), {235})
    case Login =>
      var a := Execute(net, s, Auth(Login), {334});
      if a.error.Some? then a
      else
        var user := Execute(net, a.s, AuthContinue, {334});
        if user.error.Some? then user
        else Execute(net, user.s, AuthContinue, {235})
    case CramMd5 =>
      if cfg.password == "" then Fail(s, InvalidArgument)
      else
        var a := Execute(net, s, Auth(CramMd5), {334});
        if a.error.Some? then a
        else if !a.reply.decodableChallenge then Fail(a.s, TransportError(0, None))
        else Execute(net, a.s, AuthContinue, {235})
  }

  /** The advertised ones of `mechanisms` in order, until one succeeds. */
  function TryMechanisms(cfg: Config, net: Server, s: State, modes: seq<string>, mechanisms: seq<Mechanism>, lastCode: int, tried: bool): (x: Step)
    decreases |mechanisms|
    ensures x.error.Some? ==> Ordinary(x.error.value)
  {
    if mechanisms == [] then
      Fail(s, TransportError(if lastCode != 0 then lastCode else if tried then 535 else 504, None))
    else if Keyword(mechanisms[0]) !in modes then
      TryMechanisms(cfg, net, s, modes, mechanisms[1..], lastCode, tried)
    else
      var a := Authenticate(cfg, net, s, mechanisms[0]);
      if a.error.None? then Done(a.s)
      else
        var r := Execute(net, a.s, Rset, {250});
        TryMechanisms(cfg, net, r.s, modes, mechanisms[1..], Code(a.error.value), true)
  }

  function HandleAuth(cfg: Config, net: Server, s: State, modes: seq<string>): (x: Step)
    ensures x.error.Some? ==> Ordinary(x.error.value)
  {
    if cfg.username == "" then Done(s)
    else TryMechanisms(cfg, net, s, modes, cfg.authenticators, 0, false)
  }

  /** What follows the EHLO whose capabilities count: the TLS requirement, then AUTH. */
  function FinishHelo(cfg: Config, net: Server, s: State, tlsStarted: bool): (x: Step)
    ensures x.error.Some? ==> Ordinary(x.error.value)
  {
    if !tlsStarted && cfg.requireTls then Fail(s, TransportError(0, None))
    else if "AUTH" !in s.capabilities then Done(s)
    else if cfg.username != "" && !tlsStarted && !cfg.allowPlaintextAuth then Fail(s, TransportError(0, None))
    else
      var a := HandleAuth(cfg, net, s, s.capabilities["AUTH"]);
      if a.error.Some? then Fail(a.s, ContextErr(net, a.s, a.error.value)) else Done(a.s)
  }

  function AfterEhlo(cfg: Config, net: Server, s: State): (x: Step)
    ensures x.error.Some? ==> Ordinary(x.error.value)
  {
    if cfg.autoTls && !s.usingTls && "STARTTLS" in s.capabilities then
      var u := Upgrade(net, s);
      if u.error.Some? then u else FinishHelo(cfg, net, u.s, true)
    else FinishHelo(cfg, net, s, s.usingTls)
  }

  function Hello(cfg: Config, net: Server, s: State): (x: Step)
    ensures x.error.Some? ==> Ordinary(x.error.value)
  {
    var e := Execute(net, s, Ehlo, {250});
    if e.error.Some? then
      var h := Execute(net, e.s, Helo, {250});
      if h.error.Some? then
        Fail(h.s, ContextErr(net, h.s, if Code(h.error.value) == 0 then e.error.value else h.error.value))
      else Done(h.s.(capabilities := map[]))
    else AfterEhlo(cfg, net, e.s.(capabilities := e.reply.capabilities))
  }

  function Start(cfg: Config, net: Server, s: State): (x: Step)
    ensures x.error.Some? ==> Ordinary(x.error.value)
  {
    if s.started then Done(s)
    else
      var c := Connect(cfg, net, s);
      if c.error.Some? then c
      else
        var g := ReadGreeting(net, c.s);
        var h := if g.error.Some? then g else Hello(cfg, net, g.s);
        if h.error.Some? then
          var t := Terminate(h.s);
          Fail(t, ContextErr(net, t, h.error.value))
        else Done(h.s.(started := true, messageTimed := false))
  }

  // ----- one message -----

  function MailFrom(net: Server, s: State, req: Request): Step {
    if req.sender.encoded.None? then Fail(s, InvalidArgument)
    else if req.utf8 && "SMTPUTF8" !in s.capabilities then Fail(s, InvalidArgument)
    else Execute(net, s, Mail(req.sender.encoded.value, req.utf8), {250})
  }

  function RcptTo(net: Server, s: State, recipient: Address): Step {
    if recipient.encoded.None? then Fail(s, InvalidArgument)
    else Execute(net, s, Rcpt(recipient.encoded.value), RCPT_CODES)
  }

  function Recipients(net: Server, s: State, recipients: seq<Address>): Step
    decreases |recipients|
  {
    if recipients == [] then Done(s)
    else
      var x := RcptTo(net, s, recipients[0]);
      if x.error.Some? then x else Recipients(net, x.s, recipients[1..])
  }

  function WritePayload(net: Server, s: State, octets: seq<Octet>): Step {
    if s.conn.None? then Fail(s, TransportError(0, None))
    else
      var ok := net(s.answers).ok;
      var t := Record(s, Payload(s.conn.value, octets, ok));
      if ok then Done(t) else Fail(Terminate(t), TransportError(0, None))
  }

  /** DATA, the payload and the end-of-data mark. */
  function Content(net: Server, s: State, data: seq<Octet>): Step {
    var d := Execute(net, s, Data, {354});
    if d.error.Some? then d
    else
      var stuffed := SmtpData.DotStuff(SmtpData.Normalize(data));
      var p := WritePayload(net, d.s, stuffed);
      if p.error.Some? then p
      else Execute(net, p.s, EndOfData(SmtpData.Terminator(SmtpData.EndsWithCrlf(stuffed))), {250})
  }

  function Conversation(net: Server, s: State, req: Request): Step {
    var m := MailFrom(net, s, req);
    if m.error.Some? then m
    else
      var r := Recipients(net, m.s, req.recipients);
      if r.error.Some? then r else Content(net, r.s, req.data)
  }

  function Stop(net: Server, s: State): State {
    if !s.started then s else Terminate(Execute(net, s, Quit, {221}).s)
  }

  function Ping(net: Server, s: State): State {
    if !s.started then s
    else
      var x := Execute(net, s, Noop, {250});
      if x.error.Some? then Stop(net, x.s) else x.s
  }

  function CheckRestartThreshold(cfg: Config, net: Server, s: State): State {
    if !s.started || cfg.restartThreshold == 0 then s
    else if s.restartCounter + 1 < cfg.restartThreshold then s.(restartCounter := s.restartCounter + 1)
    else Stop(net, s.(restartCounter := s.restartCounter + 1)).(restartCounter := 0)
  }

  /** The ping that precedes a message on a connection that has been idle too long. */
  function PingIfIdle(net: Server, s: State): State {
    if s.messageTimed && net(s.answers).idle then Ping(net, s.(answers := s.answers + 1))
    else s.(answers := s.answers + 1)
  }

  function DoSend(cfg: Config, net: Server, s: State, req: Request): Step {
    var o := Start(cfg, net, PingIfIdle(net, s));
    if o.error.Some? then o
    else
      var c := Conversation(net, o.s, req);
      if c.error.Some? then Fail(c.s.(messageTimed := false), ContextErr(net, c.s, c.error.value))
      else Done(c.s.(messageTimed := true))
  }

  /** BaseTransport.Send: the checks before the hook, the hook, the classification of its error. */
  function BaseSend(cfg: Config, net: Server, s: State, req: Request): Step {
    var t := s.(answers := s.answers + 1);
    if net(s.answers).cancelled then Fail(t, ContextError)
    else if req.rejected.Some? then Fail(t, if req.rejected.value.BadArgument? then InvalidArgument else LogicError)
    else
      var x := DoSend(cfg, net, t, req);
      if x.error.Some? then Fail(x.s, Wrap(x.error.value)) else x
  }

  /** What Send does with the connection after a failed attempt. */
  function CleanUp(net: Server, s: State, e: Error, retry: bool): State {
    if IsInvalidArgument(e) then s
    else if retry then Terminate(s)
    else if s.started then
      var r := Execute(net, s, Rset, {250});
      if r.error.Some? then Terminate(r.s) else r.s
    else s
  }

  function Attempts(cfg: Config, net: Server, s: State, req: Request, attempt: nat): Step
    requires attempt <= cfg.retryAttempts
    decreases cfg.retryAttempts - attempt
  {
    var x := BaseSend(cfg, net, s, req);
    if x.error.None? then Done(CheckRestartThreshold(cfg, net, x.s))
    else
      var retry := IsTransient(x.error.value) && attempt < cfg.retryAttempts;
      var t := CleanUp(net, x.s, x.error.value, retry);
      if !retry then Fail(t, x.error.value)
      else if net(t.answers).cancelled then Fail(t.(answers := t.answers + 1), ContextError)
      else Attempts(cfg, net, t.(answers := t.answers + 1), req, attempt + 1)
  }

  function Send(cfg: Config, net: Server, s: State, req: Request): Step {
    var x := Attempts(cfg, net, s.(log := s.log + [SendCalled]), req, 0);
    Step(x.s.(log := x.s.log + [SendReturned(x.error.None?)]), x.error, x.reply)
  }

  datatype Call = SendCall(req: Request) | CloseCall

  /** Any program over one transport: its calls one after the other. */
  function RunCalls(cfg: Config, net: Server, s: State, calls: seq<Call>): State
    decreases |calls|
  {
    if calls == [] then s
    else
      match calls[0]
      case SendCall(req) => RunCalls(cfg, net, Send(cfg, net, s, req).s, calls[1..])
      case CloseCall => RunCalls(cfg, net, Stop(net, s), calls[1..])
  }
}
