/**
 What an SMTP client may put on the wire, stated as a monitor over the log of its connections,
 and what a log accepted by the monitor therefore satisfies. The monitor follows sections 3.3,
 4.1.1 and 4.1.4 of RFC 5321 and section 4.2 of RFC 3207 and knows nothing of how the client works,
 with one exception: while the server waits for an AUTH continuation it also lets RSET and a further
 AUTH pass, where section 4 of RFC 4954 asks for "*" first. SmtpResults.DialogueLeftOpen says exactly
 when the client makes use of that.
 */
module SmtpProtocol {
  import opened Octets

  /** What parseCapabilities makes of an EHLO reply: keyword to arguments. */
  type Capabilities = map<string, seq<string>>

  /** One complete reply: its code, and what its text means to EHLO and to AUTH CRAM-MD5. */
  datatype Reply = Reply(code: int, capabilities: Capabilities, decodableChallenge: bool)

  datatype Outcome = WriteFailed | ReadFailed | Replied(reply: Reply)

  datatype Mechanism = Plain | Login | CramMd5

  datatype Command =
    | Ehlo
    | Helo
    | StartTls
    | Auth(mechanism: Mechanism)
    | AuthContinue
    | Noop
    | Mail(sender: string, utf8: bool)
    | Rcpt(recipient: string)
    | Data
    | EndOfData(mark: seq<Octet>)
    | Rset
    | Quit

  datatype Event =
    | SendCalled
    | SendReturned(delivered: bool)
    | Dial(conn: nat, secure: bool)
    | Greeting(conn: nat, outcome: Outcome)
    | Handshake(conn: nat, established: bool)
    | Exchange(conn: nat, command: Command, outcome: Outcome)
    | Payload(conn: nat, octets: seq<Octet>, written: bool)
    | Close(conn: nat)

  datatype Phase =
    | Closed
    | Dialled                                         // the greeting has not been read yet
    | Greeted                                         // EHLO or HELO is due
    | Upgrading                                       // STARTTLS was accepted, the handshake is due
    | Open                                            // a session without a mail transaction
    | Authenticating                                  // the server waits for an AUTH continuation
    | Mailing(recipients: seq<string>, refused: bool) // MAIL was accepted
    | DataReady                                       // 354 was read
    | PayloadSent                                     // the whole payload was written
    | Lost                                            // only closing is left

  /** What is known of the message of the Send call in progress. */
  datatype Verdict = NoSend | Undecided | Deferred | Accepted | Unknown

  /**
   `conn` is the connection in use, or the one the next Dial opens. `capabilities` are those of
   the last greeting command on it. `attempts`, `floor` and `verdict` belong to the Send call in
   progress: MAIL commands so far, the least connection a further one may use, and the answer.
   */
  datatype Watch = Watch(
    conn: nat, phase: Phase, secure: bool, capabilities: Option<Capabilities>,
    attempts: nat, floor: nat, verdict: Verdict)

  /** What the user of the client allowed: AUTH without TLS, and how many attempts one Send makes. */
  datatype Policy = Policy(plaintextAuth: bool, maxAttempts: nat)

  const INITIAL := Watch(0, Closed, false, None, 0, 0, NoSend)

  predicate SessionPhase(p: Phase) {
    p.Open? || p.Authenticating? || p.Mailing?
  }

  predicate Idle(p: Phase) {
    p.Closed? || p.Open?
  }

  predicate Offers(capabilities: Option<Capabilities>, keyword: string) {
    capabilities.Some? && keyword in capabilities.value
  }

  /** When `command` may be written. */
  predicate Allowed(policy: Policy, w: Watch, command: Command) {
    match command
    case Ehlo => w.phase.Greeted?
    case Helo => w.phase.Greeted?
    case StartTls => w.phase.Open? && !w.secure && Offers(w.capabilities, "STARTTLS")
    case Auth(_) =>
      (w.phase.Open? || w.phase.Authenticating?) && (w.secure || policy.plaintextAuth) && Offers(w.capabilities, "AUTH")
    case AuthContinue => w.phase.Authenticating? && (w.secure || policy.plaintextAuth)
    case Noop => w.phase.Open?
    case Mail(_, utf8) =>
      && w.phase.Open? && (utf8 ==> Offers(w.capabilities, "SMTPUTF8"))
      && (w.verdict.Undecided? || w.verdict.Deferred?) && w.attempts < policy.maxAttempts && w.conn >= w.floor
    case Rcpt(_) => w.phase.Mailing? && !w.phase.refused
    case Data => w.phase.Mailing? && !w.phase.refused && w.phase.recipients != []
    case EndOfData(_) => w.phase.PayloadSent?
    case Rset => SessionPhase(w.phase)
    case Quit => SessionPhase(w.phase)
  }

  predicate Transient(code: int) {
    400 <= code < 500
  }

  /** Where an answered command leads. An answer that refuses the message keeps the transaction open. */
  function Answered(w: Watch, command: Command, reply: Reply): Watch {
    match command
    case Ehlo => if reply.code == 250 then w.(phase := Open, capabilities := Some(reply.capabilities)) else w
    case Helo => if reply.code == 250 then w.(phase := Open, capabilities := Some(map[])) else w
    case StartTls => if reply.code == 220 then w.(phase := Upgrading) else w
    case Auth(_) => w.(phase := if reply.code == 334 then Authenticating else Open)
    case AuthContinue => w.(phase := if reply.code == 334 then Authenticating else Open)
    case Noop => w
    case Mail(_, _) =>
      w.(phase := if reply.code == 250 then Mailing([], false) else Open,
         attempts := w.attempts + 1, floor := w.conn + 1, verdict := Undecided)
    case Rcpt(recipient) =>
      if !w.phase.Mailing? then w
      else if reply.code == 250 || reply.code == 251 || reply.code == 252 then w.(phase := Mailing(w.phase.recipients + [recipient], false))
      else w.(phase := Mailing(w.phase.recipients, true))
    case Data =>
      if !w.phase.Mailing? then w
      else w.(phase := if reply.code == 354 then DataReady else Mailing(w.phase.recipients, true))
    case EndOfData(_) =>
      if reply.code == 250 then w.(phase := Open, verdict := Accepted)
      else w.(phase := Mailing([], true), verdict := if Transient(reply.code) then Deferred else Unknown)
    case Rset =>
      if reply.code == 250 then w.(phase := Open)
      else if w.phase.Mailing? then w.(phase := Mailing(w.phase.recipients, true))
      else w
    case Quit => w.(phase := Lost)
  }

  /** A command that was written, perhaps in part, and never answered. */
  function Unanswered(w: Watch, command: Command): Watch {
    match command
    case Mail(_, _) => w.(phase := Lost, attempts := w.attempts + 1, floor := w.conn + 1, verdict := Undecided)
    case EndOfData(_) => w.(phase := Lost, verdict := Unknown)
    case _ => w.(phase := Lost)
  }

  /** One event seen by the monitor; None says that the event was not allowed. */
  function Next(policy: Policy, w: Watch, e: Event): Option<Watch> {
    match e
    case SendCalled =>
      if w.verdict.NoSend? && Idle(w.phase) then Some(w.(attempts := 0, floor := 0, verdict := Undecided)) else None
    case SendReturned(delivered) =>
      if !w.verdict.NoSend? && Idle(w.phase) && delivered == w.verdict.Accepted?
      then Some(w.(verdict := NoSend)) else None
    case Dial(conn, secure) =>
      if w.phase.Closed? && conn == w.conn
      then Some(w.(phase := Dialled, secure := secure, capabilities := None)) else None
    case Greeting(conn, outcome) =>
      if w.phase.Dialled? && conn == w.conn
      then Some(w.(phase := if outcome.Replied? && outcome.reply.code == 220 then Greeted else Lost)) else None
    case Handshake(conn, established) =>
      if w.phase.Upgrading? && conn == w.conn
      then Some(if established then w.(phase := Greeted, secure := true, capabilities := None) else w.(phase := Lost))
      else None
    case Exchange(conn, command, outcome) =>
      if conn == w.conn && Allowed(policy, w, command)
      then Some(if outcome.Replied? then Answered(w, command, outcome.reply) else Unanswered(w, command))
      else None
    case Payload(conn, _, written) =>
      if w.phase.DataReady? && conn == w.conn
      then Some(w.(phase := if written then PayloadSent else Lost)) else None
    case Close(conn) =>
      if !w.phase.Closed? && conn == w.conn
      then Some(w.(conn := w.conn + 1, phase := Closed, secure := false, capabilities := None)) else None
  }

  /** The monitor after a whole log, None when some event of it was not allowed. */
  function Run(policy: Policy, log: seq<Event>): Option<Watch>
    decreases |log|
  {
    if log == [] then Some(INITIAL)
    else
      var before := Run(policy, log[..|log| - 1]);
      if before.None? then None else Next(policy, before.value, log[|log| - 1])
  }

  predicate Legal(policy: Policy, log: seq<Event>) {
    Run(policy, log).Some?
  }

  lemma RunSnoc(policy: Policy, log: seq<Event>, e: Event)
    requires Legal(policy, log)
    ensures Run(policy, log + [e]) == Next(policy, Run(policy, log).value, e)
  {
    assert (log + [e])[..|log|] == log;
  }

  // ----- what legality means, event by event -----

  /** Every event of a legal log was allowed by the monitor as it stood before that event. */
  lemma {:induction false} LegalAt(policy: Policy, log: seq<Event>, k: nat)
    requires Legal(policy, log) && k < |log|
    ensures Legal(policy, log[..k]) && Legal(policy, log[..k + 1])
    ensures Run(policy, log[..k + 1]) == Next(policy, Run(policy, log[..k]).value, log[k])
    decreases |log|
  {
    if k == |log| - 1 {
      assert log[..k + 1] == log;
    } else {
      var shorter := log[..|log| - 1];
      LegalAt(policy, shorter, k);
      assert shorter[..k] == log[..k] && shorter[..k + 1] == log[..k + 1];
    }
  }

  predicate AcceptedMail(e: Event, conn: nat) {
    e.Exchange? && e.conn == conn && e.command.Mail? && e.outcome.Replied? && e.outcome.reply.code == 250
  }

  predicate AcceptedRcpt(e: Event, conn: nat) {
    e.Exchange? && e.conn == conn && e.command.Rcpt? && e.outcome.Replied? && (e.outcome.reply.code == 250 || e.outcome.reply.code == 251 || e.outcome.reply.code == 252)
  }

  /** Log positions m < k such that MAIL was accepted at m and only accepted RCPTs lie between. */
  predicate OpenTransaction(log: seq<Event>, m: nat, k: nat, conn: nat) {
    m < k <= |log| && AcceptedMail(log[m], conn) && (forall i :: m < i < k ==> AcceptedRcpt(log[i], conn))
  }

  function RecipientsOf(events: seq<Event>): seq<string> {
    if events == [] then []
    else
      var last := events[|events| - 1];
      RecipientsOf(events[..|events| - 1]) + (if last.Exchange? && last.command.Rcpt? then [last.command.recipient] else [])
  }

  predicate InMail(w: Watch) {
    w.phase.Mailing? && !w.phase.refused
  }

  lemma MailingStep(policy: Policy, w: Watch, e: Event, next: Watch)
    requires Next(policy, w, e) == Some(next) && InMail(next)
    ensures next.conn == w.conn
    ensures (AcceptedMail(e, w.conn) && next.phase.recipients == [])
         || (AcceptedRcpt(e, w.conn) && InMail(w) && next.phase.recipients == w.phase.recipients + [e.command.recipient])
  {
  }

  /** A monitor in an unrefused transaction has just seen MAIL and then nothing but accepted RCPTs. */
  lemma {:induction false} MailingMeans(policy: Policy, log: seq<Event>) returns (m: nat)
    requires Legal(policy, log) && InMail(Run(policy, log).value)
    ensures OpenTransaction(log, m, |log|, Run(policy, log).value.conn)
    ensures RecipientsOf(log[m + 1..]) == Run(policy, log).value.phase.recipients
    decreases |log|
  {
    var k := |log| - 1;
    var before := log[..k];
    var w, next := Run(policy, before).value, Run(policy, log).value;
    assert Next(policy, w, log[k]) == Some(next);
    MailingStep(policy, w, log[k], next);
    if AcceptedMail(log[k], w.conn) {
      m := k;
    } else {
      m := MailingMeans(policy, before);
      RecipientsSnoc(before, log, m);
    }
  }

  lemma RecipientsSnoc(before: seq<Event>, log: seq<Event>, m: nat)
    requires log != [] && before == log[..|log| - 1] && m < |before|
    ensures log[m + 1..] != []
    ensures RecipientsOf(log[m + 1..])
         == RecipientsOf(before[m + 1..])
          + (if log[|log| - 1].Exchange? && log[|log| - 1].command.Rcpt? then [log[|log| - 1].command.recipient] else [])
  {
    var tail := log[m + 1..];
    assert tail[..|tail| - 1] == before[m + 1..];
  }

  /** DATA is written only right after an accepted MAIL and its accepted RCPTs, of which there is at least one. */
  lemma DataFollowsAcceptedRecipients(policy: Policy, log: seq<Event>, k: nat) returns (m: nat)
    requires Legal(policy, log) && k < |log| && log[k].Exchange? && log[k].command.Data?
    ensures OpenTransaction(log, m, k, log[k].conn) && RecipientsOf(log[m + 1..k]) != []
  {
    LegalAt(policy, log, k);
    var before := log[..k];
    m := MailingMeans(policy, before);
    assert before[m + 1..] == log[m + 1..k];
    assert forall i :: 0 <= i < k ==> before[i] == log[i];
  }

  predicate PayloadInvitation(e: Event, conn: nat) {
    e.Exchange? && e.conn == conn && e.command.Data? && e.outcome.Replied? && e.outcome.reply.code == 354
  }

  predicate IsPayload(e: Event, conn: nat) {
    e.Payload? && e.conn == conn && e.written
  }

  /** Only the 354 reply and only the whole payload lead to the two phases of the DATA dialogue. */
  lemma DataPhaseMeans(policy: Policy, log: seq<Event>)
    requires Legal(policy, log)
    ensures Run(policy, log).value.phase.DataReady? ==> log != [] && PayloadInvitation(log[|log| - 1], Run(policy, log).value.conn)
    ensures Run(policy, log).value.phase.PayloadSent? ==> log != [] && IsPayload(log[|log| - 1], Run(policy, log).value.conn)
  {
  }

  lemma DataPhaseNeeded(policy: Policy, w: Watch, e: Event)
    requires Next(policy, w, e).Some?
    ensures e.Payload? ==> w.phase.DataReady? && w.conn == e.conn
    ensures e.Exchange? && e.command.EndOfData? ==> w.phase.PayloadSent? && w.conn == e.conn
  {
  }

  /** The payload follows the 354 reply at once, and the end-of-data mark follows the whole payload at once. */
  lemma PayloadFollows354(policy: Policy, log: seq<Event>, k: nat)
    requires Legal(policy, log) && k < |log|
    ensures log[k].Payload? ==> 0 < k && PayloadInvitation(log[k - 1], log[k].conn)
    ensures log[k].Exchange? && log[k].command.EndOfData? ==> 0 < k && IsPayload(log[k - 1], log[k].conn)
  {
    var before := log[..k];
    assert Legal(policy, before) && Next(policy, Run(policy, before).value, log[k]).Some? by {
      LegalAt(policy, log, k);
    }
    DataPhaseNeeded(policy, Run(policy, before).value, log[k]);
    DataPhaseMeans(policy, before);
    assert 0 < k ==> before[k - 1] == log[k - 1];
  }

  /** After STARTTLS succeeded the client greets again before anything else, or gives the connection up. */
  lemma GreetsAgainAfterTls(policy: Policy, log: seq<Event>, k: nat)
    requires Legal(policy, log) && k + 1 < |log| && log[k].Handshake? && log[k].established
    ensures log[k + 1] == Close(log[k].conn)
         || (log[k + 1].Exchange? && log[k + 1].conn == log[k].conn && (log[k + 1].command.Ehlo? || log[k + 1].command.Helo?))
  {
    LegalAt(policy, log, k);
    LegalAt(policy, log, k + 1);
  }

  predicate Failed(e: Event) {
    || (e.Exchange? && !e.outcome.Replied?)
    || (e.Payload? && !e.written)
    || (e.Greeting? && !e.outcome.Replied?)
    || (e.Handshake? && !e.established)
  }

  lemma FailureStep(policy: Policy, w: Watch, e: Event)
    requires Next(policy, w, e).Some? && Failed(e)
    ensures Next(policy, w, e).value.phase.Lost? && Next(policy, w, e).value.conn == w.conn == e.conn
  {
  }

  /** A connection on which reading or writing failed is closed next: nothing more is written on it. */
  lemma FailureClosesConnection(policy: Policy, log: seq<Event>, k: nat)
    requires Legal(policy, log) && k + 1 < |log| && Failed(log[k])
    ensures log[k + 1] == Close(log[k].conn)
  {
    LegalAt(policy, log, k);
    FailureStep(policy, Run(policy, log[..k]).value, log[k]);
    LegalAt(policy, log, k + 1);
  }

  predicate OnWire(e: Event) {
    !e.SendCalled? && !e.SendReturned?
  }

  lemma ConnectionStep(policy: Policy, w: Watch, e: Event)
    requires Next(policy, w, e).Some?
    ensures w.conn <= Next(policy, w, e).value.conn
    ensures OnWire(e) ==> e.conn == w.conn
    ensures e.Close? ==> w.conn < Next(policy, w, e).value.conn
  {
  }

  lemma LegalPrefix(policy: Policy, log: seq<Event>, k: nat)
    requires Legal(policy, log) && k <= |log|
    ensures Legal(policy, log[..k])
  {
    if k < |log| {
      LegalAt(policy, log, k);
    } else {
      assert log[..k] == log;
    }
  }

  lemma {:induction false} ConnectionsGrow(policy: Policy, log: seq<Event>, i: nat, j: nat)
    requires Legal(policy, log) && i <= j <= |log|
    ensures Legal(policy, log[..i]) && Legal(policy, log[..j])
    ensures Run(policy, log[..i]).value.conn <= Run(policy, log[..j]).value.conn
    decreases j - i
  {
    LegalPrefix(policy, log, i);
    if i < j {
      LegalAt(policy, log, j - 1);
      ConnectionStep(policy, Run(policy, log[..j - 1]).value, log[j - 1]);
      ConnectionsGrow(policy, log, i, j - 1);
    }
  }

  /** A closed connection never comes back. */
  lemma ClosedForGood(policy: Policy, log: seq<Event>, i: nat, j: nat)
    requires Legal(policy, log) && i < j < |log| && log[i].Close? && OnWire(log[j])
    ensures log[j].conn > log[i].conn
  {
    LegalAt(policy, log, i);
    ConnectionStep(policy, Run(policy, log[..i]).value, log[i]);
    LegalAt(policy, log, j);
    ConnectionStep(policy, Run(policy, log[..j]).value, log[j]);
    ConnectionsGrow(policy, log, i + 1, j);
  }

  // ----- transactions -----

  predicate InTransaction(p: Phase) {
    p.Mailing? || p.DataReady? || p.PayloadSent? || p.Lost?
  }

  /** The events that end the mail transaction of `conn`. */
  predicate Ends(e: Event, conn: nat) {
    || e == Close(conn)
    || (e.Exchange? && e.conn == conn && (e.command.EndOfData? || e.command.Rset?) && e.outcome.Replied? && e.outcome.reply.code == 250)
  }

  lemma EntersTransaction(policy: Policy, w: Watch, e: Event)
    requires Next(policy, w, e).Some? && e.Exchange? && AcceptedMail(e, e.conn)
    ensures InTransaction(Next(policy, w, e).value.phase) && Next(policy, w, e).value.conn == e.conn
  {
  }

  lemma StaysInTransaction(policy: Policy, w: Watch, e: Event)
    requires InTransaction(w.phase) && Next(policy, w, e).Some?
    ensures Ends(e, w.conn) || (InTransaction(Next(policy, w, e).value.phase) && Next(policy, w, e).value.conn == w.conn)
  {
  }

  /** Some event strictly between positions m and k ends the transaction of `conn`. */
  ghost predicate EndedBetween(log: seq<Event>, m: nat, k: nat, conn: nat)
    requires k <= |log|
  {
    exists i :: m < i < k && Ends(log[i], conn)
  }

  /** An accepted MAIL leaves its transaction open until an event ends it. */
  lemma {:induction false} TransactionFate(policy: Policy, log: seq<Event>, m: nat, k: nat)
    requires Legal(policy, log) && m < k <= |log| && log[m].Exchange? && AcceptedMail(log[m], log[m].conn)
    ensures Legal(policy, log[..k])
    ensures EndedBetween(log, m, k, log[m].conn)
         || (Run(policy, log[..k]).value.conn == log[m].conn && InTransaction(Run(policy, log[..k]).value.phase))
    decreases k - m
  {
    LegalAt(policy, log, k - 1);
    var w := Run(policy, log[..k - 1]).value;
    hide Run, Legal, Next, InTransaction, Ends, AcceptedMail;
    if k == m + 1 {
      EntersTransaction(policy, w, log[m]);
    } else {
      TransactionFate(policy, log, m, k - 1);
      if !EndedBetween(log, m, k - 1, log[m].conn) {
        StaysInTransaction(policy, w, log[k - 1]);
      }
    }
  }

  /** MAIL is never written on a connection whose previous accepted MAIL has not been ended. */
  lemma NoMailInsideTransaction(policy: Policy, log: seq<Event>, m: nat, k: nat)
    requires Legal(policy, log) && m < k < |log|
    requires log[m].Exchange? && AcceptedMail(log[m], log[m].conn)
    requires log[k].Exchange? && log[k].command.Mail? && log[k].conn == log[m].conn
    ensures EndedBetween(log, m, k, log[m].conn)
  {
    LegalAt(policy, log, k);
    TransactionFate(policy, log, m, k);
  }

  /** When Send returns, with or without success, every transaction ever opened has been reset, completed or cut. */
  lemma NothingOpenWhenSendReturns(policy: Policy, log: seq<Event>, m: nat, k: nat)
    requires Legal(policy, log) && m < k < |log|
    requires log[m].Exchange? && AcceptedMail(log[m], log[m].conn) && log[k].SendReturned?
    ensures EndedBetween(log, m, k, log[m].conn)
  {
    LegalAt(policy, log, k);
    TransactionFate(policy, log, m, k);
  }

  // ----- credentials -----

  predicate Secures(e: Event, conn: nat) {
    e == Dial(conn, true) || e == Handshake(conn, true)
  }

  lemma {:induction false} SecureMeans(policy: Policy, log: seq<Event>)
    requires Legal(policy, log) && Run(policy, log).value.secure
    ensures exists i :: 0 <= i < |log| && Secures(log[i], Run(policy, log).value.conn)
    decreases |log|
  {
    var k := |log| - 1;
    var before := log[..k];
    if !Secures(log[k], Run(policy, log).value.conn) {
      SecureMeans(policy, before);
      var i :| 0 <= i < |before| && Secures(before[i], Run(policy, before).value.conn);
      assert log[i] == before[i];
    }
  }

  /** AUTH commands and credentials travel only under TLS, unless plaintext AUTH was allowed. */
  lemma CredentialsAreProtected(policy: Policy, log: seq<Event>, k: nat)
    requires Legal(policy, log) && k < |log| && log[k].Exchange? && (log[k].command.Auth? || log[k].command.AuthContinue?)
    ensures policy.plaintextAuth || exists i :: 0 <= i < k && Secures(log[i], log[k].conn)
  {
    LegalAt(policy, log, k);
    if !policy.plaintextAuth {
      var before := log[..k];
      SecureMeans(policy, before);
      var i :| 0 <= i < |before| && Secures(before[i], log[k].conn);
      assert log[i] == before[i];
    }
  }

  // ----- one Send call -----

  /** Position `a` is a call of Send that has not returned before position `k`. */
  predicate DuringSend(log: seq<Event>, a: nat, k: nat) {
    a < k <= |log| && log[a].SendCalled? && (forall i :: a < i < k ==> OnWire(log[i]))
  }

  predicate Delivery(e: Event) {
    e.Exchange? && e.command.EndOfData? && e.outcome.Replied? && e.outcome.reply.code == 250
  }

  predicate MailCommand(e: Event) {
    e.Exchange? && e.command.Mail?
  }

  function Deliveries(log: seq<Event>, a: nat, k: nat): nat
    requires a <= k <= |log|
  {
    if a == k then 0 else Deliveries(log, a, k - 1) + (if Delivery(log[k - 1]) then 1 else 0)
  }

  function MailCommands(log: seq<Event>, a: nat, k: nat): nat
    requires a <= k <= |log|
  {
    if a == k then 0 else MailCommands(log, a, k - 1) + (if MailCommand(log[k - 1]) then 1 else 0)
  }

  predicate Counted(w: Watch, maxAttempts: nat, deliveries: nat, mails: nat) {
    && !w.verdict.NoSend?
    && deliveries == (if w.verdict.Accepted? then 1 else 0)
    && mails == w.attempts <= maxAttempts
    && (w.phase.PayloadSent? || w.phase.DataReady? || (w.phase.Mailing? && !w.phase.refused) ==> w.verdict.Undecided?)
  }

  lemma CountStep(policy: Policy, w: Watch, e: Event, deliveries: nat, mails: nat)
    requires Counted(w, policy.maxAttempts, deliveries, mails) && OnWire(e) && Next(policy, w, e).Some?
    ensures Counted(Next(policy, w, e).value, policy.maxAttempts,
                    deliveries + (if Delivery(e) then 1 else 0), mails + (if MailCommand(e) then 1 else 0))
  {
  }

  lemma {:induction false} CountsDuringSend(policy: Policy, log: seq<Event>, a: nat, k: nat)
    requires Legal(policy, log) && DuringSend(log, a, k)
    ensures Legal(policy, log[..k])
    ensures Counted(Run(policy, log[..k]).value, policy.maxAttempts, Deliveries(log, a, k), MailCommands(log, a, k))
    decreases k - a
  {
    LegalAt(policy, log, k - 1);
    if k == a + 1 {
      assert Deliveries(log, a, k) == 0 && MailCommands(log, a, k) == 0;
    } else {
      CountsDuringSend(policy, log, a, k - 1);
      CountStep(policy, Run(policy, log[..k - 1]).value, log[k - 1], Deliveries(log, a, k - 1), MailCommands(log, a, k - 1));
    }
  }

  /**
   Exactly-once accounting: during one Send the server acknowledges the end-of-data mark at most
   once, exactly once iff Send reports delivery, and at most `maxAttempts` MAIL commands are written.
   */
  lemma DeliveredExactlyWhenAcknowledged(policy: Policy, log: seq<Event>, a: nat, k: nat)
    requires Legal(policy, log) && DuringSend(log, a, k) && k < |log| && log[k].SendReturned?
    ensures Deliveries(log, a, k) == (if log[k].delivered then 1 else 0)
    ensures MailCommands(log, a, k) <= policy.maxAttempts
  {
    LegalAt(policy, log, k);
    CountsDuringSend(policy, log, a, k);
  }

  /** An end-of-data mark that was not answered with a 4xx reply. */
  predicate Undeferred(e: Event) {
    e.Exchange? && e.command.EndOfData? && !(e.outcome.Replied? && Transient(e.outcome.reply.code))
  }

  /** What a later MAIL of the same Send needs to know of an event in its past. */
  predicate Settled(w: Watch, e: Event) {
    && (Undeferred(e) ==> w.verdict.Accepted? || w.verdict.Unknown?)
    && (MailCommand(e) ==> w.floor > e.conn)
  }

  lemma SettledAtOnce(policy: Policy, w: Watch, e: Event)
    requires OnWire(e) && Next(policy, w, e).Some?
    ensures Settled(Next(policy, w, e).value, e)
  {
  }

  lemma SettledStep(policy: Policy, w: Watch, e: Event, next: Event)
    requires Settled(w, e) && OnWire(next) && Next(policy, w, next).Some?
    requires w.phase.PayloadSent? ==> w.verdict.Undecided?
    ensures Settled(Next(policy, w, next).value, e)
  {
  }

  lemma UndecidedBeforeMark(policy: Policy, log: seq<Event>, a: nat, k: nat)
    requires Legal(policy, log) && DuringSend(log, a, k)
    ensures Legal(policy, log[..k])
    ensures Run(policy, log[..k]).value.phase.PayloadSent? ==> Run(policy, log[..k]).value.verdict.Undecided?
  {
    CountsDuringSend(policy, log, a, k);
  }

  lemma {:induction false} StaysSettled(policy: Policy, log: seq<Event>, a: nat, i: nat, k: nat)
    requires Legal(policy, log) && DuringSend(log, a, k) && a < i < k
    ensures Legal(policy, log[..k]) && Settled(Run(policy, log[..k]).value, log[i])
    decreases k - i
  {
    LegalPrefix(policy, log, k - 1);
    LegalPrefix(policy, log, k);
    var w, next := Run(policy, log[..k - 1]).value, Run(policy, log[..k]).value;
    assert Next(policy, w, log[k - 1]) == Some(next) by {
      LegalAt(policy, log, k - 1);
    }
    assert OnWire(log[k - 1]);
    if i == k - 1 {
      SettledAtOnce(policy, w, log[i]);
    } else {
      assert w.phase.PayloadSent? ==> w.verdict.Undecided? by {
        UndecidedBeforeMark(policy, log, a, k - 1);
      }
      assert Settled(w, log[i]) by {
        StaysSettled(policy, log, a, i, k - 1);
      }
      SettledStep(policy, w, log[i], log[k - 1]);
    }
  }

  /**
   Within one Send, MAIL is written again only on a later connection, and after an end-of-data
   mark only if the server answered that mark with a 4xx reply: an unanswered mark ends the Send.
   */
  lemma RetriesOnlyOnRefusal(policy: Policy, log: seq<Event>, a: nat, i: nat, k: nat)
    requires Legal(policy, log) && DuringSend(log, a, k) && a < i < k < |log| && MailCommand(log[k])
    ensures !Undeferred(log[i])
    ensures MailCommand(log[i]) ==> log[i].conn < log[k].conn
  {
    LegalAt(policy, log, k);
    StaysSettled(policy, log, a, i, k);
  }
}
