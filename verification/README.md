# go-mailer, verified

A Dafny model of the parts of go-mailer in which state, protocols and text formats meet, and proofs of what
they promise. `dafny verify dfyconfig.toml` checks the whole project with Dafny 4.11.

## What is modelled

**The SMTP client** (`transport/smtp/smtp.go`). `SmtpTransport.dfy` is the transport as a class whose methods
update its fields; each method is proved to do what a function of `SmtpClient.dfy` says. The server and the
network are one arbitrary answer per operation (`nat -> Io`): any reply, a failed write, a cut or malformed
reply, a context that is over. Every event on a connection is logged. `SmtpProtocol.dfy` is independent of the
client: a monitor written from sections 3.3, 4.1.1 and 4.1.4 of RFC 5321 and section 4.2 of RFC 3207 that
says which event may follow which log, and lemmas that turn "the monitor accepts the log" into statements about
positions in it. `SmtpSafety.dfy` proves operation by operation that the client keeps to it, `SmtpEnvelopes.dfy` that
every program of serialised calls against every server leaves such a log, and for which messages exactly.
`SmtpResults.dfy` adds what a successful Send has put on the wire and where other promises of the client stop,
`SmtpRetries.dfy` which attempts a Send makes, `SmtpSessions.dfy` what opening a session has put on the wire, TLS and
AUTH above all, `SmtpErrors.dfy` which errors are answered, `SmtpOverlap.dfy` what becomes of transactions when calls overlap.
`SmtpData.dfy` is the DATA encoder with the receiver of section 4.5.2 of RFC 5321, `SmtpReply.dfy` the reply reader
on octets, `SmtpWire.dfy` the client on connections that are fed by it. `SmtpRestart.dfy` has the restart threshold
under concurrent senders, `SmtpCount.dfy` on whole runs of the client.

**The composites** (`transport/roundrobin.go`, `transport/failover.go`). `Rotation.dfy` has the cyclic scan, the
dead marks and the loop of Send as functions over an arbitrary monotone clock and arbitrary outcomes;
`RoundRobin.dfy` the two classes; `RotationSafety.dfy` what every run keeps; `RotationTermination.dfy` how often a
Send attempts, when it ends and where a run begins; `RotationResults.dfy` the simple specification of one Send, and fairness.

**Headers** (`mime.go`). `HeaderFolding.dfy` and `HeaderReading.dfy` fold header lines and read them back by
section 2.2.3 of RFC 5322, `HeaderLayout.dfy` says where lines are broken; `EncodedWords.dfy` has RFC 2047 encoded-words and their decoder, `Base64.dfy`
section 4 of RFC 4648, `ParameterContinuations.dfy` the RFC 2231 continuations and their reader, and
`ParameterHeaders.dfy` both together with folding.

**Bodies** (`message.go`). `MimeTree.dfy` has MIME bodies as trees, their printed lines and the reader of section
5.1.1 of RFC 2046; `MimeTreeReading.dfy` proves that the reader undoes the printer; `MessageBody.dfy` is the
writer, step by step; `MessageReading.dfy` what a reader recovers from a message.

**Composite DSNs** (`transport/registry.go`): `CompositeDsn.dfy` has the parser, `CompositeDsnReading.dfy` printing and
reading back, `CompositeDsnGrammar.dfy` the texts that are accepted. **The throttle** (`transport.go`) is in `Throttle.dfy`.

Octets are a newtype where the source has `[]byte`; where it has Go strings the model has strings of one character
per octet. 64-bit wrap-around is written out where the source can meet it (retry periods).

## Promises that hold only in part

Most of these are proved both ways, as an equivalence; each has a witness for the failing side.

- Whatever the server does, Send keeps the order of commands and leaves no transaction open exactly when the message
  is harmless: it is turned away before MAIL, or it has recipients and all of them have a wire form. A recipient
  whose domain cannot be encoded fails after MAIL was accepted, is classed as an invalid argument, and RSET is
  skipped; an explicit envelope without recipients is not refused, and DATA follows MAIL directly
  (`CleanExactlyWhenHarmless`). "Turned away" includes a UTF-8 message where no session with SMTPUTF8 can be met.
- Transactions are kept apart for calls that do not overlap (`EveryRunIsLegal`). Overlapping calls on one transport
  can meet: the mutex is free between a failed doSend and its RSET (`OverlapMeetsOpenTransaction`). They never do exactly
  if no doSend begins while an earlier call's clean-up is due (`NeverMeetsExactlyWhenOrdered`).
- A started session is certain to use TLS exactly when TLS is implicit: `RequireTLS` is not consulted after the
  HELO fallback (`TlsCertainExactlyWhenImplicit`, `HeloSession`).
- An AUTH dialogue is left open exactly if the server asks for more than the mechanism has to say; the client then
  writes RSET where section 4 of RFC 4954 asks for "*" (`DialogueLeftOpen`).
- A folded header line keeps the 998-octet limit exactly when its value is not empty or its name has at most 996
  octets (`HardLimitExactly`).
- Under a name every plain, single-spaced, trimmed printable value can be written exactly if the name has at most 95
  octets (`NinetyFiveExactly`); a value with an overlong token, which is encoded, exactly if it has at most 924
  (`OverlongHeaderFolds`).
- The printed form of a composite DSN reads back exactly when a retry period stands at most behind the outermost
  group. docs/reference/dsn-options.md lets groups nest and gives every group the suffix; the code reads
  a nested period up to the end of the text and refuses it (`PrintThenParse`). The same page gives `0` as the
  default; the composite then selects 60 seconds. The parser also takes any character as a
  separator behind a nested group, except a parenthesis and a "?" that begins a retry period (`AnySeparator`), and "&"
  behind a nested retry period; `AcceptsExactlyTheGrammar` has all accepted texts.
- "No more than maxPerSecond messages per second" (transport.go:145-146) is true of a whole rate exactly
  when it divides 1,000,000,000: otherwise the interval is rounded down and a steady sender gets one more message
  through (`RateIsKeptExactly`).
- Send of a composite has no attempt counter. If the clock advances by at most D meanwhile it ends, within
  1 + D / (period + 1) attempts for each transport (`SendEnds`); each transport is attempted at most once, for all
  such clocks, exactly if D is within the retry period (`OnceEachExactly`); without any bound it need not end, for
  any pool (`SendNeedNotEnd`).

## Model

| member | source | states |
|---|---|---|
| SmtpData.NormalizeCrlf | transport/smtp/smtp.go:1092-1108 | the index loop computes the normal form, in which no CR and no LF stands alone |
| SmtpData.NormalizeLeavesNoBareLineEnding | transport/smtp/smtp.go:1091-1108 | for every octets the normal form has no bare CR or LF and does not begin with LF |
| SmtpData.NormalizeIsIdempotent | transport/smtp/smtp.go:1091-1108 | normalising twice is normalising once |
| SmtpData.NormalizeFixesClean | transport/smtp/smtp.go:1091-1108 | data without bare line endings is left as it is |
| SmtpData.NormalizeKeepsLines | transport/smtp/smtp.go:1091-1108 | the normal form joins by CRLF exactly the lines that CR, LF and CRLF separate in the data |
| SmtpData.DotStuffing | transport/smtp/smtp.go:1112-1124 | the loop doubles exactly the leading dots of lines behind a CRLF and the first octet's |
| SmtpData.StuffKeepsEnding | transport/smtp/smtp.go:382-408 | stuffed data ends with CRLF exactly when the data did, so the terminator may be chosen from the stuffed form |
| SmtpData.WriteData | transport/smtp/smtp.go:353-365 | payload and terminator together are a stream from which the receiver recovers the normalised message, whatever follows it |
| SmtpData.ReceiverRecoversMessage | transport/smtp/smtp.go:353-395 | a receiver of section 4.5.2 of RFC 5321 stops exactly at the end of the stream and recovers the normal form, with one CRLF added if it lacked one |
| SmtpData.ReceiverRecoversClean | transport/smtp/smtp.go:382-395 | the same for every data already normalised, by lines |
| SmtpData.PrefixIsIncomplete | transport/smtp/smtp.go:353-365 | no shorter beginning of the stream is a complete message to the receiver |
| SmtpData.EndsWithMark | transport/smtp/smtp.go:382-394 | whatever the message, what is written ends with CRLF, a dot and CRLF |
| SmtpProtocol.LegalAt | transport/smtp/smtp.go:249-378 | every event of an accepted log was allowed when it happened, so statements about the monitor are statements about the log |
| SmtpProtocol.MailingMeans | transport/smtp/smtp.go:330-340 | a monitor inside a transaction saw MAIL accepted and since then only accepted RCPTs, and knows their recipients in order |
| SmtpProtocol.DataFollowsAcceptedRecipients | transport/smtp/smtp.go:330-347 | DATA is written only after an accepted MAIL and its accepted RCPTs, at least one, with nothing between |
| SmtpProtocol.PayloadFollows354 | transport/smtp/smtp.go:347-369 | payload octets follow a 354 reply at once, and the end-of-data mark follows the whole payload at once |
| SmtpProtocol.GreetsAgainAfterTls | transport/smtp/smtp.go:511-522 | after the TLS handshake the next event on the wire is a new greeting or the close of the connection |
| SmtpProtocol.FailureClosesConnection | transport/smtp/smtp.go:818-843 | after a failed write or read the connection is closed before anything else |
| SmtpProtocol.ConnectionsGrow | transport/smtp/smtp.go:412-438 | connection numbers never go back along an accepted log |
| SmtpProtocol.ClosedForGood | transport/smtp/smtp.go:712-720 | nothing is ever written on a connection that was closed |
| SmtpProtocol.TransactionFate | transport/smtp/smtp.go:249-281 | an accepted MAIL leaves its transaction open until one of the events that end it |
| SmtpProtocol.NoMailInsideTransaction | transport/smtp/smtp.go:249-281 | MAIL is never written on a connection whose previous transaction has not been ended |
| SmtpProtocol.NothingOpenWhenSendReturns | transport/smtp/smtp.go:249-281 | when Send returns, with or without success, every transaction ever opened was completed, reset or cut |
| SmtpProtocol.SecureMeans | transport/smtp/smtp.go:441-474 | a connection counted as secure was dialled under TLS or completed a TLS handshake |
| SmtpProtocol.CredentialsAreProtected | transport/smtp/smtp.go:526-538 | AUTH commands and credentials are written only on a TLS connection, unless plaintext authentication was allowed |
| SmtpProtocol.CountsDuringSend | transport/smtp/smtp.go:249-281 | at any moment of a Send the monitor's account equals the numbers of final 250 replies and of MAIL commands in the log since the call |
| SmtpProtocol.DeliveredExactlyWhenAcknowledged | transport/smtp/smtp.go:249-281 | a Send saw exactly one final 250 if it reports success and none if it does not, and wrote at most retryAttempts + 1 MAIL commands |
| SmtpProtocol.StaysSettled | transport/smtp/smtp.go:249-286 | what an event settles about the Send in progress stays settled until the Send returns |
| SmtpProtocol.RetriesOnlyOnRefusal | transport/smtp/smtp.go:249-286 | a further MAIL of the same Send is written only if every end-of-data mark before it was answered with a 4xx reply, and never on the connection of an earlier attempt |
| SmtpSafety.TerminateTracks | transport/smtp/smtp.go:712-720 | terminating logs the close and forgets the session |
| SmtpSafety.ExecuteTracks | transport/smtp/smtp.go:818-843 | one command against any answer: either its reply was read and its code was expected, or the connection is gone, or a complete unexpected reply was read |
| SmtpSafety.TryMechanismsTracks | transport/smtp/smtp.go:568-614 | the loop over the authenticators keeps to AUTH, continuations and RSET, even if the connection dies midway, and never revives it |
| SmtpSafety.StartTracks | transport/smtp/smtp.go:412-438 | started exactly if no error: then the capabilities are those of the connection's latest EHLO, or none after HELO; RequireTLS holds for EHLO sessions, implicit TLS for all |
| SmtpSafety.RecipientsTrack | transport/smtp/smtp.go:334-340 | each recipient is offered once in envelope order, and the first that fails ends the list |
| SmtpSafety.ConversationTracks | transport/smtp/smtp.go:316-378 | a conversation that has a recipient, or whose MAIL is not accepted, ends with the message acknowledged or in one of the ways from which Send can clean up; an invalid argument behind MAIL only if an address cannot be encoded |
| SmtpSafety.CleanUpTracks | transport/smtp/smtp.go:258-278 | after RSET or termination no transaction is open, unless a recipient could not be encoded, and a retry uses a later connection |
| SmtpSafety.AttemptsTrack | transport/smtp/smtp.go:249-281 | for a message with a recipient the loop of attempts concludes with a verdict that matches the error it returns |
| SmtpEnvelopes.NoUtf8Session | transport/smtp/smtp.go:488-541 | a configuration that requires TLS but can neither start with it nor upgrade opens no session that offers SMTPUTF8 |
| SmtpEnvelopes.BlockedAttempts | transport/smtp/smtp.go:249-281 | for a message that is turned away before MAIL all attempts together leave the client at rest and deliver nothing |
| SmtpEnvelopes.SendTracks | transport/smtp/smtp.go:249-281 | Send of a harmless message, one that is turned away before MAIL or has recipients that all have a wire form, leads from a client at rest to a client at rest, against every server |
| SmtpEnvelopes.RunTracks | transport/smtp/smtp.go:249-281 | any further calls with such messages keep the log legal |
| SmtpEnvelopes.EveryRunIsLegal | transport/smtp/smtp.go:249-378 | every program of serialised calls, against every server, leaves a log the protocol monitor accepts, if every message is rejected beforehand, has a sender without wire form, or has at least one recipient and only recipients with a wire form |
| SmtpEnvelopes.StopsAtUnencodable | transport/smtp/smtp.go:641-645 | an address that cannot be encoded fails inside an open transaction as an invalid argument |
| SmtpEnvelopes.DataWithoutRecipients | transport/smtp/smtp.go:330-347 | with an empty recipient list DATA follows MAIL directly, which the monitor refuses |
| SmtpEnvelopes.SendGoesWrong | transport/smtp/smtp.go:258-264 | against a server that opens a session and then accepts everything, Send of any other message returns inside its transaction or has broken the order of commands |
| SmtpEnvelopes.FindServer | transport/smtp/smtp.go:306-345 | for every other message, and every configuration and client at rest, there is such a server |
| SmtpEnvelopes.CleanExactlyWhenHarmless | transport/smtp/smtp.go:249-281 | from a client at rest, started or not, a Send stays legal against every server if and only if the message is harmless |
| SmtpResults.DialogueLeftOpen | transport/smtp/smtp.go:1137-1193 | a mechanism gives up while the server waits for a continuation if and only if the server asks for more than the mechanism has to say or sends a challenge that cannot be decoded |
| SmtpResults.OverlapMeetsOpenTransaction | transport/smtp/smtp.go:249-281 | on a started client a second Send that overlaps a refused first one can write MAIL into the transaction still open: the mutex is free between doSend and RSET |
| SmtpOverlap.OrderedIsNeverBroken | transport/smtp/smtp.go:249-281 | if no doSend begins before the clean-up of every earlier one, none meets an open transaction, whichever calls fail |
| SmtpOverlap.NeverMeetsExactlyWhenOrdered | transport/smtp/smtp.go:249-281 | a schedule of the locked steps of any number of calls never lets a doSend meet an open transaction, whichever calls fail, if and only if it is ordered in that way |
| SmtpResults.ConversationWrites | transport/smtp/smtp.go:316-378 | a successful conversation appends exactly MAIL, each recipient once in envelope order, DATA, payload and mark, each with its accepting reply |
| SmtpResults.DeliveredMessageOnTheWire | transport/smtp/smtp.go:249-281 | a successful Send has these events in a row in its log, and a receiver reading the payload and the mark recovers the normalised message |
| SmtpResults.HeloSession | transport/smtp/smtp.go:488-503 | against a server that knows only HELO the session starts without TLS unless TLS was implicit, RequireTLS or not |
| SmtpResults.TlsCertainExactlyWhenImplicit | transport/smtp/smtp.go:495-523 | every successful start uses TLS against every server if and only if TLS is implicit |
| SmtpRetries.SendIsItsLastAttempt | transport/smtp/smtp.go:249-281 | if n attempts were refused with 4xx and waited for and attempt n is the last allowed, was not refused with 4xx, or its wait was cut short, Send leaves and answers what attempt n came to; each later attempt starts from the terminated state of the one before |
| SmtpRetries.SendRetries | transport/smtp/smtp.go:249-281 | for every Send there is such an n, at most retryAttempts |
| SmtpRetries.RetriesDeliver | transport/smtp/smtp.go:249-281 | a server that refuses at most retryAttempts attempts with 4xx and then accepts gets the message delivered |
| SmtpRetries.ResetOrClose | transport/smtp/smtp.go:260-274 | behind a last failed attempt RSET is written, the session is kept exactly if it is answered with 250 and closed otherwise, and an invalid argument leaves everything as it is |
| SmtpRetries.PingTells | transport/smtp/smtp.go:319-321 | a session that was idle too long after a message is asked with NOOP, kept exactly if the answer is 250, and left alone otherwise |
| SmtpRetries.StopTells | transport/smtp/smtp.go:702-722 | a session ends with QUIT and the close of its connection, whatever the answer |
| SmtpRetries.RestartTells | transport/smtp/smtp.go:685-699 | a delivered message ends the session exactly when the counter reaches the threshold, and is counted otherwise |
| SmtpSessions.MechanismDialogue | transport/smtp/smtp.go:1134-1193 | a mechanism writes AUTH and its continuations on the live connection, succeeds exactly if all of them were answered with 334 and the last with 235, and fails with the code of the last reply |
| SmtpSessions.TryTells | transport/smtp/smtp.go:568-617 | the mechanisms tried are the advertised ones in configured order, with RSET between them and nothing behind the one that is accepted; if all fail the code is that of the last one, or 535, or 504 if none is advertised |
| SmtpSessions.StartedSession | transport/smtp/smtp.go:412-438 | a started session begins with an accepted EHLO or HELO in the log; behind an EHLO it uses TLS if STARTTLS was offered and allowed, and if there is a user and the server offers AUTH, a configured and advertised mechanism was accepted with 235 behind that EHLO, after those before it in vain |
| SmtpSessions.DecidedBehindTheGreeting | transport/smtp/smtp.go:495-541 | wherever only AUTH stands behind an accepted EHLO, start succeeds there exactly with an accepted mechanism, or fails with the code that remains when all advertised ones were refused; if credentials are not due nothing is written any more and start fails exactly for the lack of TLS |
| SmtpErrors.SendIsNoContextError | transport/smtp/smtp.go:768-782 | while the context is not over Send never answers with its error |
| SmtpErrors.FailuresAreExplained | transport/smtp/smtp.go:768-782 | once the context is over every failure of start and of delivery carries a code of the server or is the error of the context |
| SmtpErrors.SendAfterTheEnd | transport/smtp/smtp.go:249-281 | with a context that is over from the beginning nothing is sent and Send answers with its error |
| SmtpErrors.RefusedConnection | transport/smtp/smtp.go:412-429 | a greeting other than 220 is the error of start |
| SmtpErrors.RefusedGreetings | transport/smtp/smtp.go:488-499 | where EHLO and HELO are refused the error is that of HELO |
| SmtpErrors.TimedExactlyAfterDelivery | transport/smtp/smtp.go:306-378 | a session counts as used, and so as one that can be idle, exactly after a message was delivered over it |
| SmtpErrors.DeliveryErrorsArrive | transport.go:95-127 | what went wrong in delivery reaches the caller: codes and errors of the context stay as they are, and an invalid argument is still known as one |
| SmtpTransport.Transport.CloseConnection | transport/smtp/smtp.go:712-720 | the fields after terminate |
| SmtpTransport.Transport.ExecuteCommand | transport/smtp/smtp.go:818-843 | the new state, error and reply of one command are those of the specification, for every answer |
| SmtpTransport.Transport.ContextError | transport/smtp/smtp.go:768-780 | a failure without an SMTP code becomes the context's error once the context is over |
| SmtpTransport.Transport.Dialling | transport/smtp/smtp.go:441-474 | connecting, under TLS at once if that is configured |
| SmtpTransport.Transport.AwaitGreeting | transport/smtp/smtp.go:412-438 | reading the greeting |
| SmtpTransport.Transport.ShakeHands | transport/smtp/smtp.go:544-558 | the TLS handshake on an open connection |
| SmtpTransport.Transport.UpgradeToTls | transport/smtp/smtp.go:511-522 | STARTTLS, handshake and the second EHLO whose capabilities replace the first ones |
| SmtpTransport.Transport.RunMechanism | transport/smtp/smtp.go:1137-1193 | PLAIN, LOGIN and CRAM-MD5 with the codes each expects |
| SmtpTransport.Transport.HandleAuthentication | transport/smtp/smtp.go:568-617 | the loop over the authenticators agrees with the recursive specification, RSET between failures included |
| SmtpTransport.Transport.Finish | transport/smtp/smtp.go:523-541 | the requireTLS check and authentication after EHLO, as a state; SmtpSessions.DecidedBehindTheGreeting says what that puts on the wire |
| SmtpTransport.Transport.Greet | transport/smtp/smtp.go:488-541 | EHLO with the fallback to HELO |
| SmtpTransport.Transport.Open | transport/smtp/smtp.go:412-438 | start: nothing when started, otherwise a session or no connection at all; SmtpSessions.StartedSession says what a session has behind it |
| SmtpTransport.Transport.WriteMailFrom | transport/smtp/smtp.go:620-638 | MAIL, refused locally when SMTPUTF8 is needed and not offered |
| SmtpTransport.Transport.WriteRcptTo | transport/smtp/smtp.go:641-648 | RCPT, refused locally when the address has no wire form |
| SmtpTransport.Transport.WriteRecipients | transport/smtp/smtp.go:334-340 | the loop over the recipients stops at the first failure |
| SmtpTransport.Transport.WriteData | transport/smtp/smtp.go:382-395 | the payload is the stuffed normal form, and the answer says how it ends |
| SmtpTransport.Transport.WriteContent | transport/smtp/smtp.go:347-377 | DATA, payload and mark, with termination when the payload cannot be written |
| SmtpTransport.Transport.Converse | transport/smtp/smtp.go:316-378 | the whole conversation of one message |
| SmtpTransport.Transport.QuitSession | transport/smtp/smtp.go:702-708 | QUIT, then termination whatever the answer |
| SmtpTransport.Transport.PingServer | transport/smtp/smtp.go:668-675 | NOOP, and QUIT when it fails |
| SmtpTransport.Transport.CountMessage | transport/smtp/smtp.go:685-698 | the counter, and the restart when it reaches the threshold |
| SmtpTransport.Transport.Deliver | transport/smtp/smtp.go:306-378 | doSend: ping if idle, start, conversation |
| SmtpTransport.Transport.BaseTransportSend | transport.go:68-127 | the hook is not run for a rejected message, and delivery failures come back as transport errors |
| SmtpTransport.Transport.AfterFailure | transport/smtp/smtp.go:258-278 | RSET unless the argument was invalid, termination when RSET fails or a retry follows |
| SmtpTransport.Transport.SendAttempts | transport/smtp/smtp.go:249-281 | the retry loop, at most retryAttempts + 1 rounds, retrying only on 4xx, as a state; SmtpRetries.SendRetries says which attempt its answer is |
| SmtpTransport.Transport.SendMessage | transport/smtp/smtp.go:249-281 | Send: the state, log and error are those of the specification, which SmtpRetries.SendRetries ties to its last attempt, and a harmless message leaves a client at rest at rest |
| SmtpTransport.Transport.Disconnect | transport/smtp/smtp.go:725-730 | Close |
| SmtpReply.ReadResponse | transport/smtp/smtp.go:863-891 | the reading loop returns the lines of one reply up to the line that is not continued, and consumes exactly them |
| SmtpReply.ReadPrinted | transport/smtp/smtp.go:863-891 | a printed reply of any number of lines within the size limit is read whole |
| SmtpReply.ResponseIsPrefix | transport/smtp/smtp.go:863-891 | what is returned is the beginning of the stream |
| SmtpReply.CutRepliesAreErrors | transport/smtp/smtp.go:863-891 | a stream cut anywhere inside a reply is an error |
| SmtpReply.CodeOfPrinted | transport/smtp/smtp.go:983-993 | the code parsed from a printed reply is its code |
| SmtpReply.RepliesStaySynchronised | transport/smtp/smtp.go:818-891 | successive readings of well-formed replies of at most 65536 octets return exactly those replies, in order |
| SmtpReply.ReadsExactly | transport/smtp/smtp.go:863-891 | a well-formed reply is read whole if and only if it has at most 65536 octets, and is refused as too long otherwise |
| SmtpWire.NothingIsLost | transport/smtp/smtp.go:863-891 | the responses read so far and what is unread make up the stream, octet for octet |
| SmtpWire.RepliesInStep | transport/smtp/smtp.go:863-891 | of a stream of well-formed replies the n-th response is the n-th reply, and the next reply is the first thing unread |
| SmtpWire.CutStream | transport/smtp/smtp.go:863-891 | a stream that ends inside a reply gives no further response |
| SmtpWire.FailedReadingIsLast | transport/smtp/smtp.go:818-843 | in every legal log only the last reading on a connection can have failed, and none has while the connection is in use |
| SmtpWire.NothingOutstanding | transport/smtp/smtp.go:818-843 | whatever octets the server sends: while a connection is in use every command on it has had its reply, and exactly the octets of those replies are gone from the stream |
| SmtpWire.EveryCommandGetsItsReply | transport/smtp/smtp.go:818-891 | if the server sends well-formed replies, the k-th command written on a connection gets the k-th of them, with its code |
| SmtpWire.CutClosesConnection | transport/smtp/smtp.go:833-842 | if the stream is cut inside a reply, the command that waits for it is the last on its connection |
| SmtpWire.RunsStayInStep | transport/smtp/smtp.go:249-378 | all this in every run of the client, on every connection |
| SmtpWire.CommandsStayInStep | transport/smtp/smtp.go:818-843 | against a server that is one stream of octets, commands keep their connection exactly as long as whole responses come, and the k-th command has had the k-th |
| SmtpRestart.BumpIsCheckRestartThreshold | transport/smtp/smtp.go:685-698 | the bump step of the interleaving model does to the counter and the connection what checkRestartThreshold does |
| SmtpRestart.InvariantStep | transport/smtp/smtp.go:249-257 | the invariant between counter, pending bumps and accepted messages survives every locked step |
| SmtpRestart.InvariantRun | transport/smtp/smtp.go:249-257 | hence every interleaving |
| SmtpRestart.NoConnectionCarriesMore | transport/smtp/smtp.go:249-257 | with p concurrent senders and threshold k > 0 no connection, current or closed, carries more than k + p - 1 accepted messages |
| SmtpRestart.BoundIsReached | transport/smtp/smtp.go:249-257 | and for every k and p some interleaving reaches k + p - 1 |
| SmtpCount.ConversationDelivers | transport/smtp/smtp.go:316-378 | a conversation delivers one message, over the connection it keeps, if it succeeds, and none otherwise |
| SmtpCount.AttemptsCount | transport/smtp/smtp.go:249-281 | all attempts of a Send with the bump at their end keep the account of messages against the counter |
| SmtpCount.NoConnectionExceedsThreshold | transport/smtp/smtp.go:249-257 | whatever the calls and the server, no connection of a run of serialised calls carries more accepted messages than the threshold |
| Rotation.ScanFinds | transport/roundrobin.go:201-231 | the scan finds the first transport in cyclic order that is not resting, or that all are |
| RotationSafety.ScanChooses | transport/roundrobin.go:201-237 | what is chosen is the first eligible transport, its mark is gone and the cursor stands behind it; nothing is chosen exactly if all rest |
| RotationSafety.ChooseChooses | transport/failover.go:119-139 | the same for failover, which stays on its current transport while that is not marked |
| RotationSafety.AttemptKeepsSafe | transport/roundrobin.go:119-153 | every attempt keeps the invariant: marks are those of the log, the cursor follows the last attempt, and a current transport is the one tried last |
| RotationSafety.SendKeepsSafe | transport/roundrobin.go:113-159 | so does every Send |
| RotationSafety.RunKeepsSafe | transport/failover.go:50-90 | so does every run of Sends |
| RotationSafety.EveryRunIsSafe | transport/failover.go:50-90 | over every run of either composite a transport that failed is not attempted again before the retry period is over, and attempts follow cyclic order among eligible transports, failover leaving its transport only after a transport error |
| RotationTermination.SendGrows | transport/roundrobin.go:113-159 | a Send only adds to its attempts, on transports of the pool, between its first and last clock reading, and all but the last of them failed |
| RotationTermination.AttemptsAreBounded | transport/roundrobin.go:113-159 | while the clock advances by at most D, a Send attempts no transport more than 1 + D / (period + 1) times |
| RotationTermination.SendEnds | transport/roundrobin.go:113-159 | whatever bound D there is on the advance of the clock, Send ends within size * (1 + D / (period + 1)) attempts |
| RotationTermination.OnceEachExactly | transport/roundrobin.go:113-159 | for every pool: each index is attempted at most once in every Send whose clock advances by at most D if and only if D is within the retry period |
| RotationTermination.RacingSendGoesOn | transport/roundrobin.go:220 | under a clock that passes the retry period between any two readings a Send in which everything fails is still running after any number of turns |
| RotationTermination.SendNeedNotEnd | transport/roundrobin.go:220 | for every pool there are such a clock and such transports |
| RotationTermination.FirstSend | transport/roundrobin.go:201-208 | the first Send of a fresh composite makes an attempt, on the transport that the initial cursor names if there is one, else on the first |
| RotationTermination.EveryRunBegins | transport/failover.go:41-44 | so does every run of Sends: failover, whose initial cursor is 0, begins with its first transport |
| RotationResults.StillSendIsSimple | transport/roundrobin.go:113-159 | with the clock at rest the loop with its cursor, marks and scan returns what one walk over the list of eligible transports returns, and an aggregate leaves every index marked dead |
| RotationResults.SimpleSendTells | transport/roundrobin.go:119-159 | that walk returns the outcome of the first transport that does not fail with a transport error, else an aggregate with the last non-zero code, and "No transports found" exactly if none was eligible |
| RotationResults.StillSendTells | transport/roundrobin.go:113-159 | the two together, about Send itself |
| RotationResults.SearchStartIs | transport/failover.go:119-139 | the search of a Send begins at the initial cursor, at the last attempt if failover may stay with it, and one place behind the last attempt otherwise |
| RotationResults.FreshSendTells | transport/roundrobin.go:113-159 | with the clock at rest the first Send tries transports start, start + 1, ... modulo the number of them, answers what the first does that does not fail with a transport error, and the aggregate with the last non-zero code if all fail |
| RotationResults.HealthyRun | transport/roundrobin.go:113-131 | while nothing fails the k-th attempt goes to the transport k places behind the first |
| RotationResults.UsesAfter | transport/roundrobin.go:252-258 | after any number of full rounds and some more attempts, exactly the first ones of the round are one attempt ahead |
| RotationResults.RoundRobinIsFair | transport/roundrobin.go:113-131 | while nothing fails the k-th attempt goes to transport (start + k) modulo their number, start being the initial cursor or 0, and the uses of any two differ by at most one after any number of Sends |
| RoundRobin.RoundRobinTransport.constructor | transport/roundrobin.go:70-86 | a fresh pool without marks; a retry period that is not positive becomes 60 seconds |
| RoundRobin.RoundRobinTransport.Move | transport/roundrobin.go:252-258 | the next index in cyclic order |
| RoundRobin.RoundRobinTransport.NextLive | transport/roundrobin.go:201-231 | the unbounded loop ends after one round and does what the scan specification says; RotationTermination.FirstSend says where the first one begins |
| RoundRobin.RoundRobinTransport.Mark | transport/roundrobin.go:240-249 | the mark and its time |
| RoundRobin.RoundRobinTransport.Turn | transport/roundrobin.go:119-153 | one turn of the loop of Send |
| RoundRobin.RoundRobinTransport.Send | transport/roundrobin.go:113-159 | Send ends, within the attempts that the bound on the clock allows, computes the specified loop and keeps the safety invariant; a fresh object attempts the transport of its initial cursor first |
| RoundRobin.FailoverTransport.constructor | transport/failover.go:36-46 | failover begins with no current transport and the initial cursor 0 |
| RoundRobin.FailoverTransport.Next | transport/failover.go:119-139 | the current transport, or a new one from the inner pool when it is unset or dead |
| RoundRobin.FailoverTransport.Turn | transport/failover.go:56-84 | one turn of the loop of Send over the inner pool |
| RoundRobin.FailoverTransport.Send | transport/failover.go:50-90 | Send ends, within the attempts that the bound on the clock allows, computes the specified loop and keeps the safety invariant; a fresh object attempts the transport of its initial cursor first, which the constructor fixes as the first one |
| RoundRobin.ScanIgnoresCurrent | transport/failover.go:119-129 | the inner scan neither reads nor writes failover's current transport |
| HeaderFolding.ScanPiece | mime.go:134-146 | the two inner loops split off the next run of white space and the next token |
| HeaderFolding.WriteWord | mime.go:163-182 | one token is written in place or on a new line, or refused beyond 998 octets |
| HeaderFolding.FoldValue | mime.go:129-187 | the folding loop |
| HeaderFolding.FoldHeaderLine | mime.go:116-187 | it fails exactly for an invalid name, a value with CR or LF, or a line beyond the limit, and otherwise writes the folded line |
| HeaderReading.RespacedKeepsTokens | mime.go:134-187 | folding changes white space only: the tokens and their order stay |
| HeaderReading.RespacedExact | mime.go:134-187 | and it changes nothing at all when every gap is one space |
| HeaderReading.UnfoldRest | mime.go:134-187 | unfolding a folded value by section 2.2.3 of RFC 5322 gives the value with its gaps respaced |
| HeaderReading.BlockIsRead | mime.go:116-187 | a reader recovers every field of a block of folded headers, in order |
| HeaderReading.HeadersSurviveFolding | mime.go:116-187 | for every list of headers the reader finds the same names in order with the same tokens, and the exact values where every gap is one space |
| HeaderReading.FoldedLines | mime.go:134-187 | no line of a folded value exceeds 998 octets |
| HeaderReading.HardLimitExactly | mime.go:124-134 | a folded header keeps the limit if and only if its value is not empty or its name has at most 996 octets |
| HeaderReading.FoldedContinuations | mime.go:134-187 | no continuation line of a folded value is blank |
| HeaderReading.BlockLayout | mime.go:116-187 | the same two statements for whole blocks |
| HeaderReading.FittingWordsFold | mime.go:134-187 | a single-spaced value whose tokens fit behind the name is never refused |
| HeaderLayout.ShortHeaderIsKept | mime.go:116-187 | a header that fits into 78 octets is written on one line, as it is |
| HeaderLayout.LongLinesAreForced | mime.go:116-187 | a line of a folded header is longer than 78 octets, white space at its end apart, only where it holds a single word beyond the length of the name |
| HeaderLayout.NamesAreAtoms | mime.go:280-299 | a valid name is one or more visible characters, none of them a special of section 3.2.3 of RFC 5322 |
| Base64.DecodeEncode | mime.go:319 | decoding undoes encoding |
| Base64.EncodeShape | mime.go:319 | four characters of the alphabet for every three octets or part of them |
| Base64.LinesJoin | mime.go:320-332 | the lines are the encoding, none is empty, none longer than 76 |
| Base64.WriteBase64 | mime.go:318-334 | the loop writes those lines with CRLF, and they decode to the data |
| EncodedWords.EncodeAsciiEncodedWords | mime.go:46-69 | the loop writes one encoded-word per 45 octets, joined by spaces |
| EncodedWords.WriteRawHeader | mime.go:191-193 | it fails exactly when folding the encoded value fails |
| EncodedWords.WordDecodes | mime.go:46-69 | an encoded-word of at most 45 octets has at most 75 characters, none of them white space, and decodes to them |
| EncodedWords.WordsDecode | mime.go:46-69 | the encoded-words of every octet string decode to it by section 6.2 of RFC 2047, the spaces between them dropped |
| EncodedWords.WordsLayout | mime.go:46-69 | they are single-spaced words short enough to fold |
| EncodedWords.PlainHeaderFolds | mime.go:116-193 | a plain printable, single-spaced, trimmed value folds under every name of at most 95 octets |
| EncodedWords.OverlongHeaderFolds | mime.go:23-69 | a value with a token over 900 octets folds under a name if and only if the name has at most 924 octets |
| EncodedWords.RawHeaderKeepsLimit | mime.go:116-193 | no line written for a printable value exceeds 998 octets, whatever the name |
| EncodedWords.OverlongValueSurvives | mime.go:23-69 | for every printable value with a token over 900 octets and every name under which it folds, which are those of at most 924 octets, encoding, folding, unfolding and decoding is the identity |
| EncodedWords.PlainDecodes | mime.go:23-33 | a value without encoded-words decodes to itself |
| EncodedWords.PlainValueSurvives | mime.go:23-33 | the same round trip for plain single-spaced values under every name that lets them fold |
| EncodedWords.HeaderIsPrintable | mime.go:23-33 | whatever the value only printable ASCII, white space and line ends reach the wire, given a Q encoder whose output is printable |
| EncodedWords.EncodedValueArrives | mime.go:23-33 | what the Q encoder makes of a value that is not printable ASCII reaches the reader as it is, if its words stand one space apart |
| EncodedWords.NinetyFiveExactly | mime.go:116-193 | under a valid name every printable, single-spaced, trimmed value can be written if and only if the name has at most 95 octets |
| ParameterContinuations.PercentEncodeRfc2231 | mime.go:253-264 | the loop percent-encodes every octet that is not an attribute character |
| ParameterContinuations.ChunkEnd | mime.go:236-246 | the inner loop backs up to the start of a rune, or not at all |
| ParameterContinuations.ContinuationChunks | mime.go:232-251 | the chunking loop ends on every octet string |
| ParameterContinuations.FormatContinuations | mime.go:195-226 | the numbered segments of one parameter |
| ParameterContinuations.ChunksKeepValue | mime.go:232-251 | the chunks join to the value, and each has 1 to 30 octets |
| ParameterContinuations.CutAtRuneStart | mime.go:236-246 | valid UTF-8 cut where a rune starts is valid on both sides |
| ParameterContinuations.NoFourContinuations | mime.go:236-246 | among four octets of valid UTF-8 one starts a rune |
| ParameterContinuations.ChunksOfValidText | mime.go:232-251 | of valid UTF-8 every chunk is valid UTF-8 and every chunk but the last has 27 to 30 octets |
| ParameterContinuations.PercentRoundTrip | mime.go:253-276 | percent-decoding undoes percent-encoding |
| ParameterContinuations.AttrCharsAreVisible | mime.go:266-276 | the characters left as they are are the attribute characters of section 3.2.1 of RFC 5987 |
| ParameterContinuations.NothingIsEncodedNeedlessly | mime.go:253-264 | such characters stay as they are, every other octet takes three characters |
| ParameterContinuations.SegmentsAssemble | mime.go:207-217 | a reader of sections 3 and 4.1 of RFC 2231 that finds the numbered segments in any list of parameters restores the value |
| ParameterContinuations.ContinuationsRoundTrip | mime.go:195-226 | the printed segments parse into parameters from which that reader restores the value |
| ParameterHeaders.LongParameterSurvives | mime.go:116-226 | the value of a long parameter comes back from the folded header it was written in |
| MimeTreeReading.LinesAreQuiet | message.go:568-586 | no line of a readable part is a delimiter of a container around it |
| MimeTreeReading.CollectParts | message.go:576-586 | the reader cuts the lines of a container exactly at its own delimiters |
| MimeTreeReading.ReadLines | message.go:407-586 | reading the lines of a readable tree gives the tree |
| MimeTreeReading.TextRoundTrip | message.go:407-586 | the same for its text with CRLF line endings |
| MessageBody.BodyWriter.GenerateBoundary | mime.go:360-362 | each container draws the next boundary |
| MessageBody.BodyWriter.WriteTextPart | message.go:590-601 | headers, blank line and encoded body of a text part |
| MessageBody.BodyWriter.WriteAttachmentPart | message.go:606-664 | headers, blank line and base64 lines of an attachment |
| MessageBody.BodyWriter.WriteAlternative | message.go:546-564 | the two text parts between the delimiters of an alternative container; MessageReading.ReaderFindsTexts says which text a reader finds in which |
| MessageBody.BodyWriter.WriteContentBody | message.go:525-541 | one text part, both as alternatives, or an empty placeholder |
| MessageBody.BodyWriter.WriteAttachments | message.go:480-489 | the loop appends one delimited part per attachment |
| MessageBody.BodyWriter.WriteRelated | message.go:496-519 | content first, inline parts behind it, closing delimiter last |
| MessageBody.BodyWriter.WriteMixed | message.go:453-492 | the structure around the body and the regular attachments |
| MessageBody.BodyWriter.PartitionAttachments | message.go:440-449 | the loop separates inline from regular attachments |
| MessageBody.BodyWriter.WriteBody | message.go:407-436 | what is written is MIME-Version and the lines of the tree chosen for the message, whose parts MessageReading.ReaderFindsTexts names |
| MessageReading.BodyIsReadable | message.go:407-601 | with distinct equally long boundaries every message has a readable tree: base64 and quoted-printable lines cannot be taken for delimiters |
| MessageReading.MessageIsRecovered | message.go:407-601 | for any bodies and attachments a MIME reader recovers from the text exactly the tree that was chosen |
| MessageReading.WhatTheTreeHolds | message.go:421-492 | mixed over related over alternative, each only where needed; the leaves are the texts, the inline parts, the regular parts |
| MessageReading.WhereAttachmentsStand | message.go:453-519 | regular attachments stand directly in the mixed container and inline ones directly in the related one, each beside the content |
| MessageReading.ReaderFindsTexts | message.go:421-601 | in the tree that a reader recovers the plain text stands under text/plain; charset=utf-8 and the HTML under text/html; charset=utf-8, in this order and quoted-printable, one alone where there is only one, an empty part where there is none, then one part for each attachment |
| MessageReading.TextsComeBack | message.go:546-601 | given a decoder that undoes quoted-printable both texts come back, each from its own part |
| MessageReading.EveryAttachmentOnce | message.go:440-449 | inline and regular parts are together all attachments, each as often as it was given, each side in the given order |
| MessageReading.AttachmentsDecode | message.go:606-664 | the part of every attachment has its headers and decodes to its data |
| CompositeDsn.MatchBalancedParen | transport/registry.go:221-238 | it answers exactly if some parenthesis closes the one at open, with the first position at which the depth is back at zero |
| CompositeDsn.CutAtAmpersand | transport/registry.go:255-258 | the value of the query up to its first ampersand |
| CompositeDsn.ParseRetryPeriod | transport/registry.go:246-270 | the decimal value in 64-bit arithmetic, nothing without the suffix, an error for anything but digits |
| CompositeDsn.WrapEarly | transport/registry.go:262-268 | wrapping after every digit is wrapping once at the end |
| CompositeDsn.LeadingKeyword | transport/registry.go:274-288 | found exactly if a word stands right before an opening parenthesis, and the name is that word |
| CompositeDsn.ParseDsn | transport/registry.go:132-217 | on every text the parser ends, and on success its offset lies strictly behind its start and within the text |
| CompositeDsn.ParseArguments | transport/registry.go:161-176 | the loop over the arguments agrees with the recursive specification |
| CompositeDsn.FromString | transport/registry.go:65-74 | the whole text must be consumed; CompositeDsnGrammar.AcceptsExactlyTheGrammar says which texts are accepted |
| CompositeDsnReading.PeriodReadsBack | transport/registry.go:246-270 | a printed period reads back at the end of the text and is refused in front of a separator |
| CompositeDsnReading.TextIsRead | transport/registry.go:132-217 | at any position that ends in a separator, a printed group parses to its meaning up to its end, or is refused for a nested period |
| CompositeDsnReading.PrintThenParse | transport/registry.go:65-74 | for every tree of groups over accepted leaves, reading the printed form gives the tree if and only if a retry period stands at most behind the outermost group |
| CompositeDsnReading.StringReadsBack | transport/roundrobin.go:179-185 | String() always resolves, to an equal composite if and only if all its retry periods are the default |
| CompositeDsnReading.ExactPeriods | transport/registry.go:182 | a number of seconds arrives as that retry period if and only if it is positive and at most 9223372036 |
| CompositeDsnReading.AnySeparator | transport/registry.go:172-175 | behind a nested group any character separates two arguments, except a parenthesis and a "?" that begins a retry period |
| CompositeDsnGrammar.AcceptedIsWritten | transport/registry.go:65-74 | every accepted text is consumed whole and is a text of a grammar that does not mention the parser: known keywords, matching parentheses, separated arguments, digits of retry periods |
| CompositeDsnGrammar.WrittenIsAccepted | transport/registry.go:132-217 | every text of that grammar is accepted, and gives what the grammar says |
| CompositeDsnGrammar.AcceptsExactlyTheGrammar | transport/registry.go:65-74 | FromString answers with a transport if and only if the text is one of the grammar that stands for it, and refuses every other text |
| CompositeDsnGrammar.NothingMayFollow | transport/registry.go:70-72 | an accepted text with a space and anything behind it is refused |
| CompositeDsnGrammar.BalancedIsTidy | transport/registry.go:155-159 | a parenthesis closes the first one of a composite only if all its parentheses match |
| Throttle.BaseTransport.SetMaxPerSecond | transport.go:135-143 | a rate that is not positive means none, and the mark is forgotten |
| Throttle.BaseTransport.CheckThrottling | transport.go:149-172 | the new mark and the answer for every clock, timer and context; a cancelled wait leaves the mark |
| Throttle.AdmissionsAreSpaced | transport.go:149-172 | at a fixed rate, over every run with cancelled and expired calls, admissions are at least one interval apart |
| Throttle.WithoutRateNothingWaits | transport.go:153-155 | without a rate exactly the calls pass whose context is not over |
| Throttle.PatientCallsPass | transport.go:149-172 | with or without a rate every call that is neither cancelled nor expired passes when its wait is over |
| Throttle.CancelledWaitLeavesNoTrace | transport.go:146-148 | a call whose wait is cut short can be taken out of any run without changing an admission |
| Throttle.WindowBound | transport.go:149-172 | any stretch of W nanoseconds and its end admit at most 1 + W / interval messages |
| Throttle.IntervalOfWhole | transport.go:157 | for a whole rate the interval is the quotient rounded down |
| Throttle.RateIsKeptExactly | transport.go:145-149 | no run admits more than r messages within a second if and only if r divides 1,000,000,000 |

## Left out

- Sockets, TLS, deadlines and context.AfterFunc: arbitrary answers, one for each operation; a context that ends inside an operation shows as that operation's failure.
- Overlapping calls of one SMTP transport: Send releases the mutex between doSend and RSET, so the whole-run transaction theorems are about serialised calls; of overlapping ones SmtpOverlap has the order of their locked steps only.
- SmtpTransport.Transport.RunMechanism: the three built-in authenticators only, with credentials and challenges reduced to whether a challenge can be decoded; an authenticator written by the user may send anything.
- SmtpTransport.Transport.BaseTransportSend: envelope and message validation is one arbitrary rejection, the throttle is modelled apart, and of the wait between attempts only whether it is cancelled.
- The text of SMTP replies in the client: a reply there is a code and what EHLO makes of it, given by an arbitrary function of the text in SmtpWire; parseCapabilities, parseMessageID and the debug transcript are not part of this model.
- RoundRobin.RoundRobinTransport.Send: requires some bound on how far the clock gets during the call, because otherwise it need not end; the safety theorems require none.
- RoundRobin.FailoverTransport.Send: the same, and the initial cursor is the default 0.
- Cloning of messages and envelopes for each attempt, loggers, and the text of aggregated errors.
- HeaderFolding.FoldHeaderLine: what was written before a line is refused is not modelled; the caller discards it.
- EncodedWords.WriteRawHeader: mime.QEncoding, used for values that are not printable ASCII, is a parameter without a round trip.
- ParameterContinuations.FormatContinuations: one parameter at a time; mime.FormatMediaType, which formats the others, is not part of this model.
- MessageBody.BodyWriter.WriteAttachmentPart: the header lines of an attachment are given, so sniffing, parameter formatting and the errors for an invalid content type or Content-ID are not modelled; an attachment whose own content type is a multipart is outside MessageIsRecovered, since a reader would open it.
- MessageReading.AttachmentsDecode: the header lines of an attachment come back as they were given; how they are formatted is not modelled.
- MessageReading.MessageIsRecovered: quoted-printable is an arbitrary encoder whose lines hold no bare CR and no "=_"; boundaries are arbitrary but distinct and equally long, since the source draws them at random.
- CompositeDsn.ParseDsn: what ParseDSN and the factories accept is a parameter that refuses the empty text; the leaves of PrintThenParse are their printed forms.
- Throttle.BaseTransport.CheckThrottling: rates are real numbers, so the rounding of float64 and rates too small for a 64-bit interval are not modelled.
- Message headers other than their encoding and folding, addresses, envelopes, DSN options, the transports router, sendmail, SES, null and test transports, middleware: mostly one branch each.
