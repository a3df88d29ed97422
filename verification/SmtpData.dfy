/**
 The DATA stream of transport/smtp/smtp.go: line-ending normalisation, dot-stuffing and
 the choice of terminator, and the receiver of section 4.5.2 of RFC 5321 that undoes them.
 */
module SmtpData {
  import opened Octets

  // ----- what the encoder computes -----

  /** Line-ending normalisation: CRLF, a lone CR and a lone LF each become CRLF. */
  function Normalize(data: seq<Octet>): seq<Octet> {
    if data == [] then []
    else if data[0] == CR then
      CRLF + Normalize(if |data| > 1 && data[1] == LF then data[2..] else data[1..])
    else if data[0] == LF then CRLF + Normalize(data[1..])
    else [data[0]] + Normalize(data[1..])
  }

  /** Dot-stuffing of what follows an octet; `afterCr` says that this octet was a CR. */
  function StuffRest(data: seq<Octet>, afterCr: bool): seq<Octet> {
    if data == [] then []
    else
      [data[0]]
      + (if data[0] == LF && afterCr && |data| > 1 && data[1] == DOT then [DOT] else [])
      + StuffRest(data[1..], data[0] == CR)
  }

  function LeadingDot(data: seq<Octet>): seq<Octet> {
    if data != [] && data[0] == DOT then [DOT] else []
  }

  function DotStuff(data: seq<Octet>): seq<Octet> {
    LeadingDot(data) + StuffRest(data, false)
  }

  predicate EndsWithCrlf(data: seq<Octet>) {
    |data| >= 2 && data[|data| - 2..] == CRLF
  }

  /** The end-of-data mark doSend writes after the payload. */
  function Terminator(endsWithCrlf: bool): seq<Octet> {
    if endsWithCrlf then [DOT] + CRLF else CRLF + [DOT] + CRLF
  }

  /** All octets written between the 354 reply and the final reply. */
  function Stream(data: seq<Octet>): seq<Octet> {
    var stuffed := DotStuff(Normalize(data));
    stuffed + Terminator(EndsWithCrlf(stuffed))
  }

  // ----- the loops of the source -----

  method NormalizeCrlf(data: seq<Octet>) returns (out: seq<Octet>)
    ensures out == Normalize(data)
    ensures NoBareLineEnding(out)
  {
    out := [];
    var i := 0;
    while i < |data|
      invariant 0 <= i <= |data|
      invariant out + Normalize(data[i..]) == Normalize(data)
    {
      NormalizeStep(data, out, i);
      if data[i] == CR {
        out := out + [CR, LF];
        if i + 1 < |data| && data[i + 1] == LF {
          i := i + 1;
        }
      } else if data[i] == LF {
        out := out + [CR, LF];
      } else {
        out := out + [data[i]];
      }
      i := i + 1;
    }
    assert data[i..] == [];
    NormalizeLeavesNoBareLineEnding(data);
  }

  /** What one turn of the loop emits, and where it goes on. */
  lemma NormalizeStep(data: seq<Octet>, out: seq<Octet>, i: nat)
    requires i < |data|
    ensures data[i] == CR && i + 1 < |data| && data[i + 1] == LF
        ==> out + Normalize(data[i..]) == (out + [CR, LF]) + Normalize(data[i + 2..])
    ensures data[i] == CR && !(i + 1 < |data| && data[i + 1] == LF)
        ==> out + Normalize(data[i..]) == (out + [CR, LF]) + Normalize(data[i + 1..])
    ensures data[i] == LF ==> out + Normalize(data[i..]) == (out + [CR, LF]) + Normalize(data[i + 1..])
    ensures data[i] != CR && data[i] != LF ==> out + Normalize(data[i..]) == (out + [data[i]]) + Normalize(data[i + 1..])
  {
    var s := data[i..];
    assert s[1..] == data[i + 1..];
    if i + 1 < |data| {
      assert s[2..] == data[i + 2..];
    }
    if data[i] == CR && i + 1 < |data| && data[i + 1] == LF {
      Regroup(out, CRLF, Normalize(data[i + 2..]));
    } else if data[i] == CR || data[i] == LF {
      Regroup(out, CRLF, Normalize(data[i + 1..]));
    } else {
      Regroup(out, [data[i]], Normalize(data[i + 1..]));
    }
  }

  lemma Regroup(a: seq<Octet>, b: seq<Octet>, c: seq<Octet>)
    ensures a + (b + c) == (a + b) + c
  {
  }

  method DotStuffing(data: seq<Octet>) returns (out: seq<Octet>)
    ensures out == DotStuff(data)
  {
    out := [];
    if |data| > 0 && data[0] == DOT {
      out := out + [DOT];
    }
    var i := 0;
    while i < |data|
      invariant 0 <= i <= |data|
      invariant out + StuffRest(data[i..], i > 0 && data[i - 1] == CR) == DotStuff(data)
    {
      StuffStep(data, out, i, i > 0 && data[i - 1] == CR);
      out := out + [data[i]];
      if data[i] == LF && i >= 1 && data[i - 1] == CR && i + 1 < |data| && data[i + 1] == DOT {
        out := out + [DOT];
      }
      i := i + 1;
    }
    assert data[i..] == [];
  }

  lemma StuffStep(data: seq<Octet>, out: seq<Octet>, i: nat, afterCr: bool)
    requires i < |data| && afterCr == (i > 0 && data[i - 1] == CR)
    ensures data[i] == LF && afterCr && i + 1 < |data| && data[i + 1] == DOT
        ==> out + StuffRest(data[i..], afterCr) == (out + [data[i]] + [DOT]) + StuffRest(data[i + 1..], data[i] == CR)
    ensures !(data[i] == LF && afterCr && i + 1 < |data| && data[i + 1] == DOT)
        ==> out + StuffRest(data[i..], afterCr) == (out + [data[i]]) + StuffRest(data[i + 1..], data[i] == CR)
  {
    var s := data[i..];
    assert s[1..] == data[i + 1..];
    var tail := StuffRest(s[1..], s[0] == CR);
    if data[i] == LF && afterCr && i + 1 < |data| && data[i + 1] == DOT {
      Regroup(out, [s[0]] + [DOT], tail);
      Regroup(out, [s[0]], [DOT]);
    } else {
      Regroup(out, [s[0]] + [], tail);
      assert [s[0]] + [] == [s[0]];
    }
  }

  /** writeData followed by doSend's terminator: what the receiver makes of it is promised outright. */
  method WriteData(data: seq<Octet>) returns (payload: seq<Octet>, terminator: seq<Octet>)
    ensures payload + terminator == Stream(data)
    ensures forall rest :: Receive(Stream(data) + rest) == Some(Received(WithFinalCrlf(Normalize(data)), rest))
  {
    var normalized := NormalizeCrlf(data);
    payload := DotStuffing(normalized);
    var endsWithCrlf := |payload| >= 2 && payload[|payload| - 2] == CR && payload[|payload| - 1] == LF;
    assert endsWithCrlf == EndsWithCrlf(payload);
    terminator := if endsWithCrlf then [DOT, CR, LF] else [CR, LF, DOT, CR, LF];
    forall rest ensures Receive(Stream(data) + rest) == Some(Received(WithFinalCrlf(Normalize(data)), rest)) {
      ReceiverRecoversMessage(data, rest);
    }
  }

  // ----- what normalisation means -----

  /** Every CR is followed by LF and every LF is preceded by CR. */
  predicate NoBareLineEnding(s: seq<Octet>) {
    && (forall i :: 0 <= i < |s| && s[i] == CR ==> i + 1 < |s| && s[i + 1] == LF)
    && (forall i :: 0 <= i < |s| && s[i] == LF ==> 0 < i && s[i - 1] == CR)
  }

  /** The text as lines, each of CRLF, CR and LF ending one: the reference meaning of a line ending. */
  function UniversalLines(data: seq<Octet>): (lines: seq<seq<Octet>>)
    ensures |lines| >= 1
  {
    if data == [] then [[]]
    else if data[0] == CR then
      [[]] + UniversalLines(if |data| > 1 && data[1] == LF then data[2..] else data[1..])
    else if data[0] == LF then [[]] + UniversalLines(data[1..])
    else
      var rest := UniversalLines(data[1..]);
      [[data[0]] + rest[0]] + rest[1..]
  }

  function JoinCrlf(lines: seq<seq<Octet>>): seq<Octet>
    requires |lines| >= 1
  {
    if |lines| == 1 then lines[0] else lines[0] + CRLF + JoinCrlf(lines[1..])
  }

  lemma {:induction false} NormalizeLeavesNoBareLineEnding(data: seq<Octet>)
    ensures NoBareLineEnding(Normalize(data))
    ensures |Normalize(data)| > 0 ==> Normalize(data)[0] != LF
  {
    if data != [] {
      if data[0] == CR && |data| > 1 && data[1] == LF {
        NormalizeLeavesNoBareLineEnding(data[2..]);
      } else {
        NormalizeLeavesNoBareLineEnding(data[1..]);
      }
    }
  }

  /** A text without bare line endings is left alone, so normalising twice is normalising once. */
  lemma {:induction false} NormalizeFixesClean(s: seq<Octet>)
    requires NoBareLineEnding(s)
    ensures Normalize(s) == s
  {
    if s != [] {
      if s[0] == CR {
        NormalizeFixesClean(s[2..]);
        assert s == CRLF + s[2..];
      } else {
        NormalizeFixesClean(s[1..]);
        assert s == [s[0]] + s[1..];
      }
    }
  }

  lemma NormalizeIsIdempotent(data: seq<Octet>)
    ensures Normalize(Normalize(data)) == Normalize(data)
  {
    NormalizeLeavesNoBareLineEnding(data);
    NormalizeFixesClean(Normalize(data));
  }

  /** Normalisation keeps the lines, whatever their endings were, and only their endings change. */
  lemma {:induction false} NormalizeKeepsLines(data: seq<Octet>)
    ensures Normalize(data) == JoinCrlf(UniversalLines(data))
  {
    if data != [] {
      if data[0] == CR {
        NormalizeKeepsLines(if |data| > 1 && data[1] == LF then data[2..] else data[1..]);
      } else {
        NormalizeKeepsLines(data[1..]);
      }
      var lines := UniversalLines(data);
      if data[0] == CR {
        assert lines[1..] == UniversalLines(if |data| > 1 && data[1] == LF then data[2..] else data[1..]);
      } else if data[0] == LF {
        assert lines[1..] == UniversalLines(data[1..]);
      } else {
        var rest := UniversalLines(data[1..]);
        assert lines[1..] == rest[1..];
        if |rest| == 1 {
          assert Normalize(data) == [data[0]] + rest[0];
        } else {
          assert JoinCrlf(lines) == [data[0]] + (rest[0] + CRLF + JoinCrlf(rest[1..]));
        }
      }
    }
  }

  // ----- the receiver -----

  /** Where the first CRLF of `s` starts, or |s| when there is none. */
  function FirstCrlf(s: seq<Octet>): (k: nat)
    ensures k <= |s|
    ensures k < |s| ==> k + 1 < |s| && s[k] == CR && s[k + 1] == LF
    ensures forall i :: 0 <= i < k && i + 1 < |s| ==> !(s[i] == CR && s[i + 1] == LF)
  {
    if |s| < 2 then |s|
    else if s[0] == CR && s[1] == LF then 0
    else
      var k := FirstCrlf(s[1..]);
      assert forall i :: 1 <= i < |s| ==> s[i] == s[1..][i - 1];
      k + 1
  }

  datatype Received = Received(message: seq<Octet>, unread: seq<Octet>)

  /**
   A receiver following section 4.5.2 of RFC 5321: a line that is a single dot ends the mail
   data, any other line loses one leading dot. None when the stream ends before the mark.
   */
  function Receive(stream: seq<Octet>): Option<Received>
    decreases |stream|
  {
    var k := FirstCrlf(stream);
    if k == |stream| then None
    else
      var line, rest := stream[..k], stream[k + 2..];
      if line == [DOT] then Some(Received([], rest))
      else
        var more := Receive(rest);
        if more.None? then None
        else
          var text := if line != [] && line[0] == DOT then line[1..] else line;
          Some(Received(text + CRLF + more.value.message, more.value.unread))
  }

  function WithFinalCrlf(s: seq<Octet>): seq<Octet> {
    if EndsWithCrlf(s) then s else s + CRLF
  }

  predicate Plain(line: seq<Octet>) {
    CR !in line && LF !in line
  }

  lemma FirstCrlfAfterLine(line: seq<Octet>, rest: seq<Octet>)
    requires Plain(line)
    ensures FirstCrlf(line + CRLF + rest) == |line|
  {
    var s := line + CRLF + rest;
    assert s[|line|] == CR && s[|line| + 1] == LF;
    assert forall i :: 0 <= i < |line| ==> s[i] == line[i];
  }

  lemma {:induction false} StuffPlain(line: seq<Octet>, afterCr: bool)
    requires Plain(line)
    ensures StuffRest(line, afterCr) == line
  {
    if line != [] {
      StuffPlain(line[1..], false);
    }
  }

  lemma {:induction false} StuffLine(line: seq<Octet>, rest: seq<Octet>, afterCr: bool)
    requires Plain(line)
    ensures StuffRest(line + CRLF + rest, afterCr) == line + CRLF + DotStuff(rest)
  {
    var s := line + CRLF + rest;
    if line == [] {
      assert s[0] == CR && s[1] == LF && s[1..] == [LF] + rest && s[1..][1..] == rest;
      assert StuffRest(s[1..], true) == [LF] + LeadingDot(rest) + StuffRest(rest, false);
    } else {
      assert s[1..] == line[1..] + CRLF + rest;
      StuffLine(line[1..], rest, false);
    }
  }

  /** One step of the receiver on a stuffed line. */
  lemma ReceiveStuffedLine(line: seq<Octet>, rest: seq<Octet>)
    requires Plain(line) && Receive(rest).Some?
    ensures Receive(LeadingDot(line) + line + CRLF + rest)
         == Some(Received(line + CRLF + Receive(rest).value.message, Receive(rest).value.unread))
  {
    var stuffed := LeadingDot(line) + line;
    FirstCrlfAfterLine(stuffed, rest);
    var s := stuffed + CRLF + rest;
    assert s[..|stuffed|] == stuffed && s[|stuffed| + 2..] == rest;
    assert LeadingDot(line) == [DOT] ==> stuffed[1..] == line;
    assert LeadingDot(line) == [] ==> stuffed == line;
  }

  lemma ReceiveMark(rest: seq<Octet>)
    ensures Receive([DOT] + CRLF + rest) == Some(Received([], rest))
  {
    FirstCrlfAfterLine([DOT], rest);
    var s := [DOT] + CRLF + rest;
    assert s[..1] == [DOT] && s[3..] == rest;
  }

  /** Stuffing inserts dots between octets only, and never between a final CR and LF. */
  lemma {:induction false} StuffRestKeepsEnding(s: seq<Octet>, afterCr: bool)
    ensures |StuffRest(s, afterCr)| >= |s|
    ensures EndsWithCrlf(StuffRest(s, afterCr)) == EndsWithCrlf(s)
  {
    if |s| >= 3 {
      var tail := StuffRest(s[1..], s[0] == CR);
      StuffRestKeepsEnding(s[1..], s[0] == CR);
      var all := StuffRest(s, afterCr);
      assert all[|all| - 2..] == tail[|tail| - 2..];
      assert s[|s| - 2..] == s[1..][|s| - 3..];
    } else if |s| == 2 {
      var all := StuffRest(s, afterCr);
      assert StuffRest(s[1..], s[0] == CR) == [s[1]];
      assert all[|all| - 2..] == [all[|all| - 2], s[1]];
      assert s[0..] == [s[0], s[1]];
    }
  }

  lemma StuffKeepsEnding(s: seq<Octet>)
    ensures EndsWithCrlf(DotStuff(s)) == EndsWithCrlf(s)
  {
    StuffRestKeepsEnding(s, false);
    var rest := StuffRest(s, false);
    var all := DotStuff(s);
    if |rest| >= 2 {
      assert all[|all| - 2..] == rest[|rest| - 2..];
    } else {
      assert LeadingDot(s) == [DOT] ==> all[0] == DOT;
    }
  }

  lemma EndsAfterLine(line: seq<Octet>, rest: seq<Octet>)
    ensures |rest| >= 2 ==> EndsWithCrlf(line + CRLF + rest) == EndsWithCrlf(rest)
    ensures rest == [] ==> EndsWithCrlf(line + CRLF + rest)
    ensures |rest| >= 1 && !EndsWithCrlf(rest) && rest[|rest| - 1] != LF ==> !EndsWithCrlf(line + CRLF + rest)
  {
    var s := line + CRLF + rest;
    if |rest| >= 2 {
      assert s[|s| - 2..] == rest[|rest| - 2..];
    } else if rest == [] {
      assert s[|s| - 2..] == CRLF;
    } else {
      assert s[|s| - 2..][1] == rest[0];
    }
  }

  /** Cuts a text without bare line endings at its first CRLF. */
  lemma SplitLine(s: seq<Octet>) returns (line: seq<Octet>, rest: seq<Octet>)
    requires NoBareLineEnding(s) && CR in s
    ensures s == line + CRLF + rest && Plain(line) && NoBareLineEnding(rest)
    ensures LeadingDot(s) == LeadingDot(line)
  {
    var k := FirstCr(s);
    line, rest := s[..k], s[k + 2..];
    assert forall i :: 0 <= i < k ==> s[i] == line[i];
    assert NoBareLineEnding(rest) by {
      assert s[k + 1] == LF;
      forall i | 0 <= i < |rest|
        ensures rest[i] == CR ==> i + 1 < |rest| && rest[i + 1] == LF
        ensures rest[i] == LF ==> 0 < i && rest[i - 1] == CR
      {
        assert rest[i] == s[i + (k + 2)] && (i > 0 ==> rest[i - 1] == s[i + (k + 2) - 1]);
      }
    }
    assert NoBareLineEnding(line) by {
      assert forall i :: 0 <= i < k && line[i] == LF ==> s[i] == LF;
    }
    PlainWithoutCr(line);
  }

  lemma PlainWithoutCr(s: seq<Octet>)
    requires NoBareLineEnding(s) && CR !in s
    ensures Plain(s)
  {
    forall i | 0 <= i < |s| ensures s[i] != LF {
      assert 0 < i ==> s[i - 1] in s;
    }
  }

  lemma {:induction false} FirstCr(s: seq<Octet>) returns (k: nat)
    requires CR in s
    ensures k < |s| && s[k] == CR && CR !in s[..k]
  {
    if s[0] == CR {
      k := 0;
    } else {
      k := FirstCr(s[1..]);
      assert s[..k + 1] == [s[0]] + s[1..][..k];
      k := k + 1;
    }
  }

  lemma LastLineShape(s: seq<Octet>, rest: seq<Octet>)
    requires Plain(s)
    ensures !EndsWithCrlf(s)
    ensures DotStuff(s) + (Terminator(false) + rest) == LeadingDot(s) + s + CRLF + ([DOT] + CRLF + rest)
  {
    assert |s| >= 2 ==> s[|s| - 2..][0] == s[|s| - 2] && s[|s| - 2] in s;
    StuffPlain(s, false);
    assert Terminator(false) + rest == CRLF + ([DOT] + CRLF + rest);
  }

  lemma ReceiverRecoversLastLine(s: seq<Octet>, rest: seq<Octet>)
    requires Plain(s)
    ensures Receive(DotStuff(s) + (Terminator(false) + rest)) == Some(Received(s + CRLF, rest))
  {
    LastLineShape(s, rest);
    ReceiveMark(rest);
    ReceiveStuffedLine(s, [DOT] + CRLF + rest);
    assert s + CRLF + [] == s + CRLF;
  }

  lemma NextLineShape(line: seq<Octet>, tail: seq<Octet>, end: seq<Octet>)
    requires Plain(line)
    ensures DotStuff(line + CRLF + tail) + end == LeadingDot(line) + line + CRLF + (DotStuff(tail) + end)
  {
    var s := line + CRLF + tail;
    StuffLine(line, tail, false);
    assert LeadingDot(s) == LeadingDot(line);
    Regroup(LeadingDot(line), line + CRLF, DotStuff(tail));
    Regroup(LeadingDot(line) + (line + CRLF), DotStuff(tail), end);
    Regroup(LeadingDot(line), line, CRLF);
  }

  lemma ReceiverRecoversNextLine(line: seq<Octet>, tail: seq<Octet>, end: seq<Octet>)
    requires Plain(line)
    requires Receive(DotStuff(tail) + end).Some?
    ensures Receive(DotStuff(line + CRLF + tail) + end)
         == Some(Received(line + CRLF + Receive(DotStuff(tail) + end).value.message, Receive(DotStuff(tail) + end).value.unread))
  {
    NextLineShape(line, tail, end);
    ReceiveStuffedLine(line, DotStuff(tail) + end);
  }

  lemma FinalCrlfAfterLine(line: seq<Octet>, tail: seq<Octet>)
    requires NoBareLineEnding(tail)
    ensures tail == [] ==> EndsWithCrlf(line + CRLF + tail) && WithFinalCrlf(line + CRLF + tail) == line + CRLF + []
    ensures tail != [] ==> EndsWithCrlf(line + CRLF + tail) == EndsWithCrlf(tail)
    ensures tail != [] ==> WithFinalCrlf(line + CRLF + tail) == line + CRLF + WithFinalCrlf(tail)
  {
    EndsAfterLine(line, tail);
    assert |tail| == 1 ==> tail[0] != LF;
    Regroup(line + CRLF, tail, CRLF);
  }

  lemma {:induction false} ReceiverRecoversClean(s: seq<Octet>, rest: seq<Octet>)
    requires NoBareLineEnding(s)
    ensures Receive(DotStuff(s) + (Terminator(EndsWithCrlf(s)) + rest)) == Some(Received(WithFinalCrlf(s), rest))
    decreases |s|
  {
    if CR !in s {
      PlainWithoutCr(s);
      LastLineShape(s, rest);
      ReceiverRecoversLastLine(s, rest);
    } else {
      var line, tail := SplitLine(s);
      FinalCrlfAfterLine(line, tail);
      if tail == [] {
        ReceiveMark(rest);
        assert DotStuff(tail) + (Terminator(true) + rest) == [DOT] + CRLF + rest;
      } else {
        ReceiverRecoversClean(tail, rest);
      }
      ReceiverRecoversNextLine(line, tail, Terminator(EndsWithCrlf(s)) + rest);
    }
  }

  /**
   For every message and every octets that follow on the connection, the receiver stops exactly
   at the end of the stream and holds the normalised message, one CRLF added iff it lacked one.
   */
  lemma ReceiverRecoversMessage(data: seq<Octet>, rest: seq<Octet>)
    ensures Receive(Stream(data) + rest) == Some(Received(WithFinalCrlf(Normalize(data)), rest))
  {
    NormalizeLeavesNoBareLineEnding(data);
    StuffKeepsEnding(Normalize(data));
    ReceiverRecoversClean(Normalize(data), rest);
    var stuffed := DotStuff(Normalize(data));
    Regroup(stuffed, Terminator(EndsWithCrlf(stuffed)), rest);
  }

  /** No receiver can stop early: every proper prefix of the stream is still waiting for its mark. */
  lemma {:induction false} PrefixIsIncomplete(stream: seq<Octet>, cut: nat, unread: seq<Octet>)
    requires Receive(stream).Some? && Receive(stream).value.unread == unread
    requires cut < |stream| - |unread|
    ensures Receive(stream[..cut]).None?
    decreases |stream|
  {
    hide FirstCrlf;
    var k := FirstCrlf(stream);
    var part := stream[..cut];
    CutBeforeCrlf(stream, cut);
    if cut >= k + 2 && stream[..k] != [DOT] {
      assert part[k + 2..] == stream[k + 2..][..cut - (k + 2)];
      PrefixIsIncomplete(stream[k + 2..], cut - (k + 2), unread);
    }
  }

  /** Cutting a stream leaves its first CRLF where it is, or takes it away. */
  lemma CutBeforeCrlf(s: seq<Octet>, cut: nat)
    requires cut <= |s|
    ensures var k := FirstCrlf(s);
      if cut < k + 2 then FirstCrlf(s[..cut]) == cut
      else FirstCrlf(s[..cut]) == k && s[..cut][..k] == s[..k]
  {
    var k, part := FirstCrlf(s), s[..cut];
    var j := FirstCrlf(part);
    hide FirstCrlf;
    assert forall i :: 0 <= i < |part| ==> part[i] == s[i];
    if j < |part| {
      assert s[j] == CR && s[j + 1] == LF;
    }
    if cut >= k + 2 {
      assert part[k] == CR && part[k + 1] == LF;
    }
  }

  /** Whatever the message, what is written ends with CRLF, a dot and CRLF. */
  lemma EndsWithMark(data: seq<Octet>)
    ensures var stuffed := DotStuff(Normalize(data)); var stream := stuffed + Terminator(EndsWithCrlf(stuffed));
      |stream| >= 5 && stream[|stream| - 5..] == [13, 10, 46, 13, 10]
  {
    var stuffed := DotStuff(Normalize(data));
    hide DotStuff, Normalize;
    MarkEnds(stuffed);
  }

  lemma MarkEnds(stuffed: seq<Octet>)
    ensures var stream := stuffed + Terminator(EndsWithCrlf(stuffed));
      |stream| >= 5 && stream[|stream| - 5..] == [13, 10, 46, 13, 10]
  {
    if EndsWithCrlf(stuffed) {
      assert stuffed == stuffed[..|stuffed| - 2] + [13, 10];
    }
  }
}
