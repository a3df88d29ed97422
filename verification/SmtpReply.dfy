/**
 Reading replies in transport/smtp/smtp.go: readResponse and parseCode over the octets of a
 connection, and the reply grammar of section 4.2.1 of RFC 5321. Octets are shown as characters.
 */
module SmtpReply {
  import Decimals

  const MAX_RESPONSE_SIZE := 65536

  datatype Reading = Response(text: string) | TooLong | Truncated

  // ----- the reader -----

  /** The length of the first line of `s` with its newline, 0 when the stream ends before one. */
  function LineLength(s: string): (n: nat)
    ensures n <= |s|
    ensures n > 0 ==> s[n - 1] == '\n' && '\n' !in s[..n - 1]
    ensures n == 0 ==> '\n' !in s
  {
    if s == "" then 0
    else if s[0] == '\n' then 1
    else
      var n := LineLength(s[1..]);
      if n == 0 then 0
      else
        assert s[..n] == [s[0]] + s[1..][..n - 1];
        n + 1
  }

  /** A line that more lines of the same reply follow. */
  predicate Continued(line: string) {
    |line| >= 4 && line[3] == '-'
  }

  /** What readResponse returns from `stream` when `size` octets of the reply are buffered already. */
  function Read(stream: string, buffered: string): Reading
    decreases |stream|
  {
    var n := LineLength(stream);
    var line := if n == 0 then stream else stream[..n];
    if |buffered + line| > MAX_RESPONSE_SIZE then TooLong
    else if n == 0 then Truncated
    else if Continued(line) then Read(stream[n..], buffered + line)
    else Response(buffered + line)
  }

  /** readResponse: the loop over ReadString('\n'), and what it leaves unread. */
  method ReadResponse(stream: string) returns (r: Reading, unread: string)
    ensures r == Read(stream, "")
    ensures r.Response? ==> stream == r.text + unread
  {
    hide Read, LineLength, Continued;
    var buffered := "";
    unread := stream;
    assert "" + stream == stream;
    while true
      invariant stream == buffered + unread
      invariant Read(stream, "") == Read(unread, buffered)
      decreases |unread|
    {
      ReadStep(unread, buffered);
      var n := LineLength(unread);
      var line := if n == 0 then unread else unread[..n];
      Regroup(buffered, line, if n == 0 then "" else unread[n..]);
      buffered := buffered + line;
      if |buffered| > MAX_RESPONSE_SIZE {
        return TooLong, unread;
      }
      if n == 0 {
        return Truncated, "";
      }
      unread := unread[n..];
      if !Continued(line) {
        return Response(buffered), unread;
      }
    }
  }

  lemma ReadStep(stream: string, buffered: string)
    ensures var n := LineLength(stream);
      var line := if n == 0 then stream else stream[..n];
      && n <= |stream| && stream == line + (if n == 0 then "" else stream[n..])
      && Read(stream, buffered) ==
           if |buffered + line| > MAX_RESPONSE_SIZE then TooLong
           else if n == 0 then Truncated
           else if Continued(line) then Read(stream[n..], buffered + line)
           else Response(buffered + line)
  {
    hide LineLength, Continued;
  }

  lemma Regroup(a: string, b: string, c: string)
    ensures a + (b + c) == (a + b) + c
  {
  }

  // ----- the grammar -----

  /** A reply: its three-digit code and the text of each of its lines, of which there is at least one. */
  datatype WireReply = WireReply(code: string, texts: seq<string>)

  predicate TextString(t: string) {
    '\r' !in t && '\n' !in t
  }

  predicate WellFormed(r: WireReply) {
    && |r.code| == 3 && (forall i :: 0 <= i < 3 ==> '0' <= r.code[i] <= '9')
    && r.texts != [] && (forall i :: 0 <= i < |r.texts| ==> TextString(r.texts[i]))
  }

  function PrintLines(code: string, texts: seq<string>): string
    requires texts != []
  {
    if |texts| == 1 then code + " " + texts[0] + "\r\n"
    else code + "-" + texts[0] + "\r\n" + PrintLines(code, texts[1..])
  }

  /** The octets of a reply. */
  function Print(r: WireReply): string
    requires WellFormed(r)
  {
    PrintLines(r.code, r.texts)
  }

  // ----- reading what was printed -----

  /** A line with its newline, which is its only one. */
  predicate IsLine(line: string) {
    line != "" && line[|line| - 1] == '\n' && '\n' !in line[..|line| - 1]
  }

  lemma {:induction false} LineOf(line: string, rest: string)
    requires IsLine(line)
    ensures LineLength(line + rest) == |line|
  {
    var s := line + rest;
    assert s[0] == line[0];
    if |line| > 1 {
      assert line[0] in line[..|line| - 1];
      assert s[1..] == line[1..] + rest;
      assert line[1..][..|line| - 2] == line[..|line| - 1][1..];
      LineOf(line[1..], rest);
    }
  }

  /** One turn of the reader. */
  lemma ReadLine(line: string, rest: string, buffered: string)
    requires IsLine(line) && |buffered + line| <= MAX_RESPONSE_SIZE
    ensures Read(line + rest, buffered) == (if Continued(line) then Read(rest, buffered + line) else Response(buffered + line))
  {
    LineOf(line, rest);
    assert (line + rest)[..|line|] == line && (line + rest)[|line|..] == rest;
  }

  function Line(code: string, mark: char, text: string): string {
    code + [mark] + text + "\r\n"
  }

  lemma LineShape(code: string, mark: char, text: string)
    requires |code| == 3 && (forall i :: 0 <= i < 3 ==> '0' <= code[i] <= '9') && TextString(text) && mark != '\n'
    ensures IsLine(Line(code, mark, text)) && (Continued(Line(code, mark, text)) <==> mark == '-')
  {
    var line := Line(code, mark, text);
    assert line[..|line| - 1] == code + [mark] + text + "\r";
  }

  lemma {:induction false} ReadPrinted(code: string, texts: seq<string>, rest: string, buffered: string)
    requires texts != [] && WellFormed(WireReply(code, texts))
    requires |buffered| + |PrintLines(code, texts)| <= MAX_RESPONSE_SIZE
    ensures Read(PrintLines(code, texts) + rest, buffered) == Response(buffered + PrintLines(code, texts))
    decreases |texts|
  {
    hide Read, IsLine, Continued;
    if |texts| == 1 {
      LineShape(code, ' ', texts[0]);
      ReadLine(Line(code, ' ', texts[0]), rest, buffered);
    } else {
      var line := Line(code, '-', texts[0]);
      var more := PrintLines(code, texts[1..]);
      assert PrintLines(code, texts) == line + more;
      LineShape(code, '-', texts[0]);
      ReadLine(line, more + rest, buffered);
      assert (line + more) + rest == line + (more + rest);
      ReadPrinted(code, texts[1..], rest, buffered + line);
      assert buffered + line + more == buffered + (line + more);
    }
  }

  // ----- truncation -----

  /** A stream that ends inside a line gives an error. */
  lemma CutLine(part: string, buffered: string)
    requires '\n' !in part && |buffered| + |part| <= MAX_RESPONSE_SIZE
    ensures Read(part, buffered).Truncated?
  {
  }

  lemma LineAt(stream: string, n: nat)
    requires 0 < n == LineLength(stream)
    ensures IsLine(stream[..n])
    ensures forall cut: nat :: cut < n ==> '\n' !in stream[..cut]
  {
    assert stream[..n][..n - 1] == stream[..n - 1];
    forall cut: nat | cut < n ensures '\n' !in stream[..cut] {
      assert stream[..cut] == stream[..n - 1][..cut];
    }
  }

  /** A response is what was buffered and a prefix of the stream. */
  lemma {:induction false} ResponseIsPrefix(stream: string, buffered: string)
    requires Read(stream, buffered).Response?
    ensures var text := Read(stream, buffered).text;
            |buffered| <= |text| <= |buffered| + |stream| && text == buffered + stream[..|text| - |buffered|]
    decreases |stream|
  {
    var n := LineLength(stream);
    var line := stream[..n];
    if Continued(line) {
      ResponseIsPrefix(stream[n..], buffered + line);
      var m := |Read(stream, buffered).text| - |buffered|;
      assert line + stream[n..][..m - n] == stream[..m];
    }
  }

  /** A stream cut anywhere inside a reply gives an error, never a shorter reply. */
  lemma {:induction false} CutRepliesAreErrors(stream: string, buffered: string, cut: nat)
    requires Read(stream, buffered).Response?
    requires |buffered| + cut < |Read(stream, buffered).text|
    ensures cut <= |stream| && Read(stream[..cut], buffered).Truncated?
    decreases |stream|
  {
    hide Read, LineLength, IsLine, Continued;
    ResponseIsPrefix(stream, buffered);
    ReadStep(stream, buffered);
    var n := LineLength(stream);
    var line := stream[..n];
    LineAt(stream, n);
    if cut < n {
      LineIsRead(stream, buffered);
      CutLine(stream[..cut], buffered);
    } else {
      CutRepliesAreErrors(stream[n..], buffered + line, cut - n);
      LineIsRead(stream, buffered);
      ReadLine(line, stream[n..][..cut - n], buffered);
      Pieces(stream, n, cut);
    }
  }

  lemma Pieces(stream: string, n: nat, cut: nat)
    requires n <= cut <= |stream|
    ensures stream[..cut] == stream[..n] + stream[n..][..cut - n]
  {
  }

  /** A line of a reply that is returned was within the size limit. */
  lemma LineIsRead(stream: string, buffered: string)
    requires Read(stream, buffered).Response?
    ensures 0 < LineLength(stream) <= |stream| && |buffered| + LineLength(stream) <= MAX_RESPONSE_SIZE
  {
    hide LineLength, Continued;
  }

  // ----- the code -----

  /** parseCode: strconv.Atoi of the first three octets, 0 when there are fewer or they are no number. */
  function ParseCode(text: string): int {
    if |text| < 3 then 0
    else
      var s := text[..3];
      if Decimals.AllDigits(s) then Decimals.Value(s)
      else if s[0] == '+' && Decimals.AllDigits(s[1..]) then Decimals.Value(s[1..])
      else if s[0] == '-' && Decimals.AllDigits(s[1..]) then 0 - Decimals.Value(s[1..])
      else 0
  }

  lemma CodeOfPrinted(r: WireReply)
    requires WellFormed(r)
    ensures ParseCode(Print(r)) == Decimals.Value(r.code)
  {
    assert Print(r)[..3] == r.code;
  }

  // ----- synchronisation -----

  function PrintAll(replies: seq<WireReply>): string
    requires forall i :: 0 <= i < |replies| ==> WellFormed(replies[i])
  {
    if replies == [] then "" else Print(replies[0]) + PrintAll(replies[1..])
  }

  /** Successive calls of readResponse until one fails. */
  function ReadAll(stream: string, calls: nat): seq<string>
    decreases calls
  {
    if calls == 0 || !Read(stream, "").Response? then []
    else
      var text := Read(stream, "").text;
      ResponseIsPrefix(stream, "");
      [text] + ReadAll(stream[|text|..], calls - 1)
  }

  lemma FirstReply(r: WireReply, rest: string)
    requires WellFormed(r) && |Print(r)| <= MAX_RESPONSE_SIZE
    ensures Read(Print(r) + rest, "") == Response(Print(r))
  {
    ReadPrinted(r.code, r.texts, rest, "");
    assert "" + Print(r) == Print(r);
  }

  /** On a stream of well-formed replies of at most 65536 octets each, the k-th call returns the k-th reply. */
  lemma {:induction false} RepliesStaySynchronised(replies: seq<WireReply>, rest: string)
    requires forall i :: 0 <= i < |replies| ==> WellFormed(replies[i]) && |Print(replies[i])| <= MAX_RESPONSE_SIZE
    ensures var texts := ReadAll(PrintAll(replies) + rest, |replies|);
            |texts| == |replies| && forall i :: 0 <= i < |replies| ==> texts[i] == Print(replies[i])
    decreases |replies|
  {
    hide Read, Print;
    if replies != [] {
      var first := Print(replies[0]);
      var more := PrintAll(replies[1..]) + rest;
      var stream := PrintAll(replies) + rest;
      FirstReply(replies[0], more);
      assert stream == first + more && stream[|first|..] == more;
      RepliesStaySynchronised(replies[1..], rest);
    }
  }

  /** One turn of the reader that finds the reply too long. */
  lemma ReadLongLine(line: string, rest: string, buffered: string)
    requires IsLine(line) && |buffered + line| > MAX_RESPONSE_SIZE
    ensures Read(line + rest, buffered) == TooLong
  {
    LineOf(line, rest);
    assert (line + rest)[..|line|] == line;
  }

  lemma {:induction false} LongReplyIsRefused(code: string, texts: seq<string>, rest: string, buffered: string)
    requires texts != [] && WellFormed(WireReply(code, texts))
    requires |buffered| + |PrintLines(code, texts)| > 65536
    ensures Read(PrintLines(code, texts) + rest, buffered) == TooLong
    decreases |texts|
  {
    hide Read, IsLine, Continued;
    if |texts| == 1 {
      LineShape(code, ' ', texts[0]);
      ReadLongLine(Line(code, ' ', texts[0]), rest, buffered);
    } else {
      var line := Line(code, '-', texts[0]);
      var more := PrintLines(code, texts[1..]);
      assert PrintLines(code, texts) == line + more;
      LineShape(code, '-', texts[0]);
      assert (line + more) + rest == line + (more + rest);
      if |buffered + line| > MAX_RESPONSE_SIZE {
        ReadLongLine(line, more + rest, buffered);
      } else {
        ReadLine(line, more + rest, buffered);
        LongReplyIsRefused(code, texts[1..], rest, buffered + line);
      }
    }
  }

  /** A well-formed reply is read whole exactly if it has at most 65536 octets, and is refused as too long otherwise. */
  lemma ReadsExactly(r: WireReply, rest: string)
    requires WellFormed(r)
    ensures Read(Print(r) + rest, "") == if |Print(r)| <= 65536 then Response(Print(r)) else TooLong
  {
    hide Read;
    if |Print(r)| <= 65536 {
      FirstReply(r, rest);
    } else {
      LongReplyIsRefused(r.code, r.texts, rest, "");
    }
  }
}
