/**
 Header lines of mime.go: foldHeaderLine, and the unfolding reader of section 2.2.3 of RFC 5322.
 Octets are shown as characters.
 */
module HeaderFolding {
  import opened Octets

  const SOFT_LIMIT := 78
  const HARD_LIMIT := 998

  predicate IsSpace(c: char) { c == ' ' || c == '\t' }

  predicate HasCrLf(s: string) { '\r' in s || '\n' in s }

  predicate NameChar(c: char) {
    || 'A' <= c <= 'Z' || 'a' <= c <= 'z' || '0' <= c <= '9'
    || c in "!#$%&'*+-/=?^_`{|}~"
  }

  predicate IsValidHeaderName(name: string) {
    name != "" && forall i :: 0 <= i < |name| ==> NameChar(name[i])
  }

  /** The length of the whitespace run at the front. */
  function SpaceRun(s: string): (n: nat)
    ensures n <= |s| && (n < |s| ==> !IsSpace(s[n]))
  {
    if s == "" || !IsSpace(s[0]) then 0 else SpaceRun(s[1..]) + 1
  }

  /** The length of the word at the front. */
  function WordRun(s: string): (n: nat)
    ensures n <= |s| && (n < |s| ==> IsSpace(s[n]))
  {
    if s == "" || IsSpace(s[0]) then 0 else WordRun(s[1..]) + 1
  }

  /** One turn of the loop: the whitespace, the word, and what is left. */
  datatype Piece = Piece(space: string, word: string, rest: string)

  function NextPiece(s: string): (p: Piece)
    ensures |p.space| + |p.word| + |p.rest| == |s| && (s != "" ==> |p.rest| < |s|)
    ensures p.word == "" ==> p.rest == ""
  {
    var n := SpaceRun(s);
    var m := WordRun(s[n..]);
    Piece(s[..n], s[n..][..m], s[n..][m..])
  }

  /** Whether the line is folded before the word of `p`. */
  predicate FoldsBefore(p: Piece, first: bool, lineLength: nat, prefix: nat) {
    !first && lineLength + |p.space| + |p.word| > SOFT_LIMIT && lineLength > prefix
  }

  /** What is written between the line so far and the word of `p`. */
  function Separator(p: Piece, first: bool, lineLength: nat, prefix: nat): string {
    if FoldsBefore(p, first, lineLength, prefix) then "\r\n " else p.space
  }

  /** The length of the physical line once the word of `p` is written. */
  function Extended(p: Piece, first: bool, lineLength: nat, prefix: nat): nat {
    (if FoldsBefore(p, first, lineLength, prefix) then 1 else lineLength + |p.space|) + |p.word|
  }

  /** The folded form of the rest of a value, None when a line would exceed the hard limit. */
  function FoldRest(s: string, first: bool, lineLength: nat, prefix: nat): Option<string>
    decreases |s|
  {
    if s == "" then Some("")
    else
      var p := NextPiece(s);
      if p.word == "" then (if lineLength + |p.space| > HARD_LIMIT then None else Some(p.space))
      else
        var length := Extended(p, first, lineLength, prefix);
        if length > HARD_LIMIT then None
        else
          var more := FoldRest(p.rest, false, length, prefix);
          if more.None? then None else Some(Separator(p, first, lineLength, prefix) + p.word + more.value)
  }

  /** The text of one header, None when it is refused. */
  function Folded(name: string, value: string): Option<string> {
    if !IsValidHeaderName(name) || HasCrLf(value) then None
    else
      var body := FoldRest(value, true, |name| + 2, |name| + 2);
      if body.None? then None else Some(name + ": " + body.value + "\r\n")
  }

  /** Writing `whole` comes down to writing `rest` after `out`. */
  predicate Continues(whole: Option<string>, out: string, rest: Option<string>) {
    (whole.Some? <==> rest.Some?) && (whole.Some? ==> whole.value == out + rest.value)
  }

  lemma FoldStep(s: string, first: bool, lineLength: nat, prefix: nat, whole: Option<string>, out: string, p: Piece)
    requires s != "" && p == NextPiece(s) && Continues(whole, out, FoldRest(s, first, lineLength, prefix))
    ensures p.word == "" && lineLength + |p.space| > HARD_LIMIT ==> whole.None?
    ensures p.word == "" && lineLength + |p.space| <= HARD_LIMIT ==> whole == Some(out + p.space)
    ensures p.word != "" && Extended(p, first, lineLength, prefix) > HARD_LIMIT ==> whole.None?
    ensures p.word != "" && Extended(p, first, lineLength, prefix) <= HARD_LIMIT ==>
              Continues(whole, out + (Separator(p, first, lineLength, prefix) + p.word),
                        FoldRest(p.rest, false, Extended(p, first, lineLength, prefix), prefix))
  {
    hide NextPiece;
    if p.word != "" && whole.Some? {
      hide Separator, Extended;
      var more := FoldRest(p.rest, false, Extended(p, first, lineLength, prefix), prefix).value;
      var written := Separator(p, first, lineLength, prefix) + p.word;
      assert out + (written + more) == (out + written) + more;
    }
  }

  lemma {:induction false} SpaceRunAt(value: string, i: nat, j: nat)
    requires i <= j <= |value| && (forall k :: i <= k < j ==> IsSpace(value[k])) && (j < |value| ==> !IsSpace(value[j]))
    ensures SpaceRun(value[i..]) == j - i
    decreases j - i
  {
    if i < j {
      assert value[i..][1..] == value[i + 1..];
      SpaceRunAt(value, i + 1, j);
    }
  }

  lemma {:induction false} WordRunAt(value: string, i: nat, j: nat)
    requires i <= j <= |value| && (forall k :: i <= k < j ==> !IsSpace(value[k])) && (j < |value| ==> IsSpace(value[j]))
    ensures WordRun(value[i..]) == j - i
    decreases j - i
  {
    if i < j {
      assert value[i..][1..] == value[i + 1..];
      WordRunAt(value, i + 1, j);
    }
  }

  lemma Slices(value: string, i: nat, j: nat, k: nat)
    requires i <= j <= k <= |value|
    ensures value[i..][j - i..] == value[j..] && value[i..][..j - i] == value[i..j]
    ensures value[j..][k - j..] == value[k..] && value[j..][..k - j] == value[j..k]
  {
  }

  lemma ScannedPiece(value: string, i: nat, j: nat, k: nat)
    requires i <= j <= k <= |value|
    requires SpaceRun(value[i..]) == j - i && WordRun(value[j..]) == k - j
    ensures NextPiece(value[i..]) == Piece(value[i..j], value[j..k], value[k..])
  {
    hide SpaceRun, WordRun;
    Slices(value, i, j, k);
  }

  /** The two inner loops: the next run of whitespace and the next word. */
  method ScanPiece(value: string, i: nat) returns (j: nat, k: nat)
    requires i < |value|
    ensures i <= j <= k <= |value| && i < k
    ensures NextPiece(value[i..]) == Piece(value[i..j], value[j..k], value[k..])
  {
    hide NextPiece, SpaceRun, WordRun;
    j := i;
    while j < |value| && IsSpace(value[j])
      invariant i <= j <= |value| && forall x :: i <= x < j ==> IsSpace(value[x])
    {
      j := j + 1;
    }
    k := j;
    while k < |value| && !IsSpace(value[k])
      invariant j <= k <= |value| && forall x :: j <= x < k ==> !IsSpace(value[x])
    {
      k := k + 1;
    }
    SpaceRunAt(value, i, j);
    WordRunAt(value, j, k);
    ScannedPiece(value, i, j, k);
  }

  /** Whitespace and a word put on the line, or the word on the next line. */
  method WriteWord(p: Piece, first: bool, before: nat, prefix: nat, written: string)
    returns (ok: bool, out: string, lineLength: nat)
    ensures lineLength == Extended(p, first, before, prefix) && (ok <==> lineLength <= HARD_LIMIT)
    ensures ok ==> out == written + (Separator(p, first, before, prefix) + p.word)
  {
    var space := p.space;
    out, lineLength := written, before;
    if !first && lineLength + |space| + |p.word| > SOFT_LIMIT && lineLength > prefix {
      space := "\r\n ";
      lineLength := 1;
    } else {
      lineLength := lineLength + |space|;
    }
    lineLength := lineLength + |p.word|;
    ok := lineLength <= HARD_LIMIT;
    out := out + (space + p.word);
  }

  /** The loop of foldHeaderLine over the pieces of the value. */
  method FoldValue(value: string, prefix: string) returns (ok: bool, out: string)
    ensures var body := FoldRest(value, true, |prefix|, |prefix|);
            (ok <==> body.Some?) && (ok ==> out == prefix + body.value)
  {
    out := prefix;
    var lineLength: nat := |prefix|;
    var i := 0;
    ghost var body := FoldRest(value, true, |prefix|, |prefix|);
    ghost var whole := if body.None? then None else Some(prefix + body.value);
    hide FoldRest, NextPiece, Continues, Extended, Separator;
    ContinuesFromStart(prefix, body);
    while i < |value|
      invariant 0 <= i <= |value|
      invariant Continues(whole, out, FoldRest(value[i..], i == 0, lineLength, |prefix|))
    {
      var j, k := ScanPiece(value, i);
      var p := Piece(value[i..j], value[j..k], value[k..]);
      FoldStep(value[i..], i == 0, lineLength, |prefix|, whole, out, p);
      if p.word == "" {
        lineLength := lineLength + |p.space|;
        if lineLength > HARD_LIMIT {
          return false, out;
        }
        out := out + p.space;
        WholeWritten(whole, out, value[k..], lineLength, |prefix|);
      } else {
        ok, out, lineLength := WriteWord(p, i == 0, lineLength, |prefix|, out);
        if !ok {
          return;
        }
      }
      i := k;
    }
    assert value[i..] == "";
    WholeWritten(whole, out, "", lineLength, |prefix|);
    ok := true;
  }

  /** foldHeaderLine. What was written before an error is discarded by the callers. */
  method FoldHeaderLine(name: string, value: string) returns (ok: bool, out: string)
    ensures ok <==> Folded(name, value).Some?
    ensures ok ==> out == Folded(name, value).value
  {
    hide FoldRest;
    if !IsValidHeaderName(name) || HasCrLf(value) {
      return false, "";
    }
    ok, out := FoldValue(value, name + ": ");
    out := out + "\r\n";
  }

  lemma ContinuesFromStart(prefix: string, body: Option<string>)
    ensures Continues(if body.None? then None else Some(prefix + body.value), prefix, body)
  {
  }

  lemma WholeWritten(whole: Option<string>, out: string, rest: string, lineLength: nat, prefix: nat)
    ensures rest == "" && whole == Some(out) ==> Continues(whole, out, FoldRest(rest, false, lineLength, prefix))
    ensures forall first :: rest == "" && Continues(whole, out, FoldRest(rest, first, lineLength, prefix)) ==> whole == Some(out)
  {
    assert out + "" == out;
  }
}
