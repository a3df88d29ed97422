/**
 What a reader of header fields (sections 2.1.1, 2.2 and 2.2.3 of RFC 5322) gets from folded
 headers: the same names and tokens, within the line limits.
 */
module HeaderReading {
  import opened Octets
  import opened Strings
  import opened HeaderFolding

  // ----- pieces -----

  predicate AllSpace(s: string) { forall i :: 0 <= i < |s| ==> IsSpace(s[i]) }

  predicate NoSpace(s: string) { forall i :: 0 <= i < |s| ==> !IsSpace(s[i]) }

  /** The end of the string, or whitespace. */
  predicate Bounded(s: string) { s == "" || IsSpace(s[0]) }

  lemma {:induction false} SpaceRunShape(s: string)
    ensures AllSpace(s[..SpaceRun(s)])
  {
    if s != "" && IsSpace(s[0]) {
      SpaceRunShape(s[1..]);
      assert s[..SpaceRun(s)] == [s[0]] + s[1..][..SpaceRun(s[1..])];
    }
  }

  lemma {:induction false} WordRunShape(s: string)
    ensures NoSpace(s[..WordRun(s)])
  {
    if s != "" && !IsSpace(s[0]) {
      WordRunShape(s[1..]);
      assert s[..WordRun(s)] == [s[0]] + s[1..][..WordRun(s[1..])];
    }
  }

  lemma PieceShape(s: string)
    ensures var p := NextPiece(s);
      s == p.space + p.word + p.rest && AllSpace(p.space) && NoSpace(p.word) && Bounded(p.rest)
  {
    var n := SpaceRun(s);
    SpaceRunShape(s);
    WordRunShape(s[n..]);
  }

  lemma {:induction false} SpaceRunOf(space: string, rest: string)
    requires AllSpace(space) && (rest == "" || !IsSpace(rest[0]))
    ensures SpaceRun(space + rest) == |space|
  {
    if space == "" {
      assert space + rest == rest;
    } else {
      assert (space + rest)[1..] == space[1..] + rest;
      SpaceRunOf(space[1..], rest);
    }
  }

  lemma {:induction false} WordRunOf(word: string, rest: string)
    requires NoSpace(word) && Bounded(rest)
    ensures WordRun(word + rest) == |word|
  {
    if word == "" {
      assert word + rest == rest;
    } else {
      assert (word + rest)[1..] == word[1..] + rest;
      WordRunOf(word[1..], rest);
    }
  }

  lemma PieceOf(space: string, word: string, rest: string)
    requires AllSpace(space) && word != "" && NoSpace(word) && Bounded(rest)
    ensures NextPiece(space + word + rest) == Piece(space, word, rest)
  {
    var s := space + word + rest;
    assert s == space + (word + rest);
    SpaceRunOf(space, word + rest);
    assert s[|space|..] == word + rest;
    WordRunOf(word, rest);
  }

  lemma PieceOfSpace(space: string)
    requires AllSpace(space)
    ensures NextPiece(space) == Piece(space, "", "")
  {
    assert space + "" == space;
    SpaceRunOf(space, "");
  }

  // ----- the value a reader sees -----

  /** The value after folding and unfolding: a run of whitespace where a fold was made has become one space. */
  function Respaced(s: string, first: bool, lineLength: nat, prefix: nat): string
    decreases |s|
  {
    if s == "" then ""
    else
      var p := NextPiece(s);
      if p.word == "" then p.space
      else
        (if FoldsBefore(p, first, lineLength, prefix) then " " else p.space) + p.word
        + Respaced(p.rest, false, Extended(p, first, lineLength, prefix), prefix)
  }

  /** The words of a value. */
  function Tokens(s: string): seq<string>
    decreases |s|
  {
    if s == "" then []
    else
      var p := NextPiece(s);
      (if p.word == "" then [] else [p.word]) + Tokens(p.rest)
  }

  lemma {:induction false} RespacedKeepsTokens(s: string, first: bool, lineLength: nat, prefix: nat)
    ensures Tokens(Respaced(s, first, lineLength, prefix)) == Tokens(s)
    ensures Bounded(s) ==> Bounded(Respaced(s, first, lineLength, prefix))
    decreases |s|
  {
    hide NextPiece, FoldsBefore, Extended;
    if s != "" {
      var p := NextPiece(s);
      PieceShape(s);
      if p.word == "" {
        PieceOfSpace(p.space);
        assert s == p.space;
      } else {
        var length := Extended(p, first, lineLength, prefix);
        var more := Respaced(p.rest, false, length, prefix);
        RespacedKeepsTokens(p.rest, false, length, prefix);
        var space := if FoldsBefore(p, first, lineLength, prefix) then " " else p.space;
        PieceOf(space, p.word, more);
        assert Respaced(s, first, lineLength, prefix) == space + p.word + more;
      }
    }
  }

  /** Every whitespace run is one space. */
  predicate SingleSpaced(s: string) {
    forall i :: 0 <= i < |s| ==> s[i] != '\t' && (s[i] == ' ' && i + 1 < |s| ==> s[i + 1] != ' ')
  }

  lemma SingleSpacedSuffix(a: string, b: string)
    requires SingleSpaced(a + b)
    ensures SingleSpaced(b)
  {
    forall i | 0 <= i < |b| ensures b[i] != '\t' && (b[i] == ' ' && i + 1 < |b| ==> b[i + 1] != ' ') {
      assert b[i] == (a + b)[i + |a|] && (i + 1 < |b| ==> b[i + 1] == (a + b)[i + 1 + |a|]);
    }
  }

  lemma NextIsNoSpace(s: string, i: nat)
    requires SingleSpaced(s) && i + 1 < |s| && s[i] == ' '
    ensures s[i + 1] != ' '
  {
  }

  lemma SpaceOfSingleSpaced(space: string, rest: string)
    requires SingleSpaced(space + rest) && AllSpace(space)
    ensures space == "" || space == " "
  {
    var s := space + rest;
    forall i | 0 <= i < |space| ensures s[i] == ' ' {
      assert s[i] == space[i] && IsSpace(space[i]);
    }
    if |space| >= 2 {
      NextIsNoSpace(s, 0);
      assert false;
    }
    assert |space| == 1 ==> s[0] == space[0];
  }

  lemma SingleSpacedPiece(s: string)
    requires SingleSpaced(s)
    ensures var p := NextPiece(s); (p.space == "" || p.space == " ") && SingleSpaced(p.rest)
  {
    var p := NextPiece(s);
    PieceShape(s);
    hide NextPiece, SingleSpaced;
    assert s == p.space + (p.word + p.rest) && s == (p.space + p.word) + p.rest;
    SpaceOfSingleSpaced(p.space, p.word + p.rest);
    SingleSpacedSuffix(p.space + p.word, p.rest);
  }

  lemma {:induction false} RespacedExact(s: string, first: bool, lineLength: nat, prefix: nat)
    requires SingleSpaced(s) && (first || Bounded(s))
    ensures Respaced(s, first, lineLength, prefix) == s
    decreases |s|
  {
    hide SingleSpaced, NextPiece, Extended;
    if s != "" {
      var p := NextPiece(s);
      PieceShape(s);
      SingleSpacedPiece(s);
      if p.word != "" {
        RespacedExact(p.rest, false, Extended(p, first, lineLength, prefix), prefix);
        assert p.space == "" ==> s[0] == p.word[0];
      }
    }
  }

  // ----- unfolding -----

  predicate StartsWithCrLf(s: string) { |s| >= 2 && s[0] == '\r' && s[1] == '\n' }

  /** Section 2.2.3 of RFC 5322: any CRLF that whitespace follows is removed. */
  function Unfold(s: string): string
    decreases |s|
  {
    if s == "" then ""
    else if StartsWithCrLf(s) && |s| > 2 && IsSpace(s[2]) then Unfold(s[2..])
    else [s[0]] + Unfold(s[1..])
  }

  predicate NoCr(s: string) { '\r' !in s }

  lemma {:induction false} UnfoldPlain(a: string, tail: string)
    requires NoCr(a)
    ensures Unfold(a + tail) == a + Unfold(tail)
    decreases |a|
  {
    if a == "" {
      assert a + tail == tail;
    } else {
      assert (a + tail)[1..] == a[1..] + tail;
      UnfoldPlain(a[1..], tail);
    }
  }

  lemma UnfoldFold(tail: string)
    ensures Unfold("\r\n " + tail) == " " + Unfold(tail)
  {
    var s := "\r\n " + tail;
    assert s[2..] == " " + tail && (" " + tail)[1..] == tail;
  }

  lemma UnfoldLineEnd(tail: string)
    requires tail == "" || !IsSpace(tail[0])
    ensures Unfold("\r\n" + tail) == "\r\n" + Unfold(tail)
  {
    var s := "\r\n" + tail;
    assert s[1..] == "\n" + tail && ("\n" + tail)[1..] == tail;
  }

  lemma NoCrPiece(s: string)
    requires NoCr(s)
    ensures var p := NextPiece(s); NoCr(p.space) && NoCr(p.word) && NoCr(p.rest)
  {
    PieceShape(s);
    var p := NextPiece(s);
    assert forall c :: c in p.space || c in p.word || c in p.rest ==> c in s;
  }

  lemma UnfoldWord(p: Piece, first: bool, lineLength: nat, prefix: nat, more: string)
    requires NoCr(p.space) && NoCr(p.word)
    ensures Unfold(Separator(p, first, lineLength, prefix) + p.word + more)
         == (if FoldsBefore(p, first, lineLength, prefix) then " " else p.space) + p.word + Unfold(more)
  {
    hide Unfold, NoCr;
    UnfoldPlain(p.word, more);
    var word := p.word;
    if FoldsBefore(p, first, lineLength, prefix) {
      assert "\r\n " + word + more == "\r\n " + (word + more);
      UnfoldFold(word + more);
      assert " " + word + Unfold(more) == " " + (word + Unfold(more));
    } else {
      assert p.space + word + more == p.space + (word + more);
      UnfoldPlain(p.space, word + more);
      assert p.space + word + Unfold(more) == p.space + (word + Unfold(more));
    }
  }

  lemma {:induction false} UnfoldRest(s: string, first: bool, lineLength: nat, prefix: nat, tail: string)
    requires NoCr(s) && FoldRest(s, first, lineLength, prefix).Some?
    ensures Unfold(FoldRest(s, first, lineLength, prefix).value + tail) == Respaced(s, first, lineLength, prefix) + Unfold(tail)
    decreases |s|
  {
    hide NextPiece, Extended, Unfold, NoCr, Separator, FoldsBefore;
    if s == "" {
      assert "" + tail == tail && "" + Unfold(tail) == Unfold(tail);
    } else {
      var p := NextPiece(s);
      NoCrPiece(s);
      if p.word == "" {
        UnfoldPlain(p.space, tail);
      } else {
        var length := Extended(p, first, lineLength, prefix);
        var more := FoldRest(p.rest, false, length, prefix).value;
        var seen := Respaced(p.rest, false, length, prefix);
        UnfoldRest(p.rest, false, length, prefix, tail);
        UnfoldWord(p, first, lineLength, prefix, more + tail);
        var separator := Separator(p, first, lineLength, prefix);
        var space := if FoldsBefore(p, first, lineLength, prefix) then " " else p.space;
        assert separator + p.word + more + tail == separator + p.word + (more + tail);
        assert space + p.word + seen + Unfold(tail) == space + p.word + (seen + Unfold(tail));
      }
    }
  }

  // ----- reading fields -----

  datatype Field = Field(name: string, value: string)

  /** A line of the form name, colon, space, value. */
  function ReadField(line: string): Option<Field> {
    var k := Index(line, ':');
    if k + 1 < |line| && line[k + 1] == ' ' then Some(Field(line[..k], line[k + 2..])) else None
  }

  /** The fields of an unfolded header block, None when it is not one. */
  function ReadFields(s: string): Option<seq<Field>>
    decreases |s|
  {
    if s == "" then Some([])
    else
      var k := Index(s, '\r');
      if k + 1 >= |s| || s[k + 1] != '\n' then None
      else
        var field, more := ReadField(s[..k]), ReadFields(s[k + 2..]);
        if field.None? || more.None? then None else Some([field.value] + more.value)
  }

  lemma ReadFieldOf(name: string, value: string)
    requires ':' !in name
    ensures ReadField(name + ": " + value) == Some(Field(name, value))
  {
    var line := name + ": " + value;
    assert line == name + (": " + value);
    IndexOf(name, ':', ": " + value);
    hide Index;
    assert line[..|name|] == name && line[|name| + 2..] == value;
  }

  lemma ReadFieldsCons(name: string, value: string, rest: string)
    requires ':' !in name && NoCr(name) && NoCr(value) && ReadFields(rest).Some?
    ensures ReadFields(name + ": " + value + "\r\n" + rest) == Some([Field(name, value)] + ReadFields(rest).value)
  {
    var line := name + ": " + value;
    var s := line + "\r\n" + rest;
    assert s == line + ("\r\n" + rest);
    IndexOf(line, '\r', "\r\n" + rest);
    hide Index, ReadField;
    assert s[..|line|] == line && s[|line| + 2..] == rest;
    ReadFieldOf(name, value);
  }

  lemma ValidNameShape(name: string)
    requires IsValidHeaderName(name)
    ensures ':' !in name && NoCr(name) && !IsSpace(name[0])
  {
    assert !NameChar(':') && !NameChar('\r') && !NameChar(' ') && !NameChar('\t');
  }

  /** A header as the reader sees it. */
  function Seen(f: Field): Field {
    Field(f.name, Respaced(f.value, true, |f.name| + 2, |f.name| + 2))
  }

  function SeenAll(fields: seq<Field>): seq<Field> {
    if fields == [] then [] else [Seen(fields[0])] + SeenAll(fields[1..])
  }

  predicate Foldable(fields: seq<Field>) {
    forall i :: 0 <= i < |fields| ==> Folded(fields[i].name, fields[i].value).Some?
  }

  /** The header block that a sequence of successful calls of foldHeaderLine writes. */
  function FoldAll(fields: seq<Field>): string
    requires Foldable(fields)
  {
    if fields == [] then "" else Folded(fields[0].name, fields[0].value).value + FoldAll(fields[1..])
  }

  lemma {:induction false} RespacedNoCr(s: string, first: bool, lineLength: nat, prefix: nat)
    requires NoCr(s)
    ensures NoCr(Respaced(s, first, lineLength, prefix))
    decreases |s|
  {
    if s != "" {
      hide NextPiece;
      NoCrPiece(s);
      var p := NextPiece(s);
      if p.word != "" {
        RespacedNoCr(p.rest, false, Extended(p, first, lineLength, prefix), prefix);
      }
    }
  }

  lemma UnfoldFolded(f: Field, tail: string)
    requires Folded(f.name, f.value).Some? && (tail == "" || !IsSpace(tail[0]))
    ensures Unfold(Folded(f.name, f.value).value + tail) == Seen(f).name + ": " + Seen(f).value + "\r\n" + Unfold(tail)
  {
    hide FoldRest, Respaced, Unfold, IsValidHeaderName;
    var n := |f.name| + 2;
    var body := FoldRest(f.value, true, n, n).value;
    ValidNameShape(f.name);
    var prefix := f.name + ": ";
    assert Folded(f.name, f.value).value + tail == prefix + (body + ("\r\n" + tail));
    UnfoldPlain(prefix, body + ("\r\n" + tail));
    UnfoldRest(f.value, true, n, n, "\r\n" + tail);
    UnfoldLineEnd(tail);
  }

  lemma {:induction false} BlockIsRead(fields: seq<Field>)
    requires Foldable(fields)
    ensures ReadFields(Unfold(FoldAll(fields))) == Some(SeenAll(fields))
    ensures FoldAll(fields) == "" || !IsSpace(FoldAll(fields)[0])
    decreases |fields|
  {
    hide Respaced, Unfold, ReadFields, IsValidHeaderName, FoldRest;
    if fields == [] {
      EmptyBlock();
    } else {
      var f, tail := fields[0], FoldAll(fields[1..]);
      BlockIsRead(fields[1..]);
      UnfoldFolded(f, tail);
      ValidNameShape(f.name);
      RespacedNoCr(f.value, true, |f.name| + 2, |f.name| + 2);
      ReadFieldsCons(f.name, Seen(f).value, Unfold(tail));
    }
  }

  lemma EmptyBlock()
    ensures ReadFields(Unfold("")) == Some([])
  {
  }

  /** The same name, the same words, and the same value when every whitespace run in it is one space. */
  predicate Survives(seen: Field, f: Field) {
    seen.name == f.name && Tokens(seen.value) == Tokens(f.value) && (SingleSpaced(f.value) ==> seen.value == f.value)
  }

  lemma SeenSurvives(f: Field)
    ensures Survives(Seen(f), f)
  {
    hide Respaced, Tokens, SingleSpaced;
    var n := |f.name| + 2;
    RespacedKeepsTokens(f.value, true, n, n);
    if SingleSpaced(f.value) {
      RespacedExact(f.value, true, n, n);
    }
  }

  /**
   Whatever headers were folded one after the other, a reader that unfolds the block gets the same
   names in the same order and in each value the same words; the very same value when every
   whitespace run in it is one space.
   */
  lemma {:induction false} HeadersSurviveFolding(fields: seq<Field>)
    requires Foldable(fields)
    ensures var seen := ReadFields(Unfold(FoldAll(fields)));
      && seen.Some? && |seen.value| == |fields|
      && forall i :: 0 <= i < |fields| ==> Survives(seen.value[i], fields[i])
  {
    BlockIsRead(fields);
    SeenAllAt(fields);
    hide *;
    forall i | 0 <= i < |fields| ensures Survives(Seen(fields[i]), fields[i]) {
      SeenSurvives(fields[i]);
    }
  }

  lemma {:induction false} SeenAllAt(fields: seq<Field>)
    ensures |SeenAll(fields)| == |fields| && forall i :: 0 <= i < |fields| ==> SeenAll(fields)[i] == Seen(fields[i])
    decreases |fields|
  {
    if fields != [] {
      SeenAllAt(fields[1..]);
    }
  }

  // ----- physical lines -----

  function Max(a: nat, b: nat): nat { if a >= b then a else b }

  /** The length of the longest physical line of `s`, when `before` octets precede `s` on its line. */
  function Longest(s: string, before: nat): nat
    decreases |s|
  {
    if s == "" then before
    else if StartsWithCrLf(s) then Max(before, Longest(s[2..], 0))
    else Longest(s[1..], before + 1)
  }

  lemma {:induction false} LongestPlain(a: string, tail: string, before: nat)
    requires NoCr(a)
    ensures Longest(a + tail, before) == Longest(tail, before + |a|)
    decreases |a|
  {
    if a == "" {
      assert a + tail == tail;
    } else {
      assert (a + tail)[1..] == a[1..] + tail;
      LongestPlain(a[1..], tail, before + 1);
    }
  }

  lemma LongestFold(tail: string, before: nat)
    ensures Longest("\r\n " + tail, before) == Max(before, Longest(tail, 1))
    ensures Longest("\r\n" + tail, before) == Max(before, Longest(tail, 0))
  {
    assert ("\r\n " + tail)[2..] == " " + tail && (" " + tail)[1..] == tail;
    assert ("\r\n" + tail)[2..] == tail;
  }

  /** Lines folded within the hard limit: nothing longer precedes the tail, which starts a new line. */
  lemma {:induction false} FoldedLines(s: string, first: bool, lineLength: nat, prefix: nat, tail: string)
    requires NoCr(s) && FoldRest(s, first, lineLength, prefix).Some? && (lineLength <= HARD_LIMIT || (first && s != ""))
    ensures Longest(FoldRest(s, first, lineLength, prefix).value + ("\r\n" + tail), lineLength) <= Max(HARD_LIMIT, Longest(tail, 0))
    decreases |s|
  {
    hide NextPiece, Longest;
    var end := "\r\n" + tail;
    if s == "" {
      LongestFold(tail, lineLength);
      assert "" + end == end;
    } else {
      var p := NextPiece(s);
      NoCrPiece(s);
      if p.word == "" {
        LongestPlain(p.space, end, lineLength);
        LongestFold(tail, lineLength + |p.space|);
      } else {
        var length := Extended(p, first, lineLength, prefix);
        var more := FoldRest(p.rest, false, length, prefix).value;
        FoldedLines(p.rest, false, length, prefix, tail);
        var separator := Separator(p, first, lineLength, prefix);
        assert separator + p.word + more + end == separator + (p.word + (more + end));
        if FoldsBefore(p, first, lineLength, prefix) {
          LongestFold(p.word + (more + end), lineLength);
          LongestPlain(p.word, more + end, 1);
        } else {
          LongestPlain(p.space, p.word + (more + end), lineLength);
          LongestPlain(p.word, more + end, lineLength + |p.space|);
        }
      }
    }
  }

  lemma FoldedHeaderLines(f: Field, tail: string)
    requires Folded(f.name, f.value).Some? && (f.value != "" || |f.name| + 2 <= HARD_LIMIT)
    ensures Longest(Folded(f.name, f.value).value + tail, 0) <= Max(HARD_LIMIT, Longest(tail, 0))
  {
    hide FoldRest, Longest, IsValidHeaderName;
    ValidNameShape(f.name);
    var prefix := f.name + ": ";
    var body := FoldRest(f.value, true, |prefix|, |prefix|).value;
    assert Folded(f.name, f.value).value + tail == prefix + (body + ("\r\n" + tail));
    LongestPlain(prefix, body + ("\r\n" + tail), 0);
    FoldedLines(f.value, true, |prefix|, |prefix|, tail);
  }

  /**
   A folded header stays within the 998 octets of section 2.1.1 exactly when its value is not empty
   or its name leaves room: the limit is not checked for the line of an empty value.
   */
  lemma HardLimitExactly(f: Field)
    requires Folded(f.name, f.value).Some?
    ensures Longest(Folded(f.name, f.value).value, 0) <= 998 <==> f.value != "" || |f.name| <= 996
  {
    hide Longest, IsValidHeaderName;
    var text := Folded(f.name, f.value).value;
    assert text + "" == text;
    if f.value != "" || |f.name| + 2 <= HARD_LIMIT {
      hide FoldRest;
      FoldedHeaderLines(f, "");
      LongestEmpty();
    } else {
      var prefix := f.name + ": ";
      ValidNameShape(f.name);
      assert text == prefix + ("\r\n" + "");
      LongestPlain(prefix, "\r\n" + "", 0);
      LongestFold("", |prefix|);
    }
  }

  lemma LongestEmpty()
    ensures Longest("", 0) == 0
  {
  }

  /** Every line break that whitespace follows continues with one space and a word at once. */
  predicate NoBlankContinuation(s: string)
    decreases |s|
  {
    s == "" || ((StartsWithCrLf(s) && |s| > 2 && IsSpace(s[2]) ==> |s| > 3 && s[2] == ' ' && !IsSpace(s[3]) && s[3] != '\r')
                && NoBlankContinuation(s[1..]))
  }

  lemma {:induction false} PlainKeepsContinuation(a: string, tail: string)
    requires NoCr(a) && NoBlankContinuation(tail)
    ensures NoBlankContinuation(a + tail)
    decreases |a|
  {
    if a == "" {
      assert a + tail == tail;
    } else {
      assert (a + tail)[1..] == a[1..] + tail;
      PlainKeepsContinuation(a[1..], tail);
    }
  }

  lemma FoldKeepsContinuation(tail: string)
    requires NoBlankContinuation(tail) && tail != "" && !IsSpace(tail[0]) && tail[0] != '\r'
    ensures NoBlankContinuation("\r\n " + tail)
  {
    var s := "\r\n " + tail;
    assert s[1..] == "\n " + tail && s[1..][1..] == " " + tail && (" " + tail)[1..] == tail;
    assert s[3] == tail[0];
  }

  lemma {:induction false} FoldedContinuations(s: string, first: bool, lineLength: nat, prefix: nat, tail: string)
    requires NoCr(s) && FoldRest(s, first, lineLength, prefix).Some? && NoBlankContinuation(tail)
    ensures NoBlankContinuation(FoldRest(s, first, lineLength, prefix).value + tail)
    decreases |s|
  {
    hide NextPiece, NoBlankContinuation, Extended;
    if s == "" {
      assert "" + tail == tail;
    } else {
      var p := NextPiece(s);
      NoCrPiece(s);
      PieceShape(s);
      if p.word == "" {
        PlainKeepsContinuation(p.space, tail);
      } else {
        var length := Extended(p, first, lineLength, prefix);
        var more := FoldRest(p.rest, false, length, prefix).value;
        FoldedContinuations(p.rest, false, length, prefix, tail);
        PlainKeepsContinuation(p.word, more + tail);
        var separator := Separator(p, first, lineLength, prefix);
        assert separator + p.word + more + tail == separator + (p.word + (more + tail));
        if FoldsBefore(p, first, lineLength, prefix) {
          assert p.word[0] in p.word;
          FoldKeepsContinuation(p.word + (more + tail));
        } else {
          PlainKeepsContinuation(p.space, p.word + (more + tail));
        }
      }
    }
  }

  lemma LineEndKeepsContinuation(tail: string)
    requires NoBlankContinuation(tail) && (tail == "" || !IsSpace(tail[0]))
    ensures NoBlankContinuation("\r\n" + tail)
  {
    var s := "\r\n" + tail;
    assert s[1..] == "\n" + tail && s[1..][1..] == tail;
  }

  lemma {:induction false} BlockLines(fields: seq<Field>)
    requires Foldable(fields)
    requires forall i :: 0 <= i < |fields| ==> fields[i].value != "" || |fields[i].name| + 2 <= HARD_LIMIT
    ensures Longest(FoldAll(fields), 0) <= 998
    decreases |fields|
  {
    hide Longest, Folded;
    if fields == [] {
      LongestEmpty();
    } else {
      BlockLines(fields[1..]);
      FoldedHeaderLines(fields[0], FoldAll(fields[1..]));
    }
  }

  lemma FoldedKeepsContinuation(f: Field, tail: string)
    requires Folded(f.name, f.value).Some? && NoBlankContinuation(tail) && (tail == "" || !IsSpace(tail[0]))
    ensures NoBlankContinuation(Folded(f.name, f.value).value + tail)
  {
    hide NoBlankContinuation, FoldRest, IsValidHeaderName;
    ValidNameShape(f.name);
    var prefix := f.name + ": ";
    var body := FoldRest(f.value, true, |prefix|, |prefix|).value;
    assert Folded(f.name, f.value).value + tail == prefix + (body + ("\r\n" + tail));
    LineEndKeepsContinuation(tail);
    FoldedContinuations(f.value, true, |prefix|, |prefix|, "\r\n" + tail);
    PlainKeepsContinuation(prefix, body + ("\r\n" + tail));
  }

  lemma {:induction false} BlockContinuations(fields: seq<Field>)
    requires Foldable(fields)
    ensures NoBlankContinuation(FoldAll(fields))
    decreases |fields|
  {
    hide NoBlankContinuation, Folded;
    if fields == [] {
      EmptyContinuation();
    } else {
      BlockContinuations(fields[1..]);
      BlockIsRead(fields[1..]);
      FoldedKeepsContinuation(fields[0], FoldAll(fields[1..]));
    }
  }

  /** No header of a block is continued by a blank line, and all its physical lines are within the limit. */
  lemma BlockLayout(fields: seq<Field>)
    requires Foldable(fields)
    requires forall i :: 0 <= i < |fields| ==> fields[i].value != "" || |fields[i].name| + 2 <= HARD_LIMIT
    ensures NoBlankContinuation(FoldAll(fields)) && Longest(FoldAll(fields), 0) <= 998
  {
    BlockLines(fields);
    BlockContinuations(fields);
  }

  lemma EmptyContinuation()
    ensures NoBlankContinuation("")
  {
  }

  // ----- when folding succeeds -----

  /** Every word of the value, put on a line behind as many octets as the prefix and a space, stays within `limit`. */
  predicate WordsFit(s: string, prefix: nat, limit: nat)
    decreases |s|
  {
    s == "" || (var p := NextPiece(s); prefix + 1 + |p.word| <= limit && WordsFit(p.rest, prefix, limit))
  }

  predicate Trimmed(s: string) {
    s == "" || !IsSpace(s[|s| - 1])
  }

  lemma TrimmedPiece(s: string)
    requires s != "" && Trimmed(s)
    ensures NextPiece(s).word != "" && Trimmed(NextPiece(s).rest)
  {
    PieceShape(s);
    var p := NextPiece(s);
    assert p.word == "" ==> s == p.space && AllSpace(s);
    if p.rest != "" {
      assert s[|s| - 1] == p.rest[|p.rest| - 1];
    }
  }

  lemma ExtendedFits(p: Piece, first: bool, lineLength: nat, prefix: nat, limit: nat)
    requires SOFT_LIMIT <= limit && prefix + 1 + |p.word| <= limit && |p.space| <= 1
    requires first ==> p.space == "" && lineLength == prefix
    ensures Extended(p, first, lineLength, prefix) <= limit
  {
  }

  /** One more word on the line or on the next one. */
  lemma FittingWord(p: Piece, first: bool, lineLength: nat, prefix: nat, limit: nat, more: string)
    requires NoCr(p.space) && NoCr(p.word) && lineLength <= limit
    requires Longest(more, Extended(p, first, lineLength, prefix)) <= limit
    ensures Longest(Separator(p, first, lineLength, prefix) + p.word + more, lineLength) <= limit
  {
    hide Longest, NoCr;
    if FoldsBefore(p, first, lineLength, prefix) {
      LongestFold(p.word + more, lineLength);
      LongestPlain(p.word, more, 1);
      assert "\r\n " + p.word + more == "\r\n " + (p.word + more);
    } else {
      LongestPlain(p.space, p.word + more, lineLength);
      LongestPlain(p.word, more, lineLength + |p.space|);
      assert p.space + p.word + more == p.space + (p.word + more);
    }
  }

  lemma PieceFits(s: string, first: bool, lineLength: nat, prefix: nat, limit: nat)
    requires s != "" && SingleSpaced(s) && Trimmed(s) && NoCr(s) && (first ==> !IsSpace(s[0]) && lineLength == prefix)
    requires SOFT_LIMIT <= limit && WordsFit(s, prefix, limit)
    ensures var p := NextPiece(s);
      && p.word != "" && NoCr(p.space) && NoCr(p.word) && NoCr(p.rest) && Extended(p, first, lineLength, prefix) <= limit
      && SingleSpaced(p.rest) && Trimmed(p.rest) && WordsFit(p.rest, prefix, limit)
  {
    hide NextPiece, SingleSpaced, Trimmed, NoCr;
    NoCrPiece(s);
    TrimmedPiece(s);
    SingleSpacedPiece(s);
    PieceShape(s);
    var p := NextPiece(s);
    assert p.space != "" ==> p.space[0] == s[0] && IsSpace(p.space[0]);
    ExtendedFits(p, first, lineLength, prefix, limit);
  }

  /** A value of single-spaced words that fit is folded, and no line gets longer than the limit. */
  lemma {:induction false} FittingWordsFold(s: string, first: bool, lineLength: nat, prefix: nat, limit: nat)
    requires SingleSpaced(s) && Trimmed(s) && NoCr(s) && (first ==> (s == "" || !IsSpace(s[0])) && lineLength == prefix)
    requires SOFT_LIMIT <= limit <= HARD_LIMIT && lineLength <= limit && WordsFit(s, prefix, limit)
    ensures FoldRest(s, first, lineLength, prefix).Some?
    ensures Longest(FoldRest(s, first, lineLength, prefix).value + "\r\n", lineLength) <= limit
    decreases |s|
  {
    hide NextPiece, Longest, SingleSpaced, Trimmed, NoCr, Separator, Extended, WordsFit;
    if s == "" {
      LongestEmpty();
      LongestFold("", lineLength);
      assert "" + "\r\n" == "\r\n" + "";
    } else {
      PieceFits(s, first, lineLength, prefix, limit);
      var p := NextPiece(s);
      var length := Extended(p, first, lineLength, prefix);
      FittingWordsFold(p.rest, false, length, prefix, limit);
      var more := FoldRest(p.rest, false, length, prefix).value;
      FittingWord(p, first, lineLength, prefix, limit, more + "\r\n");
      var separator := Separator(p, first, lineLength, prefix);
      assert separator + p.word + more + "\r\n" == separator + p.word + (more + "\r\n");
    }
  }
}
