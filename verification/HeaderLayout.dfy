/** Where foldHeaderLine breaks a header into lines: only where it must, and wherever it can. */
module HeaderLayout {
  import opened Octets
  import opened HeaderFolding
  import opened HeaderReading

  /** A header that fits into 78 octets is written on one line, as it is. */
  lemma ShortHeaderIsKept(name: string, value: string)
    requires IsValidHeaderName(name) && !HasCrLf(value) && |name| + 2 + |value| <= 78
    ensures Folded(name, value) == Some(name + ": " + value + "\r\n")
  {
    ShortRestIsKept(value, true, |name| + 2, |name| + 2);
  }

  lemma ShortPiece(s: string, first: bool, lineLength: nat, prefix: nat, p: Piece)
    requires s != "" && lineLength + |s| <= 78 && p == NextPiece(s)
    ensures |s| == |p.space| + |p.word| + |p.rest| && |p.rest| < |s| && s == p.space + p.word + p.rest
    ensures p.word == "" ==> FoldRest(s, first, lineLength, prefix) == Some(s)
    ensures var length := lineLength + |p.space| + |p.word|;
      p.word != "" && FoldRest(p.rest, false, length, prefix) == Some(p.rest) ==> FoldRest(s, first, lineLength, prefix) == Some(s)
  {
    PieceShape(s);
    hide NextPiece, AllSpace, NoSpace, Bounded;
    assert p.word == "" ==> p.space + p.word + p.rest == p.space;
  }

  lemma NothingIsKept(first: bool, lineLength: nat, prefix: nat)
    ensures FoldRest("", first, lineLength, prefix) == Some("")
  {
  }

  lemma {:induction false} ShortRestIsKept(s: string, first: bool, lineLength: nat, prefix: nat)
    requires lineLength + |s| <= 78
    ensures FoldRest(s, first, lineLength, prefix) == Some(s)
    decreases |s|
  {
    hide *;
    if s == "" {
      NothingIsKept(first, lineLength, prefix);
    } else {
      var p := NextPiece(s);
      ShortPiece(s, first, lineLength, prefix, p);
      ShortRestIsKept(p.rest, false, lineLength + |p.space| + |p.word|, prefix);
    }
  }

  /** White space and then one word, or less. */
  predicate OneWord(s: string) {
    exists k :: 0 <= k <= |s| && AllSpace(s[..k]) && NoSpace(s[k..])
  }

  /** Beyond its first `prefix` octets `line` holds only one word. */
  predicate Tight(line: string, prefix: nat) {
    exists k :: 0 <= k <= |line| && k <= prefix && OneWord(line[k..])
  }

  /** A line, but for white space at its end, is longer than 78 octets only if its one word beyond the name makes it so. */
  predicate Forced(line: string, prefix: nat) {
    exists end :: 0 <= end <= |line| && AllSpace(line[end..]) && (end > 78 ==> Tight(line[..end], prefix))
  }

  /** All lines of `text` are like that, the first of them beginning with `before`. */
  predicate LinesForced(text: string, before: string, prefix: nat)
    decreases |text|
  {
    if text == "" then Forced(before, prefix)
    else if StartsWithCrLf(text) then Forced(before, prefix) && LinesForced(text[2..], "", prefix)
    else LinesForced(text[1..], before + [text[0]], prefix)
  }

  lemma {:induction false} ForcedPlain(a: string, tail: string, before: string, prefix: nat)
    requires NoCr(a)
    ensures LinesForced(a + tail, before, prefix) <==> LinesForced(tail, before + a, prefix)
    decreases |a|
  {
    if a == "" {
      assert a + tail == tail && before + a == before;
    } else {
      assert (a + tail)[1..] == a[1..] + tail;
      assert before + [a[0]] + a[1..] == before + a;
      ForcedPlain(a[1..], tail, before + [a[0]], prefix);
    }
  }

  lemma ForcedFold(tail: string, before: string, prefix: nat)
    ensures LinesForced("\r\n" + tail, before, prefix) <==> Forced(before, prefix) && LinesForced(tail, "", prefix)
  {
    assert ("\r\n" + tail)[2..] == tail;
  }

  /** The line so far, which ends in a word or in the name. */
  predicate SoFar(line: string, prefix: nat) {
    |line| > 78 ==> Tight(line, prefix)
  }

  lemma ForcedSoFar(line: string, space: string, prefix: nat)
    requires SoFar(line, prefix) && AllSpace(space)
    ensures Forced(line + space, prefix)
  {
    hide Tight;
    assert (line + space)[|line|..] == space && (line + space)[..|line|] == line;
  }

  lemma TightWord(before: string, space: string, word: string, prefix: nat)
    requires |before| <= prefix && AllSpace(space) && NoSpace(word)
    ensures Tight(before + (space + word), prefix)
  {
    var line := before + (space + word);
    assert line[|before|..] == space + word;
    assert (space + word)[..|space|] == space && (space + word)[|space|..] == word;
  }

  /** What the line is once the word of `p` is written. */
  function LineWith(line: string, p: Piece, folds: bool): string {
    if folds then " " + p.word else line + (p.space + p.word)
  }

  lemma SoFarWith(line: string, p: Piece, first: bool, prefix: nat)
    requires SoFar(line, prefix) && AllSpace(p.space) && NoSpace(p.word) && prefix > 0 && (first ==> |line| <= prefix)
    ensures var next := LineWith(line, p, FoldsBefore(p, first, |line|, prefix));
      SoFar(next, prefix) && |next| == Extended(p, first, |line|, prefix)
  {
    hide AllSpace, NoSpace;
    if FoldsBefore(p, first, |line|, prefix) {
      OneSpace();
      TightWord("", " ", p.word, prefix);
      assert "" + (" " + p.word) == " " + p.word;
    } else if |line| <= prefix {
      TightWord(line, p.space, p.word, prefix);
    }
  }

  lemma OneSpace()
    ensures AllSpace(" ")
  {
  }

  lemma LinesKept(line: string, space: string, word: string, prefix: nat, rest: string)
    requires NoCr(space) && NoCr(word) && LinesForced(rest, line + (space + word), prefix)
    ensures LinesForced(space + word + rest, line, prefix)
  {
    hide *;
    ForcedPlain(word, rest, line + space, prefix);
    ForcedPlain(space, word + rest, line, prefix);
    assert space + word + rest == space + (word + rest) && line + space + word == line + (space + word);
  }

  lemma LinesFolded(line: string, word: string, prefix: nat, rest: string)
    requires SoFar(line, prefix) && NoCr(word) && LinesForced(rest, " " + word, prefix)
    ensures LinesForced("\r\n " + word + rest, line, prefix)
  {
    hide *;
    NothingBehind(line, prefix);
    ForcedFold(" " + word + rest, line, prefix);
    SpaceHasNoCr(word);
    ForcedPlain(" " + word, rest, "", prefix);
    assert "\r\n " + word + rest == "\r\n" + (" " + word + rest) && "" + (" " + word) == " " + word;
  }

  lemma LinesWith(line: string, p: Piece, first: bool, prefix: nat, rest: string)
    requires SoFar(line, prefix) && NoCr(p.space) && NoCr(p.word)
    requires LinesForced(rest, LineWith(line, p, FoldsBefore(p, first, |line|, prefix)), prefix)
    ensures LinesForced(Separator(p, first, |line|, prefix) + p.word + rest, line, prefix)
  {
    hide SoFar, LinesForced, NoCr, FoldsBefore;
    if FoldsBefore(p, first, |line|, prefix) {
      LinesFolded(line, p.word, prefix, rest);
    } else {
      LinesKept(line, p.space, p.word, prefix, rest);
    }
  }

  lemma NothingBehind(line: string, prefix: nat)
    requires SoFar(line, prefix)
    ensures Forced(line, prefix)
  {
    hide SoFar, Forced;
    assert AllSpace("");
    ForcedSoFar(line, "", prefix);
    assert line + "" == line;
  }

  lemma SpaceHasNoCr(word: string)
    requires NoCr(word)
    ensures NoCr(" " + word)
  {
  }

  lemma {:induction false} FoldedForced(s: string, first: bool, line: string, prefix: nat)
    requires NoCr(s) && prefix > 0 && SoFar(line, prefix) && (first ==> |line| <= prefix) && FoldRest(s, first, |line|, prefix).Some?
    ensures LinesForced(FoldRest(s, first, |line|, prefix).value + "\r\n", line, prefix)
    decreases |s|
  {
    hide *;
    if s == "" {
      NothingIsKept(first, |line|, prefix);
      EndOfNothing(line, prefix);
    } else {
      var p := NextPiece(s);
      PieceShape(s);
      NoCrPiece(s);
      RestParts(s, first, |line|, prefix, p);
      if p.word == "" {
        EndForced(p.space, line, prefix);
      } else {
        var next := LineWith(line, p, FoldsBefore(p, first, |line|, prefix));
        SoFarWith(line, p, first, prefix);
        FoldedForced(p.rest, false, next, prefix);
        LinesWith(line, p, first, prefix, FoldRest(p.rest, false, |next|, prefix).value + "\r\n");
      }
    }
  }

  lemma EndOfNothing(line: string, prefix: nat)
    requires SoFar(line, prefix)
    ensures LinesForced("" + "\r\n", line, prefix)
  {
    hide LinesForced, SoFar;
    EndForced("", line, prefix);
  }

  lemma RestParts(s: string, first: bool, lineLength: nat, prefix: nat, p: Piece)
    requires s != "" && p == NextPiece(s) && FoldRest(s, first, lineLength, prefix).Some?
    ensures p.word == "" ==> FoldRest(s, first, lineLength, prefix).value == p.space
    ensures var length := Extended(p, first, lineLength, prefix);
      p.word != "" ==>
        && FoldRest(p.rest, false, length, prefix).Some?
        && FoldRest(s, first, lineLength, prefix).value + "\r\n"
             == Separator(p, first, lineLength, prefix) + p.word + (FoldRest(p.rest, false, length, prefix).value + "\r\n")
  {
    hide NextPiece, Extended, Separator;
    if p.word != "" {
      var more := FoldRest(p.rest, false, Extended(p, first, lineLength, prefix), prefix);
      assert Separator(p, first, lineLength, prefix) + p.word + more.value + "\r\n"
          == Separator(p, first, lineLength, prefix) + p.word + (more.value + "\r\n");
    }
  }

  lemma EndForced(space: string, line: string, prefix: nat)
    requires NoCr(space) && AllSpace(space) && SoFar(line, prefix)
    ensures LinesForced(space + "\r\n", line, prefix)
  {
    assert LinesForced("", "", prefix) by { assert Forced("", prefix) by { NothingBehind("", prefix); } }
    hide SoFar, LinesForced, Forced;
    ForcedSoFar(line, space, prefix);
    ForcedPlain(space, "\r\n", line, prefix);
    ForcedFold("", line + space, prefix);
    assert "\r\n" + "" == "\r\n";
  }

  /** A line of a folded header is longer than 78 octets only where one word beyond the name makes it so. */
  lemma LongLinesAreForced(name: string, value: string)
    requires Folded(name, value).Some?
    ensures LinesForced(Folded(name, value).value, "", |name| + 2)
  {
    hide FoldRest, LinesForced, NameChar;
    ValidNameShape(name);
    var line := name + ": ";
    NameIsTight(line);
    var body := FoldRest(value, true, |line|, |line|).value;
    FoldedForced(value, true, line, |line|);
    ForcedPlain(line, body + "\r\n", "", |line|);
    assert "" + line == line && name + ": " + body + "\r\n" == line + (body + "\r\n");
  }

  lemma NameIsTight(line: string)
    ensures SoFar(line, |line|)
  {
    assert line[|line|..] == "";
    assert OneWord("") by { assert ""[..0] == "" && ""[0..] == ""; }
  }

  // ----- names -----

  /** A name is an atom of section 3.2.3 of RFC 5322: visible characters, none of them special. */
  lemma NamesAreAtoms(name: string)
    ensures IsValidHeaderName(name) <==>
      name != "" && forall i :: 0 <= i < |name| ==> 33 <= name[i] as int <= 126 && name[i] !in "\"(),.:;<>@[\\]"
  {
    hide IsValidHeaderName;
    forall i | 0 <= i < |name| ensures NameChar(name[i]) <==> 33 <= name[i] as int <= 126 && name[i] !in "\"(),.:;<>@[\\]" {
      AtomCharacter(name[i]);
    }
    NameIs(name);
  }

  lemma NameIs(name: string)
    ensures IsValidHeaderName(name) <==> name != "" && forall i :: 0 <= i < |name| ==> NameChar(name[i])
  {
    hide NameChar;
  }

  lemma AtomCharacter(c: char)
    ensures NameChar(c) <==> 33 <= c as int <= 126 && c !in "\"(),.:;<>@[\\]"
  {
  }
}
