/**
 Header values of mime.go: the choice between a plain value and RFC 2047 encoded-words, the
 encoded-words themselves, and the decoder of section 6.2 of RFC 2047 that undoes them.
 */
module EncodedWords {
  import opened Octets
  import opened Strings
  import opened HeaderFolding
  import opened HeaderReading
  import Base64

  const MAX_TOKEN := 900
  const WORD_PREFIX := "=?utf-8?b?"
  const WORD_SUFFIX := "?="
  const MAX_ENCODED_WORD := 75
  const RAW_CHUNK := 45

  // ----- what the encoder computes -----

  /** Printable ASCII and tabs: what may stand in a header as it is. */
  predicate IsPrintableAscii(s: string) {
    forall i :: 0 <= i < |s| ==> s[i] == '\t' || 0x20 <= s[i] as int < 0x80
  }

  predicate HasOverlongToken(s: string) {
    (exists w :: w in Tokens(s) && |w| > MAX_TOKEN) || (|s| > MAX_TOKEN && Tokens(s) == [])
  }

  predicate IsOctets(s: string) {
    forall i :: 0 <= i < |s| ==> (s[i] as int) < 256
  }

  function ToOctets(s: string): (r: seq<Octet>)
    requires IsOctets(s)
    ensures |r| == |s|
  {
    if s == "" then [] else [s[0] as int as Octet] + ToOctets(s[1..])
  }

  function FromOctets(data: seq<Octet>): string {
    if data == [] then "" else [data[0] as int as char] + FromOctets(data[1..])
  }

  function EncodedWord(data: seq<Octet>): string {
    WORD_PREFIX + Base64.Encode(data) + WORD_SUFFIX
  }

  function Words(s: string): seq<string>
    requires IsOctets(s)
    decreases |s|
  {
    if s == "" then []
    else
      var n := if |s| < RAW_CHUNK then |s| else RAW_CHUNK;
      [EncodedWord(ToOctets(s[..n]))] + Words(s[n..])
  }

  function JoinSpaces(words: seq<string>): string {
    if words == [] then "" else if |words| == 1 then words[0] else words[0] + " " + JoinSpaces(words[1..])
  }

  /** encodeASCIIEncodedWords: 45 octets a word, which base64 makes 60 characters. */
  method EncodeAsciiEncodedWords(s: string) returns (out: string)
    requires IsOctets(s)
    ensures out == JoinSpaces(Words(s))
  {
    hide EncodedWord, ToOctets;
    var textLength := MAX_ENCODED_WORD - |WORD_PREFIX| - |WORD_SUFFIX|;
    textLength := textLength - textLength % 4;
    var rawChunk := textLength / 4 * 3;
    assert rawChunk == RAW_CHUNK;
    var words, rest := [], s;
    while |rest| > 0
      invariant IsOctets(rest) && words + Words(rest) == Words(s)
      decreases |rest|
    {
      var n := rawChunk;
      if n > |rest| {
        n := |rest|;
      }
      assert IsOctets(rest[..n]) && IsOctets(rest[n..]);
      var word := EncodedWord(ToOctets(rest[..n]));
      assert words + ([word] + Words(rest[n..])) == (words + [word]) + Words(rest[n..]);
      words := words + [word];
      rest := rest[n..];
    }
    assert words + [] == words;
    out := JoinSpaces(words);
  }

  /** encodeHeaderWord; `qEncode` stands for mime.QEncoding, which gets the values that are not printable ASCII. */
  function EncodeHeaderWord(s: string, qEncode: string -> string): string {
    if IsPrintableAscii(s) then
      if HasOverlongToken(s) then JoinSpaces(Words(s)) else s
    else qEncode(s)
  }

  /** writeRawHeader. */
  method WriteRawHeader(name: string, value: string, qEncode: string -> string) returns (ok: bool, out: string)
    ensures ok <==> Folded(name, EncodeHeaderWord(value, qEncode)).Some?
    ensures ok ==> out == Folded(name, EncodeHeaderWord(value, qEncode)).value
  {
    hide Folded, Words, JoinSpaces, HasOverlongToken;
    var text := value;
    if !IsPrintableAscii(value) {
      text := qEncode(value);
    } else if HasOverlongToken(value) {
      text := EncodeAsciiEncodedWords(value);
    }
    ok, out := FoldHeaderLine(name, text);
  }

  // ----- the decoder -----

  /** The octets of an encoded-word in the B encoding and UTF-8, None when `w` is none. */
  function DecodeWord(w: string): Option<seq<Octet>> {
    if 12 <= |w| <= 75 && HasPrefix(w, "=?utf-8?b?") && HasSuffix(w, "?=")
    then Base64.Decode(w[10..|w| - 2])
    else None
  }

  /** Section 6.2 of RFC 2047: encoded-words are replaced, and whitespace between two of them is dropped. */
  function DecodeValue(s: string, afterEncoded: bool): string
    decreases |s|
  {
    if s == "" then ""
    else
      var p := NextPiece(s);
      if p.word == "" then p.space
      else
        var data := DecodeWord(p.word);
        if data.None? then p.space + p.word + DecodeValue(p.rest, false)
        else (if afterEncoded then "" else p.space) + FromOctets(data.value) + DecodeValue(p.rest, true)
  }

  // ----- round trips -----

  lemma {:induction false} OctetsRoundTrip(s: string)
    requires IsOctets(s)
    ensures FromOctets(ToOctets(s)) == s
  {
    if s != "" {
      OctetsRoundTrip(s[1..]);
    }
  }

  lemma WordDecodes(data: seq<Octet>)
    requires |data| <= RAW_CHUNK
    ensures DecodeWord(EncodedWord(data)) == Some(data) && |EncodedWord(data)| <= 75
    ensures NoSpace(EncodedWord(data)) && NoCr(EncodedWord(data)) && EncodedWord(data) != "" && '\n' !in EncodedWord(data)
  {
    hide Base64.Encode, Base64.Decode;
    Base64.DecodeEncode(data);
    Base64.EncodeShape(data);
    var text := Base64.Encode(data);
    var w := EncodedWord(data);
    assert w[..|WORD_PREFIX|] == WORD_PREFIX && w[|w| - |WORD_SUFFIX|..] == WORD_SUFFIX;
    assert w[|WORD_PREFIX|..|w| - |WORD_SUFFIX|] == text;
    WordCharacters(text);
  }

  lemma WordCharacters(text: string)
    requires Base64.AllInAlphabet(text)
    ensures var w := WORD_PREFIX + text + WORD_SUFFIX; NoSpace(w) && NoCr(w) && '\n' !in w
  {
    var w := WORD_PREFIX + text + WORD_SUFFIX;
    forall i | 0 <= i < |w| ensures !IsSpace(w[i]) && w[i] != '\r' && w[i] != '\n' {
      if |WORD_PREFIX| <= i < |WORD_PREFIX| + |text| {
        assert w[i] == text[i - |WORD_PREFIX|];
      }
    }
  }

  /** A text of encoded-words and single spaces. */
  lemma {:induction false} WordsShape(s: string)
    requires IsOctets(s) && s != ""
    ensures var text := JoinSpaces(Words(s));
      && Words(s) != [] && text != "" && !IsSpace(text[0])
      && NextPiece(text).space == "" && NextPiece(text).word == Words(s)[0]
      && NextPiece(text).rest == (if |Words(s)| == 1 then "" else " " + JoinSpaces(Words(s)[1..]))
    decreases |s|
  {
    hide EncodedWord, Base64.Encode, NextPiece;
    var n := if |s| < RAW_CHUNK then |s| else RAW_CHUNK;
    var word := EncodedWord(ToOctets(s[..n]));
    WordDecodes(ToOctets(s[..n]));
    var words := Words(s);
    assert words[1..] == Words(s[n..]);
    var rest := if |words| == 1 then "" else " " + JoinSpaces(words[1..]);
    assert JoinSpaces(words) == "" + word + rest;
    PieceOf("", word, rest);
  }

  lemma {:induction false} WordsDecode(s: string, afterEncoded: bool)
    requires IsOctets(s) && s != ""
    ensures DecodeValue(JoinSpaces(Words(s)), afterEncoded) == s
    ensures DecodeValue(" " + JoinSpaces(Words(s)), true) == s
    decreases |s|
  {
    hide EncodedWord, NextPiece, DecodeWord, ToOctets, FromOctets, JoinSpaces;
    WordsShape(s);
    var n := if |s| < RAW_CHUNK then |s| else RAW_CHUNK;
    var data := ToOctets(s[..n]);
    WordDecodes(data);
    OctetsRoundTrip(s[..n]);
    var words, text := Words(s), JoinSpaces(Words(s));
    assert words[1..] == Words(s[n..]);
    var rest := NextPiece(text).rest;
    assert DecodeValue(rest, true) == s[n..] by {
      if s[n..] == "" {
        assert |words| == 1;
      } else {
        WordsDecode(s[n..], true);
        assert |words| > 1;
      }
    }
    assert s[..n] + s[n..] == s && "" + s[..n] == s[..n];
    SpaceBefore(text);
  }

  /** The same text behind one more space. */
  lemma SpaceBefore(text: string)
    requires NextPiece(text).space == "" && NextPiece(text).word != ""
    ensures NextPiece(" " + text) == NextPiece(text).(space := " ")
    ensures text != ""
  {
    PieceShape(text);
    var p := NextPiece(text);
    hide NextPiece;
    PieceOf(" ", p.word, p.rest);
    assert text == p.word + p.rest && " " + text == " " + p.word + p.rest;
  }

  // ----- encoding, folding, unfolding and decoding -----

  lemma {:induction false} SingleSpacedJoin(word: string, text: string)
    requires NoSpace(word) && word != "" && SingleSpaced(text) && text != "" && !IsSpace(text[0])
    ensures SingleSpaced(word + " " + text)
  {
    var s := word + " " + text;
    forall i | 0 <= i < |s| ensures s[i] != '\t' && (s[i] == ' ' && i + 1 < |s| ==> s[i + 1] != ' ') {
      if i < |word| {
        assert s[i] == word[i];
      } else if i > |word| {
        var j := i - |word| - 1;
        assert s[i] == text[j] && (i + 1 < |s| ==> s[i + 1] == text[j + 1]);
      } else {
        assert s[i + 1] == text[0];
      }
    }
  }

  lemma NoSpaceIsSingleSpaced(word: string)
    requires NoSpace(word)
    ensures SingleSpaced(word) && Trimmed(word)
  {
  }

  /** The encoded-words of a value are single-spaced words of at most 75 octets. */
  lemma {:induction false} WordsLayout(s: string, prefix: nat, limit: nat)
    requires IsOctets(s) && s != "" && prefix + 1 + MAX_ENCODED_WORD <= limit
    ensures var text := JoinSpaces(Words(s));
      SingleSpaced(text) && Trimmed(text) && NoCr(text) && '\n' !in text && WordsFit(text, prefix, limit)
    decreases |s|
  {
    hide EncodedWord, NextPiece, ToOctets, SingleSpaced;
    WordsShape(s);
    var n := if |s| < RAW_CHUNK then |s| else RAW_CHUNK;
    var word := EncodedWord(ToOctets(s[..n]));
    WordDecodes(ToOctets(s[..n]));
    var words, text := Words(s), JoinSpaces(Words(s));
    assert words[1..] == Words(s[n..]);
    if s[n..] == "" {
      assert text == word;
      NoSpaceIsSingleSpaced(word);
    } else {
      var rest := JoinSpaces(Words(s[n..]));
      WordsLayout(s[n..], prefix, limit);
      WordsShape(s[n..]);
      assert text == word + " " + rest;
      SingleSpacedJoin(word, rest);
      assert text[|text| - 1] == rest[|rest| - 1];
      FitsBehindSpace(rest, prefix, limit);
    }
  }

  lemma FitsBehindSpace(text: string, prefix: nat, limit: nat)
    requires text != "" && NextPiece(text).space == "" && NextPiece(text).word != "" && WordsFit(text, prefix, limit)
    ensures WordsFit(" " + text, prefix, limit)
  {
    hide NextPiece;
    SpaceBefore(text);
  }

  predicate ShortTokens(s: string) {
    forall w :: w in Tokens(s) ==> |w| <= MAX_TOKEN
  }

  lemma {:induction false} ShortTokensFit(s: string, prefix: nat)
    requires ShortTokens(s) && prefix + 1 + MAX_TOKEN <= HARD_LIMIT
    ensures WordsFit(s, prefix, HARD_LIMIT)
    decreases |s|
  {
    hide NextPiece;
    if s != "" {
      var p := NextPiece(s);
      assert p.word != "" ==> p.word in Tokens(s);
      forall w | w in Tokens(p.rest) ensures |w| <= MAX_TOKEN {
        assert w in Tokens(s);
      }
      ShortTokensFit(p.rest, prefix);
    }
  }

  lemma PrintableIsPlain(s: string)
    requires IsPrintableAscii(s)
    ensures IsOctets(s) && NoCr(s) && !HasCrLf(s)
  {
  }

  // ----- which names leave room -----

  /** The form in which a plain value is given: trimmed, with one space between words. */
  predicate Spaced(s: string) {
    SingleSpaced(s) && Trimmed(s) && (s == "" || !IsSpace(s[0]))
  }

  lemma PlainIsKept(value: string, qEncode: string -> string)
    requires IsPrintableAscii(value) && !HasOverlongToken(value)
    ensures EncodeHeaderWord(value, qEncode) == value
  {
  }

  /** A plain value folds under every name of at most 95 octets. */
  lemma PlainHeaderFolds(name: string, value: string, qEncode: string -> string)
    requires IsValidHeaderName(name) && |name| <= 95
    requires IsPrintableAscii(value) && Spaced(value) && !HasOverlongToken(value)
    ensures Folded(name, EncodeHeaderWord(value, qEncode)).Some?
  {
    var n := |name| + 2;
    PlainIsKept(value, qEncode);
    PrintableIsPlain(value);
    hide EncodeHeaderWord, SingleSpaced, WordsFit, IsValidHeaderName, FoldRest, Longest, IsPrintableAscii;
    ShortTokensFit(value, n);
    FittingWordsFold(value, true, n, n, HARD_LIMIT);
  }

  lemma {:induction false} TokenIsNoLonger(s: string, w: string)
    requires w in Tokens(s)
    ensures |w| <= |s|
    decreases |s|
  {
    hide NextPiece;
    if s != "" && NextPiece(s).word != "" && w != NextPiece(s).word {
      TokenIsNoLonger(NextPiece(s).rest, w);
    }
  }

  lemma OverlongIsLong(value: string)
    requires HasOverlongToken(value)
    ensures |value| > MAX_TOKEN
  {
    hide Tokens;
    if exists w :: w in Tokens(value) && |w| > MAX_TOKEN {
      var w :| w in Tokens(value) && |w| > MAX_TOKEN;
      TokenIsNoLonger(value, w);
    }
  }

  const FULL_WORD := 72
  const ROOMY_PREFIX := HARD_LIMIT - FULL_WORD

  lemma WordLength(data: seq<Octet>)
    requires |data| <= RAW_CHUNK
    ensures |EncodedWord(data)| <= FULL_WORD && (|data| == RAW_CHUNK ==> |EncodedWord(data)| == FULL_WORD)
  {
    hide Base64.Encode;
    Base64.EncodeShape(data);
  }

  /** A line that may be folded again, or one of full words that is still no longer than the prefix. */
  predicate Steady(lineLength: nat, prefix: nat) {
    if lineLength > prefix then lineLength >= FULL_WORD else lineLength % (FULL_WORD + 1) == 0
  }

  lemma SteadyStep(p: Piece, lineLength: nat, prefix: nat)
    requires p.space == " " && |p.word| <= FULL_WORD && Steady(lineLength, prefix) && prefix <= ROOMY_PREFIX
    ensures Extended(p, false, lineLength, prefix) <= HARD_LIMIT
    ensures |p.word| == FULL_WORD ==> Steady(Extended(p, false, lineLength, prefix), prefix)
  {
  }

  lemma {:induction false} MoreWordsFold(s: string, lineLength: nat, prefix: nat)
    requires IsOctets(s) && s != "" && prefix <= ROOMY_PREFIX && Steady(lineLength, prefix)
    ensures FoldRest(" " + JoinSpaces(Words(s)), false, lineLength, prefix).Some?
    decreases |s|
  {
    hide EncodedWord, NextPiece, ToOctets, JoinSpaces, Extended, Steady;
    WordsShape(s);
    var n := if |s| < RAW_CHUNK then |s| else RAW_CHUNK;
    WordLength(ToOctets(s[..n]));
    var words, text := Words(s), JoinSpaces(Words(s));
    assert words[1..] == Words(s[n..]);
    SpaceBefore(text);
    var p := NextPiece(" " + text);
    SteadyStep(p, lineLength, prefix);
    if s[n..] != "" {
      MoreWordsFold(s[n..], Extended(p, false, lineLength, prefix), prefix);
      assert |words| > 1;
    } else {
      assert |words| == 1;
    }
  }

  lemma FirstWordFolds(s: string, prefix: nat)
    requires IsOctets(s) && |s| > RAW_CHUNK
    ensures FoldRest(JoinSpaces(Words(s)), true, prefix, prefix).Some? <==> prefix <= ROOMY_PREFIX
  {
    hide EncodedWord, NextPiece, ToOctets, JoinSpaces, Separator;
    WordsShape(s);
    WordLength(ToOctets(s[..RAW_CHUNK]));
    var words := Words(s);
    assert words[1..] == Words(s[RAW_CHUNK..]) && |words| > 1;
    if prefix <= ROOMY_PREFIX {
      MoreWordsFold(s[RAW_CHUNK..], prefix + FULL_WORD, prefix);
    }
  }

  /** A value with an overlong token folds under a name exactly when the name leaves room for one encoded-word. */
  lemma OverlongHeaderFolds(name: string, value: string, qEncode: string -> string)
    requires IsValidHeaderName(name) && IsPrintableAscii(value) && HasOverlongToken(value)
    ensures Folded(name, EncodeHeaderWord(value, qEncode)).Some? <==> |name| <= 924
  {
    PrintableIsPlain(value);
    OverlongIsLong(value);
    assert EncodeHeaderWord(value, qEncode) == JoinSpaces(Words(value));
    hide *;
    WordsLayout(value, 0, HARD_LIMIT);
    FoldedExactly(name, JoinSpaces(Words(value)));
    FirstWordFolds(value, |name| + 2);
  }

  lemma FoldedExactly(name: string, text: string)
    requires IsValidHeaderName(name) && NoCr(text) && '\n' !in text
    ensures Folded(name, text).Some? <==> FoldRest(text, true, |name| + 2, |name| + 2).Some?
  {
    hide FoldRest;
  }

  /** No line of what is written is too long, whatever the name. */
  lemma RawHeaderKeepsLimit(name: string, value: string, qEncode: string -> string)
    requires value != "" && IsPrintableAscii(value) && Folded(name, EncodeHeaderWord(value, qEncode)).Some?
    ensures Longest(Folded(name, EncodeHeaderWord(value, qEncode)).value, 0) <= 998
  {
    PrintableIsPlain(value);
    hide Longest, FoldRest, IsValidHeaderName, IsPrintableAscii;
    if HasOverlongToken(value) {
      WordsShape(value);
    }
    HardLimitExactly(Field(name, EncodeHeaderWord(value, qEncode)));
  }

  /** What a reader makes of one header: unfold, take the value, decode the encoded-words. */
  function ReadRawHeader(block: string): Option<Field> {
    var fields := ReadFields(Unfold(block));
    if fields.None? || |fields.value| != 1 then None
    else Some(Field(fields.value[0].name, DecodeValue(fields.value[0].value, false)))
  }

  lemma ReadOneHeader(name: string, text: string)
    requires Folded(name, text).Some? && SingleSpaced(text)
    ensures ReadRawHeader(Folded(name, text).value) == Some(Field(name, DecodeValue(text, false)))
  {
    hide Folded, ReadFields, Unfold, SingleSpaced, DecodeValue, Tokens;
    var fields := [Field(name, text)];
    HeadersSurviveFolding(fields);
    assert fields[1..] == [];
    assert FoldAll(fields[1..]) == "";
    assert FoldAll(fields) == Folded(name, text).value + "";
    assert Folded(name, text).value + "" == Folded(name, text).value;
    var seen := ReadFields(Unfold(FoldAll(fields))).value;
    assert seen[0].name == fields[0].name && seen[0].value == fields[0].value;
  }

  /** A printable-ASCII value with an overlong token comes back unchanged, whatever its whitespace, under every name that lets it fold. */
  lemma OverlongValueSurvives(name: string, value: string, qEncode: string -> string)
    requires IsValidHeaderName(name) && IsPrintableAscii(value) && HasOverlongToken(value)
    ensures var folded := Folded(name, EncodeHeaderWord(value, qEncode));
      && (folded.Some? <==> |name| <= 924)
      && (folded.Some? ==> ReadRawHeader(folded.value) == Some(Field(name, value)) && Longest(folded.value, 0) <= HARD_LIMIT)
  {
    OverlongHeaderFolds(name, value, qEncode);
    PrintableIsPlain(value);
    OverlongIsLong(value);
    var text := EncodeHeaderWord(value, qEncode);
    assert text == JoinSpaces(Words(value));
    hide Folded, ReadRawHeader, SingleSpaced, DecodeValue, Words, JoinSpaces, HasOverlongToken, IsPrintableAscii, EncodeHeaderWord, WordsFit, Longest;
    if Folded(name, text).Some? {
      RawHeaderKeepsLimit(name, value, qEncode);
      WordsLayout(value, 0, HARD_LIMIT);
      ReadOneHeader(name, text);
      WordsDecode(value, false);
    }
  }

  predicate NoEncodedWords(s: string) {
    forall w :: w in Tokens(s) ==> DecodeWord(w).None?
  }

  lemma {:induction false} PlainDecodes(s: string, afterEncoded: bool)
    requires NoEncodedWords(s)
    ensures DecodeValue(s, afterEncoded) == s
    decreases |s|
  {
    hide NextPiece, DecodeWord;
    if s != "" {
      var p := NextPiece(s);
      PieceShape(s);
      if p.word != "" {
        assert p.word in Tokens(s);
        forall w | w in Tokens(p.rest) ensures DecodeWord(w).None? {
          assert w in Tokens(s);
        }
        PlainDecodes(p.rest, false);
      }
    }
  }

  /** So does a plain single-spaced one, unless the user's own text has the form of an encoded-word. */
  lemma PlainValueSurvives(name: string, value: string, qEncode: string -> string)
    requires IsPrintableAscii(value) && !HasOverlongToken(value) && SingleSpaced(value) && NoEncodedWords(value)
    requires Folded(name, EncodeHeaderWord(value, qEncode)).Some?
    ensures ReadRawHeader(Folded(name, EncodeHeaderWord(value, qEncode)).value) == Some(Field(name, value))
  {
    PlainIsKept(value, qEncode);
    hide Folded, ReadRawHeader, SingleSpaced, DecodeValue, HasOverlongToken, IsPrintableAscii, NoEncodedWords, EncodeHeaderWord;
    ReadOneHeader(name, value);
    PlainDecodes(value, false);
  }

  // ----- what reaches the wire -----

  /** Printable ASCII, white space and line endings. */
  predicate OnWire(s: string) {
    forall i :: 0 <= i < |s| ==> s[i] in "\t\r\n" || 0x20 <= s[i] as int < 0x80
  }

  lemma OnWireBoth(a: string, b: string)
    requires OnWire(a) && OnWire(b)
    ensures OnWire(a + b)
  {
  }

  lemma PrintableOnWire(s: string)
    requires IsPrintableAscii(s)
    ensures OnWire(s)
  {
  }

  lemma {:induction false} FoldedOnWire(s: string, first: bool, lineLength: nat, prefix: nat)
    requires OnWire(s) && FoldRest(s, first, lineLength, prefix).Some?
    ensures OnWire(FoldRest(s, first, lineLength, prefix).value)
    decreases |s|
  {
    if s != "" {
      var p := NextPiece(s);
      PieceShape(s);
      PieceOnWire(s, p);
      hide NextPiece, OnWire, AllSpace, NoSpace, Bounded;
      if p.word != "" {
        var length := Extended(p, first, lineLength, prefix);
        FoldedOnWire(p.rest, false, length, prefix);
        SeparatorOnWire(p, first, lineLength, prefix);
        OnWireBoth(Separator(p, first, lineLength, prefix), p.word);
        OnWireBoth(Separator(p, first, lineLength, prefix) + p.word, FoldRest(p.rest, false, length, prefix).value);
      }
    }
  }

  lemma SeparatorOnWire(p: Piece, first: bool, lineLength: nat, prefix: nat)
    requires OnWire(p.space)
    ensures OnWire(Separator(p, first, lineLength, prefix))
  {
  }

  lemma PieceOnWire(s: string, p: Piece)
    requires OnWire(s) && s == p.space + p.word + p.rest
    ensures OnWire(p.space) && OnWire(p.word) && OnWire(p.rest)
  {
    forall i | 0 <= i < |p.space| ensures p.space[i] == s[i] {
    }
    forall i | 0 <= i < |p.word| ensures p.word[i] == s[|p.space| + i] {
    }
    forall i | 0 <= i < |p.rest| ensures p.rest[i] == s[|p.space| + |p.word| + i] {
    }
  }

  lemma {:induction false} WordsOnWire(s: string)
    requires IsOctets(s)
    ensures OnWire(JoinSpaces(Words(s)))
    decreases |s|
  {
    hide Base64.Encode, OnWire, IsOctets, ToOctets;
    if s == "" {
      NothingOnWire();
    } else {
      var n := if |s| < RAW_CHUNK then |s| else RAW_CHUNK;
      OctetsSplit(s, n);
      var word := EncodedWord(ToOctets(s[..n]));
      WordOnWire(ToOctets(s[..n]));
      WordsOnWire(s[n..]);
      var words := Words(s);
      assert words == [word] + Words(s[n..]) && words[1..] == Words(s[n..]);
      OnWireBoth(word, " ");
      OnWireBoth(word + " ", JoinSpaces(words[1..]));
    }
  }

  lemma NothingOnWire()
    ensures OnWire("") && OnWire(" ") && OnWire(": ") && OnWire("\r\n")
  {
  }

  lemma OctetsSplit(s: string, n: nat)
    requires IsOctets(s) && n <= |s|
    ensures IsOctets(s[..n]) && IsOctets(s[n..]) && OnWire(" ")
  {
  }

  lemma WordOnWire(data: seq<Octet>)
    ensures OnWire(EncodedWord(data))
  {
    hide Base64.Encode;
    Base64.EncodeShape(data);
    var text := Base64.Encode(data);
    forall i | 0 <= i < |text| ensures 0x20 <= text[i] as int < 0x80 {
      assert Base64.InAlphabet(text[i]);
    }
    OnWireBoth(WORD_PREFIX + text, WORD_SUFFIX);
  }

  lemma NameOnWire(name: string)
    requires IsValidHeaderName(name)
    ensures OnWire(name)
  {
    forall i | 0 <= i < |name| ensures 0x20 <= name[i] as int < 0x80 {
      assert NameChar(name[i]);
    }
  }

  /** Whatever the value, only printable ASCII reaches the wire, if what the Q encoder makes of other values is printable ASCII. */
  lemma HeaderIsPrintable(name: string, value: string, qEncode: string -> string)
    requires forall s :: IsPrintableAscii(qEncode(s))
    requires Folded(name, EncodeHeaderWord(value, qEncode)).Some?
    ensures OnWire(Folded(name, EncodeHeaderWord(value, qEncode)).value)
  {
    var text := EncodeHeaderWord(value, qEncode);
    TextOnWire(value, qEncode);
    hide OnWire, FoldRest, EncodeHeaderWord, IsValidHeaderName, IsPrintableAscii;
    NothingOnWire();
    NameOnWire(name);
    var body := FoldRest(text, true, |name| + 2, |name| + 2).value;
    FoldedOnWire(text, true, |name| + 2, |name| + 2);
    OnWireBoth(name, ": ");
    OnWireBoth(name + ": ", body);
    OnWireBoth(name + ": " + body, "\r\n");
  }

  lemma TextOnWire(value: string, qEncode: string -> string)
    requires forall s :: IsPrintableAscii(qEncode(s))
    ensures OnWire(EncodeHeaderWord(value, qEncode))
  {
    if IsPrintableAscii(value) {
      PrintableIsPlain(value);
      PrintableOnWire(value);
      hide OnWire, HasOverlongToken;
      WordsOnWire(value);
    } else {
      PrintableOnWire(qEncode(value));
    }
  }

  /** What the Q encoder makes of a value reaches the reader as it is, if its words stand one space apart. */
  lemma EncodedValueArrives(name: string, value: string, qEncode: string -> string)
    requires !IsPrintableAscii(value) && SingleSpaced(qEncode(value)) && Folded(name, EncodeHeaderWord(value, qEncode)).Some?
    ensures ReadRawHeader(Folded(name, EncodeHeaderWord(value, qEncode)).value) == Some(Field(name, DecodeValue(qEncode(value), false)))
  {
    hide Folded, ReadRawHeader, SingleSpaced, DecodeValue;
    ReadOneHeader(name, qEncode(value));
  }

  // ----- 95 octets is the bound -----

  function Repeat(c: char, n: nat): string {
    if n == 0 then "" else [c] + Repeat(c, n - 1)
  }

  lemma {:induction false} RepeatShape(c: char, n: nat)
    ensures |Repeat(c, n)| == n && forall i :: 0 <= i < n ==> Repeat(c, n)[i] == c
  {
    if n > 0 {
      RepeatShape(c, n - 1);
    }
  }

  /** A word that may stand in a plain value. */
  predicate PlainWord(w: string) {
    0 < |w| <= MAX_TOKEN && forall i :: 0 <= i < |w| ==> 'a' <= w[i] <= 'z'
  }

  lemma RepeatIsPlain(c: char, n: nat)
    requires 'a' <= c <= 'z' && 0 < n <= MAX_TOKEN
    ensures PlainWord(Repeat(c, n)) && |Repeat(c, n)| == n
  {
    RepeatShape(c, n);
    hide Repeat;
  }

  lemma PlainWordShape(w: string)
    requires PlainWord(w)
    ensures IsPrintableAscii(w) && NoSpace(w) && Spaced(w) && Tokens(w) == [w]
  {
    NoSpaceIsSingleSpaced(w);
    assert "" + w + "" == w;
    PieceOf("", w, "");
    assert Tokens("") == [];
    hide NextPiece;
    assert [w] + [] == [w];
  }

  lemma WordBefore(w: string, text: string)
    requires PlainWord(w) && IsPrintableAscii(text) && Spaced(text) && text != ""
    ensures var s := w + " " + text;
      && IsPrintableAscii(s) && Spaced(s) && Tokens(s) == [w] + Tokens(" " + text)
      && NextPiece(s) == Piece("", w, " " + text)
  {
    var s := w + " " + text;
    PlainWordShape(w);
    SingleSpacedJoin(w, text);
    assert s[|s| - 1] == text[|text| - 1];
    assert s[0] == w[0];
    assert s == "" + w + (" " + text);
    PieceOf("", w, " " + text);
    hide NextPiece, SingleSpaced;
    forall i | 0 <= i < |s| ensures s[i] == '\t' || 0x20 <= s[i] as int < 0x80 {
      assert s[i] == (if i < |w| then w[i] else if i == |w| then ' ' else text[i - |w| - 1]);
    }
  }

  lemma SpaceKeepsTokens(text: string)
    requires text != "" && !IsSpace(text[0])
    ensures Tokens(" " + text) == Tokens(text)
    ensures NextPiece(" " + text) == NextPiece(text).(space := " ") && NextPiece(text).space == ""
  {
    PieceShape(text);
    SpaceBefore(text);
  }

  lemma RefusedLater(s: string, p: Piece, first: bool, lineLength: nat, prefix: nat)
    requires s != "" && NextPiece(s) == p && p.word != ""
    requires Extended(p, first, lineLength, prefix) > HARD_LIMIT
          || FoldRest(p.rest, false, Extended(p, first, lineLength, prefix), prefix).None?
    ensures FoldRest(s, first, lineLength, prefix).None?
  {
  }

  /** Three words, of which the second makes the line just as long as the prefix: it is never folded again. */
  lemma ThreeWordsAreRefused(a: string, b: string, c: string)
    requires PlainWord(a) && |a| == 1 && PlainWord(b) && |b| == 97 && PlainWord(c) && |c| == MAX_TOKEN
    ensures var s := a + " " + (b + " " + c);
      && IsPrintableAscii(s) && Spaced(s) && !HasOverlongToken(s) && FoldRest(s, true, 98, 98).None?
  {
    hide NextPiece, FoldRest, Spaced, IsPrintableAscii, PlainWord, Tokens;
    PlainWordShape(c);
    assert PlainWord(c) ==> c != "";
    var t := b + " " + c;
    WordBefore(b, c);
    WordBefore(a, t);
    StartsPlain(c);
    StartsPlain(t);
    SpaceKeepsTokens(c);
    SpaceKeepsTokens(t);
    LastWord(c);
    RefusedLater(" " + c, Piece(" ", c, ""), false, 98, 98);
    RefusedLater(" " + t, Piece(" ", b, " " + c), false, 99, 98);
    RefusedLater(a + " " + t, Piece("", a, " " + t), true, 98, 98);
    assert Tokens(a + " " + t) == [a] + ([b] + [c]);
  }

  lemma StartsPlain(s: string)
    requires Spaced(s) && s != ""
    ensures !IsSpace(s[0])
  {
  }

  lemma LastWord(c: string)
    requires PlainWord(c)
    ensures NextPiece(c) == Piece("", c, "")
  {
    assert "" + c + "" == c;
    PieceOf("", c, "");
  }

  /** One token of 900 octets, which is not overlong, does not fit behind a name of 97 octets or more. */
  lemma OneWordIsRefused(c: string, prefix: nat)
    requires PlainWord(c) && |c| == MAX_TOKEN && prefix >= 99
    ensures IsPrintableAscii(c) && Spaced(c) && !HasOverlongToken(c) && FoldRest(c, true, prefix, prefix).None?
  {
    hide NextPiece, FoldRest, Spaced, IsPrintableAscii;
    PlainWordShape(c);
    LastWord(c);
    RefusedLater(c, Piece("", c, ""), true, prefix, prefix);
  }

  lemma LongNamesRefuse(name: string) returns (value: string)
    requires |name| > 95
    ensures IsPrintableAscii(value) && Spaced(value) && !HasOverlongToken(value) && Folded(name, value).None?
  {
    hide Repeat, IsValidHeaderName, FoldRest, HasCrLf, HasOverlongToken, PlainWord, Spaced, IsPrintableAscii;
    RepeatIsPlain('a', 1);
    RepeatIsPlain('b', 97);
    RepeatIsPlain('c', MAX_TOKEN);
    var a, b, c := Repeat('a', 1), Repeat('b', 97), Repeat('c', MAX_TOKEN);
    if |name| == 96 {
      ThreeWordsAreRefused(a, b, c);
      value := a + " " + (b + " " + c);
    } else {
      OneWordIsRefused(c, |name| + 2);
      value := c;
    }
  }

  /** Under a valid name every printable, trimmed, single-spaced value can be written exactly if the name has at most 95 octets. */
  lemma NinetyFiveExactly(name: string, qEncode: string -> string)
    requires IsValidHeaderName(name)
    ensures (forall value: string :: IsPrintableAscii(value) && Spaced(value) ==> Folded(name, EncodeHeaderWord(value, qEncode)).Some?)
       <==> |name| <= 95
  {
    hide IsPrintableAscii, Spaced, Folded, EncodeHeaderWord, HasOverlongToken, IsValidHeaderName;
    if |name| <= 95 {
      forall value: string | IsPrintableAscii(value) && Spaced(value) ensures Folded(name, EncodeHeaderWord(value, qEncode)).Some? {
        if HasOverlongToken(value) {
          OverlongHeaderFolds(name, value, qEncode);
        } else {
          PlainHeaderFolds(name, value, qEncode);
        }
      }
    } else {
      var value := LongNamesRefuse(name);
      PlainIsKept(value, qEncode);
    }
  }
}
