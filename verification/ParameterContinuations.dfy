/**
 Long MIME parameter values of mime.go: the chunks of rfc2231ContinuationChunks, their percent
 encoding, the numbered segments, and the reader of sections 3 and 4.1 of RFC 2231.
 */
module ParameterContinuations {
  import opened Octets
  import opened Strings
  import Decimals

  const MAX_RAW_CHUNK := 30

  // ----- UTF-8 -----

  predicate RuneStart(b: Octet) { b < 128 || b >= 192 }

  predicate Continuation(s: seq<Octet>, i: nat) { i < |s| && 128 <= s[i] < 192 }

  predicate Within(s: seq<Octet>, i: nat, low: Octet, high: Octet) { i < |s| && low <= s[i] <= high }

  /** The length of the well-formed encoding at the front (table 3-7 of the Unicode Standard), 0 if there is none. */
  function RuneLength(s: seq<Octet>): (n: nat)
    ensures n <= 4 && n <= |s| && (forall i :: 1 <= i < n ==> Continuation(s, i))
    ensures n > 0 ==> RuneStart(s[0])
  {
    if s == [] then 0
    else if s[0] < 128 then 1
    else if 0xC2 <= s[0] <= 0xDF && Continuation(s, 1) then 2
    else if s[0] == 0xE0 && Within(s, 1, 0xA0, 0xBF) && Continuation(s, 2) then 3
    else if s[0] == 0xED && Within(s, 1, 0x80, 0x9F) && Continuation(s, 2) then 3
    else if 0xE1 <= s[0] <= 0xEF && s[0] != 0xED && Continuation(s, 1) && Continuation(s, 2) then 3
    else if s[0] == 0xF0 && Within(s, 1, 0x90, 0xBF) && Continuation(s, 2) && Continuation(s, 3) then 4
    else if s[0] == 0xF4 && Within(s, 1, 0x80, 0x8F) && Continuation(s, 2) && Continuation(s, 3) then 4
    else if 0xF1 <= s[0] <= 0xF3 && Continuation(s, 1) && Continuation(s, 2) && Continuation(s, 3) then 4
    else 0
  }

  /** utf8.DecodeRuneInString consumes one octet of an invalid text. */
  function RuneSize(s: seq<Octet>): nat { if RuneLength(s) == 0 then 1 else RuneLength(s) }

  predicate ValidUtf8(s: seq<Octet>)
    decreases |s|
  {
    s == [] || (RuneLength(s) > 0 && ValidUtf8(s[RuneLength(s)..]))
  }

  // ----- chunks -----

  /** The greatest position up to `n` where a rune may start, 0 if there is none after it. */
  function BackUp(value: seq<Octet>, n: nat): (m: nat)
    requires n < |value|
    ensures m <= n && (m > 0 ==> RuneStart(value[m])) && (forall i :: m < i <= n ==> !RuneStart(value[i]))
  {
    if n > 0 && !RuneStart(value[n]) then BackUp(value, n - 1) else n
  }

  function ChunkLength(value: seq<Octet>): (n: nat)
    requires value != []
    ensures 0 < n <= |value| && n <= MAX_RAW_CHUNK
  {
    if |value| <= MAX_RAW_CHUNK then |value|
    else
      var n := BackUp(value, MAX_RAW_CHUNK);
      if n == 0 then RuneSize(value) else n
  }

  function Chunks(value: seq<Octet>): seq<seq<Octet>>
    decreases |value|
  {
    if value == [] then [] else [value[..ChunkLength(value)]] + Chunks(value[ChunkLength(value)..])
  }

  predicate IsAttrChar(c: Octet) {
    var ch := c as int as char;
    'A' <= ch <= 'Z' || 'a' <= ch <= 'z' || '0' <= ch <= '9' || ch in "!#$&+-.^_`|~"
  }

  function HexDigit(v: nat): char
    requires v < 16
  {
    if v < 10 then '0' + v as char else 'A' + (v - 10) as char
  }

  function PercentEncodeOctet(c: Octet): string {
    if IsAttrChar(c) then [c as int as char] else ['%', HexDigit(c as int / 16), HexDigit(c as int % 16)]
  }

  function PercentEncode(value: seq<Octet>): string {
    if value == [] then "" else PercentEncodeOctet(value[0]) + PercentEncode(value[1..])
  }

  function EncodeAll(chunks: seq<seq<Octet>>): seq<string> {
    if chunks == [] then [] else [PercentEncode(chunks[0])] + EncodeAll(chunks[1..])
  }

  lemma Regroup(a: string, b: string, c: string)
    ensures a + (b + c) == (a + b) + c
  {
  }

  lemma PercentEncodeFrom(value: seq<Octet>, i: nat)
    requires i < |value|
    ensures PercentEncode(value[i..]) == PercentEncodeOctet(value[i]) + PercentEncode(value[i + 1..])
  {
    assert value[i..][1..] == value[i + 1..];
  }

  method PercentEncodeRfc2231(value: seq<Octet>) returns (out: string)
    ensures out == PercentEncode(value)
  {
    out := "";
    assert PercentEncode([]) == "";
    hide PercentEncode, PercentEncodeOctet;
    assert value[0..] == value && "" + PercentEncode(value) == PercentEncode(value);
    for i := 0 to |value|
      invariant out + PercentEncode(value[i..]) == PercentEncode(value)
    {
      PercentEncodeFrom(value, i);
      Regroup(out, PercentEncodeOctet(value[i]), PercentEncode(value[i + 1..]));
      out := out + PercentEncodeOctet(value[i]);
    }
    assert value[|value|..] == [] && out + "" == out;
  }

  /** Where the next chunk ends. */
  method ChunkEnd(rest: seq<Octet>) returns (n: nat)
    requires rest != []
    ensures n == ChunkLength(rest)
  {
    n := |rest|;
    if n > MAX_RAW_CHUNK {
      n := MAX_RAW_CHUNK;
      while n > 0 && !RuneStart(rest[n])
        invariant n <= MAX_RAW_CHUNK && BackUp(rest, MAX_RAW_CHUNK) == BackUp(rest, n)
      {
        n := n - 1;
      }
      if n == 0 {
        n := RuneSize(rest);
      }
    }
  }

  /** rfc2231ContinuationChunks. */
  method ContinuationChunks(value: seq<Octet>) returns (chunks: seq<string>)
    ensures chunks == EncodeAll(Chunks(value))
  {
    chunks := [];
    var rest := value;
    hide PercentEncode, ChunkLength;
    while rest != []
      invariant chunks + EncodeAll(Chunks(rest)) == EncodeAll(Chunks(value))
      decreases |rest|
    {
      var n := ChunkEnd(rest);
      var chunk := PercentEncodeRfc2231(rest[..n]);
      assert Chunks(rest)[1..] == Chunks(rest[n..]);
      assert chunks + ([chunk] + EncodeAll(Chunks(rest[n..]))) == (chunks + [chunk]) + EncodeAll(Chunks(rest[n..]));
      chunks := chunks + [chunk];
      rest := rest[n..];
    }
    assert chunks + [] == chunks;
  }

  // ----- nothing is lost -----

  function Flatten(chunks: seq<seq<Octet>>): seq<Octet> {
    if chunks == [] then [] else chunks[0] + Flatten(chunks[1..])
  }

  /** For every octets: the chunks together are the value, none is empty and none longer than 30. */
  lemma {:induction false} ChunksKeepValue(value: seq<Octet>)
    ensures Flatten(Chunks(value)) == value
    ensures forall i :: 0 <= i < |Chunks(value)| ==> 0 < |Chunks(value)[i]| <= 30
    decreases |value|
  {
    hide ChunkLength;
    if value != [] {
      var n := ChunkLength(value);
      ChunksKeepValue(value[n..]);
      assert Chunks(value)[1..] == Chunks(value[n..]);
    }
  }

  /** In a valid text, wherever a rune may start, cutting there gives two valid texts. */
  lemma {:induction false} CutAtRuneStart(s: seq<Octet>, n: nat)
    requires ValidUtf8(s) && n < |s| && RuneStart(s[n])
    ensures ValidUtf8(s[..n]) && ValidUtf8(s[n..])
    decreases |s|
  {
    if n == 0 {
      assert s[..0] == [] && s[0..] == s;
    } else {
      var k := RuneLength(s);
      assert k <= n by {
        assert n < k ==> Continuation(s, n);
      }
      CutAtRuneStart(s[k..], n - k);
      assert s[k..][n - k..] == s[n..] && s[k..][..n - k] == s[k..n];
      FrontRune(s, s[..n]);
      assert s[..n][k..] == s[k..n];
    }
  }

  /** The first rune depends on its own octets only. */
  lemma FrontRune(s: seq<Octet>, part: seq<Octet>)
    requires part <= s && RuneLength(s) <= |part|
    ensures RuneLength(part) == RuneLength(s) || RuneLength(s) == 0
  {
  }

  /** A valid text has no four continuation octets in a row. */
  lemma {:induction false} NoFourContinuations(s: seq<Octet>, n: nat)
    requires ValidUtf8(s) && n + 3 < |s|
    ensures RuneStart(s[n]) || RuneStart(s[n + 1]) || RuneStart(s[n + 2]) || RuneStart(s[n + 3])
    decreases |s|
  {
    if n > 0 {
      var k := RuneLength(s);
      if n >= k {
        NoFourContinuations(s[k..], n - k);
      } else {
        assert s[k] == s[k..][0];
        assert RuneStart(s[k]);
      }
    }
  }

  lemma BackUpIsNear(value: seq<Octet>)
    requires ValidUtf8(value) && |value| > MAX_RAW_CHUNK
    ensures 27 <= ChunkLength(value) && RuneStart(value[ChunkLength(value)])
  {
    NoFourContinuations(value, MAX_RAW_CHUNK - 3);
    var n := BackUp(value, MAX_RAW_CHUNK);
  }

  /** Chunks that split no rune, all but the last of 27 octets or more. */
  predicate WellCut(chunks: seq<seq<Octet>>) {
    && (forall i :: 0 <= i < |chunks| ==> ValidUtf8(chunks[i]))
    && (forall i :: 0 <= i < |chunks| - 1 ==> 27 <= |chunks[i]| <= MAX_RAW_CHUNK)
  }

  lemma WellCutCons(chunk: seq<Octet>, more: seq<seq<Octet>>)
    requires ValidUtf8(chunk) && WellCut(more) && (more != [] ==> 27 <= |chunk| <= MAX_RAW_CHUNK)
    ensures WellCut([chunk] + more)
  {
    hide ValidUtf8;
  }

  /** For valid UTF-8 no chunk splits a rune, and every chunk but the last has 27 to 30 octets. */
  lemma {:induction false} ChunksOfValidText(value: seq<Octet>)
    requires ValidUtf8(value)
    ensures WellCut(Chunks(value))
    decreases |value|
  {
    if value != [] {
      var n := ChunkLength(value);
      if |value| > MAX_RAW_CHUNK {
        BackUpIsNear(value);
        CutAtRuneStart(value, n);
      } else {
        assert value[..n] == value && value[n..] == [];
      }
      hide ValidUtf8, RuneLength, ChunkLength, WellCut;
      ChunksOfValidText(value[n..]);
      WellCutCons(value[..n], Chunks(value[n..]));
    } else {
      assert Chunks(value) == [];
    }
  }

  // ----- percent encoding -----

  function HexValue(c: char): Option<nat> {
    if '0' <= c <= '9' then Some(c as int - '0' as int)
    else if 'A' <= c <= 'F' then Some(c as int - 'A' as int + 10)
    else if 'a' <= c <= 'f' then Some(c as int - 'a' as int + 10)
    else None
  }

  function PercentDecode(s: string): Option<seq<Octet>>
    decreases |s|
  {
    if s == "" then Some([])
    else if s[0] == '%' then
      if |s| < 3 then None
      else
        var high, low, more := HexValue(s[1]), HexValue(s[2]), PercentDecode(s[3..]);
        if high.None? || low.None? || more.None? || high.value >= 16 || low.value >= 16 then None
        else Some([(high.value * 16 + low.value) as Octet] + more.value)
    else
      var more := PercentDecode(s[1..]);
      if more.None? || s[0] as int >= 256 then None else Some([s[0] as int as Octet] + more.value)
  }

  lemma HexRoundTrip(v: nat)
    requires v < 16
    ensures HexValue(HexDigit(v)) == Some(v) && HexDigit(v) != ';'
  {
  }

  lemma AttrIsNotPercent(c: Octet)
    requires IsAttrChar(c)
    ensures c as int as char != '%' && c as int as char != ';'
  {
  }

  lemma DecodeOctet(c: Octet, rest: string)
    requires PercentDecode(rest).Some?
    ensures PercentDecode(PercentEncodeOctet(c) + rest) == Some([c] + PercentDecode(rest).value)
  {
    hide IsAttrChar, HexValue, HexDigit;
    var s := PercentEncodeOctet(c) + rest;
    if IsAttrChar(c) {
      AttrIsNotPercent(c);
      assert s[1..] == rest;
    } else {
      HexRoundTrip(c as int / 16);
      HexRoundTrip(c as int % 16);
      assert s[3..] == rest;
    }
  }

  lemma {:induction false} PercentRoundTrip(value: seq<Octet>)
    ensures PercentDecode(PercentEncode(value)) == Some(value)
    ensures ';' !in PercentEncode(value)
    decreases |value|
  {
    if value != [] {
      PercentRoundTrip(value[1..]);
      DecodeOctet(value[0], PercentEncode(value[1..]));
      HexRoundTrip(value[0] as int / 16);
      HexRoundTrip(value[0] as int % 16);
      assert [value[0]] + value[1..] == value;
    }
  }

  // ----- segments -----

  const CHARSET := "utf-8''"

  /** One numbered segment as formatMediaTypeHeaderValue writes it: key*i*=chunk. */
  function Segment(key: string, i: nat, chunk: string): string {
    "; " + key + "*" + Decimals.Print(i) + "*=" + chunk
  }

  function Segments(key: string, i: nat, chunks: seq<string>): string
    decreases |chunks|
  {
    if chunks == [] then ""
    else Segment(key, i, if i == 0 then CHARSET + chunks[0] else chunks[0]) + Segments(key, i + 1, chunks[1..])
  }

  lemma SegmentsFrom(key: string, chunks: seq<string>, i: nat)
    requires i < |chunks|
    ensures Segments(key, i, chunks[i..])
         == Segment(key, i, if i == 0 then CHARSET + chunks[i] else chunks[i]) + Segments(key, i + 1, chunks[i + 1..])
  {
    hide Segment;
    assert chunks[i..][1..] == chunks[i + 1..];
  }

  /** The branch of formatMediaTypeHeaderValue for a parameter value of more than 200 octets. */
  method FormatContinuations(key: string, value: seq<Octet>) returns (out: string)
    ensures out == Segments(key, 0, EncodeAll(Chunks(value)))
  {
    var chunks := ContinuationChunks(value);
    out := "";
    assert Segments(key, |chunks|, []) == "";
    hide Segment, Segments, EncodeAll, Chunks;
    assert chunks[0..] == chunks && "" + Segments(key, 0, chunks) == Segments(key, 0, chunks);
    for i := 0 to |chunks|
      invariant out + Segments(key, i, chunks[i..]) == Segments(key, 0, chunks)
    {
      SegmentsFrom(key, chunks, i);
      var segment := Segment(key, i, if i == 0 then CHARSET + chunks[i] else chunks[i]);
      Regroup(out, segment, Segments(key, i + 1, chunks[i + 1..]));
      out := out + segment;
    }
    assert chunks[|chunks|..] == [] && out + "" == out;
  }

  // ----- the reader -----

  datatype Parameter = Parameter(name: string, value: string)

  /** The parameters "; name=value" of a header value, None when it has another form. */
  function ReadParameters(s: string): Option<seq<Parameter>>
    decreases |s|
  {
    if s == "" then Some([])
    else if |s| < 2 || s[..2] != "; " then None
    else
      var rest := s[2..];
      var pair := rest[..Index(rest, ';')];
      var eq := Index(pair, '=');
      var more := ReadParameters(rest[|pair|..]);
      if eq == |pair| || more.None? then None
      else Some([Parameter(pair[..eq], pair[eq + 1..])] + more.value)
  }

  function Lookup(parameters: seq<Parameter>, name: string): Option<string> {
    if parameters == [] then None
    else if parameters[0].name == name then Some(parameters[0].value)
    else Lookup(parameters[1..], name)
  }

  function SegmentName(key: string, i: nat): string { key + "*" + Decimals.Print(i) + "*" }

  /** Section 3 of RFC 2231: the segments numbered from `i` on, put together in the order of their numbers. */
  function Assemble(parameters: seq<Parameter>, key: string, i: nat, limit: nat): Option<seq<Octet>>
    decreases limit
  {
    if limit == 0 then Some([])
    else
      var text := Lookup(parameters, SegmentName(key, i));
      if text.None? then Some([])
      else
        var raw := if i > 0 then text
                   else if |text.value| >= 7 && text.value[..7] == "utf-8''" then Some(text.value[7..])
                   else None;
        var data := if raw.None? then None else PercentDecode(raw.value);
        var more := Assemble(parameters, key, i + 1, limit - 1);
        if data.None? || more.None? then None else Some(data.value + more.value)
  }

  /** The value of an extended, continued parameter, whatever the order its segments stand in. */
  function ReadContinuations(text: string, key: string): Option<seq<Octet>> {
    var parameters := ReadParameters(text);
    if parameters.None? then None else Assemble(parameters.value, key, 0, |parameters.value|)
  }

  // ----- reading the segments back -----

  lemma SegmentDigits(key: string, i: nat)
    ensures var name := SegmentName(key, i); |name| >= |key| + 2 && name[|key| + 1..|name| - 1] == Decimals.Print(i)
  {
    var name := SegmentName(key, i);
    assert name == (key + "*") + (Decimals.Print(i) + "*");
  }

  lemma SegmentNamesDiffer(key: string, i: nat, j: nat)
    requires i != j
    ensures SegmentName(key, i) != SegmentName(key, j)
  {
    Decimals.ValueOfPrint(i);
    Decimals.ValueOfPrint(j);
    SegmentDigits(key, i);
    SegmentDigits(key, j);
  }

  /** The text of segment `i` of a value cut into `chunks`. */
  function SegmentText(chunks: seq<seq<Octet>>, i: nat): string
    requires i < |chunks|
  {
    (if i == 0 then CHARSET else "") + PercentEncode(chunks[i])
  }

  /** The numbered segments are all there, each once under its own name; other parameters and any order do not matter. */
  predicate Holds(parameters: seq<Parameter>, key: string, chunks: seq<seq<Octet>>) {
    && (forall i :: 0 <= i < |chunks| ==> Lookup(parameters, SegmentName(key, i)) == Some(SegmentText(chunks, i)))
    && Lookup(parameters, SegmentName(key, |chunks|)) == None
  }

  lemma {:induction false} AssembleFrom(parameters: seq<Parameter>, key: string, chunks: seq<seq<Octet>>, i: nat, limit: nat)
    requires Holds(parameters, key, chunks) && i <= |chunks| <= i + limit
    ensures Assemble(parameters, key, i, limit) == Some(Flatten(chunks[i..]))
    decreases limit
  {
    hide PercentDecode, PercentEncode, Lookup, SegmentName;
    if i < |chunks| {
      PercentRoundTrip(chunks[i]);
      AssembleFrom(parameters, key, chunks, i + 1, limit - 1);
      assert chunks[i..][1..] == chunks[i + 1..];
      var text := SegmentText(chunks, i);
      if i == 0 {
        assert text[..|CHARSET|] == CHARSET && text[|CHARSET|..] == PercentEncode(chunks[0]);
      } else {
        assert text == PercentEncode(chunks[i]);
      }
    } else {
      assert chunks[i..] == [];
    }
  }

  /** A reader that finds the segments puts the value together, in whatever order and company it finds them. */
  lemma SegmentsAssemble(parameters: seq<Parameter>, key: string, value: seq<Octet>, limit: nat)
    requires Holds(parameters, key, Chunks(value)) && |Chunks(value)| <= limit
    ensures Assemble(parameters, key, 0, limit) == Some(value)
  {
    hide Holds, Assemble;
    AssembleFrom(parameters, key, Chunks(value), 0, limit);
    ChunksKeepValue(value);
    assert Chunks(value)[0..] == Chunks(value);
  }

  function Parameters(key: string, chunks: seq<seq<Octet>>, i: nat): seq<Parameter>
    requires i <= |chunks|
    decreases |chunks| - i
  {
    if i == |chunks| then [] else [Parameter(SegmentName(key, i), SegmentText(chunks, i))] + Parameters(key, chunks, i + 1)
  }

  lemma {:induction false} ParametersLookup(key: string, chunks: seq<seq<Octet>>, i: nat, j: nat)
    requires i <= |chunks| && i <= j <= |chunks|
    ensures Lookup(Parameters(key, chunks, i), SegmentName(key, j)) == (if j < |chunks| then Some(SegmentText(chunks, j)) else None)
    ensures |Parameters(key, chunks, i)| == |chunks| - i
    decreases |chunks| - i
  {
    hide SegmentName, SegmentText;
    if i < |chunks| {
      if i == j {
        ParametersLookup(key, chunks, i + 1, i + 1);
      } else {
        SegmentNamesDiffer(key, i, j);
        ParametersLookup(key, chunks, i + 1, j);
        assert Parameters(key, chunks, i)[1..] == Parameters(key, chunks, i + 1);
      }
    }
  }

  lemma PairParts(name: string, value: string)
    requires '=' !in name && ';' !in name && ';' !in value
    ensures var pair := name + "=" + value;
            ';' !in pair && Index(pair, '=') == |name| && pair[..|name|] == name && pair[|name| + 1..] == value
  {
    var pair := name + "=" + value;
    assert pair == name + ("=" + value);
    IndexOf(name, '=', "=" + value);
    hide Index;
  }

  lemma ReadPair(pair: string, name: string, value: string, rest: string)
    requires ';' !in pair && (rest == "" || rest[0] == ';') && ReadParameters(rest).Some?
    requires |name| < |pair| && Index(pair, '=') == |name| && pair[..|name|] == name && pair[|name| + 1..] == value
    ensures ReadParameters("; " + (pair + rest)) == Some([Parameter(name, value)] + ReadParameters(rest).value)
  {
    IndexOf(pair, ';', rest);
    hide Index;
    Cut("; ", pair + rest);
    Cut(pair, rest);
  }

  lemma ReadParameter(name: string, value: string, rest: string)
    requires '=' !in name && ';' !in name && ';' !in value && (rest == "" || rest[0] == ';') && ReadParameters(rest).Some?
    ensures ReadParameters("; " + name + "=" + value + rest) == Some([Parameter(name, value)] + ReadParameters(rest).value)
  {
    hide *;
    PairParts(name, value);
    ReadPair(name + "=" + value, name, value, rest);
    PairText(name, value, rest);
  }

  lemma PairText(name: string, value: string, rest: string)
    ensures "; " + name + "=" + value + rest == "; " + ((name + "=" + value) + rest)
  {
  }

  lemma SegmentNameShape(key: string, i: nat)
    requires '=' !in key && ';' !in key
    ensures '=' !in SegmentName(key, i) && ';' !in SegmentName(key, i)
  {
    Decimals.ValueOfPrint(i);
    var digits := Decimals.Print(i);
    assert forall k :: 0 <= k < |digits| ==> Decimals.IsDigit(digits[k]);
  }

  lemma {:induction false} EncodeAllFrom(chunks: seq<seq<Octet>>, i: nat)
    requires i < |chunks|
    ensures EncodeAll(chunks[i..]) == [PercentEncode(chunks[i])] + EncodeAll(chunks[i + 1..])
  {
    assert chunks[i..][1..] == chunks[i + 1..];
  }

  lemma {:induction false} SegmentsRead(key: string, chunks: seq<seq<Octet>>, i: nat)
    requires i <= |chunks| && '=' !in key && ';' !in key
    ensures ReadParameters(Segments(key, i, EncodeAll(chunks[i..]))) == Some(Parameters(key, chunks, i))
    ensures Segments(key, i, EncodeAll(chunks[i..])) == "" || Segments(key, i, EncodeAll(chunks[i..]))[0] == ';'
    decreases |chunks| - i
  {
    hide PercentEncode, ReadParameters, SegmentName;
    if i == |chunks| {
      assert chunks[i..] == [];
      NoParameters();
    } else {
      EncodeAllFrom(chunks, i);
      var encoded := EncodeAll(chunks[i..]);
      var rest := Segments(key, i + 1, EncodeAll(chunks[i + 1..]));
      assert encoded[1..] == EncodeAll(chunks[i + 1..]);
      SegmentsRead(key, chunks, i + 1);
      PercentRoundTrip(chunks[i]);
      SegmentNameShape(key, i);
      var text := SegmentText(chunks, i);
      assert i > 0 ==> text == encoded[0];
      ReadParameter(SegmentName(key, i), text, rest);
      SegmentIs(key, i, text);
      assert Segments(key, i, encoded) == Segment(key, i, text) + rest;
    }
  }

  lemma NoParameters()
    ensures ReadParameters("") == Some([])
  {
  }

  lemma SegmentIs(key: string, i: nat, text: string)
    ensures Segment(key, i, text) == "; " + SegmentName(key, i) + "=" + text
  {
    assert "*=" == "*" + "=";
  }

  /** Continuations lose nothing: for every value the reader gets back the very octets that were written. */
  lemma ContinuationsRoundTrip(key: string, value: seq<Octet>)
    requires '=' !in key && ';' !in key
    ensures ReadContinuations(Segments(key, 0, EncodeAll(Chunks(value))), key) == Some(value)
  {
    var chunks := Chunks(value);
    hide Segments, ReadParameters, Assemble, SegmentName;
    assert chunks[0..] == chunks;
    SegmentsRead(key, chunks, 0);
    var parameters := Parameters(key, chunks, 0);
    forall j | 0 <= j <= |chunks|
      ensures Lookup(parameters, SegmentName(key, j)) == (if j < |chunks| then Some(SegmentText(chunks, j)) else None)
    {
      ParametersLookup(key, chunks, 0, j);
    }
    ParametersLookup(key, chunks, 0, 0);
    SegmentsAssemble(parameters, key, value, |parameters|);
  }

  // ----- what is encoded, and what is not -----

  /** An attribute-char of section 3.2.1 of RFC 5987: visible, and with no part in the syntax. */
  lemma AttrCharsAreVisible(c: Octet)
    ensures IsAttrChar(c) <==> 33 <= c as int <= 126 && c as int as char !in "\"%'()*,/:;<=>?@[\\]{}"
  {
  }

  /** Attribute characters stay as they are, and every other octet takes three characters. */
  lemma {:induction false} NothingIsEncodedNeedlessly(value: seq<Octet>)
    ensures |PercentEncode(value)| == EncodedLength(value)
    ensures (forall i :: 0 <= i < |value| ==> IsAttrChar(value[i])) ==>
      |PercentEncode(value)| == |value| && forall i :: 0 <= i < |value| ==> PercentEncode(value)[i] as int == value[i] as int
    decreases |value|
  {
    if value != [] {
      hide IsAttrChar;
      NothingIsEncodedNeedlessly(value[1..]);
      var first, rest := PercentEncodeOctet(value[0]), PercentEncode(value[1..]);
      assert PercentEncode(value) == first + rest;
      if forall i :: 0 <= i < |value| ==> IsAttrChar(value[i]) {
        assert first == [value[0] as int as char];
        forall i | 0 <= i < |value| ensures PercentEncode(value)[i] as int == value[i] as int {
          if i > 0 {
            assert value[1..][i - 1] == value[i] && PercentEncode(value)[i] == rest[i - 1];
          }
        }
      }
    }
  }

  function EncodedLength(value: seq<Octet>): nat {
    if value == [] then 0 else (if IsAttrChar(value[0]) then 1 else 3) + EncodedLength(value[1..])
  }
}
