/** Base64 of section 4 of RFC 4648, its inverse, and the line splitting of writeBase64 in mime.go. */
module Base64 {
  import opened Octets

  const MAX_LINE := 76

  type Sextet = x: int | 0 <= x < 64

  function Digit(v: Sextet): (c: char)
    ensures InAlphabet(c) && c != '='
  {
    if v < 26 then 'A' + v as char
    else if v < 52 then 'a' + (v - 26) as char
    else if v < 62 then '0' + (v - 52) as char
    else if v == 62 then '+' else '/'
  }

  function Undigit(c: char): Option<Sextet> {
    if 'A' <= c <= 'Z' then Some(c as int - 'A' as int)
    else if 'a' <= c <= 'z' then Some(c as int - 'a' as int + 26)
    else if '0' <= c <= '9' then Some(c as int - '0' as int + 52)
    else if c == '+' then Some(62) else if c == '/' then Some(63) else None
  }

  lemma DigitUndigit(v: Sextet)
    ensures Undigit(Digit(v)) == Some(v)
  {
  }

  function Group(a: Octet, b: Octet, c: Octet): (Sextet, Sextet, Sextet, Sextet) {
    var x, y, z := a as int, b as int, c as int;
    (x / 4, x % 4 * 16 + y / 16, y % 16 * 4 + z / 64, z % 64)
  }

  function Ungroup(p: Sextet, q: Sextet, r: Sextet, s: Sextet): (Octet, Octet, Octet) {
    ((p * 4 + q / 16) as Octet, (q % 16 * 16 + r / 4) as Octet, (r % 4 * 64 + s) as Octet)
  }

  lemma GroupUngroup(a: Octet, b: Octet, c: Octet)
    ensures var (p, q, r, s) := Group(a, b, c); Ungroup(p, q, r, s) == (a, b, c)
  {
  }

  function Encode(data: seq<Octet>): string {
    if data == [] then ""
    else if |data| == 1 then
      var (p, q, r, s) := Group(data[0], 0, 0);
      [Digit(p), Digit(q), '=', '=']
    else if |data| == 2 then
      var (p, q, r, s) := Group(data[0], data[1], 0);
      [Digit(p), Digit(q), Digit(r), '=']
    else
      var (p, q, r, s) := Group(data[0], data[1], data[2]);
      [Digit(p), Digit(q), Digit(r), Digit(s)] + Encode(data[3..])
  }

  /** The octets of one group of four characters: three, or fewer when it is padded. */
  function DecodeGroup(g: string): Option<seq<Octet>>
    requires |g| == 4
  {
    var p, q, r, s := Undigit(g[0]), Undigit(g[1]), Undigit(g[2]), Undigit(g[3]);
    if p.None? || q.None? then None
    else if g[2] == '=' && g[3] == '=' then
      var (a, b, c) := Ungroup(p.value, q.value, 0, 0);
      Some([a])
    else if r.None? then None
    else if g[3] == '=' then
      var (a, b, c) := Ungroup(p.value, q.value, r.value, 0);
      Some([a, b])
    else if s.None? then None
    else
      var (a, b, c) := Ungroup(p.value, q.value, r.value, s.value);
      Some([a, b, c])
  }

  function Decode(text: string): Option<seq<Octet>> {
    if text == "" then Some([])
    else if |text| < 4 then None
    else
      var g := DecodeGroup(text[..4]);
      var more := Decode(text[4..]);
      if g.None? || more.None? || (|g.value| < 3 && text[4..] != "") then None else Some(g.value + more.value)
  }

  lemma LastGroup(data: seq<Octet>)
    requires 0 < |data| < 3
    ensures |Encode(data)| == 4 && DecodeGroup(Encode(data)) == Some(data)
  {
    if |data| == 1 {
      var (p, q, r, s) := Group(data[0], 0, 0);
      GroupUngroup(data[0], 0, 0);
      assert data == [data[0]];
      DigitUndigit(p);
      DigitUndigit(q);
    } else {
      var (p, q, r, s) := Group(data[0], data[1], 0);
      GroupUngroup(data[0], data[1], 0);
      assert data == [data[0], data[1]];
      DigitUndigit(p);
      DigitUndigit(q);
      DigitUndigit(r);
    }
  }

  lemma FullGroup(a: Octet, b: Octet, c: Octet)
    ensures var (p, q, r, s) := Group(a, b, c);
            DecodeGroup([Digit(p), Digit(q), Digit(r), Digit(s)]) == Some([a, b, c])
  {
    var (p, q, r, s) := Group(a, b, c);
    GroupUngroup(a, b, c);
    DigitUndigit(p);
    DigitUndigit(q);
    DigitUndigit(r);
    DigitUndigit(s);
  }

  lemma DecodeStep(g: string, rest: string)
    requires |g| == 4 && DecodeGroup(g).Some? && Decode(rest).Some? && (|DecodeGroup(g).value| == 3 || rest == "")
    ensures Decode(g + rest) == Some(DecodeGroup(g).value + Decode(rest).value)
  {
    hide DecodeGroup;
    assert (g + rest)[..4] == g && (g + rest)[4..] == rest;
  }

  /** Decoding undoes encoding, for every octets. */
  lemma {:induction false} DecodeEncode(data: seq<Octet>)
    ensures Decode(Encode(data)) == Some(data)
    decreases |data|
  {
    hide DecodeGroup, Group, Digit;
    if 0 < |data| < 3 {
      LastGroup(data);
      DecodeStep(Encode(data), "");
      assert Encode(data) + "" == Encode(data) && data + [] == data;
    } else if data != [] {
      var (p, q, r, s) := Group(data[0], data[1], data[2]);
      var g := [Digit(p), Digit(q), Digit(r), Digit(s)];
      FullGroup(data[0], data[1], data[2]);
      DecodeEncode(data[3..]);
      DecodeStep(g, Encode(data[3..]));
      assert [data[0], data[1], data[2]] + data[3..] == data;
    }
  }

  predicate InAlphabet(c: char) {
    'A' <= c <= 'Z' || 'a' <= c <= 'z' || '0' <= c <= '9' || c == '+' || c == '/' || c == '='
  }

  predicate AllInAlphabet(s: string) { forall i :: 0 <= i < |s| ==> InAlphabet(s[i]) }

  lemma {:induction false} EncodeShape(data: seq<Octet>)
    ensures |Encode(data)| == (|data| + 2) / 3 * 4 && AllInAlphabet(Encode(data))
    decreases |data|
  {
    hide Group, Digit, InAlphabet;
    assert InAlphabet('=') by { PadInAlphabet(); }
    if |data| >= 3 {
      EncodeShape(data[3..]);
    }
  }

  lemma PadInAlphabet()
    ensures InAlphabet('=')
  {
  }

  // ----- lines -----

  function Lines(text: string): (lines: seq<string>) {
    if text == "" then [] else if |text| <= MAX_LINE then [text] else [text[..MAX_LINE]] + Lines(text[MAX_LINE..])
  }

  /** Lines with their line endings. */
  function Unlines(lines: seq<string>): string {
    if lines == [] then "" else lines[0] + "\r\n" + Unlines(lines[1..])
  }

  function Concat(lines: seq<string>): string {
    if lines == [] then "" else lines[0] + Concat(lines[1..])
  }

  /** writeBase64: the encoding in lines of at most 76 characters. */
  method WriteBase64(data: seq<Octet>) returns (out: string)
    ensures out == Unlines(Lines(Encode(data)))
    ensures Decode(Concat(Lines(Encode(data)))) == Some(data)
  {
    out := "";
    var encoded := Encode(data);
    LinesJoin(encoded);
    DecodeEncode(data);
    hide Encode, Decode;
    while encoded != ""
      invariant out + Unlines(Lines(encoded)) == Unlines(Lines(Encode(data)))
      decreases |encoded|
    {
      var n := if |encoded| < MAX_LINE then |encoded| else MAX_LINE;
      LinesStep(encoded, n);
      ghost var more := Unlines(Lines(encoded[n..]));
      assert out + (encoded[..n] + "\r\n" + more) == out + encoded[..n] + "\r\n" + more;
      out := out + encoded[..n];
      out := out + "\r\n";
      encoded := encoded[n..];
    }
  }

  lemma LinesStep(text: string, n: nat)
    requires text != "" && n == (if |text| < MAX_LINE then |text| else MAX_LINE)
    ensures Unlines(Lines(text)) == text[..n] + "\r\n" + Unlines(Lines(text[n..]))
  {
    if |text| <= MAX_LINE {
      assert text[..n] == text && text[n..] == "";
      assert Lines(text)[1..] == [];
    } else {
      assert Lines(text)[1..] == Lines(text[n..]);
    }
  }

  /** The lines together are the text, each has at most 76 characters and none is empty. */
  lemma {:induction false} LinesJoin(text: string)
    ensures Concat(Lines(text)) == text
    ensures forall i :: 0 <= i < |Lines(text)| ==> 0 < |Lines(text)[i]| <= 76
    ensures AllInAlphabet(text) ==> forall i :: 0 <= i < |Lines(text)| ==> AllInAlphabet(Lines(text)[i])
    decreases |text|
  {
    if |text| > MAX_LINE {
      LinesJoin(text[MAX_LINE..]);
      var lines := Lines(text);
      assert lines[1..] == Lines(text[MAX_LINE..]);
    } else if text != "" {
      assert Lines(text)[1..] == [];
      assert Concat([]) == "";
    }
  }
}
