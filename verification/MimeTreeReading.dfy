/** The reader recovers every readable tree from its lines. */
module MimeTreeReading {
  import opened Octets
  import opened Strings
  import opened MimeTree

  predicate Quiet(lines: seq<string>, boundary: string) {
    forall i :: 0 <= i < |lines| ==> !IsDelimiter(lines[i], boundary)
  }

  lemma QuietConcat(a: seq<string>, b: seq<string>, boundary: string)
    requires Quiet(a, boundary) && Quiet(b, boundary)
    ensures Quiet(a + b, boundary)
  {
  }

  // ----- lines that are no delimiters -----

  lemma HarmlessIsNoDelimiter(line: string, boundary: string)
    requires Harmless(line) && HoldsMark(boundary)
    ensures !IsDelimiter(line, boundary)
  {
    if HasPrefix(line, OpenLine(boundary)) {
      DelimiterHoldsMark(line, boundary);
    }
  }

  lemma DelimiterHoldsMark(line: string, boundary: string)
    requires HasPrefix(line, OpenLine(boundary)) && HoldsMark(boundary)
    ensures HoldsMark(line) && HasPrefix(line, "--")
  {
    var i :| 0 <= i < |boundary| - 1 && boundary[i] == '=' && boundary[i + 1] == '_';
    var open := OpenLine(boundary);
    assert forall k :: 0 <= k < |open| ==> line[k] == line[..|open|][k];
    assert open[i + 2] == boundary[i] && open[i + 3] == boundary[i + 1];
    assert line[i + 2] == '=' && line[i + 3] == '_';
    assert line[..2] == line[..|open|][..2];
  }

  lemma OtherDelimiter(other: string, boundary: string)
    requires |other| == |boundary| && other != boundary
    ensures !IsDelimiter(OpenLine(other), boundary) && !IsDelimiter(CloseLine(other), boundary)
  {
    var n := |boundary| + 2;
    assert OpenLine(other)[..n][2..] == other;
    assert CloseLine(other)[..n][2..] == other;
    assert OpenLine(boundary)[2..] == boundary;
  }

  lemma TypeLineIsNoDelimiter(subtype: string, own: string, boundary: string)
    ensures !IsDelimiter(MultipartLine(subtype, own), boundary) && !IsDelimiter("", boundary)
  {
    var line := MultipartLine(subtype, own);
    var open := OpenLine(boundary);
    assert line[0] == 'C' && open[0] == '-';
    assert |line| >= |open| ==> line[..|open|][0] == line[0];
  }

  /** No line of a readable body is a delimiter of a multipart it lies in. */
  lemma {:induction false} LinesAreQuiet(node: Node, boundary: string, above: set<string>)
    requires Readable(node, |boundary|, above) && boundary in above && HoldsMark(boundary)
    ensures Quiet(Lines(node), boundary)
    decreases node, 1
  {
    hide HoldsMark, Harmless, IsDelimiter;
    match node
    case Leaf(headers, body) =>
      forall i | 0 <= i < |headers| ensures !IsDelimiter(headers[i], boundary) {
        HarmlessIsNoDelimiter(headers[i], boundary);
      }
      forall i | 0 <= i < |body| ensures !IsDelimiter(body[i], boundary) {
        HarmlessIsNoDelimiter(body[i], boundary);
      }
      TypeLineIsNoDelimiter("", "", boundary);
      QuietConcat(headers, [""], boundary);
      QuietConcat(headers + [""], body, boundary);
    case Multi(subtype, own, parts) =>
      TypeLineIsNoDelimiter(subtype, own, boundary);
      OtherDelimiter(own, boundary);
      PartLinesAreQuiet(own, parts, boundary, above + {own});
      QuietConcat([MultipartLine(subtype, own), ""], PartLines(own, parts), boundary);
      QuietConcat([MultipartLine(subtype, own), ""] + PartLines(own, parts), [CloseLine(own)], boundary);
  }

  lemma {:induction false} PartLinesAreQuiet(own: string, parts: seq<Node>, boundary: string, above: set<string>)
    requires AllReadable(parts, |boundary|, above) && boundary in above && HoldsMark(boundary)
    requires |own| == |boundary| && own != boundary
    ensures Quiet(PartLines(own, parts), boundary)
    decreases parts, 0
  {
    hide HoldsMark, IsDelimiter, Readable;
    if parts != [] {
      OtherDelimiter(own, boundary);
      LinesAreQuiet(parts[0], boundary, above);
      PartLinesAreQuiet(own, parts[1..], boundary, above);
      QuietConcat([OpenLine(own)], Lines(parts[0]), boundary);
      QuietConcat([OpenLine(own)] + Lines(parts[0]), PartLines(own, parts[1..]), boundary);
    }
  }

  // ----- splitting -----

  lemma CloseIsDelimiter(line: string, boundary: string)
    requires IsClose(line, boundary)
    ensures IsDelimiter(line, boundary)
  {
    var open, close := OpenLine(boundary), CloseLine(boundary);
    assert close[..|open|] == open;
    assert line[..|open|] == line[..|close|][..|open|];
  }

  lemma {:induction false} CollectQuiet(quiet: seq<string>, rest: seq<string>, boundary: string, current: seq<string>)
    requires Quiet(quiet, boundary)
    ensures Collect(quiet + rest, boundary, current) == Collect(rest, boundary, current + quiet)
    decreases |quiet|
  {
    hide IsClose, IsDelimiter;
    if quiet == [] {
      assert quiet + rest == rest && current + [] == current;
    } else {
      var lines := quiet + rest;
      assert lines[0] == quiet[0] && lines[1..] == quiet[1..] + rest;
      assert !IsClose(lines[0], boundary) by {
        if IsClose(lines[0], boundary) {
          CloseIsDelimiter(lines[0], boundary);
          assert false;
        }
      }
      CollectQuiet(quiet[1..], rest, boundary, current + [quiet[0]]);
      assert current + [quiet[0]] + quiet[1..] == current + quiet;
    }
  }

  function Texts(parts: seq<Node>): seq<seq<string>> {
    if parts == [] then [] else [Lines(parts[0])] + Texts(parts[1..])
  }

  lemma OwnDelimiters(boundary: string)
    ensures IsDelimiter(OpenLine(boundary), boundary) && !IsClose(OpenLine(boundary), boundary)
    ensures IsClose(CloseLine(boundary), boundary)
  {
  }

  lemma {:induction false} CollectParts(boundary: string, parts: seq<Node>, current: seq<string>, above: set<string>)
    requires AllReadable(parts, |boundary|, above) && boundary in above && HoldsMark(boundary)
    ensures Collect(PartLines(boundary, parts) + [CloseLine(boundary)], boundary, current) == Some([current] + Texts(parts))
    decreases parts
  {
    hide IsClose, IsDelimiter, HoldsMark, Readable, Lines;
    OwnDelimiters(boundary);
    var end := [CloseLine(boundary)];
    if parts == [] {
      assert PartLines(boundary, parts) + end == end && [current] + [] == [current];
    } else {
      var first, rest := Lines(parts[0]), PartLines(boundary, parts[1..]);
      var lines := PartLines(boundary, parts) + end;
      assert lines[0] == OpenLine(boundary) && lines[1..] == first + (rest + end);
      LinesAreQuiet(parts[0], boundary, above);
      CollectQuiet(first, rest + end, boundary, []);
      assert [] + first == first;
      CollectParts(boundary, parts[1..], first, above);
    }
  }

  lemma SplitPartLines(boundary: string, parts: seq<Node>, above: set<string>)
    requires parts != [] && AllReadable(parts, |boundary|, above) && boundary in above && HoldsMark(boundary)
    ensures SplitParts(PartLines(boundary, parts) + [CloseLine(boundary)], boundary) == Some(Texts(parts))
  {
    hide *;
    var rest := PartLines(boundary, parts[1..]) + [CloseLine(boundary)];
    OwnDelimiters(boundary);
    FirstReadable(parts, |boundary|, above);
    FirstPartLines(boundary, parts);
    LinesAreQuiet(parts[0], boundary, above);
    CollectQuiet(Lines(parts[0]), rest, boundary, []);
    NothingBefore(Lines(parts[0]));
    CollectParts(boundary, parts[1..], Lines(parts[0]), above);
    SplitFirstPart(boundary, OpenLine(boundary), Lines(parts[0]) + rest);
    TextsOf(parts);
  }

  lemma FirstReadable(parts: seq<Node>, length: nat, above: set<string>)
    requires parts != [] && AllReadable(parts, length, above)
    ensures Readable(parts[0], length, above) && AllReadable(parts[1..], length, above)
  {
    hide Readable;
  }

  lemma FirstPartLines(boundary: string, parts: seq<Node>)
    requires parts != []
    ensures PartLines(boundary, parts) + [CloseLine(boundary)]
         == [OpenLine(boundary)] + (Lines(parts[0]) + (PartLines(boundary, parts[1..]) + [CloseLine(boundary)]))
  {
    hide Lines;
  }

  lemma NothingBefore(lines: seq<string>)
    ensures [] + lines == lines
  {
  }

  lemma SplitFirstPart(boundary: string, open: string, lines: seq<string>)
    requires IsDelimiter(open, boundary) && !IsClose(open, boundary)
    ensures SplitParts([open] + lines, boundary) == Collect(lines, boundary, [])
  {
    hide IsDelimiter, IsClose, Collect;
    assert ([open] + lines)[1..] == lines;
  }

  lemma TextsOf(parts: seq<Node>)
    requires parts != []
    ensures Texts(parts) == [Lines(parts[0])] + Texts(parts[1..])
  {
    hide Lines;
  }

  // ----- headers -----

  lemma {:induction false} CountHeaders(headers: seq<string>, body: seq<string>)
    requires forall i :: 0 <= i < |headers| ==> headers[i] != ""
    ensures HeaderCount(headers + [""] + body) == |headers|
    decreases |headers|
  {
    var lines := headers + [""] + body;
    if headers != [] {
      assert lines[1..] == headers[1..] + [""] + body;
      CountHeaders(headers[1..], body);
    }
  }

  lemma {:induction false} NoMultipart(headers: seq<string>)
    requires forall i :: 0 <= i < |headers| ==> ReadMultipartLine(headers[i]).None?
    ensures FindMultipart(headers).None?
    decreases |headers|
  {
    hide ReadMultipartLine;
    if headers != [] {
      NoMultipart(headers[1..]);
    }
  }

  lemma ReadMultipartLineOf(subtype: string, boundary: string)
    requires ';' !in subtype
    ensures ReadMultipartLine(MultipartLine(subtype, boundary)) == Some((subtype, boundary))
  {
    var tail := BOUNDARY_PREFIX + (boundary + QUOTE);
    var rest := subtype + tail;
    assert MultipartLine(subtype, boundary) == TYPE_PREFIX + rest;
    Cut(TYPE_PREFIX, rest);
    IndexOf(subtype, ';', tail);
    Cut(subtype, tail);
    Cut(BOUNDARY_PREFIX, boundary + QUOTE);
    assert tail == (BOUNDARY_PREFIX + boundary) + QUOTE;
    Cut(BOUNDARY_PREFIX + boundary, QUOTE);
    hide Index;
    assert tail[|BOUNDARY_PREFIX|..|tail| - 1] == boundary;
  }

  // ----- the round trip -----

  lemma {:induction false} ReadLines(node: Node, length: nat, above: set<string>)
    requires Readable(node, length, above)
    ensures Read(Lines(node)) == Some(node)
    decreases node, 1
  {
    match node
    case Leaf(headers, body) =>
      ReadLeaf(headers, body);
    case Multi(subtype, boundary, parts) =>
      hide Lines, HoldsMark, Read, ReadAll;
      SplitPartLines(boundary, parts, above + {boundary});
      ReadTexts(parts, length, above + {boundary}, |Lines(node)|);
      ReadMulti(subtype, boundary, parts);
  }

  lemma ReadLeaf(headers: seq<string>, body: seq<string>)
    requires LeafHeaders(headers)
    ensures Read(Lines(Leaf(headers, body))) == Some(Leaf(headers, body))
  {
    hide ReadMultipartLine, Harmless;
    var lines := Lines(Leaf(headers, body));
    CountHeaders(headers, body);
    NoMultipart(headers);
    assert lines[..|headers|] == headers && lines[|headers| + 1..] == body;
  }

  lemma ReadMulti(subtype: string, boundary: string, parts: seq<Node>)
    requires ';' !in subtype
    requires SplitParts(PartLines(boundary, parts) + [CloseLine(boundary)], boundary) == Some(Texts(parts))
    requires (forall p :: p in Texts(parts) ==> |p| < |Lines(Multi(subtype, boundary, parts))|)
    requires ReadAll(Texts(parts), |Lines(Multi(subtype, boundary, parts))|) == Some(parts)
    ensures Read(Lines(Multi(subtype, boundary, parts))) == Some(Multi(subtype, boundary, parts))
  {
    MultiShape(subtype, boundary, parts);
    ReadMultipartLineOf(subtype, boundary);
    hide ReadMultipartLine, SplitParts, ReadAll, PartLines, MultipartLine, Lines, HeaderCount;
    assert FindMultipart([MultipartLine(subtype, boundary)]) == Some((subtype, boundary));
  }

  lemma MultiShape(subtype: string, boundary: string, parts: seq<Node>)
    ensures var lines := Lines(Multi(subtype, boundary, parts));
      && HeaderCount(lines) == 1 && |lines| > 2 && lines[..1] == [MultipartLine(subtype, boundary)]
      && lines[2..] == PartLines(boundary, parts) + [CloseLine(boundary)]
  {
    var line := MultipartLine(subtype, boundary);
    var body := PartLines(boundary, parts) + [CloseLine(boundary)];
    var lines := Lines(Multi(subtype, boundary, parts));
    assert lines == [line] + [""] + body;
    CountHeaders([line], body);
  }

  lemma {:induction false} ReadTexts(parts: seq<Node>, length: nat, above: set<string>, limit: nat)
    requires AllReadable(parts, length, above) && forall p :: p in Texts(parts) ==> |p| < limit
    ensures ReadAll(Texts(parts), limit) == Some(parts)
    decreases parts, 0
  {
    hide *;
    if parts != [] {
      FirstReadable(parts, length, above);
      TextsOf(parts);
      ReadLines(parts[0], length, above);
      ReadTexts(parts[1..], length, above, limit);
      ReadAllMore(Lines(parts[0]), Texts(parts[1..]), parts, limit);
    } else {
      NoTexts(limit);
    }
  }

  lemma NoTexts(limit: nat)
    ensures Texts([]) == [] && ReadAll([], limit) == Some([])
  {
  }

  lemma ReadAllMore(text: seq<string>, texts: seq<seq<string>>, parts: seq<Node>, limit: nat)
    requires parts != [] && Read(text) == Some(parts[0]) && |text| < limit && forall p :: p in texts ==> |p| < limit
    requires ReadAll(texts, limit) == Some(parts[1..])
    ensures ReadAll([text] + texts, limit) == Some(parts)
  {
    hide Read;
    assert ([text] + texts)[1..] == texts;
    assert [parts[0]] + parts[1..] == parts;
  }

  // ----- lines and text -----

  function Unlines(lines: seq<string>): string {
    if lines == [] then "" else lines[0] + "\r\n" + Unlines(lines[1..])
  }

  /** The lines of a text of which every line ends with CRLF. */
  function SplitText(text: string): Option<seq<string>>
    decreases |text|
  {
    if text == "" then Some([])
    else
      var k := Index(text, '\r');
      if k + 1 >= |text| || text[k + 1] != '\n' then None
      else
        var more := SplitText(text[k + 2..]);
        if more.None? then None else Some([text[..k]] + more.value)
  }

  predicate NoCr(lines: seq<string>) { forall i :: 0 <= i < |lines| ==> '\r' !in lines[i] }

  lemma SplitFirst(line: string, rest: string)
    requires '\r' !in line && SplitText(rest).Some?
    ensures SplitText(line + "\r\n" + rest) == Some([line] + SplitText(rest).value)
  {
    var text := line + "\r\n" + rest;
    assert text == line + ("\r\n" + rest);
    IndexOf(line, '\r', "\r\n" + rest);
    hide Index;
    assert text[..|line|] == line && text[|line| + 2..] == rest;
  }

  lemma {:induction false} SplitUnlines(lines: seq<string>)
    requires NoCr(lines)
    ensures SplitText(Unlines(lines)) == Some(lines)
    decreases |lines|
  {
    hide SplitText;
    if lines == [] {
      SplitNothing();
    } else {
      SplitUnlines(lines[1..]);
      SplitFirst(lines[0], Unlines(lines[1..]));
      assert [lines[0]] + lines[1..] == lines;
    }
  }

  lemma SplitNothing()
    ensures SplitText("") == Some([])
  {
  }

  lemma {:induction false} UnlinesConcat(a: seq<string>, b: seq<string>)
    ensures Unlines(a + b) == Unlines(a) + Unlines(b)
    decreases |a|
  {
    if a == [] {
      assert a + b == b;
    } else {
      assert (a + b)[1..] == a[1..] + b;
      UnlinesConcat(a[1..], b);
    }
  }

  lemma {:induction false} LinesHaveNoCr(node: Node, length: nat, above: set<string>)
    requires Readable(node, length, above)
    ensures NoCr(Lines(node))
    decreases node, 1
  {
    match node
    case Leaf(headers, body) =>
      assert forall i :: 0 <= i < |headers| ==> Harmless(headers[i]);
      assert forall i :: 0 <= i < |body| ==> Harmless(body[i]);
    case Multi(subtype, boundary, parts) =>
      PartLinesHaveNoCr(boundary, parts, length, above + {boundary});
  }

  lemma {:induction false} PartLinesHaveNoCr(boundary: string, parts: seq<Node>, length: nat, above: set<string>)
    requires AllReadable(parts, length, above) && '\r' !in boundary
    ensures NoCr(PartLines(boundary, parts))
    decreases parts, 0
  {
    hide Readable;
    if parts != [] {
      LinesHaveNoCr(parts[0], length, above);
      PartLinesHaveNoCr(boundary, parts[1..], length, above);
    }
  }

  /** Printing a readable tree and reading the text gives the tree. */
  lemma TextRoundTrip(node: Node, length: nat, above: set<string>)
    requires Readable(node, length, above)
    ensures var lines := SplitText(Unlines(Lines(node))); lines.Some? && Read(lines.value) == Some(node)
  {
    hide Readable, Read;
    LinesHaveNoCr(node, length, above);
    SplitUnlines(Lines(node));
    ReadLines(node, length, above);
  }
}
