/** A long parameter value inside a folded header: what a reader of the written header recovers. */
module ParameterHeaders {
  import opened Octets
  import opened Strings
  import opened HeaderFolding
  import opened HeaderReading
  import Decimals
  import P = ParameterContinuations

  /** The text of a parameter: no white space and nothing that ends a value. */
  lemma {:induction false} EncodedHasNoSpace(value: seq<Octet>)
    ensures NoSpace(P.PercentEncode(value))
    decreases |value|
  {
    if value != [] {
      OctetHasNoSpace(value[0]);
      EncodedHasNoSpace(value[1..]);
    }
  }

  lemma OctetHasNoSpace(c: Octet)
    ensures NoSpace(P.PercentEncodeOctet(c))
  {
  }

  lemma NumberHasNoSpace(n: nat)
    ensures NoSpace(Decimals.Print(n))
  {
    Decimals.ValueOfPrint(n);
    var s := Decimals.Print(n);
    forall i | 0 <= i < |s| ensures !IsSpace(s[i]) {
      assert Decimals.IsDigit(s[i]);
    }
  }

  lemma NoSpaceConcat(a: string, b: string)
    requires NoSpace(a) && NoSpace(b)
    ensures NoSpace(a + b)
  {
  }

  /** One more parameter in front. */
  lemma SpacedPair(pair: string, rest: string)
    requires NoSpace(pair) && pair != "" && SingleSpaced(rest) && (rest == "" || rest[0] == ';')
    ensures SingleSpaced("; " + pair + rest) && ("; " + pair + rest)[0] == ';'
  {
    var s := "; " + pair + rest;
    forall i | 0 <= i < |s| ensures s[i] != '\t' && (s[i] == ' ' && i + 1 < |s| ==> s[i + 1] != ' ') {
      if 2 <= i < 2 + |pair| {
        assert s[i] == pair[i - 2];
      } else if i >= 2 + |pair| {
        var j := i - 2 - |pair|;
        assert s[i] == rest[j] && (i + 1 < |s| ==> s[i + 1] == rest[j + 1]);
      } else if i == 1 {
        assert s[2] == pair[0];
      }
    }
  }

  lemma PairHasNoSpace(key: string, i: nat, text: string)
    requires NoSpace(key) && NoSpace(text)
    ensures NoSpace(P.SegmentName(key, i) + "=" + text)
  {
    NumberHasNoSpace(i);
    hide NoSpace, Decimals.Print;
    StarHasNoSpace();
    NoSpaceConcat(key, "*");
    NoSpaceConcat(key + "*", Decimals.Print(i));
    NoSpaceConcat(key + "*" + Decimals.Print(i), "*");
    NoSpaceConcat(P.SegmentName(key, i), "=");
    NoSpaceConcat(P.SegmentName(key, i) + "=", text);
  }

  lemma StarHasNoSpace()
    ensures NoSpace("*") && NoSpace("=") && NoSpace(P.CHARSET)
  {
  }

  lemma {:induction false} SegmentsAreSingleSpaced(key: string, chunks: seq<seq<Octet>>, i: nat)
    requires NoSpace(key) && i <= |chunks|
    ensures var text := P.Segments(key, i, P.EncodeAll(chunks[i..])); SingleSpaced(text) && (text == "" || text[0] == ';')
    decreases |chunks| - i
  {
    hide NoSpace, SingleSpaced, P.PercentEncode, P.Segment, P.SegmentName;
    if i == |chunks| {
      assert P.EncodeAll(chunks[i..]) == [];
      NothingIsSingleSpaced();
    } else {
      SegmentsAreSingleSpaced(key, chunks, i + 1);
      P.EncodeAllFrom(chunks, i);
      var encoded := P.PercentEncode(chunks[i]);
      EncodedHasNoSpace(chunks[i]);
      StarHasNoSpace();
      NoSpaceConcat(P.CHARSET, encoded);
      var text := if i == 0 then P.CHARSET + encoded else encoded;
      var rest := P.Segments(key, i + 1, P.EncodeAll(chunks[i + 1..]));
      FirstSegment(key, i, P.EncodeAll(chunks[i..]), P.EncodeAll(chunks[i + 1..]), encoded);
      P.SegmentIs(key, i, text);
      PairHasNoSpace(key, i, text);
      SpacedPair(P.SegmentName(key, i) + "=" + text, rest);
      assert "; " + P.SegmentName(key, i) + "=" + text + rest == "; " + (P.SegmentName(key, i) + "=" + text) + rest;
    }
  }

  lemma NothingIsSingleSpaced()
    ensures SingleSpaced("")
  {
  }

  lemma FirstSegment(key: string, i: nat, all: seq<string>, more: seq<string>, first: string)
    requires all == [first] + more
    ensures P.Segments(key, i, all) == P.Segment(key, i, if i == 0 then P.CHARSET + first else first) + P.Segments(key, i + 1, more)
  {
    hide P.Segment;
    assert all[1..] == more;
  }

  lemma SpacedConcat(a: string, b: string)
    requires SingleSpaced(a) && SingleSpaced(b) && (b == "" || b[0] == ';')
    ensures SingleSpaced(a + b)
  {
    var s := a + b;
    forall i | 0 <= i < |s| ensures s[i] != '\t' && (s[i] == ' ' && i + 1 < |s| ==> s[i + 1] != ' ') {
      if i < |a| {
        assert s[i] == a[i];
      } else {
        assert s[i] == b[i - |a|] && (i + 1 < |s| ==> s[i + 1] == b[i - |a| + 1]);
      }
    }
  }

  /** What a reader makes of the one header in a block: unfold it, and put the segments of parameter `key` together. */
  function ReadLongParameter(block: string, key: string): Option<seq<Octet>> {
    var fields := ReadFields(Unfold(block));
    if fields.None? || |fields.value| != 1 then None
    else P.ReadContinuations(fields.value[0].value[Index(fields.value[0].value, ';')..], key)
  }

  lemma OneHeader(f: Field)
    requires Folded(f.name, f.value).Some? && SingleSpaced(f.value)
    ensures ReadFields(Unfold(Folded(f.name, f.value).value)) == Some([f])
  {
    hide Folded, ReadFields, Unfold, SingleSpaced, Tokens;
    var fields := [f];
    HeadersSurviveFolding(fields);
    assert fields[1..] == [];
    assert FoldAll(fields[1..]) == "";
    assert FoldAll(fields) == Folded(f.name, f.value).value + "";
    assert Folded(f.name, f.value).value + "" == Folded(f.name, f.value).value;
    var seen := ReadFields(Unfold(FoldAll(fields))).value;
    assert Survives(seen[0], fields[0]);
    assert seen == [f];
  }

  /** The value of a long parameter, percent-encoded, cut, numbered and folded, comes back from the written header. */
  lemma LongParameterSurvives(name: string, mediaType: string, key: string, value: seq<Octet>)
    requires SingleSpaced(mediaType) && ';' !in mediaType && NoSpace(key) && '=' !in key && ';' !in key
    requires Folded(name, mediaType + P.Segments(key, 0, P.EncodeAll(P.Chunks(value)))).Some?
    ensures ReadLongParameter(Folded(name, mediaType + P.Segments(key, 0, P.EncodeAll(P.Chunks(value)))).value, key) == Some(value)
  {
    var chunks := P.Chunks(value);
    hide Folded, ReadFields, Unfold, SingleSpaced, NoSpace, P.Segments, P.EncodeAll, P.Chunks, P.ReadContinuations, Index;
    assert chunks[0..] == chunks;
    SegmentsAreSingleSpaced(key, chunks, 0);
    var segments := P.Segments(key, 0, P.EncodeAll(chunks));
    SpacedConcat(mediaType, segments);
    OneHeader(Field(name, mediaType + segments));
    IndexOf(mediaType, ';', segments);
    Cut(mediaType, segments);
    P.ContinuationsRoundTrip(key, value);
  }
}
