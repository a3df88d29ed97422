/** What a MIME reader finds in a message written by message.go: the whole structure and every attachment. */
module MessageReading {
  import opened Octets
  import opened Strings
  import opened MimeTree
  import opened MimeTreeReading
  import opened MessageBody
  import Base64

  /** The quoted-printable lines of the two bodies hold no CR and no "=_". */
  predicate CleanText(m: Message, qp: QpEncoder) {
    LeafBody(qp(m.text)) && LeafBody(qp(m.html))
  }

  predicate CleanHeaders(attachments: seq<Attachment>) {
    forall i :: 0 <= i < |attachments| ==> LeafHeaders(attachments[i].headers)
  }

  /** What generateBoundary yields: equally long, marked with "=_", and never the same twice. */
  predicate Distinct(boundaries: Boundaries, length: nat) {
    && (forall i: nat :: i < 3 ==> |boundaries(i)| == length && HoldsMark(boundaries(i)) && '\r' !in boundaries(i))
    && (forall i: nat, j: nat :: i < j < 3 ==> boundaries(i) != boundaries(j))
  }

  predicate Printable(m: Message, qp: QpEncoder, boundaries: Boundaries, length: nat) {
    CleanText(m, qp) && CleanHeaders(m.attachments) && Distinct(boundaries, length)
  }

  // ----- every part is readable -----

  lemma DigitsAreHarmless(line: string)
    requires Base64.AllInAlphabet(line)
    ensures Harmless(line)
  {
    assert forall i :: 0 <= i < |line| ==> Base64.InAlphabet(line[i]);
  }

  lemma AttachmentIsReadable(a: Attachment, length: nat, above: set<string>)
    requires LeafHeaders(a.headers)
    ensures Readable(AttachmentLeaf(a), length, above)
  {
    hide Harmless, Base64.Encode, Base64.AllInAlphabet, LeafHeaders;
    var text := Base64.Encode(a.data);
    Base64.EncodeShape(a.data);
    Base64.LinesJoin(text);
    hide Base64.Lines;
    forall i | 0 <= i < |Base64.Lines(text)| ensures Harmless(Base64.Lines(text)[i]) {
      DigitsAreHarmless(Base64.Lines(text)[i]);
    }
  }

  lemma {:induction false} AttachmentsAreReadable(attachments: seq<Attachment>, length: nat, above: set<string>)
    requires CleanHeaders(attachments)
    ensures AllReadable(AttachmentLeaves(attachments), length, above)
    decreases |attachments|
  {
    hide Readable, AttachmentLeaf, LeafHeaders;
    if attachments != [] {
      AttachmentIsReadable(attachments[0], length, above);
      AttachmentsAreReadable(attachments[1..], length, above);
      assert AttachmentLeaves(attachments)[1..] == AttachmentLeaves(attachments[1..]);
    }
  }

  lemma NoPrefix(s: string, prefix: string, i: nat)
    requires i < |s| && i < |prefix| && s[i] != prefix[i]
    ensures !HasPrefix(s, prefix)
  {
    assert |s| >= |prefix| ==> s[..|prefix|][i] == s[i];
  }

  lemma QuietHeader(line: string, i: nat)
    requires '\r' !in line && i < |line| && i < |TYPE_PREFIX| && line[i] != TYPE_PREFIX[i] && line[0] == 'C'
    ensures LeafHeaders([line])
  {
    NoPrefix(line, TYPE_PREFIX, i);
    NoPrefix(line, "--", 0);
    hide HasPrefix, HoldsMark;
  }

  lemma TextHeaders(contentType: string)
    requires contentType in {"text/plain", "text/html"}
    ensures LeafHeaders(["Content-Type: " + contentType + "; charset=utf-8"])
  {
    var line := "Content-Type: " + contentType + "; charset=utf-8";
    hide LeafHeaders;
    assert contentType[0] == 't' && '\r' !in contentType;
    assert line[14] == 't' && TYPE_PREFIX[14] == 'm';
    QuietHeader(line, 14);
  }

  lemma EncodingHeader()
    ensures LeafHeaders(["Content-Transfer-Encoding: quoted-printable"])
    ensures LeafHeaders(["Content-Transfer-Encoding: 7bit"])
  {
    hide LeafHeaders;
    assert TYPE_PREFIX[9] == 'y';
    QuietHeader("Content-Transfer-Encoding: quoted-printable", 9);
    QuietHeader("Content-Transfer-Encoding: 7bit", 9);
  }

  lemma TwoHeaders(first: string, second: string)
    requires LeafHeaders([first]) && LeafHeaders([second])
    ensures LeafHeaders([first, second])
  {
    hide Harmless, ReadMultipartLine;
    assert [first][0] == first && [second][0] == second;
  }

  lemma TextIsReadable(contentType: string, body: seq<Octet>, qp: QpEncoder, length: nat, above: set<string>)
    requires LeafBody(qp(body)) && contentType in {"text/plain", "text/html"}
    ensures Readable(TextLeaf(contentType, body, qp), length, above)
  {
    hide LeafHeaders, LeafBody;
    TextHeaders(contentType);
    EncodingHeader();
    TwoHeaders("Content-Type: " + contentType + "; charset=utf-8", "Content-Transfer-Encoding: quoted-printable");
  }

  lemma AllReadableOf(first: Node, others: seq<Node>, length: nat, above: set<string>)
    requires Readable(first, length, above) && AllReadable(others, length, above)
    ensures AllReadable([first] + others, length, above)
  {
    hide Readable;
    assert ([first] + others)[1..] == others;
  }

  lemma MultiIsReadable(subtype: string, boundary: string, parts: seq<Node>, length: nat, above: set<string>)
    requires subtype in {"mixed", "related", "alternative"}
    requires |boundary| == length && HoldsMark(boundary) && '\r' !in boundary && boundary !in above
    requires parts != [] && AllReadable(parts, length, above + {boundary})
    ensures Readable(Multi(subtype, boundary, parts), length, above)
  {
    hide HoldsMark, AllReadable;
    assert ';' !in subtype && '\r' !in subtype;
  }

  /** `above` holds the boundaries drawn before. */
  predicate Drawn(above: set<string>, boundaries: Boundaries, k: nat) {
    forall b :: b in above ==> exists i: nat :: i < k && b == boundaries(i)
  }

  lemma NextBoundary(above: set<string>, boundaries: Boundaries, length: nat, k: nat)
    requires Distinct(boundaries, length) && Drawn(above, boundaries, k) && k < 3
    ensures |boundaries(k)| == length && HoldsMark(boundaries(k)) && '\r' !in boundaries(k) && boundaries(k) !in above
    ensures Drawn(above + {boundaries(k)}, boundaries, k + 1)
  {
    hide HoldsMark;
    forall b | b in above + {boundaries(k)} ensures exists i: nat :: i < k + 1 && b == boundaries(i) {
      if b in above {
        var i: nat :| i < k && b == boundaries(i);
        assert i < k + 1;
      } else {
        assert b == boundaries(k);
      }
    }
  }

  lemma ContentIsReadable(m: Message, qp: QpEncoder, boundaries: Boundaries, k: nat, length: nat, above: set<string>)
    requires CleanText(m, qp) && Distinct(boundaries, length) && Drawn(above, boundaries, k) && k < 3
    ensures Readable(ContentNode(m, qp, boundaries, k), length, above)
  {
    var inside := above + {boundaries(k)};
    NextBoundary(above, boundaries, length, k);
    hide Readable, TextLeaf, LeafBody, Distinct, HoldsMark, Drawn;
    TextIsReadable("text/plain", m.text, qp, length, above);
    TextIsReadable("text/html", m.html, qp, length, above);
    TextIsReadable("text/plain", m.text, qp, length, inside);
    TextIsReadable("text/html", m.html, qp, length, inside);
    var text, html := TextLeaf("text/plain", m.text, qp), TextLeaf("text/html", m.html, qp);
    assert AllReadable([], length, inside);
    AllReadableOf(html, [], length, inside);
    AllReadableOf(text, [html], length, inside);
    assert [html] + [] == [html] && [text] + [html] == [text, html];
    MultiIsReadable("alternative", boundaries(k), [text, html], length, above);
  }

  lemma ContainerIsReadable(subtype: string, boundary: string, first: Node, attachments: seq<Attachment>, length: nat, above: set<string>)
    requires subtype in {"mixed", "related", "alternative"} && CleanHeaders(attachments)
    requires |boundary| == length && HoldsMark(boundary) && '\r' !in boundary && boundary !in above
    requires Readable(first, length, above + {boundary})
    ensures Readable(Multi(subtype, boundary, [first] + AttachmentLeaves(attachments)), length, above)
  {
    hide Readable, HoldsMark, CleanHeaders, AttachmentLeaves;
    AttachmentsAreReadable(attachments, length, above + {boundary});
    AllReadableOf(first, AttachmentLeaves(attachments), length, above + {boundary});
    MultiIsReadable(subtype, boundary, [first] + AttachmentLeaves(attachments), length, above);
  }

  lemma RelatedIsReadable(
    m: Message, inline: seq<Attachment>, qp: QpEncoder, boundaries: Boundaries, k: nat, length: nat, above: set<string>)
    requires CleanText(m, qp) && CleanHeaders(inline) && Distinct(boundaries, length) && Drawn(above, boundaries, k) && k < 2
    ensures Readable(RelatedNode(m, inline, qp, boundaries, k), length, above)
  {
    NextBoundary(above, boundaries, length, k);
    hide Readable, CleanText, Distinct, HoldsMark, Drawn, ContentNode, CleanHeaders, AttachmentLeaves;
    ContentIsReadable(m, qp, boundaries, k + 1, length, above + {boundaries(k)});
    ContainerIsReadable("related", boundaries(k), ContentNode(m, qp, boundaries, k + 1), inline, length, above);
  }

  lemma {:induction false} PartsAreClean(attachments: seq<Attachment>)
    requires CleanHeaders(attachments)
    ensures CleanHeaders(InlineParts(attachments)) && CleanHeaders(RegularParts(attachments))
    decreases |attachments|
  {
    hide LeafHeaders;
    if attachments != [] {
      PartsAreClean(attachments[1..]);
      hide InlineParts, RegularParts;
      PartsOfMore(attachments);
    } else {
      assert InlineParts([]) == [] && RegularParts([]) == [];
    }
  }

  lemma NothingIsDrawn(boundaries: Boundaries)
    ensures Drawn({}, boundaries, 0)
  {
  }

  lemma MixedIsReadable(m: Message, inline: seq<Attachment>, regular: seq<Attachment>, qp: QpEncoder, boundaries: Boundaries, length: nat)
    requires CleanText(m, qp) && CleanHeaders(inline) && CleanHeaders(regular) && Distinct(boundaries, length)
    ensures Readable(MixedNode(m, inline, regular, qp, boundaries, 0), length, {})
  {
    NothingIsDrawn(boundaries);
    NextBoundary({}, boundaries, length, 0);
    hide Readable, CleanText, Distinct, HoldsMark, Drawn, ContentNode, RelatedNode, CleanHeaders, AttachmentLeaves;
    if regular == [] && inline != [] {
      RelatedIsReadable(m, inline, qp, boundaries, 0, length, {});
    } else {
      ContentIsReadable(m, qp, boundaries, 1, length, {} + {boundaries(0)});
      RelatedIsReadable(m, inline, qp, boundaries, 1, length, {} + {boundaries(0)});
      var body := if inline != [] then RelatedNode(m, inline, qp, boundaries, 1) else ContentNode(m, qp, boundaries, 1);
      ContainerIsReadable("mixed", boundaries(0), body, regular, length, {});
    }
  }

  lemma EmptyIsReadable(length: nat)
    ensures Readable(EMPTY_BODY, length, {})
  {
    hide LeafHeaders;
    TextHeaders("text/plain");
    EncodingHeader();
    assert "Content-Type: " + "text/plain" + "; charset=utf-8" == "Content-Type: text/plain; charset=utf-8";
    TwoHeaders("Content-Type: text/plain; charset=utf-8", "Content-Transfer-Encoding: 7bit");
  }

  lemma BodyIsReadable(m: Message, qp: QpEncoder, boundaries: Boundaries, length: nat)
    requires Printable(m, qp, boundaries, length)
    ensures Readable(BodyNode(m, qp, boundaries), length, {})
  {
    hide Readable, CleanText, Distinct, Drawn, ContentNode, MixedNode, CleanHeaders;
    PartsAreClean(m.attachments);
    NothingIsDrawn(boundaries);
    EmptyIsReadable(length);
    MixedIsReadable(m, InlineParts(m.attachments), RegularParts(m.attachments), qp, boundaries, length);
    ContentIsReadable(m, qp, boundaries, 0, length, {});
  }

  // ----- the whole message -----

  lemma VersionLine(text: string, lines: seq<string>)
    requires text == Unlines([MIME_VERSION] + lines) && SplitText(Unlines(lines)) == Some(lines)
    ensures SplitText(text) == Some([MIME_VERSION] + lines)
  {
    assert ([MIME_VERSION] + lines)[1..] == lines;
    hide SplitText;
    SplitFirst(MIME_VERSION, Unlines(lines));
  }

  /** Whatever the bodies and the attachments, the reader recovers the tree that writeBody printed. */
  lemma MessageIsRecovered(m: Message, qp: QpEncoder, boundaries: Boundaries, length: nat, text: string)
    requires Printable(m, qp, boundaries, length)
    requires text == Unlines([MIME_VERSION] + Lines(BodyNode(m, qp, boundaries)))
    ensures var lines := SplitText(text);
      && lines.Some? && lines.value != [] && lines.value[0] == "MIME-Version: 1.0"
      && Read(lines.value[1..]) == Some(BodyNode(m, qp, boundaries))
  {
    var node := BodyNode(m, qp, boundaries);
    BodyIsReadable(m, qp, boundaries, length);
    hide Readable, BodyNode, Printable, Read, SplitText, Unlines;
    LinesHaveNoCr(node, length, {});
    SplitUnlines(Lines(node));
    ReadLines(node, length, {});
    VersionLine(text, Lines(node));
    assert ([MIME_VERSION] + Lines(node))[1..] == Lines(node);
  }

  // ----- what the recovered tree holds -----

  /** The leaves of a tree from first to last. */
  function Leaves(node: Node): seq<Node>
    decreases node, 1
  {
    match node
    case Leaf(_, _) => [node]
    case Multi(_, _, parts) => LeavesOf(parts)
  }

  function LeavesOf(parts: seq<Node>): seq<Node>
    decreases parts, 0
  {
    if parts == [] then [] else Leaves(parts[0]) + LeavesOf(parts[1..])
  }

  /** The containers around the first leaf, from the outside. */
  function Nesting(node: Node): seq<string> {
    match node
    case Leaf(_, _) => []
    case Multi(subtype, _, parts) => if parts == [] then [subtype] else [subtype] + Nesting(parts[0])
  }

  lemma {:induction false} LeavesOfAttachments(attachments: seq<Attachment>)
    ensures LeavesOf(AttachmentLeaves(attachments)) == AttachmentLeaves(attachments)
    decreases |attachments|
  {
    if attachments != [] {
      LeavesOfAttachments(attachments[1..]);
      assert AttachmentLeaves(attachments)[1..] == AttachmentLeaves(attachments[1..]);
    }
  }

  lemma LeavesOfContainer(subtype: string, boundary: string, first: Node, attachments: seq<Attachment>)
    ensures Leaves(Multi(subtype, boundary, [first] + AttachmentLeaves(attachments))) == Leaves(first) + AttachmentLeaves(attachments)
    ensures Nesting(Multi(subtype, boundary, [first] + AttachmentLeaves(attachments))) == [subtype] + Nesting(first)
  {
    LeavesOfAttachments(attachments);
    hide AttachmentLeaves;
    var parts := [first] + AttachmentLeaves(attachments);
    assert parts[1..] == AttachmentLeaves(attachments);
  }

  lemma LeavesOfContent(m: Message, qp: QpEncoder, boundaries: Boundaries, k: nat)
    ensures Leaves(ContentNode(m, qp, boundaries, k)) == TextLeaves(m, qp)
    ensures Nesting(ContentNode(m, qp, boundaries, k)) == if m.text != [] && m.html != [] then ["alternative"] else []
  {
    if m.text != [] && m.html != [] {
      LeavesOfTwo(TextLeaf("text/plain", m.text, qp), TextLeaf("text/html", m.html, qp));
    }
  }

  lemma LeavesOfTwo(a: Node, b: Node)
    requires a.Leaf? && b.Leaf?
    ensures LeavesOf([a, b]) == [a, b]
  {
    assert [a, b][1..] == [b] && [b][1..] == [];
    assert LeavesOf([]) == [];
    assert LeavesOf([b]) == [b];
  }

  function Containers(m: Message): seq<string> {
    (if RegularParts(m.attachments) != [] then ["mixed"] else [])
    + (if InlineParts(m.attachments) != [] then ["related"] else [])
    + (if m.text != [] && m.html != [] then ["alternative"] else [])
  }

  lemma SomePart(attachments: seq<Attachment>)
    requires attachments != []
    ensures InlineParts(attachments) != [] || RegularParts(attachments) != []
  {
  }

  /**
   The printed tree nests mixed over related over alternative, each only where it is needed, and
   its leaves are the text parts, the inline parts and the regular parts, in this order.
   */
  lemma WhatTheTreeHolds(m: Message, qp: QpEncoder, boundaries: Boundaries)
    requires m.text != [] || m.html != [] || m.attachments != []
    ensures Nesting(BodyNode(m, qp, boundaries)) == Containers(m)
    ensures Leaves(BodyNode(m, qp, boundaries))
         == TextLeaves(m, qp) + AttachmentLeaves(InlineParts(m.attachments)) + AttachmentLeaves(RegularParts(m.attachments))
  {
    var inline, regular := InlineParts(m.attachments), RegularParts(m.attachments);
    hide Leaves, Nesting, ContentNode, TextLeaves, MixedNode;
    if m.attachments != [] {
      SomePart(m.attachments);
      WhatMixedHolds(m, inline, regular, qp, boundaries);
    } else {
      LeavesOfContent(m, qp, boundaries, 0);
      assert AttachmentLeaves(inline) == [] && AttachmentLeaves(regular) == [];
    }
  }

  lemma WhatRelatedHolds(m: Message, inline: seq<Attachment>, qp: QpEncoder, boundaries: Boundaries, k: nat)
    ensures Leaves(RelatedNode(m, inline, qp, boundaries, k)) == TextLeaves(m, qp) + AttachmentLeaves(inline)
    ensures Nesting(RelatedNode(m, inline, qp, boundaries, k))
         == ["related"] + if m.text != [] && m.html != [] then ["alternative"] else []
  {
    hide Leaves, Nesting, ContentNode, TextLeaves, AttachmentLeaves;
    LeavesOfContent(m, qp, boundaries, k + 1);
    LeavesOfContainer("related", boundaries(k), ContentNode(m, qp, boundaries, k + 1), inline);
  }

  lemma WhatMixedHolds(m: Message, inline: seq<Attachment>, regular: seq<Attachment>, qp: QpEncoder, boundaries: Boundaries)
    requires inline != [] || regular != []
    ensures Leaves(MixedNode(m, inline, regular, qp, boundaries, 0)) == TextLeaves(m, qp) + AttachmentLeaves(inline) + AttachmentLeaves(regular)
    ensures Nesting(MixedNode(m, inline, regular, qp, boundaries, 0))
         == (if regular != [] then ["mixed"] else []) + (if inline != [] then ["related"] else [])
            + (if m.text != [] && m.html != [] then ["alternative"] else [])
  {
    if regular == [] {
      assert AttachmentLeaves(regular) == [];
      hide Leaves, Nesting, RelatedNode, TextLeaves, AttachmentLeaves;
      WhatRelatedHolds(m, inline, qp, boundaries, 0);
      assert TextLeaves(m, qp) + AttachmentLeaves(inline) + [] == TextLeaves(m, qp) + AttachmentLeaves(inline);
    } else {
      WhatIsBeforeTheRegular(m, inline, qp, boundaries);
      hide Leaves, Nesting, ContentNode, TextLeaves, AttachmentLeaves, RelatedNode;
      var body := if inline != [] then RelatedNode(m, inline, qp, boundaries, 1) else ContentNode(m, qp, boundaries, 1);
      LeavesOfContainer("mixed", boundaries(0), body, regular);
    }
  }

  lemma WhatIsBeforeTheRegular(m: Message, inline: seq<Attachment>, qp: QpEncoder, boundaries: Boundaries)
    ensures var body := if inline != [] then RelatedNode(m, inline, qp, boundaries, 1) else ContentNode(m, qp, boundaries, 1);
      && Leaves(body) == TextLeaves(m, qp) + AttachmentLeaves(inline)
      && Nesting(body) == (if inline != [] then ["related"] else []) + (if m.text != [] && m.html != [] then ["alternative"] else [])
  {
    assert inline == [] ==> AttachmentLeaves(inline) == [];
    hide Leaves, Nesting, ContentNode, TextLeaves, AttachmentLeaves, RelatedNode;
    WhatRelatedHolds(m, inline, qp, boundaries, 1);
    LeavesOfContent(m, qp, boundaries, 1);
  }

  /** Regular attachments stand directly in the mixed container, inline ones directly in the related one, beside the content. */
  lemma WhereAttachmentsStand(m: Message, qp: QpEncoder, boundaries: Boundaries)
    ensures var node, inline, regular := BodyNode(m, qp, boundaries), InlineParts(m.attachments), RegularParts(m.attachments);
      && (regular != [] ==> node.Multi? && node.subtype == "mixed" && node.parts != [] && node.parts[1..] == AttachmentLeaves(regular))
      && (inline != [] ==>
            var related := if regular != [] then node.parts[0] else node;
            related.Multi? && related.subtype == "related" && related.parts != [] && related.parts[1..] == AttachmentLeaves(inline))
  {
    var inline, regular := InlineParts(m.attachments), RegularParts(m.attachments);
    assert m.attachments == [] ==> inline == [] && regular == [];
    hide InlineParts, RegularParts, AttachmentLeaves, ContentNode;
  }

  /** A text part as a reader finds it: its two header lines, and the quoted-printable body. */
  predicate IsTextPart(leaf: Node, contentType: string, body: seq<string>) {
    leaf == Leaf(["Content-Type: " + contentType, "Content-Transfer-Encoding: quoted-printable"], body)
  }

  /** The text parts at the beginning of `leaves`: plain before HTML, only those that are not empty, or an empty plain one. */
  predicate BeginsWithTexts(leaves: seq<Node>, m: Message, qp: QpEncoder) {
    if m.text != [] && m.html != [] then
      && |leaves| >= 2 && IsTextPart(leaves[0], "text/plain; charset=utf-8", qp(m.text))
      && IsTextPart(leaves[1], "text/html; charset=utf-8", qp(m.html))
    else if m.html != [] then |leaves| >= 1 && IsTextPart(leaves[0], "text/html; charset=utf-8", qp(m.html))
    else if m.text != [] || m.attachments != [] then |leaves| >= 1 && IsTextPart(leaves[0], "text/plain; charset=utf-8", qp(m.text))
    else leaves == [Leaf(["Content-Type: text/plain; charset=utf-8", "Content-Transfer-Encoding: 7bit"], [])]
  }

  lemma TextParts(m: Message, qp: QpEncoder, rest: seq<Node>)
    requires m.text != [] || m.html != [] || m.attachments != []
    ensures BeginsWithTexts(TextLeaves(m, qp) + rest, m, qp)
    ensures |TextLeaves(m, qp)| == if m.text != [] && m.html != [] then 2 else 1
  {
    assert "Content-Type: " + "text/plain" + "; charset=utf-8" == "Content-Type: " + "text/plain; charset=utf-8";
    assert "Content-Type: " + "text/html" + "; charset=utf-8" == "Content-Type: " + "text/html; charset=utf-8";
  }

  lemma SidesAreAll(attachments: seq<Attachment>)
    ensures |AttachmentLeaves(InlineParts(attachments))| + |AttachmentLeaves(RegularParts(attachments))| == |attachments|
  {
    NothingIsLost(attachments);
    AttachmentsDecode(InlineParts(attachments));
    AttachmentsDecode(RegularParts(attachments));
    hide *;
    var inline, regular := InlineParts(attachments), RegularParts(attachments);
    assert |multiset(inline) + multiset(regular)| == |multiset(attachments)|;
  }

  lemma TextsOfEmpty(m: Message, qp: QpEncoder, boundaries: Boundaries)
    requires m.text == [] && m.html == [] && m.attachments == []
    ensures var leaves := Leaves(BodyNode(m, qp, boundaries)); BeginsWithTexts(leaves, m, qp) && |leaves| == 1
  {
  }

  lemma TextsOfTree(m: Message, qp: QpEncoder, boundaries: Boundaries)
    ensures BeginsWithTexts(Leaves(BodyNode(m, qp, boundaries)), m, qp)
    ensures |Leaves(BodyNode(m, qp, boundaries))| == (if m.text != [] && m.html != [] then 2 else 1) + |m.attachments|
  {
    hide *;
    if m.text != [] || m.html != [] || m.attachments != [] {
      WhatTheTreeHolds(m, qp, boundaries);
      var inline, regular := AttachmentLeaves(InlineParts(m.attachments)), AttachmentLeaves(RegularParts(m.attachments));
      SidesAreAll(m.attachments);
      TextParts(m, qp, inline + regular);
      assert TextLeaves(m, qp) + inline + regular == TextLeaves(m, qp) + (inline + regular);
    } else {
      TextsOfEmpty(m, qp, boundaries);
    }
  }

  /**
   A reader finds the plain text under text/plain and the HTML under text/html, in this order, then one
   part for every attachment, and nothing else; an empty message is one empty part.
   */
  lemma ReaderFindsTexts(m: Message, qp: QpEncoder, boundaries: Boundaries, length: nat, text: string) returns (node: Node)
    requires Printable(m, qp, boundaries, length)
    requires text == Unlines([MIME_VERSION] + Lines(BodyNode(m, qp, boundaries)))
    ensures SplitText(text).Some? && |SplitText(text).value| > 0 && Read(SplitText(text).value[1..]) == Some(node)
    ensures BeginsWithTexts(Leaves(node), m, qp)
    ensures |Leaves(node)| == (if m.text != [] && m.html != [] then 2 else 1) + |m.attachments|
  {
    hide *;
    node := BodyNode(m, qp, boundaries);
    MessageIsRecovered(m, qp, boundaries, length, text);
    TextsOfTree(m, qp, boundaries);
  }

  /** `leaf` is a part of type `contentType` whose decoded body is `body`. */
  predicate Yields(leaf: Node, contentType: string, decode: seq<string> -> seq<Octet>, body: seq<Octet>) {
    leaf.Leaf? && leaf.headers != [] && leaf.headers[0] == "Content-Type: " + contentType && decode(leaf.body) == body
  }

  /** With a decoder that undoes the quoted-printable encoder both texts come back, each from its own part. */
  lemma TextsComeBack(m: Message, qp: QpEncoder, decode: seq<string> -> seq<Octet>, boundaries: Boundaries, length: nat, text: string)
    returns (node: Node)
    requires Printable(m, qp, boundaries, length) && forall body :: decode(qp(body)) == body
    requires text == Unlines([MIME_VERSION] + Lines(BodyNode(m, qp, boundaries)))
    ensures SplitText(text).Some? && |SplitText(text).value| > 0 && Read(SplitText(text).value[1..]) == Some(node)
    ensures m.text != [] ==> Leaves(node) != [] && Yields(Leaves(node)[0], "text/plain; charset=utf-8", decode, m.text)
    ensures var k := if m.text != [] then 1 else 0;
      m.html != [] ==> |Leaves(node)| > k && Yields(Leaves(node)[k], "text/html; charset=utf-8", decode, m.html)
  {
    hide Printable, Read, SplitText, Unlines, Leaves, BodyNode;
    node := ReaderFindsTexts(m, qp, boundaries, length, text);
  }

  /** `part` is `whole` with some elements left out, the others in their order. */
  predicate Subsequence<T(==)>(part: seq<T>, whole: seq<T>)
    decreases |whole|
  {
    if part == [] then true
    else whole != [] && ((part[0] == whole[0] && Subsequence(part[1..], whole[1..])) || Subsequence(part, whole[1..]))
  }

  /** Every attachment is on exactly one side, its own, and keeps its place. */
  lemma EveryAttachmentOnce(attachments: seq<Attachment>)
    ensures multiset(InlineParts(attachments)) + multiset(RegularParts(attachments)) == multiset(attachments)
    ensures forall a :: a in InlineParts(attachments) ==> a.inline
    ensures forall a :: a in RegularParts(attachments) ==> !a.inline
    ensures Subsequence(InlineParts(attachments), attachments) && Subsequence(RegularParts(attachments), attachments)
  {
    NothingIsLost(attachments);
    PlacesAreKept(attachments);
  }

  lemma {:induction false} NothingIsLost(attachments: seq<Attachment>)
    ensures multiset(InlineParts(attachments)) + multiset(RegularParts(attachments)) == multiset(attachments)
    ensures forall a :: a in InlineParts(attachments) ==> a.inline
    ensures forall a :: a in RegularParts(attachments) ==> !a.inline
    decreases |attachments|
  {
    if attachments != [] {
      NothingIsLost(attachments[1..]);
      assert attachments == [attachments[0]] + attachments[1..];
    }
  }

  lemma {:induction false} PlacesAreKept(attachments: seq<Attachment>)
    ensures Subsequence(InlineParts(attachments), attachments) && Subsequence(RegularParts(attachments), attachments)
    decreases |attachments|
  {
    if attachments != [] {
      hide Subsequence;
      PlacesAreKept(attachments[1..]);
      PutBack(attachments);
    }
  }

  lemma PutBack(attachments: seq<Attachment>)
    requires attachments != []
    requires Subsequence(InlineParts(attachments[1..]), attachments[1..]) && Subsequence(RegularParts(attachments[1..]), attachments[1..])
    ensures Subsequence(InlineParts(attachments), attachments) && Subsequence(RegularParts(attachments), attachments)
  {
    var first := attachments[0];
    assert ([first] + InlineParts(attachments[1..]))[1..] == InlineParts(attachments[1..]);
    assert ([first] + RegularParts(attachments[1..]))[1..] == RegularParts(attachments[1..]);
    assert [] + InlineParts(attachments[1..]) == InlineParts(attachments[1..]);
    assert [] + RegularParts(attachments[1..]) == RegularParts(attachments[1..]);
  }

  /** The part of every attachment carries its headers and, once decoded, its data. */
  lemma {:induction false} AttachmentsDecode(attachments: seq<Attachment>)
    ensures |AttachmentLeaves(attachments)| == |attachments|
    ensures forall i :: 0 <= i < |attachments| ==> var leaf := AttachmentLeaves(attachments)[i];
      leaf.Leaf? && leaf.headers == attachments[i].headers && Base64.Decode(Base64.Concat(leaf.body)) == Some(attachments[i].data)
    decreases |attachments|
  {
    if attachments != [] {
      AttachmentDecodes(attachments[0]);
      hide AttachmentLeaf, Base64.Decode, Base64.Concat;
      AttachmentsDecode(attachments[1..]);
    }
  }

  lemma AttachmentDecodes(a: Attachment)
    ensures var leaf := AttachmentLeaf(a);
      leaf.Leaf? && leaf.headers == a.headers && Base64.Decode(Base64.Concat(leaf.body)) == Some(a.data)
  {
    hide Base64.Encode, Base64.Decode, Base64.Lines, Base64.Concat;
    Base64.LinesJoin(Base64.Encode(a.data));
    Base64.DecodeEncode(a.data);
  }
}
