/**
 The body of a message in message.go: which MIME structure is chosen, and the writers that emit it
 step by step. MessageReading.dfy says what a MIME reader recovers from the result.
 */
module MessageBody {
  import opened Octets
  import opened MimeTree
  import opened MimeTreeReading
  import Base64

  /** An attachment: the header lines of its part, whether it is inline, and its data. */
  datatype Attachment = Attachment(headers: seq<string>, inline: bool, data: seq<Octet>)

  datatype Message = Message(text: seq<Octet>, html: seq<Octet>, attachments: seq<Attachment>)

  /** The quoted-printable writer, by the lines of its output. */
  type QpEncoder = seq<Octet> -> seq<string>

  /** The k-th boundary that generateBoundary returns. */
  type Boundaries = nat -> string

  // ----- the structure of a message -----

  function InlineParts(attachments: seq<Attachment>): seq<Attachment> {
    if attachments == [] then []
    else (if attachments[0].inline then [attachments[0]] else []) + InlineParts(attachments[1..])
  }

  function RegularParts(attachments: seq<Attachment>): seq<Attachment> {
    if attachments == [] then []
    else (if attachments[0].inline then [] else [attachments[0]]) + RegularParts(attachments[1..])
  }

  function TextLeaf(contentType: string, body: seq<Octet>, qp: QpEncoder): Node {
    Leaf(["Content-Type: " + contentType + "; charset=utf-8", "Content-Transfer-Encoding: quoted-printable"], qp(body))
  }

  function AttachmentLeaf(a: Attachment): Node {
    Leaf(a.headers, Base64.Lines(Base64.Encode(a.data)))
  }

  function AttachmentLeaves(attachments: seq<Attachment>): seq<Node> {
    if attachments == [] then [] else [AttachmentLeaf(attachments[0])] + AttachmentLeaves(attachments[1..])
  }

  function TextLeaves(m: Message, qp: QpEncoder): seq<Node> {
    if m.text != [] && m.html != [] then [TextLeaf("text/plain", m.text, qp), TextLeaf("text/html", m.html, qp)]
    else if m.html != [] then [TextLeaf("text/html", m.html, qp)]
    else [TextLeaf("text/plain", m.text, qp)]
  }

  /** The content: one text part, or both as alternatives. `k` boundaries have been drawn before. */
  function ContentNode(m: Message, qp: QpEncoder, boundaries: Boundaries, k: nat): Node {
    if m.text != [] && m.html != [] then Multi("alternative", boundaries(k), TextLeaves(m, qp))
    else TextLeaves(m, qp)[0]
  }

  function RelatedNode(m: Message, inline: seq<Attachment>, qp: QpEncoder, boundaries: Boundaries, k: nat): Node {
    Multi("related", boundaries(k), [ContentNode(m, qp, boundaries, k + 1)] + AttachmentLeaves(inline))
  }

  function MixedNode(m: Message, inline: seq<Attachment>, regular: seq<Attachment>, qp: QpEncoder, boundaries: Boundaries, k: nat): Node {
    if regular == [] && inline != [] then RelatedNode(m, inline, qp, boundaries, k)
    else
      var body := if inline != [] then RelatedNode(m, inline, qp, boundaries, k + 1) else ContentNode(m, qp, boundaries, k + 1);
      Multi("mixed", boundaries(k), [body] + AttachmentLeaves(regular))
  }

  const EMPTY_BODY := Leaf(["Content-Type: text/plain; charset=utf-8", "Content-Transfer-Encoding: 7bit"], [])

  function BodyNode(m: Message, qp: QpEncoder, boundaries: Boundaries): Node {
    if m.text == [] && m.html == [] && m.attachments == [] then EMPTY_BODY
    else if m.attachments != [] then MixedNode(m, InlineParts(m.attachments), RegularParts(m.attachments), qp, boundaries, 0)
    else ContentNode(m, qp, boundaries, 0)
  }

  const MIME_VERSION := "MIME-Version: 1.0"

  // ----- the writers -----

  class BodyWriter {
    const m: Message
    const qp: QpEncoder
    const boundaries: Boundaries
    var out: string
    var drawn: nat

    constructor (m: Message, qp: QpEncoder, boundaries: Boundaries)
      ensures this.m == m && this.qp == qp && this.boundaries == boundaries && out == "" && drawn == 0
    {
      this.m, this.qp, this.boundaries, out, drawn := m, qp, boundaries, "", 0;
    }

    method GenerateBoundary() returns (boundary: string)
      modifies this`drawn
      ensures boundary == boundaries(old(drawn)) && drawn == old(drawn) + 1
    {
      boundary := boundaries(drawn);
      drawn := drawn + 1;
    }

    method WriteLine(line: string)
      modifies this`out
      ensures out == old(out) + Unlines([line])
    {
      assert Unlines([line]) == line + "\r\n" + Unlines([line][1..]);
      out := out + line + "\r\n";
    }

    method WriteLines(lines: seq<string>)
      modifies this`out
      ensures out == old(out) + Unlines(lines)
    {
      ghost var before := out;
      var i := 0;
      while i < |lines|
        invariant 0 <= i <= |lines|
        invariant out == before + Unlines(lines[..i])
      {
        assert lines[..i + 1] == lines[..i] + [lines[i]];
        UnlinesConcat(lines[..i], [lines[i]]);
        WriteLine(lines[i]);
        i := i + 1;
      }
      assert lines[..i] == lines;
    }

    method WriteMultipartHeader(subtype: string, boundary: string)
      modifies this`out
      ensures out == old(out) + Unlines([MultipartLine(subtype, boundary), ""])
    {
      WriteLines([MultipartLine(subtype, boundary), ""]);
    }

    method OpenBoundary(boundary: string)
      modifies this`out
      ensures out == old(out) + Unlines([OpenLine(boundary)])
    {
      WriteLine(OpenLine(boundary));
    }

    method CloseBoundary(boundary: string)
      modifies this`out
      ensures out == old(out) + Unlines([CloseLine(boundary)])
    {
      WriteLine(CloseLine(boundary));
    }

    method WriteTextPart(contentType: string, body: seq<Octet>)
      modifies this`out
      ensures out == old(out) + Unlines(Lines(TextLeaf(contentType, body, qp)))
    {
      var headers := ["Content-Type: " + contentType + "; charset=utf-8", "Content-Transfer-Encoding: quoted-printable"];
      UnlinesConcat(headers, [""]);
      UnlinesConcat(headers + [""], qp(body));
      hide Unlines;
      WriteLines(headers);
      WriteLine("");
      WriteLines(qp(body));
    }

    method WriteAttachmentPart(a: Attachment)
      modifies this`out
      ensures out == old(out) + Unlines(Lines(AttachmentLeaf(a)))
    {
      var encoded := Base64.WriteBase64(a.data);
      SameUnlines(Base64.Lines(Base64.Encode(a.data)));
      UnlinesConcat(a.headers, [""]);
      UnlinesConcat(a.headers + [""], Base64.Lines(Base64.Encode(a.data)));
      hide Unlines, Base64.Unlines, Base64.Lines, Base64.Encode;
      WriteLines(a.headers);
      WriteLine("");
      out := out + encoded;
    }

    method WriteAlternative()
      requires m.text != [] && m.html != []
      modifies this`out, this`drawn
      ensures drawn == old(drawn) + 1
      ensures out == old(out) + Unlines(Lines(ContentNode(m, qp, boundaries, old(drawn))))
    {
      ghost var before, k := out, drawn;
      var boundary := GenerateBoundary();
      hide Unlines, TextLeaf;
      WriteMultipartHeader("alternative", boundary);
      OpenBoundary(boundary);
      WriteTextPart("text/plain", m.text);
      OpenBoundary(boundary);
      WriteTextPart("text/html", m.html);
      CloseBoundary(boundary);
      TwoParts("alternative", boundary, TextLeaf("text/plain", m.text, qp), TextLeaf("text/html", m.html, qp), before);
    }

    method WriteContentBody()
      modifies this`out, this`drawn
      ensures drawn == old(drawn) + (if m.text != [] && m.html != [] then 1 else 0)
      ensures out == old(out) + Unlines(Lines(ContentNode(m, qp, boundaries, old(drawn))))
    {
      hide Lines, Unlines, TextLeaf;
      if m.text != [] && m.html != [] {
        WriteAlternative();
      } else if m.html != [] {
        WriteTextPart("text/html", m.html);
      } else {
        WriteTextPart("text/plain", m.text);
      }
    }

    /** The loop over the attachments of a container: each behind its delimiter. */
    method WriteAttachments(boundary: string, attachments: seq<Attachment>)
      modifies this`out
      ensures out == old(out) + Unlines(PartLines(boundary, AttachmentLeaves(attachments)))
    {
      ghost var before := out;
      var i := 0;
      hide Lines, Unlines, AttachmentLeaf, AttachmentLeaves, PartLines;
      NoAttachments(boundary);
      assert before + "" == before;
      while i < |attachments|
        invariant 0 <= i <= |attachments|
        invariant out == before + Unlines(PartLines(boundary, AttachmentLeaves(attachments[..i])))
      {
        OpenBoundary(boundary);
        WriteAttachmentPart(attachments[i]);
        OneMoreAttachment(boundary, attachments, i, before);
        i := i + 1;
      }
      assert attachments[..i] == attachments;
    }

    method WriteRelated(inline: seq<Attachment>)
      modifies this`out, this`drawn
      ensures drawn >= old(drawn)
      ensures out == old(out) + Unlines(Lines(RelatedNode(m, inline, qp, boundaries, old(drawn))))
    {
      ghost var before, k := out, drawn;
      RelatedShape(m, inline, qp, boundaries, k);
      hide *;
      var boundary := GenerateBoundary();
      WriteMultipartHeader("related", boundary);
      OpenBoundary(boundary);
      WriteContentBody();
      WriteAttachments(boundary, inline);
      CloseBoundary(boundary);
      Container("related", boundary, ContentNode(m, qp, boundaries, k + 1), AttachmentLeaves(inline), before);
    }

    method WriteMixed(inline: seq<Attachment>, regular: seq<Attachment>)
      modifies this`out, this`drawn
      ensures out == old(out) + Unlines(Lines(MixedNode(m, inline, regular, qp, boundaries, old(drawn))))
    {
      hide Unlines, Lines, ContentNode, RelatedNode, AttachmentLeaves;
      if regular == [] && inline != [] {
        WriteRelated(inline);
        return;
      }
      ghost var before, k := out, drawn;
      var boundary := GenerateBoundary();
      WriteMultipartHeader("mixed", boundary);
      OpenBoundary(boundary);
      ghost var body;
      if inline != [] {
        WriteRelated(inline);
        body := RelatedNode(m, inline, qp, boundaries, k + 1);
      } else {
        WriteContentBody();
        body := ContentNode(m, qp, boundaries, k + 1);
      }
      WriteAttachments(boundary, regular);
      CloseBoundary(boundary);
      Container("mixed", boundary, body, AttachmentLeaves(regular), before);
    }

    method PartitionAttachments() returns (inline: seq<Attachment>, regular: seq<Attachment>)
      ensures inline == InlineParts(m.attachments) && regular == RegularParts(m.attachments)
    {
      inline, regular := [], [];
      hide InlineParts, RegularParts;
      NothingToPart();
      var i := 0;
      while i < |m.attachments|
        invariant 0 <= i <= |m.attachments|
        invariant inline == InlineParts(m.attachments[..i]) && regular == RegularParts(m.attachments[..i])
      {
        PartSnoc(m.attachments[..i], m.attachments[i]);
        assert m.attachments[..i + 1] == m.attachments[..i] + [m.attachments[i]];
        if m.attachments[i].inline {
          inline := inline + [m.attachments[i]];
        } else {
          regular := regular + [m.attachments[i]];
        }
        i := i + 1;
      }
      assert m.attachments[..i] == m.attachments;
    }

    /** writeBody: MIME-Version, then the simplest structure that can hold the message. */
    method WriteBody()
      requires out == "" && drawn == 0
      modifies this`out, this`drawn
      ensures out == Unlines([MIME_VERSION] + Lines(BodyNode(m, qp, boundaries)))
    {
      UnlinesConcat([MIME_VERSION], Lines(BodyNode(m, qp, boundaries)));
      EmptyBodyLines();
      hide Unlines, Lines, MixedNode, ContentNode, InlineParts, RegularParts;
      WriteLine(MIME_VERSION);
      if m.text == [] && m.html == [] && m.attachments == [] {
        WriteLines(["Content-Type: text/plain; charset=utf-8", "Content-Transfer-Encoding: 7bit", ""]);
      } else {
        var inline, regular := PartitionAttachments();
        if m.attachments != [] {
          WriteMixed(inline, regular);
        } else {
          WriteContentBody();
        }
      }
    }
  }

  lemma RelatedShape(m: Message, inline: seq<Attachment>, qp: QpEncoder, boundaries: Boundaries, k: nat)
    ensures RelatedNode(m, inline, qp, boundaries, k)
         == Multi("related", boundaries(k), [ContentNode(m, qp, boundaries, k + 1)] + AttachmentLeaves(inline))
  {
  }

  lemma EmptyBodyLines()
    ensures Lines(EMPTY_BODY) == ["Content-Type: text/plain; charset=utf-8", "Content-Transfer-Encoding: 7bit", ""]
  {
  }

  lemma {:induction false} SameUnlines(lines: seq<string>)
    ensures Base64.Unlines(lines) == Unlines(lines)
    decreases |lines|
  {
    if lines != [] {
      SameUnlines(lines[1..]);
    }
  }

  lemma NoAttachments(boundary: string)
    ensures Unlines(PartLines(boundary, AttachmentLeaves([]))) == ""
    ensures forall attachments: seq<Attachment> :: AttachmentLeaves(attachments[..0]) == []
  {
    assert AttachmentLeaves([]) == [];
  }

  lemma {:induction false} LeavesConcat(a: seq<Attachment>, b: seq<Attachment>)
    ensures AttachmentLeaves(a + b) == AttachmentLeaves(a) + AttachmentLeaves(b)
    decreases |a|
  {
    hide AttachmentLeaf;
    if a == [] {
      assert a + b == b;
    } else {
      assert (a + b)[1..] == a[1..] + b;
      LeavesConcat(a[1..], b);
    }
  }

  lemma {:induction false} PartLinesConcat(boundary: string, a: seq<Node>, b: seq<Node>)
    ensures PartLines(boundary, a + b) == PartLines(boundary, a) + PartLines(boundary, b)
    decreases |a|
  {
    hide Lines;
    if a == [] {
      assert a + b == b;
    } else {
      assert (a + b)[1..] == a[1..] + b;
      PartLinesConcat(boundary, a[1..], b);
    }
  }

  lemma OnePart(boundary: string, part: Node)
    ensures PartLines(boundary, [part]) == [OpenLine(boundary)] + Lines(part)
  {
    hide Lines;
    assert [part][1..] == [];
    assert PartLines(boundary, []) == [];
  }

  lemma OneMoreAttachment(boundary: string, attachments: seq<Attachment>, i: nat, before: string)
    requires i < |attachments|
    ensures before + Unlines(PartLines(boundary, AttachmentLeaves(attachments[..i]))) + Unlines([OpenLine(boundary)])
            + Unlines(Lines(AttachmentLeaf(attachments[i])))
         == before + Unlines(PartLines(boundary, AttachmentLeaves(attachments[..i + 1])))
  {
    var done, leaf := AttachmentLeaves(attachments[..i]), AttachmentLeaf(attachments[i]);
    assert attachments[..i + 1] == attachments[..i] + [attachments[i]];
    LeavesConcat(attachments[..i], [attachments[i]]);
    OneLeaf(attachments[i]);
    hide Lines, Unlines, AttachmentLeaf, AttachmentLeaves;
    PartLinesConcat(boundary, done, [leaf]);
    OnePart(boundary, leaf);
    UnlinesConcat(PartLines(boundary, done), [OpenLine(boundary)] + Lines(leaf));
    UnlinesConcat([OpenLine(boundary)], Lines(leaf));
  }

  lemma OneLeaf(a: Attachment)
    ensures AttachmentLeaves([a]) == [AttachmentLeaf(a)]
  {
    hide AttachmentLeaf;
    assert [a][1..] == [];
    assert AttachmentLeaves([]) == [];
  }

  /** A container written piece by piece: header, first part, the other parts, closing delimiter. */
  lemma Container(subtype: string, boundary: string, first: Node, others: seq<Node>, before: string)
    ensures before + Unlines([MultipartLine(subtype, boundary), ""]) + Unlines([OpenLine(boundary)]) + Unlines(Lines(first))
            + Unlines(PartLines(boundary, others)) + Unlines([CloseLine(boundary)])
         == before + Unlines(Lines(Multi(subtype, boundary, [first] + others)))
  {
    ContainerLines(subtype, boundary, first, others);
    hide Lines, Unlines, PartLines;
    var head, open, close := [MultipartLine(subtype, boundary), ""], [OpenLine(boundary)], [CloseLine(boundary)];
    UnlinesConcat(head, open);
    UnlinesConcat(head + open, Lines(first));
    UnlinesConcat(head + open + Lines(first), PartLines(boundary, others));
    UnlinesConcat(head + open + Lines(first) + PartLines(boundary, others), close);
  }

  lemma ContainerLines(subtype: string, boundary: string, first: Node, others: seq<Node>)
    ensures Lines(Multi(subtype, boundary, [first] + others))
         == [MultipartLine(subtype, boundary), ""] + [OpenLine(boundary)] + Lines(first) + PartLines(boundary, others) + [CloseLine(boundary)]
  {
    assert ([first] + others)[1..] == others;
  }

  lemma TwoParts(subtype: string, boundary: string, first: Node, second: Node, before: string)
    ensures before + Unlines([MultipartLine(subtype, boundary), ""]) + Unlines([OpenLine(boundary)]) + Unlines(Lines(first))
            + Unlines([OpenLine(boundary)]) + Unlines(Lines(second)) + Unlines([CloseLine(boundary)])
         == before + Unlines(Lines(Multi(subtype, boundary, [first, second])))
  {
    OnePart(boundary, second);
    Container(subtype, boundary, first, [second], before);
    assert [first] + [second] == [first, second];
    hide Lines, Unlines, PartLines;
    UnlinesConcat([OpenLine(boundary)], Lines(second));
  }

  lemma NothingToPart()
    ensures forall attachments: seq<Attachment> :: InlineParts(attachments[..0]) == [] && RegularParts(attachments[..0]) == []
  {
  }

  lemma {:induction false} PartSnoc(attachments: seq<Attachment>, a: Attachment)
    ensures InlineParts(attachments + [a]) == InlineParts(attachments) + (if a.inline then [a] else [])
    ensures RegularParts(attachments + [a]) == RegularParts(attachments) + (if a.inline then [] else [a])
    decreases |attachments|
  {
    if attachments == [] {
      assert [] + [a] == [a];
      PartsOfOne(a);
    } else {
      var first, rest := attachments[0], attachments[1..];
      PartSnoc(rest, a);
      PartsOfMore(attachments);
      assert (attachments + [a])[0] == first && (attachments + [a])[1..] == rest + [a];
      PartsOfMore(attachments + [a]);
      hide *;
    }
  }

  lemma PartsOfOne(a: Attachment)
    ensures InlineParts([]) == RegularParts([]) == []
    ensures InlineParts([a]) == (if a.inline then [a] else []) && RegularParts([a]) == (if a.inline then [] else [a])
  {
    assert [a][1..] == [];
  }

  lemma PartsOfMore(attachments: seq<Attachment>)
    requires attachments != []
    ensures InlineParts(attachments) == (if attachments[0].inline then [attachments[0]] else []) + InlineParts(attachments[1..])
    ensures RegularParts(attachments) == (if attachments[0].inline then [] else [attachments[0]]) + RegularParts(attachments[1..])
  {
  }
}
