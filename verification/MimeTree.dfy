/**
 MIME bodies as trees, their lines as message.go writes them, and the reader of section 5.1.1 of
 RFC 2046. A body is a sequence of lines; each ends with CRLF, and the CRLF before a delimiter
 belongs to the delimiter.
 */
module MimeTree {
  import opened Octets
  import opened Strings

  datatype Node =
    | Leaf(headers: seq<string>, body: seq<string>)
    | Multi(subtype: string, boundary: string, parts: seq<Node>)

  // ----- the printer -----

  const TYPE_PREFIX := "Content-Type: multipart/"
  const BOUNDARY_PREFIX := "; boundary=\""
  const QUOTE := "\""

  function MultipartLine(subtype: string, boundary: string): string {
    TYPE_PREFIX + subtype + BOUNDARY_PREFIX + boundary + QUOTE
  }

  function OpenLine(boundary: string): string { "--" + boundary }

  function CloseLine(boundary: string): string { "--" + boundary + "--" }

  /** The lines of a body section: its headers, a blank line, its body. */
  function Lines(node: Node): seq<string>
    decreases node, 1
  {
    match node
    case Leaf(headers, body) => headers + [""] + body
    case Multi(subtype, boundary, parts) =>
      [MultipartLine(subtype, boundary), ""] + PartLines(boundary, parts) + [CloseLine(boundary)]
  }

  function PartLines(boundary: string, parts: seq<Node>): seq<string>
    decreases parts
  {
    if parts == [] then [] else [OpenLine(boundary)] + Lines(parts[0]) + PartLines(boundary, parts[1..])
  }

  // ----- the reader -----

  /** The subtype and the boundary of a multipart Content-Type line. */
  function ReadMultipartLine(line: string): Option<(string, string)> {
    var prefix, parameter := "Content-Type: multipart/", "; boundary=\"";
    if !HasPrefix(line, prefix) then None
    else
      var rest := line[|prefix|..];
      var k := Index(rest, ';');
      var tail := rest[k..];
      if HasPrefix(tail, parameter) && |tail| > |parameter| && HasSuffix(tail, "\"")
      then Some((rest[..k], tail[|parameter|..|tail| - 1]))
      else None
  }

  /** Boundaries are compared with the beginning of each line. */
  predicate IsDelimiter(line: string, boundary: string) { HasPrefix(line, "--" + boundary) }

  predicate IsClose(line: string, boundary: string) { HasPrefix(line, "--" + boundary + "--") }

  /** The lines of the parts up to the closing delimiter, `current` being those of the part already open. */
  function Collect(lines: seq<string>, boundary: string, current: seq<string>): (r: Option<seq<seq<string>>>)
    ensures r.Some? ==> forall p :: p in r.value ==> |p| < |lines| + |current|
    decreases |lines|
  {
    if lines == [] then None
    else if IsClose(lines[0], boundary) then Some([current])
    else if IsDelimiter(lines[0], boundary) then
      var more := Collect(lines[1..], boundary, []);
      if more.None? then None else Some([current] + more.value)
    else Collect(lines[1..], boundary, current + [lines[0]])
  }

  /** The preamble is skipped; a multipart body has at least one part. */
  function SplitParts(lines: seq<string>, boundary: string): (r: Option<seq<seq<string>>>)
    ensures r.Some? ==> forall p :: p in r.value ==> |p| < |lines|
    decreases |lines|
  {
    if lines == [] || IsClose(lines[0], boundary) then None
    else if IsDelimiter(lines[0], boundary) then Collect(lines[1..], boundary, [])
    else SplitParts(lines[1..], boundary)
  }

  /** How many lines precede the blank line, all of them if there is none. */
  function HeaderCount(lines: seq<string>): (n: nat)
    ensures n <= |lines|
  {
    if lines == [] || lines[0] == "" then 0 else HeaderCount(lines[1..]) + 1
  }

  function FindMultipart(headers: seq<string>): Option<(string, string)> {
    if headers == [] then None
    else if ReadMultipartLine(headers[0]).Some? then ReadMultipartLine(headers[0])
    else FindMultipart(headers[1..])
  }

  function Read(lines: seq<string>): Option<Node>
    decreases |lines|, 1
  {
    var n := HeaderCount(lines);
    var headers := lines[..n];
    if n == |lines| then None
    else
      var body := lines[n + 1..];
      var multipart := FindMultipart(headers);
      if multipart.None? then Some(Leaf(headers, body))
      else
        var texts := SplitParts(body, multipart.value.1);
        if texts.None? then None
        else
          var parts := ReadAll(texts.value, |lines|);
          if parts.None? then None else Some(Multi(multipart.value.0, multipart.value.1, parts.value))
  }

  function ReadAll(texts: seq<seq<string>>, limit: nat): Option<seq<Node>>
    requires forall p :: p in texts ==> |p| < limit
    decreases limit, 0, |texts|
  {
    if texts == [] then Some([])
    else
      var first, more := Read(texts[0]), ReadAll(texts[1..], limit);
      if first.None? || more.None? then None else Some([first.value] + more.value)
  }

  // ----- what makes a tree readable -----

  /** The token every generated boundary holds and no encoded body does. */
  predicate HoldsMark(s: string) {
    exists i :: 0 <= i < |s| - 1 && s[i] == '=' && s[i + 1] == '_'
  }

  /** One line that no generated boundary can be mistaken for. */
  predicate Harmless(line: string) {
    '\r' !in line && (HasPrefix(line, "--") ==> !HoldsMark(line))
  }

  /** Headers are harmless lines that are neither blank nor those of a multipart. */
  predicate LeafHeaders(headers: seq<string>) {
    forall i :: 0 <= i < |headers| ==> headers[i] != "" && Harmless(headers[i]) && ReadMultipartLine(headers[i]).None?
  }

  predicate LeafBody(body: seq<string>) {
    forall i :: 0 <= i < |body| ==> Harmless(body[i])
  }

  /** A tree whose boundaries below any multipart differ from its own, in one common length. */
  predicate Readable(node: Node, length: nat, above: set<string>)
    decreases node, 1
  {
    match node
    case Leaf(headers, body) => LeafHeaders(headers) && LeafBody(body)
    case Multi(subtype, boundary, parts) =>
      && ';' !in subtype && '\r' !in subtype && '\r' !in boundary && HoldsMark(boundary) && |boundary| == length && boundary !in above
      && parts != [] && AllReadable(parts, length, above + {boundary})
  }

  predicate AllReadable(parts: seq<Node>, length: nat, above: set<string>)
    decreases parts, 0
  {
    parts == [] || (Readable(parts[0], length, above) && AllReadable(parts[1..], length, above))
  }
}
