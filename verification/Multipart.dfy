/**
 What a multipart body means (section 5.1 of RFC 2046), as the upload handler reads it:
 a parser of the whole body, and the rendering it inverts.
 */
module Multipart {
  import opened Bytes
  import opened Options

  const CR: byte := 13
  const LF: byte := 10
  const DASH: byte := 45
  const CRLF: Bytes := [CR, LF]
  const BLANK: Bytes := [CR, LF, CR, LF]
  const CLOSE: Bytes := [DASH, DASH]

  /** A part: its raw header block (without the blank line) and its content. */
  datatype Part = Part(head: Bytes, content: Bytes)

  /** How the iteration ends: after the closing boundary, or with the handler's error. */
  datatype End =
    | Complete
    | EmptyBody
    | TruncatedBoundary
    | TruncatedHeaders
    | EofInPart(head: Bytes)
    | EofAfterBoundary(head: Bytes)

  datatype Parsed = Parsed(parts: seq<Part>, end: End)

  /** One part's content cut off at the separator, with the two bytes after it. */
  datatype Cut =
    | Cut(content: Bytes, term: Bytes, rest: Bytes)
    | NoSeparator
    | NoTerminator

  function CutAt(s: Bytes, sep: Bytes): Cut {
    match Find(s, sep)
    case None => NoSeparator
    case Some(k) =>
      var tail := k + |sep|;
      if |s| < tail + 2 then NoTerminator
      else Cut(s[..k], s[tail..tail + 2], s[tail + 2..])
  }

  /** The whole body: skip to the first boundary, then read parts until the closing one. */
  function ParseBody(body: Bytes, boundary: Bytes): Parsed {
    match CutAt(body, boundary)
    case NoSeparator => Parsed([], EmptyBody)
    case NoTerminator => Parsed([], TruncatedBoundary)
    case Cut(_, term, rest) =>
      if term == CLOSE then Parsed([], Complete) else ParseParts(rest, boundary)
  }

  function ParseParts(s: Bytes, boundary: Bytes): Parsed
    decreases |s|
  {
    match Find(s, BLANK)
    case None => Parsed([], TruncatedHeaders)
    case Some(h) =>
      var head, after := s[..h], s[h + 4..];
      match CutAt(after, CRLF + boundary)
      case NoSeparator => Parsed([], EofInPart(head))
      case NoTerminator => Parsed([], EofAfterBoundary(head))
      case Cut(content, term, rest) =>
        var part := Part(head, content);
        if term == CLOSE then Parsed([part], Complete)
        else var more := ParseParts(rest, boundary);
             Parsed([part] + more.parts, more.end)
  }

  /** What follows the closing boundary and its two dashes. */
  function Epilogue(body: Bytes, boundary: Bytes): Bytes {
    match CutAt(body, boundary)
    case Cut(_, term, rest) => if term == CLOSE then rest else PartsEpilogue(rest, boundary)
    case _ => []
  }

  function PartsEpilogue(s: Bytes, boundary: Bytes): Bytes
    decreases |s|
  {
    match Find(s, BLANK)
    case None => []
    case Some(h) =>
      match CutAt(s[h + 4..], CRLF + boundary)
      case Cut(_, term, rest) => if term == CLOSE then rest else PartsEpilogue(rest, boundary)
      case _ => []
  }

  /** The parts that carry a file name, in order. */
  function FileParts(parts: seq<Part>, fileName: Bytes -> Option<Bytes>): seq<(Bytes, Bytes)> {
    if parts == [] then [] else FilePart(parts[0], fileName) + FileParts(parts[1..], fileName)
  }

  function FilePart(part: Part, fileName: Bytes -> Option<Bytes>): seq<(Bytes, Bytes)> {
    match fileName(part.head)
    case None => []
    case Some(name) => [(name, part.content)]
  }

  lemma FilePartsCons(part: Part, more: seq<Part>, fileName: Bytes -> Option<Bytes>)
    ensures FileParts([part] + more, fileName) == FilePart(part, fileName) + FileParts(more, fileName)
  {
    assert ([part] + more)[1..] == more;
  }

  /** How many of these parts carry a file name. */
  function Named(parts: seq<Part>, fileName: Bytes -> Option<Bytes>): nat
    decreases |parts|
  {
    if parts == [] then 0
    else Named(parts[..|parts| - 1], fileName) + (if fileName(parts[|parts| - 1].head).Some? then 1 else 0)
  }

  lemma {:induction false} NamedCons(part: Part, more: seq<Part>, fileName: Bytes -> Option<Bytes>)
    ensures Named([part] + more, fileName) == (if fileName(part.head).Some? then 1 else 0) + Named(more, fileName)
    decreases |more|
  {
    var all := [part] + more;
    if more == [] {
      assert all[..0] == [];
    } else {
      assert all[..|all| - 1] == [part] + more[..|more| - 1];
      NamedCons(part, more[..|more| - 1], fileName);
    }
  }

  /** The files are the parts that carry a name, each once, in order, with its own content. */
  lemma {:induction false} FilesExact(parts: seq<Part>, fileName: Bytes -> Option<Bytes>)
    ensures |FileParts(parts, fileName)| == Named(parts, fileName)
    ensures forall i | 0 <= i < |parts| && fileName(parts[i].head).Some? ::
              FileAt(parts, FileParts(parts, fileName), i, fileName)
    decreases |parts|
  {
    if parts != [] {
      var part, more := parts[0], parts[1..];
      assert parts == [part] + more;
      NamedCons(part, more, fileName);
      FilesExact(more, fileName);
      FilePartsCons(part, more, fileName);
      hide Named, FileParts, FileAt;
      forall i | 0 <= i < |parts| && fileName(parts[i].head).Some?
        ensures FileAt(parts, FileParts(parts, fileName), i, fileName)
      {
        if i == 0 {
          FirstFile(part, more, FileParts(more, fileName), fileName);
        } else {
          LaterFile(part, more, FileParts(more, fileName), i - 1, fileName);
        }
      }
    }
  }

  lemma FirstFile(part: Part, more: seq<Part>, files: seq<(Bytes, Bytes)>, fileName: Bytes -> Option<Bytes>)
    requires fileName(part.head).Some?
    ensures FileAt([part] + more, FilePart(part, fileName) + files, 0, fileName)
  {
    assert ([part] + more)[..0] == [];
    NoneNamed(fileName);
  }

  lemma LaterFile(part: Part, more: seq<Part>, files: seq<(Bytes, Bytes)>, i: nat, fileName: Bytes -> Option<Bytes>)
    requires i < |more| && fileName(more[i].head).Some? && FileAt(more, files, i, fileName)
    ensures FileAt([part] + more, FilePart(part, fileName) + files, i + 1, fileName)
  {
    hide Named;
    assert ([part] + more)[..i + 1] == [part] + more[..i];
    NamedCons(part, more[..i], fileName);
  }

  /** The i-th part's file stands where the parts before it that carry a name leave off. */
  ghost predicate FileAt(parts: seq<Part>, files: seq<(Bytes, Bytes)>, i: nat, fileName: Bytes -> Option<Bytes>)
    requires i < |parts| && fileName(parts[i].head).Some?
  {
    var k := Named(parts[..i], fileName);
    k < |files| && files[k] == (fileName(parts[i].head).value, parts[i].content)
  }

  lemma NoneNamed(fileName: Bytes -> Option<Bytes>)
    ensures Named([], fileName) == 0
  {
  }

  // ---- Rendering -----------------------------------------------------------

  /** One part on the wire, followed by its delimiter's last two bytes and what comes after. */
  function RenderPart(p: Part, boundary: Bytes, term: Bytes, rest: Bytes): Bytes {
    p.head + (BLANK + (p.content + ((CRLF + boundary) + (term + rest))))
  }

  function RenderParts(parts: seq<Part>, boundary: Bytes, epilogue: Bytes): Bytes
    requires parts != []
  {
    if |parts| == 1 then RenderPart(parts[0], boundary, CLOSE, epilogue)
    else RenderPart(parts[0], boundary, CRLF, RenderParts(parts[1..], boundary, epilogue))
  }

  function Render(prelude: Bytes, parts: seq<Part>, boundary: Bytes, epilogue: Bytes): Bytes {
    if parts == [] then prelude + (boundary + (CLOSE + epilogue))
    else prelude + (boundary + (CRLF + RenderParts(parts, boundary, epilogue)))
  }

  /** The delimiter first occurs right after the text it delimits. */
  predicate DelimitedBy(text: Bytes, delimiter: Bytes) {
    Find(text + delimiter, delimiter) == Some(|text|)
  }

  predicate EncodablePart(p: Part, boundary: Bytes) {
    DelimitedBy(p.head, BLANK) && DelimitedBy(p.content, CRLF + boundary)
  }

  predicate Encodable(parts: seq<Part>, boundary: Bytes) {
    forall i | 0 <= i < |parts| :: EncodablePart(parts[i], boundary)
  }

  lemma FindDelimited(text: Bytes, delimiter: Bytes, rest: Bytes)
    requires DelimitedBy(text, delimiter)
    ensures Find(text + (delimiter + rest), delimiter) == Some(|text|)
    ensures (text + (delimiter + rest))[..|text|] == text
    ensures (text + (delimiter + rest))[|text| + |delimiter|..] == rest
  {
    FindExtends(text + delimiter, rest, delimiter);
    assert (text + delimiter) + rest == text + (delimiter + rest);
  }

  lemma CutDelimited(text: Bytes, sep: Bytes, term: Bytes, rest: Bytes)
    requires DelimitedBy(text, sep) && |term| == 2
    ensures CutAt(text + (sep + (term + rest)), sep) == Cut(text, term, rest)
  {
    FindDelimited(text, sep, term + rest);
    var s, tail := text + (sep + (term + rest)), |text| + |sep|;
    assert s[tail..] == term + rest;
    assert s[tail..tail + 2] == s[tail..][..2] == term;
    assert s[tail + 2..] == s[tail..][2..] == rest;
  }

  lemma ParsePart(p: Part, boundary: Bytes, term: Bytes, rest: Bytes)
    requires EncodablePart(p, boundary) && |term| == 2
    ensures ParseParts(RenderPart(p, boundary, term, rest), boundary)
            == if term == CLOSE then Parsed([p], Complete)
               else Parsed([p] + ParseParts(rest, boundary).parts, ParseParts(rest, boundary).end)
  {
    var sep := CRLF + boundary;
    var after := p.content + (sep + (term + rest));
    FindDelimited(p.head, BLANK, after);
    CutDelimited(p.content, sep, term, rest);
  }

  lemma PartEpilogue(p: Part, boundary: Bytes, term: Bytes, rest: Bytes)
    requires EncodablePart(p, boundary) && |term| == 2
    ensures PartsEpilogue(RenderPart(p, boundary, term, rest), boundary)
            == if term == CLOSE then rest else PartsEpilogue(rest, boundary)
  {
    var sep := CRLF + boundary;
    FindDelimited(p.head, BLANK, p.content + (sep + (term + rest)));
    CutDelimited(p.content, sep, term, rest);
  }

  lemma {:induction false} PartsEpilogueInverts(parts: seq<Part>, boundary: Bytes, epilogue: Bytes)
    requires parts != [] && Encodable(parts, boundary)
    ensures PartsEpilogue(RenderParts(parts, boundary, epilogue), boundary) == epilogue
    decreases |parts|
  {
    assert EncodablePart(parts[0], boundary);
    if |parts| == 1 {
      PartEpilogue(parts[0], boundary, CLOSE, epilogue);
    } else {
      PartsEpilogueInverts(parts[1..], boundary, epilogue);
      PartEpilogue(parts[0], boundary, CRLF, RenderParts(parts[1..], boundary, epilogue));
    }
  }

  /** The epilogue of a rendered body is found again. */
  lemma EpilogueInverts(prelude: Bytes, parts: seq<Part>, boundary: Bytes, epilogue: Bytes)
    requires DelimitedBy(prelude, boundary) && Encodable(parts, boundary)
    ensures Epilogue(Render(prelude, parts, boundary, epilogue), boundary) == epilogue
  {
    if parts == [] {
      CutDelimited(prelude, boundary, CLOSE, epilogue);
    } else {
      CutDelimited(prelude, boundary, CRLF, RenderParts(parts, boundary, epilogue));
      PartsEpilogueInverts(parts, boundary, epilogue);
    }
  }

  lemma {:induction false} ParsePartsInverts(parts: seq<Part>, boundary: Bytes, epilogue: Bytes)
    requires parts != [] && Encodable(parts, boundary)
    ensures ParseParts(RenderParts(parts, boundary, epilogue), boundary) == Parsed(parts, Complete)
    decreases |parts|
  {
    var p, more := parts[0], parts[1..];
    assert EncodablePart(p, boundary) && parts == [p] + more;
    if |parts| == 1 {
      ParsePart(p, boundary, CLOSE, epilogue);
    } else {
      var rest := RenderParts(more, boundary, epilogue);
      ParsePartsInverts(more, boundary, epilogue);
      ParsePart(p, boundary, CRLF, rest);
    }
  }

  /** Parsing a rendered body gives back its parts, whatever surrounds them. */
  lemma RoundTrip(prelude: Bytes, parts: seq<Part>, boundary: Bytes, epilogue: Bytes)
    requires DelimitedBy(prelude, boundary) && Encodable(parts, boundary)
    ensures ParseBody(Render(prelude, parts, boundary, epilogue), boundary) == Parsed(parts, Complete)
  {
    if parts == [] {
      CutDelimited(prelude, boundary, CLOSE, epilogue);
    } else {
      CutDelimited(prelude, boundary, CRLF, RenderParts(parts, boundary, epilogue));
      ParsePartsInverts(parts, boundary, epilogue);
    }
  }

  /** A first occurrence that ends where `a` ends is also the first in `a` alone. */
  lemma FindShrinks(a: Bytes, b: Bytes, needle: Bytes, k: nat)
    requires Find(a + b, needle) == Some(k) && k + |needle| == |a|
    ensures Find(a, needle) == Some(k)
  {
    OccursInPrefix(a, b, needle, k);
    forall j: nat | j < k ensures !OccursAt(a, needle, j) {
      OccursInPrefix(a, b, needle, j);
    }
  }

  lemma FoundDelimited(text: Bytes, delimiter: Bytes, rest: Bytes)
    requires Find(text + (delimiter + rest), delimiter) == Some(|text|)
    ensures DelimitedBy(text, delimiter)
  {
    assert (text + delimiter) + rest == text + (delimiter + rest);
    FindShrinks(text + delimiter, rest, delimiter, |text|);
  }

  lemma FirstPartRead(s: Bytes, boundary: Bytes)
    requires ParseParts(s, boundary).parts != []
    ensures var h, sep := Find(s, BLANK), CRLF + boundary;
            && h.Some? && Find(s[h.value + 4..], sep).Some?
            && ParseParts(s, boundary).parts[0]
               == Part(s[..h.value], s[h.value + 4..][..Find(s[h.value + 4..], sep).value])
  {
  }

  lemma AfterHead(head: Bytes, after: Bytes)
    ensures (head + (BLANK + after))[|head| + 4..] == after
  {
  }

  /** If a rendered part is read back, it was delimited as it should be. */
  lemma ReadBackDelimited(p: Part, boundary: Bytes, term: Bytes, rest: Bytes)
    requires var parsed := ParseParts(RenderPart(p, boundary, term, rest), boundary);
             parsed.parts != [] && parsed.parts[0] == p
    ensures EncodablePart(p, boundary)
  {
    hide ParseParts, CutAt, Find, DelimitedBy;
    var sep := CRLF + boundary;
    var after := p.content + (sep + (term + rest));
    var s := p.head + (BLANK + after);
    FirstPartRead(s, boundary);
    AfterHead(p.head, after);
    var h := Find(s, BLANK).value;
    assert h == |s[..h]| == |p.head|;
    FoundDelimited(p.head, BLANK, after);
    assert Find(after, sep) == Some(|p.content|);
    FoundDelimited(p.content, sep, term + rest);
  }

  lemma {:induction false} ReadBackEncodable(parts: seq<Part>, boundary: Bytes, epilogue: Bytes)
    requires parts != [] && ParseParts(RenderParts(parts, boundary, epilogue), boundary) == Parsed(parts, Complete)
    ensures Encodable(parts, boundary)
    decreases |parts|
  {
    var p, more := parts[0], parts[1..];
    if |parts| == 1 {
      ReadBackDelimited(p, boundary, CLOSE, epilogue);
    } else {
      var rest := RenderParts(more, boundary, epilogue);
      ReadBackDelimited(p, boundary, CRLF, rest);
      ParsePart(p, boundary, CRLF, rest);
      assert [p] + more == parts;
      assert ParseParts(rest, boundary).parts == more;
      ReadBackEncodable(more, boundary, epilogue);
    }
  }

  /** After a clean prelude, a body reads back exactly when every part is delimited as it should be. */
  lemma RoundTripExact(prelude: Bytes, parts: seq<Part>, boundary: Bytes, epilogue: Bytes)
    requires DelimitedBy(prelude, boundary)
    ensures ParseBody(Render(prelude, parts, boundary, epilogue), boundary) == Parsed(parts, Complete)
            <==> Encodable(parts, boundary)
  {
    if Encodable(parts, boundary) {
      RoundTrip(prelude, parts, boundary, epilogue);
    } else {
      CutDelimited(prelude, boundary, CRLF, RenderParts(parts, boundary, epilogue));
      if ParseParts(RenderParts(parts, boundary, epilogue), boundary) == Parsed(parts, Complete) {
        ReadBackEncodable(parts, boundary, epilogue);
      }
    }
  }

  // ---- Truncated bodies ------------------------------------------------------

  /** What is read of the first `k` bytes of parts: the whole parts in them, and what the next one lacks. */
  function Truncated(parts: seq<Part>, boundary: Bytes, k: nat): Parsed
    requires parts != []
  {
    var p := parts[0];
    var headEnd := |p.head| + |BLANK|;
    var contentEnd := headEnd + |p.content| + |CRLF + boundary|;
    if k < headEnd then Parsed([], TruncatedHeaders)
    else if k < contentEnd then Parsed([], EofInPart(p.head))
    else if k < contentEnd + 2 then Parsed([], EofAfterBoundary(p.head))
    else if |parts| == 1 then Parsed([p], Complete)
    else var more := Truncated(parts[1..], boundary, k - contentEnd - 2);
         Parsed([p] + more.parts, more.end)
  }

  lemma FindInPrefix(s: Bytes, needle: Bytes, k: nat)
    requires k <= |s| && Find(s, needle).Some?
    ensures Find(s[..k], needle) == if k < Find(s, needle).value + |needle| then None else Find(s, needle)
  {
    assert s == s[..k] + s[k..];
    var j := Find(s, needle).value;
    forall i: nat | i + |needle| <= k ensures OccursAt(s[..k], needle, i) <==> OccursAt(s, needle, i) {
      OccursInPrefix(s[..k], s[k..], needle, i);
    }
  }

  lemma CutPrefix(text: Bytes, sep: Bytes, term: Bytes, rest: Bytes, k: nat)
    requires DelimitedBy(text, sep) && |term| == 2 && k <= |text + (sep + (term + rest))|
    ensures var tail := |text| + |sep|;
            CutAt((text + (sep + (term + rest)))[..k], sep)
            == if k < tail then NoSeparator else if k < tail + 2 then NoTerminator
               else Cut(text, term, rest[..k - tail - 2])
  {
    var s, tail := text + (sep + (term + rest)), |text| + |sep|;
    FindDelimited(text, sep, term + rest);
    FindInPrefix(s, sep, k);
    if k >= tail + 2 {
      assert s[..k][..|text|] == text && s[..k][tail..tail + 2] == term;
      assert s[..k][tail + 2..] == rest[..k - tail - 2];
    }
  }

  lemma HeadPrefix(p: Part, after: Bytes, k: nat)
    requires DelimitedBy(p.head, BLANK) && k <= |p.head + (BLANK + after)|
    ensures var s, headEnd := p.head + (BLANK + after), |p.head| + |BLANK|;
            && Find(s[..k], BLANK) == (if k < headEnd then None else Some(|p.head|))
            && (k >= headEnd ==> s[..k][..|p.head|] == p.head && s[..k][headEnd..] == after[..k - headEnd])
  {
    var s, headEnd := p.head + (BLANK + after), |p.head| + |BLANK|;
    FindDelimited(p.head, BLANK, after);
    FindInPrefix(s, BLANK, k);
    if k >= headEnd {
      assert s[..k][..|p.head|] == p.head && s[..k][headEnd..] == after[..k - headEnd];
    }
  }

  lemma PartLength(p: Part, boundary: Bytes, term: Bytes, rest: Bytes)
    ensures |RenderPart(p, boundary, term, rest)|
            == |p.head| + |BLANK| + |p.content| + |CRLF + boundary| + |term| + |rest|
  {
  }

  lemma {:induction false} PartTruncated(p: Part, boundary: Bytes, term: Bytes, rest: Bytes, k: nat)
    requires EncodablePart(p, boundary) && |term| == 2 && k <= |RenderPart(p, boundary, term, rest)|
    ensures var headEnd := |p.head| + |BLANK|;
            var contentEnd := headEnd + |p.content| + |CRLF + boundary|;
            ParseParts(RenderPart(p, boundary, term, rest)[..k], boundary)
            == if k < headEnd then Parsed([], TruncatedHeaders)
               else if k < contentEnd then Parsed([], EofInPart(p.head))
               else if k < contentEnd + 2 then Parsed([], EofAfterBoundary(p.head))
               else if term == CLOSE then Parsed([p], Complete)
               else var more := ParseParts(rest[..k - contentEnd - 2], boundary);
                    Parsed([p] + more.parts, more.end)
  {
    hide Find, CutAt, DelimitedBy;
    var sep, headEnd := CRLF + boundary, |p.head| + |BLANK|;
    var after := p.content + (sep + (term + rest));
    HeadPrefix(p, after, k);
    var s := RenderPart(p, boundary, term, rest)[..k];
    if k < headEnd {
      assert ParseParts(s, boundary) == Parsed([], TruncatedHeaders);
    } else {
      CutPrefix(p.content, sep, term, rest, k - headEnd);
    }
  }

  lemma {:induction false} PartsTruncated(parts: seq<Part>, boundary: Bytes, epilogue: Bytes, k: nat)
    requires parts != [] && Encodable(parts, boundary) && k <= |RenderParts(parts, boundary, epilogue)|
    ensures ParseParts(RenderParts(parts, boundary, epilogue)[..k], boundary) == Truncated(parts, boundary, k)
    decreases |parts|
  {
    hide ParseParts, RenderPart, EncodablePart, Encodable;
    var p, more := parts[0], parts[1..];
    FirstEncodable(parts, boundary);
    if |parts| == 1 {
      PartTruncated(p, boundary, CLOSE, epilogue, k);
    } else {
      var rest := RenderParts(more, boundary, epilogue);
      var contentEnd := |p.head| + |BLANK| + |p.content| + |CRLF + boundary|;
      assert RenderParts(parts, boundary, epilogue) == RenderPart(p, boundary, CRLF, rest);
      PartTruncated(p, boundary, CRLF, rest, k);
      PartLength(p, boundary, CRLF, rest);
      if k >= contentEnd + 2 {
        hide RenderParts;
        PartsTruncated(more, boundary, epilogue, k - contentEnd - 2);
      }
    }
  }

  lemma FirstEncodable(parts: seq<Part>, boundary: Bytes)
    requires parts != [] && Encodable(parts, boundary)
    ensures EncodablePart(parts[0], boundary) && Encodable(parts[1..], boundary)
  {
    hide EncodablePart;
  }

  /**
   Of a body that breaks off at any byte, exactly the parts that are there whole are read, and the error says
   what is missing: the first boundary or its end, a head, a content's separator or that one's end.
   */
  lemma TruncationExact(prelude: Bytes, parts: seq<Part>, boundary: Bytes, epilogue: Bytes, k: nat)
    requires DelimitedBy(prelude, boundary) && Encodable(parts, boundary)
    requires k <= |Render(prelude, parts, boundary, epilogue)|
    ensures var start := |prelude| + |boundary|;
            ParseBody(Render(prelude, parts, boundary, epilogue)[..k], boundary)
            == if k < start then Parsed([], EmptyBody)
               else if k < start + 2 then Parsed([], TruncatedBoundary)
               else if parts == [] then Parsed([], Complete)
               else Truncated(parts, boundary, k - start - 2)
  {
    var start := |prelude| + |boundary|;
    if parts == [] {
      CutPrefix(prelude, boundary, CLOSE, epilogue, k);
    } else {
      var rest := RenderParts(parts, boundary, epilogue);
      CutPrefix(prelude, boundary, CRLF, rest, k);
      if k >= start + 2 { PartsTruncated(parts, boundary, epilogue, k - start - 2); }
    }
    hide ParseParts;
  }

  // ---- Preludes --------------------------------------------------------------

  /** Only a form without parts ends complete and empty: it is closed at its first boundary. */
  lemma EmptyFormExact(body: Bytes, boundary: Bytes)
    ensures ParseBody(body, boundary) == Parsed([], Complete)
            <==> CutAt(body, boundary).Cut? && CutAt(body, boundary).term == CLOSE
  {
  }

  /**
   The boundary is searched for anywhere, not only where a line starts: a preamble that mentions it,
   followed by two dashes, makes an empty form of any body, whatever parts it has.
   */
  lemma MentionMakesEmptyForm(before: Bytes, after: Bytes, parts: seq<Part>, boundary: Bytes, epilogue: Bytes)
    requires DelimitedBy(before, boundary)
    ensures ParseBody(Render(before + (boundary + (CLOSE + after)), parts, boundary, epilogue), boundary)
            == Parsed([], Complete)
  {
    var prelude := before + (boundary + (CLOSE + after));
    var rest := if parts == [] then boundary + (CLOSE + epilogue)
                else boundary + (CRLF + RenderParts(parts, boundary, epilogue));
    assert prelude + rest == before + (boundary + (CLOSE + (after + rest)));
    CutDelimited(before, boundary, CLOSE, after + rest);
  }

  /** Where an unclean prelude and what follows it are cut. */
  lemma CutInPrelude(prelude: Bytes, boundary: Bytes, rest: Bytes) returns (k: nat)
    requires !DelimitedBy(prelude, boundary) && |rest| >= 2
    ensures k < |prelude|
    ensures var body, tail := prelude + (boundary + rest), k + |boundary|;
            Find(prelude + boundary, boundary) == Some(k) && tail + 2 <= |body|
            && CutAt(body, boundary) == Cut(body[..k], body[tail..tail + 2], body[tail + 2..])
  {
    assert (prelude + boundary)[|prelude|..|prelude| + |boundary|] == boundary;
    assert OccursAt(prelude + boundary, boundary, |prelude|);
    k := Find(prelude + boundary, boundary).value;
    FindExtends(prelude + boundary, rest, boundary);
    assert (prelude + boundary) + rest == prelude + (boundary + rest);
  }

  lemma PlainPartEncodable(boundary: Bytes)
    ensures Encodable([Part([], [])], boundary)
  {
    var sep := CRLF + boundary;
    assert [] + BLANK == BLANK && [] + sep == sep;
    assert OccursAt(BLANK, BLANK, 0) && OccursAt(sep, sep, 0);
  }

  /** A line feed before the blank line is read into the head. */
  lemma LineFeedInHead(boundary: Bytes, epilogue: Bytes)
    ensures var parsed := ParseParts([LF] + RenderParts([Part([], [])], boundary, epilogue), boundary);
            parsed.parts != [] ==> parsed.parts[0].head != []
  {
    var s := [LF] + RenderParts([Part([], [])], boundary, epilogue);
    if ParseParts(s, boundary).parts != [] {
      FirstPartRead(s, boundary);
      hide ParseParts, RenderParts;
      var h := Find(s, BLANK).value;
      assert !OccursAt(s, BLANK, 0) by { assert |s| >= 4 ==> s[0..4][0] == LF; }
      assert |s[..h]| == h;
    }
  }

  /** What an unclean prelude makes of a body depends only on the two bytes after its first boundary. */
  lemma UncleanPrelude(prelude: Bytes, boundary: Bytes, rest: Bytes) returns (k: nat)
    requires !DelimitedBy(prelude, boundary) && |rest| >= 2
    ensures k < |prelude| && Find(prelude + boundary, boundary) == Some(k)
    ensures var body, tail := prelude + (boundary + rest), k + |boundary|;
            && tail + 2 <= |body|
            && ParseBody(body, boundary) == if body[tail..tail + 2] == CLOSE then Parsed([], Complete)
                                           else ParseParts(body[tail + 2..], boundary)
  {
    k := CutInPrelude(prelude, boundary, rest);
  }

  lemma PartsNeverEmpty(s: Bytes, boundary: Bytes)
    ensures ParseParts(s, boundary) != Parsed([], Complete)
  {
  }

  /** An unclean prelude spoils a form without parts, or else one with a single empty part. */
  lemma UncleanPreludeFails(prelude: Bytes, boundary: Bytes)
    requires boundary != [] && !DelimitedBy(prelude, boundary)
    requires ParseBody(Render(prelude, [], boundary, []), boundary) == Parsed([], Complete)
    ensures ParseBody(Render(prelude, [Part([], [])], boundary, []), boundary) != Parsed([Part([], [])], Complete)
  {
    hide ParseBody, ParseParts, RenderParts, Find, DelimitedBy;
    var parts := RenderParts([Part([], [])], boundary, []);
    var k := UncleanPrelude(prelude, boundary, CLOSE + []);
    var k1 := UncleanPrelude(prelude, boundary, CRLF + parts);
    var tail := k + |boundary|;
    PartsNeverEmpty((prelude + (boundary + (CLOSE + [])))[tail + 2..], boundary);
    if k + 2 <= |prelude| {
      SameStart(prelude, boundary, CLOSE + [], CRLF + parts, tail);
    } else {
      TailAfterOverlap(prelude, boundary, parts);
      LineFeedInHead(boundary, []);
    }
  }

  /** Two bytes that end inside the prelude and its boundary do not depend on what follows. */
  lemma SameStart(prelude: Bytes, boundary: Bytes, x: Bytes, y: Bytes, tail: nat)
    requires tail + 2 <= |prelude| + |boundary|
    ensures (prelude + (boundary + x))[tail..tail + 2] == (prelude + (boundary + y))[tail..tail + 2]
  {
    assert (prelude + boundary) + x == prelude + (boundary + x);
    assert (prelude + boundary) + y == prelude + (boundary + y);
  }

  /** A boundary that begins with the prelude's last byte ends one byte early. */
  lemma TailAfterOverlap(prelude: Bytes, boundary: Bytes, rest: Bytes)
    requires prelude != [] && boundary != []
    ensures var s, tail := prelude + (boundary + (CRLF + rest)), |prelude| - 1 + |boundary|;
            tail + 2 <= |s| && s[tail..tail + 2] != CLOSE && s[tail + 2..] == [LF] + rest
  {
    var s, tail := prelude + (boundary + (CRLF + rest)), |prelude| - 1 + |boundary|;
    assert s == (prelude + boundary) + (CRLF + rest);
    assert s[tail + 1] == CR && s[tail..tail + 2][1] == s[tail + 1];
  }

  /**
   Whatever delimited parts and epilogue follow, the parts are read back, if and only if the boundary
   first occurs right after the prelude.
   */
  lemma PreludeExact(prelude: Bytes, boundary: Bytes)
    requires boundary != []
    ensures (forall parts: seq<Part>, epilogue: Bytes | Encodable(parts, boundary) ::
               ParseBody(Render(prelude, parts, boundary, epilogue), boundary) == Parsed(parts, Complete))
            <==> DelimitedBy(prelude, boundary)
  {
    hide ParseBody, Render, Encodable, DelimitedBy;
    if DelimitedBy(prelude, boundary) {
      forall parts: seq<Part>, epilogue: Bytes | Encodable(parts, boundary)
        ensures ParseBody(Render(prelude, parts, boundary, epilogue), boundary) == Parsed(parts, Complete)
      {
        RoundTrip(prelude, parts, boundary, epilogue);
      }
    } else {
      NoPartsEncodable(boundary);
      PlainPartEncodable(boundary);
      if ParseBody(Render(prelude, [], boundary, []), boundary) == Parsed([], Complete) {
        UncleanPreludeFails(prelude, boundary);
      }
    }
  }

  lemma NoPartsEncodable(boundary: Bytes)
    ensures Encodable([], boundary)
  {
  }

  /**
   The header block must not be empty: RFC 2046 lets a part consist of a blank line and its
   content, but then the blank line is taken for the end of the boundary line and the search
   for a blank line runs into the content.
   */
  lemma HeaderlessPartIsRefused(prelude: Bytes, content: Bytes, boundary: Bytes, epilogue: Bytes)
    requires DelimitedBy(prelude, boundary)
    requires Find(CRLF + content + CRLF + boundary + CLOSE + epilogue, BLANK).None?
    ensures ParseBody(prelude + (boundary + (CRLF + (CRLF + content + CRLF + boundary + CLOSE + epilogue))), boundary)
            == Parsed([], TruncatedHeaders)
  {
    CutDelimited(prelude, boundary, CRLF, CRLF + content + CRLF + boundary + CLOSE + epilogue);
  }
}
