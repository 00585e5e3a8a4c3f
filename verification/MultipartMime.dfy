/**
 Bodies as RFC 2046 writes them: a part's header lines each end in CRLF, a blank line follows, and
 there may be no header line at all. The upload parser reads them back only if every part has one.
 */
module MultipartMime {
  import opened Bytes
  import opened Multipart
  import opened Options

  /** A body part of section 5.1.1: its header lines, perhaps none, and its content. */
  datatype Mime = Mime(lines: seq<Bytes>, content: Bytes)

  /** Every header line with its CRLF, and the blank line. */
  function HeaderBlock(lines: seq<Bytes>): Bytes {
    if lines == [] then CRLF else lines[0] + (CRLF + HeaderBlock(lines[1..]))
  }

  /** The header lines as one text, with CRLF between them. */
  function Joined(lines: seq<Bytes>): Bytes {
    if lines == [] then [] else if |lines| == 1 then lines[0] else lines[0] + (CRLF + Joined(lines[1..]))
  }

  function Plain(p: Mime): Part { Part(Joined(p.lines), p.content) }

  function PlainAll(ps: seq<Mime>): (r: seq<Part>)
    ensures |r| == |ps| && forall i | 0 <= i < |ps| :: r[i] == Plain(ps[i])
  {
    seq(|ps|, i requires 0 <= i < |ps| => Plain(ps[i]))
  }

  function RenderMime(p: Mime, boundary: Bytes, term: Bytes, rest: Bytes): Bytes {
    HeaderBlock(p.lines) + (p.content + ((CRLF + boundary) + (term + rest)))
  }

  function RenderMimes(ps: seq<Mime>, boundary: Bytes, epilogue: Bytes): Bytes
    requires ps != []
  {
    if |ps| == 1 then RenderMime(ps[0], boundary, CLOSE, epilogue)
    else RenderMime(ps[0], boundary, CRLF, RenderMimes(ps[1..], boundary, epilogue))
  }

  function RenderMessage(prelude: Bytes, ps: seq<Mime>, boundary: Bytes, epilogue: Bytes): Bytes {
    if ps == [] then prelude + (boundary + (CLOSE + epilogue))
    else prelude + (boundary + (CRLF + RenderMimes(ps, boundary, epilogue)))
  }

  /** With a header line, the block is the joined lines and the two CRLFs that end it. */
  lemma {:induction false} BlockOfLines(lines: seq<Bytes>)
    requires lines != []
    ensures HeaderBlock(lines) == Joined(lines) + BLANK
    decreases |lines|
  {
    if |lines| == 1 {
      assert HeaderBlock(lines[1..]) == CRLF && CRLF + CRLF == BLANK;
    } else {
      BlockOfLines(lines[1..]);
      assert lines[0] + (CRLF + (Joined(lines[1..]) + BLANK)) == (lines[0] + (CRLF + Joined(lines[1..]))) + BLANK;
    }
  }

  lemma HeadedIsRendered(p: Mime, boundary: Bytes, term: Bytes, rest: Bytes)
    requires p.lines != []
    ensures RenderMime(p, boundary, term, rest) == RenderPart(Plain(p), boundary, term, rest)
  {
    BlockOfLines(p.lines);
    var after := p.content + ((CRLF + boundary) + (term + rest));
    assert (Joined(p.lines) + BLANK) + after == Joined(p.lines) + (BLANK + after);
  }

  /** The multipart boundary line starts with two dashes. */
  predicate Dashed(boundary: Bytes) { boundary != [] && boundary[0] == DASH }

  /**
   A part without header lines is never read as one: its blank line is taken for the end of the boundary
   line, so what is read as its head, or as its content, is something else, or nothing is read at all.
   */
  lemma HeaderlessNeverReadBack(content: Bytes, boundary: Bytes, term: Bytes, rest: Bytes)
    requires Dashed(boundary)
    ensures var parsed := ParseParts(RenderMime(Mime([], content), boundary, term, rest), boundary);
            parsed.parts != [] ==> parsed.parts[0] != Part([], content)
  {
    var s, sep := RenderMime(Mime([], content), boundary, term, rest), CRLF + boundary;
    if ParseParts(s, boundary).parts != [] {
      FirstPartRead(s, boundary);
      NoSeparatorThere(content, boundary, term, rest);
      hide ParseParts, RenderMime;
      var h := Find(s, BLANK).value;
      var after := s[h + 4..];
      var k := Find(after, sep).value;
      assert |s[..h]| == h && |after[..k]| == k && OccursAt(after, sep, k);
    }
  }

  lemma NoSeparatorThere(content: Bytes, boundary: Bytes, term: Bytes, rest: Bytes)
    requires Dashed(boundary)
    ensures var s := RenderMime(Mime([], content), boundary, term, rest);
            |s| >= 4 && !OccursAt(s[4..], CRLF + boundary, |content|)
  {
    var s, sep := RenderMime(Mime([], content), boundary, term, rest), CRLF + boundary;
    DashAfterContent(content, boundary, term, rest);
    hide RenderMime;
    assert s[4..][|content|] == s[4 + |content|] == DASH && sep[0] == CR;
    assert |content| + |sep| <= |s[4..]| ==> s[4..][|content|..|content| + |sep|][0] == DASH;
  }

  lemma DashAfterContent(content: Bytes, boundary: Bytes, term: Bytes, rest: Bytes)
    requires Dashed(boundary)
    ensures var s := RenderMime(Mime([], content), boundary, term, rest);
            |s| > 4 + |content| && s[4 + |content|] == DASH
  {
    var tail := (CRLF + boundary) + (term + rest);
    assert tail[2] == boundary[0];
    var s := CRLF + (content + tail);
    assert s[2..] == content + tail;
    assert s[4 + |content|] == (content + tail)[2 + |content|] == tail[2];
  }

  /** A part that this parser can read: it has a header line, and head and content are delimited. */
  predicate Readable(p: Mime, boundary: Bytes) { p.lines != [] && EncodablePart(Plain(p), boundary) }

  predicate AllReadable(ps: seq<Mime>, boundary: Bytes) {
    forall i | 0 <= i < |ps| :: Readable(ps[i], boundary)
  }

  /** One part, and then the rest, reads back exactly when the part is readable and the rest reads back. */
  lemma OnePartExact(p: Mime, boundary: Bytes, term: Bytes, rest: Bytes, more: seq<Part>)
    requires Dashed(boundary) && (term == CLOSE || term == CRLF) && (term == CLOSE ==> more == [])
    ensures ParseParts(RenderMime(p, boundary, term, rest), boundary) == Parsed([Plain(p)] + more, Complete)
            <==> Readable(p, boundary) && (term == CLOSE || ParseParts(rest, boundary) == Parsed(more, Complete))
  {
    var s := RenderMime(p, boundary, term, rest);
    var parsed := ParseParts(s, boundary);
    if p.lines == [] {
      HeaderlessNeverReadBack(p.content, boundary, term, rest);
      assert p == Mime([], p.content);
      assert ([Plain(p)] + more)[0] == Plain(p) == Part([], p.content);
    } else {
      HeadedIsRendered(p, boundary, term, rest);
      hide RenderMime, ParseParts;
      if parsed.parts != [] && parsed.parts[0] == Plain(p) {
        ReadBackDelimited(Plain(p), boundary, term, rest);
      }
      if EncodablePart(Plain(p), boundary) {
        ParsePart(Plain(p), boundary, term, rest);
        SameTail(Plain(p), ParseParts(rest, boundary).parts, more);
        assert [Plain(p)] + [] == [Plain(p)];
      }
    }
  }

  lemma SameTail(p: Part, a: seq<Part>, b: seq<Part>)
    ensures [p] + a == [p] + b <==> a == b
  {
    assert ([p] + a)[1..] == a && ([p] + b)[1..] == b;
  }

  lemma {:induction false} MimesExact(ps: seq<Mime>, boundary: Bytes, epilogue: Bytes)
    requires ps != [] && Dashed(boundary)
    ensures ParseParts(RenderMimes(ps, boundary, epilogue), boundary) == Parsed(PlainAll(ps), Complete)
            <==> AllReadable(ps, boundary)
    decreases |ps|
  {
    hide RenderMime, ParseParts, Readable;
    var p := ps[0];
    if |ps| == 1 {
      OnePartExact(p, boundary, CLOSE, epilogue, []);
      assert [Plain(p)] + [] == PlainAll(ps);
    } else {
      var rest := RenderMimes(ps[1..], boundary, epilogue);
      MimesExact(ps[1..], boundary, epilogue);
      OnePartExact(p, boundary, CRLF, rest, PlainAll(ps[1..]));
      assert [Plain(p)] + PlainAll(ps[1..]) == PlainAll(ps);
      assert ps == [p] + ps[1..];
    }
  }

  /**
   After a clean prelude, a body written as RFC 2046 does reads back as its parts if and only if every part
   has a header line and head and content are each delimited where they first could be.
   */
  lemma MessageExact(prelude: Bytes, ps: seq<Mime>, boundary: Bytes, epilogue: Bytes)
    requires Dashed(boundary) && DelimitedBy(prelude, boundary)
    ensures ParseBody(RenderMessage(prelude, ps, boundary, epilogue), boundary) == Parsed(PlainAll(ps), Complete)
            <==> AllReadable(ps, boundary)
  {
    hide RenderMimes, ParseParts;
    if ps == [] {
      CutDelimited(prelude, boundary, CLOSE, epilogue);
    } else {
      CutDelimited(prelude, boundary, CRLF, RenderMimes(ps, boundary, epilogue));
      MimesExact(ps, boundary, epilogue);
    }
  }
}
