/** The iterator over the file parts of an upload, run together with a consumer of its own mind. */
module MultipartIterator {
  import opened Bytes
  import opened Multipart
  import opened MultipartReaders
  import opened Options

  /** A file part as it went by: what the consumer read of it, and what was drained after that. */
  datatype Received = Received(name: Bytes, seen: Bytes, drained: Bytes)

  function Delivered(files: seq<Received>): seq<(Bytes, Bytes)> {
    seq(|files|, i requires 0 <= i < |files| => (files[i].name, files[i].seen + files[i].drained))
  }

  /** Where the parts start: past the first boundary and its two bytes, unless the form is empty. */
  ghost predicate StartsParts(all: Bytes, boundary: Bytes, parts: Bytes) {
    var cut := CutAt(all, boundary);
    cut.Cut? && cut.term != CLOSE && cut.rest == parts
  }

  ghost predicate EndsBeforeParts(all: Bytes, boundary: Bytes, end: End) {
    match CutAt(all, boundary)
    case NoSeparator => end == EmptyBody
    case NoTerminator => end == TruncatedBoundary
    case Cut(_, term, _) => term == CLOSE && end == Complete
  }

  method FindFirstBoundary(body: LimitedReader, boundary: Bytes) returns (buf: Bytes, found: Option<nat>)
    requires body.Valid() && boundary != []
    modifies body
    ensures body.Valid() && buf + body.Pending() == old(body.Pending())
    ensures found == Find(buf, boundary) == Find(old(body.Pending()), boundary)
    ensures body.slow ==> EndsTight(buf, boundary)
  {
    buf := [];
    while true
      invariant body.Valid() && buf + body.Pending() == old(body.Pending()) && Find(buf, boundary).None?
      decreases |body.Pending()|
    {
      var chunk := body.Read(CHUNK);
      if chunk == [] {
        assert buf + body.Pending() == buf;
        return buf, None;
      }
      MoveOver(buf, chunk, body.Pending());
      if |chunk| <= 1 { TightOneMore(buf, chunk, boundary); }
      buf := buf + chunk;
      found := Find(buf, boundary);
      if found.Some? {
        FindExtends(buf, body.Pending(), boundary);
        return;
      }
    }
  }

  method FillFrom(body: LimitedReader, start: Bytes, need: nat) returns (buf: Bytes, ok: bool)
    requires body.Valid()
    modifies body
    ensures body.Valid() && buf + body.Pending() == start + old(body.Pending())
    ensures ok ==> |buf| >= need
    ensures !ok ==> |start + old(body.Pending())| < need
    ensures body.slow && |start| <= need ==> |buf| <= need
  {
    buf := start;
    while |buf| < need
      invariant body.Valid() && buf + body.Pending() == start + old(body.Pending())
      invariant body.slow && |start| <= need ==> |buf| <= need
      decreases |body.Pending()|
    {
      var more := body.Read(2);
      if more == [] {
        return buf, false;
      }
      MoveOver(buf, more, body.Pending());
      buf := buf + more;
    }
    return buf, true;
  }

  /** All that is left to read is some of the epilogue, and of a slow peer's bytes all of it. */
  ghost predicate Unread(epilogue: Bytes, body: LimitedReader)
    reads body
  {
    EndOf(epilogue, body.Pending()) && (body.slow ==> body.Pending() == epilogue)
  }

  /** Everything up to the first boundary is dropped; what follows its two bytes is pushed back. */
  method SkipPrelude(body: LimitedReader, boundary: Bytes) returns (src: PrependedReader?, end: End)
    requires body.Valid() && boundary != []
    modifies body
    ensures body.Valid()
    ensures src == null ==> EndsBeforeParts(old(body.Pending()), boundary, end)
    ensures src == null && end == Complete ==> Unread(Epilogue(old(body.Pending()), boundary), body)
    ensures src != null ==> fresh(src.Repr - {body}) && src.Valid() && src.body == body
    ensures src != null ==> StartsParts(old(body.Pending()), boundary, src.Pending())
    ensures src != null && body.slow ==> src.Bare()
  {
    hide Find, CutAt;
    ghost var whole := body.Pending();
    var buf, found := FindFirstBoundary(body, boundary);
    if found.None? {
      NoCut(whole, boundary);
      return null, EmptyBody;
    }
    var tail := found.value + |boundary|;
    var ok;
    buf, ok := FillFrom(body, buf, tail + 2);
    if !ok {
      CutTooShort(whole, boundary, found.value);
      return null, TruncatedBoundary;
    }
    CutBuffered(buf, body.Pending(), boundary, found.value);
    if buf[tail..tail + 2] == CLOSE {
      return null, Complete;
    }
    src := new PrependedReader.OnBody(buf[tail + 2..], body);
    end := Complete;
  }

  /** Read up to the blank line; what was read beyond it is pushed back. */
  method ReadHead(src: PrependedReader) returns (head: Option<Bytes>, after: PrependedReader)
    requires src.Valid() && src.body.Valid()
    modifies src.Repr
    ensures src.body.Valid() && after.Valid() && after.body == src.body && fresh(after.Repr - src.Repr)
    ensures match head
            case None => Find(old(src.Pending()), BLANK).None?
            case Some(h) => Find(old(src.Pending()), BLANK) == Some(|h|)
                            && old(src.Pending()) == h + (BLANK + after.Pending())
    ensures head.Some? && src.body.slow && old(src.Bare()) ==> after.Bare()
  {
    hide EndsTight, Find;
    var headers := [];
    NothingTight(BLANK);
    while Find(headers, BLANK).None?
      invariant src.body.Valid() && headers + src.Pending() == old(src.Pending())
      invariant src.body.slow && old(src.Bare()) ==> src.Bare() && EndsTight(headers, BLANK)
      decreases |src.Pending()|
    {
      var chunk := src.Read(4096);
      if chunk == [] {
        assert headers + src.Pending() == headers;
        return None, src;
      }
      MoveOver(headers, chunk, src.Pending());
      if |chunk| <= 1 { TightOneMore(headers, chunk, BLANK); }
      headers := headers + chunk;
    }
    var h := Find(headers, BLANK).value;
    FindExtends(headers, src.Pending(), BLANK);
    Partition(headers, src.Pending(), h);
    if EndsTight(headers, BLANK) { TightEnd(headers, BLANK); }
    after := new PrependedReader(headers[h + 4..], src);
    head := Some(headers[..h]);
  }

  lemma NothingTight(sep: Bytes)
    requires sep != []
    ensures EndsTight([], sep)
  {
  }

  lemma TightEnd(buf: Bytes, sep: Bytes)
    requires EndsTight(buf, sep) && Find(buf, sep).Some?
    ensures buf[Find(buf, sep).value + |sep|..] == []
  {
  }

  lemma Partition(headers: Bytes, more: Bytes, h: nat)
    requires OccursAt(headers, BLANK, h)
    ensures headers + more == headers[..h] + (BLANK + (headers[h + 4..] + more))
  {
  }

  /** `got` has been pulled out of a part that was described by `before`. */
  ghost predicate Pulled(before: Cut, got: Bytes, reader: BoundaryReader)
    requires reader.Valid()
    reads reader, reader.src.Repr
  {
    if reader.done then before == Cut(got, reader.nextTerm, reader.leftover + reader.src.Pending())
    else Advances(before, got, CutAt(reader.Pending(), reader.sep))
  }

  lemma AdvancesTwice(a: Cut, x: Bytes, b: Cut, y: Bytes, c: Cut)
    requires Advances(a, x, b) && Advances(b, y, c)
    ensures Advances(a, x + y, c)
  {
    if c.Cut? {
      assert x + (y + c.content) == (x + y) + c.content;
    }
  }

  datatype Pull = Pulled(data: Bytes) | Failed(end: Cut)

  /** Call `read` until the part is done or, for a consumer (`patient` false), as often as it likes. */
  method PullPart(reader: BoundaryReader, patient: bool) returns (r: Pull)
    requires reader.Valid() && reader.src.body.Valid()
    modifies reader, reader.src.Repr
    ensures reader.src.body.Valid()
    ensures old(reader.done) ==>
              && r == Pull.Pulled([]) && reader.done && reader.nextTerm == old(reader.nextTerm)
              && reader.leftover == old(reader.leftover) && reader.src.Pending() == old(reader.src.Pending())
    ensures !old(reader.done) && r.Pulled? ==> Pulled(CutAt(old(reader.Pending()), reader.sep), r.data, reader)
    ensures r.Pulled? && patient ==> reader.done
    ensures r.Failed? ==> !old(reader.done) && CutAt(old(reader.Pending()), reader.sep) == r.end && !r.end.Cut?
    ensures r.Pulled? && old(reader.Tight()) ==> reader.Tight()
  {
    if reader.done {
      return Pull.Pulled([]);
    }
    ghost var before := CutAt(reader.Pending(), reader.sep);
    var got := [];
    while !reader.done
      invariant reader.src.body.Valid() && Pulled(before, got, reader)
      invariant old(reader.Tight()) ==> reader.Tight()
      decreases if reader.done then 0 else 1 + |reader.Pending()|
    {
      var stop: bool := *;
      if !patient && stop {
        break;
      }
      ghost var now := CutAt(reader.Pending(), reader.sep);
      var r := reader.Read();
      match r
      case UnexpectedEof => return Failed(NoSeparator);
      case EofAfterSeparator => return Failed(NoTerminator);
      case Chunk(data) =>
        if !reader.done {
          AdvancesTwice(before, got, now, data, CutAt(reader.Pending(), reader.sep));
        }
        got := got + data;
    }
    return Pull.Pulled(got);
  }

  datatype Step =
    | Stopped(end: End)
    | Passed(file: Option<Received>, last: bool)

  /** The content of one part: the consumer takes what it likes of a file, the rest is drained. */
  method PassContent(reader: BoundaryReader, head: Bytes, name: Option<Bytes>)
    returns (r: Step, ghost content: Bytes)
    requires reader.Valid() && reader.src.body.Valid() && !reader.done
    modifies reader, reader.src.Repr
    ensures reader.src.body.Valid()
    ensures match r
            case Stopped(end) =>
              (match CutAt(old(reader.Pending()), reader.sep)
               case NoSeparator => end == EofInPart(head)
               case NoTerminator => end == EofAfterBoundary(head)
               case Cut(_, _, _) => false)
            case Passed(file, last) =>
              && CutAt(old(reader.Pending()), reader.sep)
                 == Cut(content, reader.nextTerm, reader.leftover + reader.src.Pending())
              && last == (reader.nextTerm == CLOSE)
              && (match name
                  case None => file.None?
                  case Some(n) => file.Some? && file.value.name == n && file.value.seen + file.value.drained == content)
    ensures r.Passed? && old(reader.Tight()) ==> reader.done && reader.Tight()
  {
    ghost var before := CutAt(reader.Pending(), reader.sep);
    var seen := [];
    content := [];
    if name.Some? {
      var taken := PullPart(reader, false);
      if taken.Failed? {
        return Stopped(if taken.end.NoSeparator? then EofInPart(head) else EofAfterBoundary(head)), [];
      }
      seen := taken.data;
    } else {
      assert Advances(before, [], before);
    }
    assert Pulled(before, seen, reader);
    ghost var now := if reader.done then before else CutAt(reader.Pending(), reader.sep);
    var rest := PullPart(reader, true);
    if rest.Failed? {
      return Stopped(if rest.end.NoSeparator? then EofInPart(head) else EofAfterBoundary(head)), [];
    }
    content := seen + rest.data;
    r := Passed(if name.Some? then Some(Received(name.value, seen, rest.data)) else None, reader.nextTerm == CLOSE);
  }

  /** `s` starts with a part of this head, whose content is cut off like this. */
  ghost predicate PartAt(s: Bytes, boundary: Bytes, head: Bytes, cut: Cut) {
    Find(s, BLANK) == Some(|head|) && s[..|head|] == head && CutAt(s[|head| + 4..], CRLF + boundary) == cut
  }

  /** What one turn of the loop has to do with the text it started from. */
  ghost predicate StepAt(s: Bytes, boundary: Bytes, r: Step, part: Part, rest: Bytes) {
    match r
    case Stopped(EofInPart(head)) => PartAt(s, boundary, head, NoSeparator)
    case Stopped(EofAfterBoundary(head)) => PartAt(s, boundary, head, NoTerminator)
    case Stopped(end) => end == TruncatedHeaders && Find(s, BLANK).None?
    case Passed(_, last) =>
      exists term: Bytes :: last == (term == CLOSE) && PartAt(s, boundary, part.head, Cut(part.content, term, rest))
  }

  /** What follows the closing boundary, as the loop goes on. */
  lemma StepEpilogue(s: Bytes, boundary: Bytes, r: Step, part: Part, rest: Bytes)
    requires StepAt(s, boundary, r, part, rest) && r.Passed?
    ensures PartsEpilogue(s, boundary) == if r.last then rest else PartsEpilogue(rest, boundary)
  {
  }

  lemma StoppedIsIncomplete(s: Bytes, boundary: Bytes, r: Step, part: Part, rest: Bytes)
    requires StepAt(s, boundary, r, part, rest) && r.Stopped?
    ensures r.end != Complete
  {
  }

  lemma StepParses(s: Bytes, boundary: Bytes, r: Step, part: Part, rest: Bytes)
    requires StepAt(s, boundary, r, part, rest)
    ensures r.Stopped? ==> ParseParts(s, boundary) == Parsed([], r.end)
    ensures r.Passed? && r.last ==> ParseParts(s, boundary) == Parsed([part] + [], Complete)
    ensures r.Passed? && !r.last ==>
              var more := ParseParts(rest, boundary);
              |rest| < |s| && ParseParts(s, boundary) == Parsed([part] + more.parts, more.end)
  {
    hide Find;
    if r.Passed? {
      var term: Bytes :| r.last == (term == CLOSE)
                         && PartAt(s, boundary, part.head, Cut(part.content, term, rest));
      RestIsShorter(s[|part.head| + 4..], CRLF + boundary, Cut(part.content, term, rest));
      hide CutAt;
      assert [part] + [] == [part];
    }
  }

  lemma RestIsShorter(s: Bytes, sep: Bytes, cut: Cut)
    requires CutAt(s, sep) == cut && cut.Cut?
    ensures |cut.rest| < |s|
  {
  }

  ghost predicate FileOf(part: Part, file: Option<Received>, fileName: Bytes -> Option<Bytes>) {
    match fileName(part.head)
    case None => file.None?
    case Some(n) => file.Some? && file.value.name == n && file.value.seen + file.value.drained == part.content
  }

  /** The files so far and those still to come are the files of the whole body. */
  ghost predicate Leads(whole: Parsed, files: seq<Received>, rest: Parsed, fileName: Bytes -> Option<Bytes>) {
    && rest.end == whole.end
    && FileParts(whole.parts, fileName) == Delivered(files) + FileParts(rest.parts, fileName)
  }

  lemma LeadsOn(whole: Parsed, files: seq<Received>, part: Part, file: Option<Received>, more: Parsed,
                fileName: Bytes -> Option<Bytes>)
    requires FileOf(part, file, fileName)
    requires Leads(whole, files, Parsed([part] + more.parts, more.end), fileName)
    ensures Leads(whole, if file.None? then files else files + [file.value], more, fileName)
  {
    FilePartsCons(part, more.parts, fileName);
    hide FileParts;
    if file.Some? {
      DeliveredMore(files, file.value);
      hide Delivered;
      assert FilePart(part, fileName) == [(file.value.name, part.content)];
      assert (Delivered(files) + FilePart(part, fileName)) + FileParts(more.parts, fileName)
             == Delivered(files) + (FilePart(part, fileName) + FileParts(more.parts, fileName));
    } else {
      hide Delivered;
      assert FilePart(part, fileName) + FileParts(more.parts, fileName) == FileParts(more.parts, fileName);
    }
  }

  lemma DeliveredMore(files: seq<Received>, file: Received)
    ensures Delivered(files + [file]) == Delivered(files) + [(file.name, file.seen + file.drained)]
  {
  }

  /** One turn of the iterator's loop: a head, a content, and the reader the next part starts from. */
  method PassPart(src: PrependedReader, boundary: Bytes, fileName: Bytes -> Option<Bytes>)
    returns (r: Step, next: PrependedReader, ghost part: Part)
    requires src.Valid() && src.body.Valid()
    modifies src.Repr
    ensures src.body.Valid() && next.Valid() && next.body == src.body && fresh(next.Repr - src.Repr)
    ensures StepAt(old(src.Pending()), boundary, r, part, next.Pending())
    ensures r.Passed? ==> FileOf(part, r.file, fileName)
    ensures r.Passed? && src.body.slow && old(src.Bare()) ==> next.Bare()
  {
    hide CutAt, Find;
    part, next := Part([], []), src;
    var head, after := ReadHead(src);
    if head.None? {
      return Stopped(TruncatedHeaders), src, part;
    }
    HeadEnds(head.value, after.Pending());
    var reader := new BoundaryReader(after, boundary);
    ghost var content;
    r, content := PassContent(reader, head.value, fileName(head.value));
    part := Part(head.value, content);
    next := new PrependedReader(reader.leftover, after);
  }

  lemma HeadEnds(head: Bytes, body: Bytes)
    ensures var s := head + (BLANK + body); s[..|head|] == head && s[|head| + 4..] == body
  {
  }

  /**
   The whole iteration, for any socket timing and any consumer: the file parts it yields and
   how it ends are those of the body as one string.
   */
  method IterFiles(body: LimitedReader, boundary: Bytes, fileName: Bytes -> Option<Bytes>)
    returns (files: seq<Received>, end: End)
    requires body.Valid() && boundary != []
    modifies body
    ensures body.Valid()
    ensures var parsed := ParseBody(old(body.Pending()), boundary);
            end == parsed.end && Delivered(files) == FileParts(parsed.parts, fileName)
    ensures end == Complete ==> Unread(Epilogue(old(body.Pending()), boundary), body)
  {
    files := [];
    var first;
    first, end := SkipPrelude(body, boundary);
    if first == null {
      return;
    }
    files, end := IterParts(first, boundary, fileName);
  }

  method IterParts(first: PrependedReader, boundary: Bytes, fileName: Bytes -> Option<Bytes>)
    returns (files: seq<Received>, end: End)
    requires first.Valid() && first.body.Valid()
    modifies first.Repr
    ensures first.body.Valid()
    ensures Leads(ParseParts(old(first.Pending()), boundary), files, Parsed([], end), fileName)
    ensures end == Complete && (first.body.slow ==> old(first.Bare())) ==>
              Unread(PartsEpilogue(old(first.Pending()), boundary), first.body)
  {
    files := [];
    var src := first;
    ghost var whole, epilogue := ParseParts(src.Pending(), boundary), PartsEpilogue(src.Pending(), boundary);
    while true
      invariant fresh(src.Repr - first.Repr) && src.Valid() && src.body == first.body && src.body.Valid()
      invariant Leads(whole, files, ParseParts(src.Pending(), boundary), fileName)
      invariant PartsEpilogue(src.Pending(), boundary) == epilogue
      invariant src.body.slow && old(first.Bare()) ==> src.Bare()
      decreases |src.Pending()|
    {
      ghost var s := src.Pending();
      var step, next, part := PassPart(src, boundary, fileName);
      ghost var rest := next.Pending();
      StepParses(s, boundary, step, part, rest);
      if step.Stopped? {
        StoppedIsIncomplete(s, boundary, step, part, rest);
        return files, step.end;
      }
      StepEpilogue(s, boundary, step, part, rest);
      LeadsOn(whole, files, part, step.file, if step.last then Parsed([], Complete) else ParseParts(rest, boundary), fileName);
      files := if step.file.None? then files else files + [step.file.value];
      if step.last {
        EndsWithBody(next);
        return files, Complete;
      }
      src := next;
    }
  }

  /**
   The upload handler: on a parse error the rest of the declared body is read off the socket, so that
   what the peer sends after it starts with the next request. A body parsed to its end is not drained:
   some of the epilogue can stay unread, for a slow peer all of it. So the declared body is fully read
   for every splitting exactly when nothing follows the closing boundary.
   */
  method HandleUpload(socket: Bytes, length: int, slow: bool, boundary: Bytes, fileName: Bytes -> Option<Bytes>)
    returns (files: seq<Received>, end: End, body: LimitedReader)
    requires boundary != []
    ensures fresh(body) && body.Valid() && body.length == length && body.slow == slow && body.sent == socket
    ensures var parsed := ParseBody(if length <= 0 then [] else socket[..Min(length, |socket|)], boundary);
            end == parsed.end && Delivered(files) == FileParts(parsed.parts, fileName)
    ensures end != Complete ==> body.Pending() == []
    ensures end == Complete ==> Unread(Epilogue(if length <= 0 then [] else socket[..Min(length, |socket|)], boundary), body)
  {
    body := new LimitedReader(socket, length, slow);
    files, end := IterFiles(body, boundary, fileName);
    if end != Complete {
      while true
        invariant body.Valid()
        decreases |body.Pending()|
      {
        var chunk := body.Read(CHUNK);
        if chunk == [] {
          break;
        }
      }
    }
  }

  /** What a client renders is what the handler stores, and it never reads past the epilogue into `later`. */
  method UploadRoundTrip(ghost prelude: Bytes, ghost parts: seq<Part>, ghost epilogue: Bytes, ghost later: Bytes,
                         socket: Bytes, length: int, slow: bool, boundary: Bytes, fileName: Bytes -> Option<Bytes>)
    returns (files: seq<Received>, end: End, body: LimitedReader)
    requires boundary != [] && DelimitedBy(prelude, boundary) && Encodable(parts, boundary)
    requires socket == Render(prelude, parts, boundary, epilogue) + later
    requires length == |Render(prelude, parts, boundary, epilogue)|
    ensures end == Complete && Delivered(files) == FileParts(parts, fileName)
    ensures EndOf(body.incoming, later) && EndOf(epilogue + later, body.incoming)
    ensures slow ==> body.incoming == epilogue + later
  {
    hide ParseBody, Epilogue, Render, Encodable, DelimitedBy, FileParts, Delivered, EndOf;
    files, end, body := HandleUpload(socket, length, slow, boundary, fileName);
    ghost var rendered := Render(prelude, parts, boundary, epilogue);
    RoundTrip(prelude, parts, boundary, epilogue);
    EpilogueInverts(prelude, parts, boundary, epilogue);
    RenderedNotEmpty(prelude, parts, boundary, epilogue);
    assert socket[..Min(length, |socket|)] == rendered;
    LaterStays(body, rendered, later);
    EndsStay(epilogue, body.Pending(), later);
  }

  lemma RenderedNotEmpty(prelude: Bytes, parts: seq<Part>, boundary: Bytes, epilogue: Bytes)
    ensures |Render(prelude, parts, boundary, epilogue)| > 0
  {
    hide RenderParts;
  }

  /** Behind what is pending of a body stays all that was sent after it. */
  lemma LaterStays(body: LimitedReader, sent: Bytes, later: Bytes)
    requires body.Valid() && body.sent == sent + later && body.length == |sent| > 0
    ensures body.incoming == body.Pending() + later
  {
    var taken, incoming := body.taken, body.incoming;
    assert |taken| + |incoming| == |sent| + |later|;
    assert (taken + incoming)[|sent|..] == later;
    assert (taken + incoming)[|sent|..] == incoming[|sent| - |taken|..];
  }

  lemma EndsStay(epilogue: Bytes, pending: Bytes, later: Bytes)
    requires EndOf(epilogue, pending)
    ensures EndOf(pending + later, later) && EndOf(epilogue + later, pending + later)
  {
    var n := |epilogue| - |pending|;
    assert (epilogue + later)[n..] == epilogue[n..] + later;
  }
}
