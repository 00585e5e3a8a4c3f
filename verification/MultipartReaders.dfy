/**
 The streaming upload parser: a length cap over the socket, push-back readers, a reader that
 holds back bytes that may start a boundary, and the iterator over the file parts. Whatever
 sizes the socket answers with, together they compute what Multipart.ParseBody says of the body.
 */
module MultipartReaders {
  import opened Bytes
  import opened Multipart
  import opened Options

  const CHUNK := 65536

  function Min(a: int, b: int): int { if a < b then a else b }

  /** At most `left` bytes. */
  function Capped(s: Bytes, left: int): Bytes { if left <= 0 then [] else s[..Min(left, |s|)] }

  lemma CappedSplits(s: Bytes, left: int, n: nat)
    requires n <= |s| && n <= left
    ensures Capped(s, left) == s[..n] + Capped(s[n..], left - n)
    ensures Capped(s, left) == [] <==> s == [] || left == 0
  {
    var most := Min(left, |s|);
    assert s[..most] == s[..n] + s[n..][..most - n];
  }

  /** Caps reads from the socket at the declared Content-Length. */
  class LimitedReader {
    var incoming: Bytes        // what the peer still has to send, for this request and later ones
    var left: int
    ghost var taken: Bytes
    const slow: bool           // the peer's bytes come one at a time
    ghost const length: int
    ghost const sent: Bytes

    /** Every byte taken off the socket is charged to the length, and never more than that. */
    ghost predicate Valid() reads this {
      && left == length - |taken|
      && (left < 0 ==> taken == [])
      && sent == taken + incoming
    }

    ghost function Pending(): Bytes reads this {
      Capped(incoming, left)
    }

    constructor (socket: Bytes, length: int, slow: bool)
      ensures Valid() && this.length == length && this.slow == slow && taken == [] && incoming == sent == socket
      ensures Pending() == if length <= 0 then [] else socket[..Min(length, |socket|)]
    {
      incoming, left, this.length, taken, sent, this.slow := socket, length, length, [], socket, slow;
    }

    /** The socket may answer with any non-empty prefix of what was asked for; that of a slow peer has one byte. */
    method Read(size: int) returns (data: Bytes)
      requires Valid()
      modifies this
      ensures Valid()
      ensures old(Pending()) == data + Pending()
      ensures data == [] ==> old(Pending()) == [] || size == 0
      ensures size >= 0 ==> |data| <= size
      ensures slow ==> |data| <= 1
    {
      if left <= 0 {
        return [];
      }
      var want := if size < 0 || size > left then left else size;
      var most := Min(if slow then Min(1, want) else want, |incoming|);
      var n :| 0 <= n <= most && (n == 0 ==> most == 0);
      data := incoming[..n];
      CappedSplits(incoming, left, n);
      assert taken + incoming == (taken + data) + incoming[n..];
      hide Capped;
      incoming, left, taken := incoming[n..], left - n, taken + data;
    }
  }

  /** Yields `head` first, then falls through to the reader it wraps. */
  class PrependedReader {
    var head: Bytes
    const inner: PrependedReader?   // null: wraps the limited body itself
    const body: LimitedReader
    ghost const Repr: set<object>

    ghost predicate Valid() decreases Repr {
      && this in Repr && body in Repr
      && (inner != null ==> inner in Repr && inner.Repr == Repr - {this} && this !in inner.Repr
                            && inner.body == body && inner.Valid())
    }

    ghost function Pending(): Bytes
      requires Valid()
      reads Repr
      decreases Repr
    {
      head + if inner == null then body.Pending() else inner.Pending()
    }

    /** Nothing is pushed back, here or in the readers below. */
    ghost predicate Bare()
      requires Valid()
      reads Repr
      decreases Repr
    {
      head == [] && (inner != null ==> inner.Bare())
    }

    constructor OnBody(head: Bytes, body: LimitedReader)
      ensures Valid() && fresh(Repr - {body}) && this.body == body
      ensures Pending() == head + body.Pending() && (Bare() <==> head == [])
    {
      this.head, inner, this.body := head, null, body;
      Repr := {this, body};
    }

    constructor (head: Bytes, inner: PrependedReader)
      requires inner.Valid()
      ensures Valid() && Repr == inner.Repr + {this} && this.body == inner.body
      ensures Pending() == head + inner.Pending() && (Bare() <==> head == [] && inner.Bare())
    {
      this.head, this.inner, this.body := head, inner, inner.body;
      Repr := inner.Repr + {this};
    }

    method Read(size: int) returns (data: Bytes)
      requires Valid() && body.Valid()
      modifies Repr
      ensures body.Valid()
      ensures old(Pending()) == data + Pending()
      ensures size != 0 && data == [] ==> old(Pending()) == []
      ensures size > 0 ==> |data| <= size
      ensures body.slow && old(Bare()) ==> Bare() && |data| <= 1
      decreases Repr
    {
      if head != [] {
        var n := if size < 0 || size >= |head| then |head| else size;
        data := head[..n];
        MoveOver(data, head[n..], if inner == null then body.Pending() else inner.Pending());
        assert head == data + head[n..];
        head := head[n..];
      } else {
        var want := if size > 0 then size else CHUNK;
        if inner == null {
          data := body.Read(want);
        } else {
          data := inner.Read(want);
        }
      }
    }
  }

  /** The body's own bytes come last in what a reader still has. */
  lemma EndsWithBody(src: PrependedReader)
    requires src.Valid()
    ensures EndOf(src.Pending(), src.body.Pending())
    ensures src.Bare() ==> src.Pending() == src.body.Pending()
    decreases src.Repr
  {
    if src.inner != null { EndsWithBody(src.inner); }
  }

  ghost predicate EndOf(whole: Bytes, end: Bytes) {
    |end| <= |whole| && whole[|whole| - |end|..] == end
  }

  /** A separator in the buffer, if there is one, is the last that was read. */
  ghost predicate EndsTight(buf: Bytes, sep: Bytes) {
    Find(buf, sep).Some? ==> Find(buf, sep).value + |sep| == |buf|
  }

  /** So it is when bytes are added one at a time until there is one. */
  lemma TightOneMore(buf: Bytes, more: Bytes, sep: Bytes)
    requires Find(buf, sep).None? && |more| <= 1
    ensures EndsTight(buf + more, sep)
  {
    var found := Find(buf + more, sep);
    if found.Some? && found.value + |sep| <= |buf| {
      OccursInPrefix(buf, more, sep, found.value);
    }
  }

  lemma TightAfterDrop(buf: Bytes, sep: Bytes, n: nat)
    requires Find(buf, sep).None? && n <= |buf|
    ensures EndsTight(buf[n..], sep)
  {
    FindAfterDrop(buf, sep, n);
  }

  datatype Chunk = Chunk(data: Bytes) | UnexpectedEof | EofAfterSeparator

  /** What `before` says of a text is what `after` says of it once `chunk` is taken off its front. */
  ghost predicate Advances(before: Cut, chunk: Bytes, after: Cut) {
    match after
    case Cut(content, term, rest) => before == Cut(chunk + content, term, rest)
    case _ => before == after
  }

  /** The content of one part, streamed up to the separator. */
  class BoundaryReader {
    const src: PrependedReader
    const sep: Bytes
    var buf: Bytes
    var done: bool
    var nextTerm: Bytes
    var leftover: Bytes

    ghost predicate Valid() { this !in src.Repr && src.Valid() }

    /** What the part and everything after it still consist of. */
    ghost function Pending(): Bytes
      requires Valid()
      reads this, src.Repr
    {
      buf + src.Pending()
    }

    /** Nothing past the separator has been read. */
    ghost predicate Tight()
      requires Valid()
      reads this, src.Repr
    {
      src.body.slow && src.Bare() && if done then leftover == [] else EndsTight(buf, sep)
    }

    constructor (src: PrependedReader, boundary: Bytes)
      requires src.Valid()
      ensures Valid() && this.src == src && sep == CRLF + boundary
      ensures src.body.slow && src.Bare() ==> Tight()
      ensures !done && Pending() == src.Pending()
    {
      this.src, sep := src, CRLF + boundary;
      buf, done, nextTerm, leftover := [], false, [], [];
    }

    method Read() returns (r: Chunk)
      requires Valid() && src.body.Valid()
      modifies this, src.Repr
      ensures src.body.Valid()
      ensures old(done) ==> r == Chunk([]) && done && nextTerm == old(nextTerm) && leftover == old(leftover)
                            && src.Pending() == old(src.Pending())
      ensures !old(done) && done ==>
                r.Chunk? && CutAt(old(Pending()), sep) == Cut(r.data, nextTerm, leftover + src.Pending())
      ensures !old(done) && !done && r.Chunk? ==>
                && r.data != [] && old(Pending()) == r.data + Pending()
                && Advances(CutAt(old(Pending()), sep), r.data, CutAt(Pending(), sep))
      ensures r.UnexpectedEof? ==> !old(done) && CutAt(old(Pending()), sep) == NoSeparator
      ensures r.EofAfterSeparator? ==> !old(done) && CutAt(old(Pending()), sep) == NoTerminator
      ensures old(Tight()) && r.Chunk? ==> Tight()
    {
      hide CutAt, Advances, Find, EndsTight;
      while !done
        modifies this`buf, src.Repr
        invariant src.body.Valid() && Pending() == old(Pending())
        invariant done ==> src.Pending() == old(src.Pending())
        invariant old(Tight()) ==> Tight()
        decreases |src.Pending()|
      {
        var found := Find(buf, sep);
        if found.Some? {
          break;
        }
        var keep := |sep|;
        if |buf| > keep {
          r := Chunk(buf[..|buf| - keep]);
          HoldBack(buf, src.Pending(), sep);
          TightAfterDrop(buf, sep, |buf| - keep);
          buf := buf[|buf| - keep..];
          return;
        }
        var more := Refill(CHUNK);
        if !more {
          NoCut(buf, sep);
          return UnexpectedEof;
        }
      }
      if done {
        return Chunk([]);
      }
      r := Terminate(Find(buf, sep).value);
    }

    /** Move what the source answers into the buffer. */
    method Refill(size: nat) returns (more: bool)
      requires Valid() && src.body.Valid() && size > 0
      modifies this`buf, src.Repr
      ensures src.body.Valid() && Pending() == old(Pending())
      ensures more ==> |src.Pending()| < |old(src.Pending())|
      ensures !more ==> buf == old(buf) == Pending()
      ensures src.body.slow && old(src.Bare()) ==> src.Bare() && |buf| <= |old(buf)| + 1
      ensures src.body.slow && old(src.Bare()) && Find(old(buf), sep).None? ==> EndsTight(buf, sep)
    {
      hide Find, EndsTight;
      var chunk := src.Read(size);
      if |chunk| <= 1 && Find(buf, sep).None? { TightOneMore(buf, chunk, sep); }
      MoveOver(buf, chunk, src.Pending());
      buf := buf + chunk;
      more := chunk != [];
    }

    /** Read two bytes at a time until the buffer holds `need` bytes. */
    method Fill(need: nat) returns (ok: bool)
      requires Valid() && src.body.Valid()
      modifies this`buf, src.Repr
      ensures src.body.Valid() && Pending() == old(Pending())
      ensures ok ==> |buf| >= need
      ensures !ok ==> |old(Pending())| < need
      ensures src.body.slow && old(src.Bare()) && |old(buf)| <= need ==> src.Bare() && |buf| <= need
    {
      while |buf| < need
        invariant src.body.Valid() && Pending() == old(Pending())
        invariant src.body.slow && old(src.Bare()) && |old(buf)| <= need ==> src.Bare() && |buf| <= need
        decreases |src.Pending()|
      {
        var more := Refill(2);
        if !more {
          return false;
        }
      }
      return true;
    }

    /** The separator stands in the buffer at `idx`: fetch the two bytes after it. */
    method Terminate(idx: nat) returns (r: Chunk)
      requires Valid() && src.body.Valid() && !done && Find(buf, sep) == Some(idx)
      modifies this, src.Repr
      ensures src.body.Valid()
      ensures done <==> r.Chunk?
      ensures r.Chunk? ==> CutAt(old(Pending()), sep) == Cut(r.data, nextTerm, leftover + src.Pending())
      ensures !r.Chunk? ==> r == EofAfterSeparator && CutAt(old(Pending()), sep) == NoTerminator
      ensures old(Tight()) && r.Chunk? ==> Tight()
    {
      hide Find, CutAt;
      FindExtends(buf, src.Pending(), sep);
      var tail := idx + |sep|;
      var enough := Fill(tail + 2);
      ghost var ahead, whole := src.Pending(), Pending();
      if !enough {
        CutTooShort(whole, sep, idx);
        return EofAfterSeparator;
      }
      CutBuffered(buf, ahead, sep, idx);
      r := Chunk(buf[..idx]);
      nextTerm, leftover := buf[tail..tail + 2], buf[tail + 2..];
      assert CutAt(whole, sep) == Cut(r.data, nextTerm, leftover + ahead);
      buf, done := [], true;
    }
  }

  lemma NoCut(s: Bytes, sep: Bytes)
    requires Find(s, sep).None?
    ensures CutAt(s, sep) == NoSeparator
  {
  }

  lemma MoveOver(buf: Bytes, more: Bytes, ahead: Bytes)
    ensures (buf + more) + ahead == buf + (more + ahead)
  {
  }

  lemma CutTooShort(s: Bytes, sep: Bytes, idx: nat)
    requires Find(s, sep) == Some(idx) && |s| < idx + |sep| + 2
    ensures CutAt(s, sep) == NoTerminator
  {
  }

  lemma CutBuffered(buf: Bytes, more: Bytes, sep: Bytes, idx: nat)
    requires Find(buf + more, sep) == Some(idx) && |buf| >= idx + |sep| + 2
    ensures var tail := idx + |sep|;
            CutAt(buf + more, sep) == Cut(buf[..idx], buf[tail..tail + 2], buf[tail + 2..] + more)
  {
    var all, tail := buf + more, idx + |sep|;
    assert all[..idx] == buf[..idx];
    assert all[tail..tail + 2] == buf[tail..tail + 2];
    assert all[tail + 2..] == buf[tail + 2..] + more;
  }

  lemma CutAfterDrop(s: Bytes, sep: Bytes, n: nat)
    requires n <= |s| && forall j: nat | j < n :: !OccursAt(s, sep, j)
    ensures Advances(CutAt(s, sep), s[..n], CutAt(s[n..], sep))
  {
    FindAfterDrop(s, sep, n);
    if Find(s, sep).Some? {
      var k := Find(s, sep).value;
      var tail := k + |sep|;
      assert s[..k] == s[..n] + s[n..][..k - n];
      if tail + 2 <= |s| {
        assert s[tail..tail + 2] == s[n..][tail - n..tail - n + 2];
        assert s[tail + 2..] == s[n..][tail - n + 2..];
      }
    }
  }

  /** No separator in the buffer: all but its last |sep| bytes belong to the content. */
  lemma HoldBack(buf: Bytes, more: Bytes, sep: Bytes)
    requires Find(buf, sep).None? && |sep| <= |buf|
    ensures var n := |buf| - |sep|;
            && buf + more == buf[..n] + (buf[n..] + more)
            && Advances(CutAt(buf + more, sep), buf[..n], CutAt(buf[n..] + more, sep))
  {
    var n := |buf| - |sep|;
    NoneHeldBack(buf, more, sep);
    hide Find, CutAt, Advances, OccursAt;
    CutAfterDrop(buf + more, sep, n);
    Divided(buf, more, n);
  }

  lemma NoneHeldBack(buf: Bytes, more: Bytes, sep: Bytes)
    requires Find(buf, sep).None? && |sep| <= |buf|
    ensures forall j: nat | j < |buf| - |sep| :: !OccursAt(buf + more, sep, j)
  {
    forall j: nat | j < |buf| - |sep| ensures !OccursAt(buf + more, sep, j) {
      OccursInPrefix(buf, more, sep, j);
    }
  }

  lemma Divided(buf: Bytes, more: Bytes, n: nat)
    requires n <= |buf|
    ensures (buf + more)[n..] == buf[n..] + more && (buf + more)[..n] == buf[..n]
    ensures buf + more == buf[..n] + (buf[n..] + more)
  {
  }
}
