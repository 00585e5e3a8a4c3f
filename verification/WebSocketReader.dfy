/** The relay's read loop: from ttyd's byte stream to queued messages and answered pings. */
module WebSocketReader {
  import opened WebSocket
  import opened Options

  datatype Frame = Frame(first: bv8, data: Octets)

  datatype End = PeerClosed | EndOfInput | BadFrame

  datatype Got = Got(frame: Frame, rest: Octets) | Nothing(end: End)

  /** A frame with reserved bits, a mask or too long a payload is refused before its payload. */
  function NextFrame(s: Octets): Got {
    match ReadHeader(s)
    case None => Nothing(EndOfInput)
    case Some((h, rest)) =>
      if h.first & 0x70 != 0 || h.masked || h.length > MAX_FRAME then Nothing(BadFrame)
      else if |rest| < h.length then Nothing(EndOfInput)
      else Got(Frame(h.first, rest[..h.length]), rest[h.length..])
  }

  /** What has been put together of the message in progress. */
  datatype Assembly = Assembly(text: Octets, opcode: Option<bv8>)

  const EMPTY := Assembly([], None)

  datatype Effect = Queue(opcode: bv8, payload: Octets) | Answer(payload: Octets)

  datatype Turn = Turn(effects: seq<Effect>, next: Assembly) | Stop(end: End)

  function OnFrame(f: Frame, st: Assembly): Turn {
    var kind, final := f.first & 0x0f, f.first & 0x80 != 0;
    if kind >= 8 then
      if !final || |f.data| > 125 then Stop(BadFrame)
      else if kind == 8 then Stop(PeerClosed)
      else if kind == 9 then Turn([Answer(f.data)], st)
      else if kind == 10 then Turn([], st)
      else Stop(BadFrame)
    else
      var starts := (kind == 1 || kind == 2) && st.opcode.None?;
      if !starts && (kind != 0 || st.opcode.None?) then Stop(BadFrame)
      else
        var opcode, text := if starts then kind else st.opcode.value, st.text + f.data;
        if |text| > MAX_FRAME then Stop(BadFrame)
        else if !final then Turn([], Assembly(text, Some(opcode)))
        else Turn([Queue(opcode, text)], EMPTY)
  }

  datatype Run = Run(effects: seq<Effect>, end: End)

  function After(effects: seq<Effect>, run: Run): Run { Run(effects + run.effects, run.end) }

  /** Everything the loop does with the stream `s`, from the assembly `st` on. */
  function ReadFrom(s: Octets, st: Assembly): Run
    decreases |s|
  {
    match NextFrame(s)
    case Nothing(end) => Run([], end)
    case Got(f, rest) =>
      match OnFrame(f, st)
      case Stop(end) => Run([], end)
      case Turn(effects, next) => After(effects, ReadFrom(rest, next))
  }

  lemma AfterNothing(s: Octets)
    ensures After([], ReadFrom(s, EMPTY)) == ReadFrom(s, EMPTY)
  {
  }

  /** One turn of the loop moves its effects from what is to come to what was done. */
  lemma {:induction false} TurnOfLoop(effects: seq<Effect>, s: Octets, st: Assembly, got: Got)
    requires got == NextFrame(s)
    ensures var total := After(effects, ReadFrom(s, st));
            match got
            case Nothing(end) => total == Run(effects, end)
            case Got(f, rest) =>
              match OnFrame(f, st)
              case Stop(end) => total == Run(effects, end)
              case Turn(more, next) => total == After(effects + more, ReadFrom(rest, next))
  {
    hide NextFrame, OnFrame;
  }

  // ---- The loop itself --------------------------------------------------------

  /** Too few bytes for the length form they announce. */
  lemma HeaderCutOff(s: Octets)
    requires |s| < 2 || (s[1] & 0x7f == 126 && |s| < 4) || (s[1] & 0x7f == 127 && |s| < 10)
    ensures ReadHeader(s).None?
  {
    hide FromBigEndian;
  }

  lemma PlainHeader(a: bv8, b: bv8, rest: Octets)
    requires (b & 0x7f) as int != 126 && (b & 0x7f) as int != 127
    ensures ReadHeader([a, b] + rest) == Some((Header(a, b & 0x80 != 0, (b & 0x7f) as int), rest))
  {
    hide FromBigEndian;
    assert ([a, b] + rest)[2..] == rest;
  }

  lemma HeaderOf(s: Octets, more: nat)
    requires |s| >= 2 + more && more == if s[1] & 0x7f == 126 then 2 else if s[1] & 0x7f == 127 then 8 else 0
    requires more > 0
    ensures ReadHeader(s) == Some((Header(s[0], s[1] & 0x80 != 0, FromBigEndian(s[2..2 + more])), s[2 + more..]))
  {
    hide FromBigEndian;
  }

  lemma LongHeader(a: bv8, b: bv8, length: Octets, rest: Octets)
    requires ((b & 0x7f) as int == 126 && |length| == 2) || ((b & 0x7f) as int == 127 && |length| == 8)
    ensures ReadHeader([a, b] + (length + rest)) == Some((Header(a, b & 0x80 != 0, FromBigEndian(length)), rest))
  {
    hide FromBigEndian, ReadHeader;
    var s, more := [a, b] + (length + rest), |length|;
    assert |s| == 2 + more + |rest| && s[0] == a && s[1] == b;
    assert s[2..2 + more] == length && s[2 + more..] == rest;
    HeaderOf(s, more);
  }

  class Upstream {
    var data: Octets

    constructor (data: Octets)
      ensures this.data == data
    {
      this.data := data;
    }

    /** `_read`: exactly n bytes, or the end of the input. */
    method Read(n: nat) returns (r: Option<Octets>)
      modifies this
      ensures match r
              case Some(bytes) => |bytes| == n && old(data) == bytes + data
              case None => |old(data)| < n
    {
      if |data| < n {
        return None;
      }
      r, data := Some(data[..n]), data[n..];
    }

    method ReadFrame() returns (r: Got)
      modifies this
      ensures match r
              case Nothing(end) => NextFrame(old(data)) == Nothing(end)
              case Got(f, rest) => rest == data && NextFrame(old(data)) == r && |data| < |old(data)|
    {
      hide ReadHeader;
      ghost var s := data;
      var start := Read(2);
      if start.None? {
        HeaderCutOff(s);
        return Nothing(EndOfInput);
      }
      var a, b := start.value[0], start.value[1];
      assert s == [a, b] + data;
      var n := (b & 0x7f) as int;
      if n == 126 || n == 127 {
        var length := Read(if n == 126 then 2 else 8);
        if length.None? {
          HeaderCutOff(s);
          return Nothing(EndOfInput);
        }
        LongHeader(a, b, length.value, data);
        assert s == [a, b] + (length.value + data);
        n := FromBigEndian(length.value);
      } else {
        PlainHeader(a, b, data);
      }
      assert ReadHeader(s) == Some((Header(a, b & 0x80 != 0, n), data));
      if a & 0x70 != 0 || b & 0x80 != 0 || n > MAX_FRAME {
        return Nothing(BadFrame);
      }
      var payload := Read(n);
      if payload.None? {
        return Nothing(EndOfInput);
      }
      return Got(Frame(a, payload.value), data);
    }
  }

  method ReadLoop(stream: Octets) returns (effects: seq<Effect>, end: End)
    ensures Run(effects, end) == ReadFrom(stream, EMPTY)
  {
    hide NextFrame, ReadFrom, After;
    var upstream := new Upstream(stream);
    effects := [];
    assert After([], ReadFrom(stream, EMPTY)) == ReadFrom(stream, EMPTY) by { AfterNothing(stream); }
    var fragmented: Octets, opcode: Option<bv8> := [], None;
    while true
      invariant After(effects, ReadFrom(upstream.data, Assembly(fragmented, opcode))) == ReadFrom(stream, EMPTY)
      decreases |upstream.data|
    {
      ghost var s := upstream.data;
      var got := upstream.ReadFrame();
      TurnOfLoop(effects, s, Assembly(fragmented, opcode), got);
      assert effects + [] == effects;
      if got.Nothing? {
        return effects, got.end;
      }
      var kind, final, data := got.frame.first & 0x0f, got.frame.first & 0x80 != 0, got.frame.data;
      if kind >= 8 {
        if !final || |data| > 125 { return effects, BadFrame; }
        if kind == 8 { return effects, PeerClosed; }
        if kind == 9 {
          effects := effects + [Answer(data)];
        } else if kind != 10 {
          return effects, BadFrame;
        }
        continue;
      }
      if (kind == 1 || kind == 2) && opcode.None? {
        opcode := Some(kind);
      } else if kind != 0 || opcode.None? {
        return effects, BadFrame;
      }
      fragmented := fragmented + data;
      if |fragmented| > MAX_FRAME { return effects, BadFrame; }
      if !final { continue; }
      effects := effects + [Queue(opcode.value, fragmented)];
      fragmented, opcode := [], None;
    }
  }

  // ---- What ttyd sends --------------------------------------------------------

  function ServerFrame(final: bool, kind: bv8, data: Octets, form: LengthForm): Octets
    requires Fits(form, |data|)
  {
    [(if final then 0x80 else 0) | kind] + LengthBytes(form, |data|, 0) + data
  }

  lemma ServerFrameReads(final: bool, kind: bv8, data: Octets, form: LengthForm, rest: Octets)
    requires Fits(form, |data|) && |data| <= MAX_FRAME && kind < 16
    ensures var first := (if final then 0x80 else 0) | kind;
            && NextFrame(ServerFrame(final, kind, data, form) + rest) == Got(Frame(first, data), rest)
            && first & 0x0f == kind && (first & 0x80 != 0 <==> final)
  {
    var first: bv8 := (if final then 0x80 else 0) | kind;
    FlagBits(final, kind);
    HeaderInverts(first, form, |data|, 0, data + rest);
    assert ServerFrame(final, kind, data, form) + rest == [first] + LengthBytes(form, |data|, 0) + (data + rest);
    assert (data + rest)[..|data|] == data && (data + rest)[|data|..] == rest;
  }

  lemma FlagBits(final: bool, kind: bv8)
    requires kind < 16
    ensures var first := (if final then 0x80 else 0) | kind;
            first & 0x0f == kind && first & 0x70 == 0 && (first & 0x80 != 0 <==> final)
  {
  }

  /** A frame as ttyd sends it: unmasked, in any length form that fits. */
  datatype Wire = Wire(final: bool, kind: bv8, data: Octets, form: LengthForm)

  predicate LegalWire(f: Wire) { f.kind < 16 && |f.data| <= MAX_FRAME && Fits(f.form, |f.data|) }

  predicate LegalWires(fs: seq<Wire>) { forall i | 0 <= i < |fs| :: LegalWire(fs[i]) }

  function WireBytes(f: Wire): Octets
    requires LegalWire(f)
  {
    ServerFrame(f.final, f.kind, f.data, f.form)
  }

  function RenderWires(fs: seq<Wire>): Octets
    requires LegalWires(fs)
  {
    if fs == [] then [] else assert LegalWire(fs[0]); WireBytes(fs[0]) + RenderWires(fs[1..])
  }

  datatype Folded = Folded(effects: seq<Effect>, next: Assembly) | Ended(effects: seq<Effect>, end: End)

  function Then(effects: seq<Effect>, f: Folded): Folded {
    match f
    case Folded(more, next) => Folded(effects + more, next)
    case Ended(more, end) => Ended(effects + more, end)
  }

  function OnWire(f: Wire, st: Assembly): Turn {
    OnFrame(Frame((if f.final then 0x80 else 0) | f.kind, f.data), st)
  }

  /** The effects of a list of frames, one after the other. */
  function OnWires(fs: seq<Wire>, st: Assembly): Folded {
    if fs == [] then Folded([], st)
    else
      match OnWire(fs[0], st)
      case Stop(end) => Ended([], end)
      case Turn(effects, next) => Then(effects, OnWires(fs[1..], next))
  }

  lemma {:induction false} WireRead(f: Wire, rest: Octets, st: Assembly)
    requires LegalWire(f)
    ensures ReadFrom(WireBytes(f) + rest, st)
            == match OnWire(f, st)
               case Stop(end) => Run([], end)
               case Turn(effects, next) => After(effects, ReadFrom(rest, next))
  {
    ServerFrameReads(f.final, f.kind, f.data, f.form, rest);
    hide NextFrame, OnFrame, ServerFrame;
  }

  /** Reading the bytes of frames does what the frames say, and goes on with what follows them. */
  lemma {:induction false} WiresRead(fs: seq<Wire>, rest: Octets, st: Assembly)
    requires LegalWires(fs)
    ensures ReadFrom(RenderWires(fs) + rest, st)
            == match OnWires(fs, st)
               case Ended(effects, end) => Run(effects, end)
               case Folded(effects, next) => After(effects, ReadFrom(rest, next))
    decreases |fs|
  {
    hide OnWire, WireBytes, ReadFrom;
    if fs == [] {
      assert RenderWires(fs) + rest == rest;
    } else {
      assert LegalWire(fs[0]);
      var more := RenderWires(fs[1..]) + rest;
      assert RenderWires(fs) + rest == WireBytes(fs[0]) + more;
      WireRead(fs[0], more, st);
      var turn := OnWire(fs[0], st);
      if turn.Turn? {
        WiresRead(fs[1..], rest, turn.next);
      }
    }
  }

  lemma {:induction false} OnWiresAppend(a: seq<Wire>, b: seq<Wire>, st: Assembly)
    ensures OnWires(a + b, st)
            == match OnWires(a, st)
               case Ended(effects, end) => Ended(effects, end)
               case Folded(effects, next) => Then(effects, OnWires(b, next))
    decreases |a|
  {
    hide OnWire;
    if a == [] {
      assert a + b == b;
    } else {
      assert (a + b)[1..] == a[1..] + b;
      var turn := OnWire(a[0], st);
      if turn.Turn? {
        OnWiresAppend(a[1..], b, turn.next);
      }
    }
  }

  // ---- What is refused --------------------------------------------------------

  /** A frame with reserved bits, a mask or too long a payload ends the loop, whatever follows its header. */
  lemma BadHeaderRefused(first: bv8, form: LengthForm, n: nat, masked: bool, rest: Octets, st: Assembly)
    requires Fits(form, n) && (first & 0x70 != 0 || masked || n > MAX_FRAME)
    ensures ReadFrom([first] + LengthBytes(form, n, if masked then 0x80 else 0) + rest, st) == Run([], BadFrame)
  {
    HeaderInverts(first, form, n, if masked then 0x80 else 0, rest);
    hide ReadHeader, LengthBytes;
  }

  /**
   What may come next (sections 5.4 and 5.5): a whole close, ping or pong of at most 125 bytes, the start of
   a text or binary message when none is in progress, its continuation when one is.
   */
  predicate Allowed(f: Wire, st: Assembly) {
    if f.kind >= 8 then f.final && f.kind <= 10 && |f.data| <= 125
    else f.kind <= 2 && (f.kind == 0 <==> st.opcode.Some?) && |st.text + f.data| <= MAX_FRAME
  }

  /** Any other frame ends the loop without effect, and of the allowed ones only a close ends it. */
  lemma {:induction false} FrameExact(f: Wire, rest: Octets, st: Assembly)
    requires LegalWire(f)
    ensures !Allowed(f, st) ==> ReadFrom(WireBytes(f) + rest, st) == Run([], BadFrame)
    ensures Allowed(f, st) && f.kind == 8 ==> ReadFrom(WireBytes(f) + rest, st) == Run([], PeerClosed)
    ensures Allowed(f, st) && f.kind != 8 ==>
              exists effects, next :: ReadFrom(WireBytes(f) + rest, st) == After(effects, ReadFrom(rest, next))
  {
    WireRead(f, rest, st);
    FlagBits(f.final, f.kind);
    hide WireBytes, ReadFrom, LegalWire, After;
    if Allowed(f, st) && f.kind != 8 {
      var turn := OnWire(f, st);
      assert turn.Turn?;
    }
  }

  /** A frame that is cut off ends the loop as the end of the input. */
  lemma {:induction false} CutOff(f: Wire, k: nat, st: Assembly)
    requires LegalWire(f) && k < |WireBytes(f)|
    ensures ReadFrom(WireBytes(f)[..k], st) == Run([], EndOfInput)
  {
    var first := (if f.final then 0x80 else 0) | f.kind;
    var header := [first] + LengthBytes(f.form, |f.data|, 0);
    FlagBits(f.final, f.kind);
    assert WireBytes(f) == header + f.data;
    if k < |header| {
      assert WireBytes(f)[..k] == header[..k];
      ShortOfHeader(f, k);
    } else {
      assert WireBytes(f)[..k] == header + f.data[..k - |header|];
      HeaderInverts(first, f.form, |f.data|, 0, f.data[..k - |header|]);
    }
  }

  lemma ShortOfHeader(f: Wire, k: nat)
    requires LegalWire(f)
    requires var first := (if f.final then 0x80 else 0) | f.kind; k < |[first] + LengthBytes(f.form, |f.data|, 0)|
    ensures var first := (if f.final then 0x80 else 0) | f.kind;
            ReadHeader(([first] + LengthBytes(f.form, |f.data|, 0))[..k]).None?
  {
    var first := (if f.final then 0x80 else 0) | f.kind;
    var s := ([first] + LengthBytes(f.form, |f.data|, 0))[..k];
    if k >= 2 && !f.form.Short? {
      var mark: bv8 := if f.form.Medium? then 126 else 127;
      assert s[1] == 0 | mark;
      LowBits(0, mark);
    }
    HeaderCutOff(s);
  }

  /** A stream cut off within a frame has the effects of the frames before it. */
  lemma StreamCutOff(fs: seq<Wire>, f: Wire, k: nat)
    requires LegalWires(fs) && LegalWire(f) && k < |WireBytes(f)| && OnWires(fs, EMPTY).Folded?
    ensures ReadFrom(RenderWires(fs) + WireBytes(f)[..k], EMPTY) == Run(OnWires(fs, EMPTY).effects, EndOfInput)
  {
    WiresRead(fs, WireBytes(f)[..k], EMPTY);
    CutOff(f, k, OnWires(fs, EMPTY).next);
    hide OnWires, RenderWires, ReadFrom, WireBytes;
    assert OnWires(fs, EMPTY).effects + [] == OnWires(fs, EMPTY).effects;
  }

  // ---- Messages ---------------------------------------------------------------

  datatype Control = Ping(data: Octets, form: LengthForm) | Pong(data: Octets, form: LengthForm)

  /** One data frame of a message, and the control frames sent just before it. */
  datatype Piece = Piece(before: seq<Control>, data: Octets, form: LengthForm)

  /** A text (1) or binary (2) message, cut into one or more frames. */
  datatype Message = Message(kind: bv8, pieces: seq<Piece>)

  predicate LegalControl(c: Control) { |c.data| <= 125 && Fits(c.form, |c.data|) }

  predicate LegalPiece(p: Piece) {
    Fits(p.form, |p.data|) && forall i | 0 <= i < |p.before| :: LegalControl(p.before[i])
  }

  predicate LegalMessage(m: Message) {
    && (m.kind == 1 || m.kind == 2) && m.pieces != [] && |Text(m.pieces)| <= MAX_FRAME
    && forall i | 0 <= i < |m.pieces| :: LegalPiece(m.pieces[i])
  }

  function Text(ps: seq<Piece>): Octets {
    if ps == [] then [] else ps[0].data + Text(ps[1..])
  }

  function ControlWires(cs: seq<Control>): seq<Wire> {
    if cs == [] then []
    else [Wire(true, if cs[0].Ping? then 9 else 10, cs[0].data, cs[0].form)] + ControlWires(cs[1..])
  }

  /** The first frame carries the message's kind, the others are continuations; the last is final. */
  function PieceWires(ps: seq<Piece>, kind: bv8): seq<Wire> {
    if ps == [] then []
    else ControlWires(ps[0].before) + ([Wire(|ps| == 1, kind, ps[0].data, ps[0].form)] + PieceWires(ps[1..], 0))
  }

  function MessageWires(ms: seq<Message>): seq<Wire> {
    if ms == [] then [] else PieceWires(ms[0].pieces, ms[0].kind) + MessageWires(ms[1..])
  }

  function Answers(cs: seq<Control>): seq<Effect> {
    if cs == [] then [] else (if cs[0].Ping? then [Answer(cs[0].data)] else []) + Answers(cs[1..])
  }

  function PieceAnswers(ps: seq<Piece>): seq<Effect> {
    if ps == [] then [] else Answers(ps[0].before) + PieceAnswers(ps[1..])
  }

  /** What the messages are to cause: every ping answered in turn, every message queued whole. */
  function Expected(ms: seq<Message>): seq<Effect> {
    if ms == [] then []
    else PieceAnswers(ms[0].pieces) + [Queue(ms[0].kind, Text(ms[0].pieces))] + Expected(ms[1..])
  }

  lemma {:induction false} ControlsFold(cs: seq<Control>, st: Assembly)
    requires forall i | 0 <= i < |cs| :: LegalControl(cs[i])
    ensures OnWires(ControlWires(cs), st) == Folded(Answers(cs), st)
    ensures LegalWires(ControlWires(cs))
  {
    if cs != [] {
      assert LegalControl(cs[0]);
      FlagBits(true, 9);
      FlagBits(true, 10);
      ControlsFold(cs[1..], st);
      var first := Wire(true, if cs[0].Ping? then 9 else 10, cs[0].data, cs[0].form);
      assert OnWire(first, st) == Turn(if cs[0].Ping? then [Answer(cs[0].data)] else [], st);
      assert ControlWires(cs)[1..] == ControlWires(cs[1..]);
    }
  }

  /** A data frame that continues, or starts, a message of this opcode. */
  lemma DataWire(final: bool, kind: bv8, data: Octets, form: LengthForm, opcode: bv8, st: Assembly)
    requires |st.text + data| <= MAX_FRAME
    requires if kind == 0 then st.opcode == Some(opcode)
             else st == EMPTY && kind == opcode && (kind == 1 || kind == 2)
    ensures OnWire(Wire(final, kind, data, form), st)
            == if final then Turn([Queue(opcode, st.text + data)], EMPTY)
               else Turn([], Assembly(st.text + data, Some(opcode)))
  {
    FlagBits(final, kind);
  }

  lemma {:induction false} PiecesLegal(ps: seq<Piece>, kind: bv8)
    requires (forall i | 0 <= i < |ps| :: LegalPiece(ps[i])) && |Text(ps)| <= MAX_FRAME && kind < 16
    ensures LegalWires(PieceWires(ps, kind))
    decreases |ps|
  {
    if ps != [] {
      assert LegalPiece(ps[0]);
      ControlsFold(ps[0].before, EMPTY);
      PiecesLegal(ps[1..], 0);
    }
  }

  lemma PieceFold(p: Piece, wire: Wire, more: seq<Wire>, opcode: bv8, st: Assembly)
    requires LegalPiece(p) && |st.text + p.data| <= MAX_FRAME && wire.data == p.data
    requires if wire.kind == 0 then st.opcode == Some(opcode)
             else st == EMPTY && wire.kind == opcode && (opcode == 1 || opcode == 2)
    ensures OnWires(ControlWires(p.before) + ([wire] + more), st)
            == if wire.final
               then Then(Answers(p.before) + [Queue(opcode, st.text + p.data)], OnWires(more, EMPTY))
               else Then(Answers(p.before), OnWires(more, Assembly(st.text + p.data, Some(opcode))))
  {
    hide OnWire, Fits, LegalWires, ControlWires, Answers;
    ControlsFold(p.before, st);
    OnWiresAppend(ControlWires(p.before), [wire] + more, st);
    DataWire(wire.final, wire.kind, p.data, wire.form, opcode, st);
    assert ([wire] + more)[1..] == more;
    assert Answers(p.before) + [] == Answers(p.before);
    var next := if wire.final then EMPTY else Assembly(st.text + p.data, Some(opcode));
    var effects := if wire.final then [Queue(opcode, st.text + p.data)] else [];
    assert OnWires([wire] + more, st) == Then(effects, OnWires(more, next));
    ThenTwice(Answers(p.before), effects, OnWires(more, next));
  }

  lemma {:induction false} ThenTwice(a: seq<Effect>, b: seq<Effect>, f: Folded)
    ensures Then(a, Then(b, f)) == Then(a + b, f)
  {
    assert a + (b + f.effects) == (a + b) + f.effects;
  }

  lemma {:induction false} PiecesFold(ps: seq<Piece>, kind: bv8, opcode: bv8, st: Assembly)
    requires ps != [] && (forall i | 0 <= i < |ps| :: LegalPiece(ps[i])) && |st.text + Text(ps)| <= MAX_FRAME
    requires if kind == 0 then st.opcode == Some(opcode)
             else st == EMPTY && kind == opcode && (kind == 1 || kind == 2)
    ensures OnWires(PieceWires(ps, kind), st) == Folded(PieceAnswers(ps) + [Queue(opcode, st.text + Text(ps))], EMPTY)
    decreases |ps|
  {
    hide LegalPiece, ControlWires, Answers, OnWires;
    var p, text, more := ps[0], st.text + ps[0].data, PieceWires(ps[1..], 0);
    assert LegalPiece(p);
    assert st.text + Text(ps) == text + Text(ps[1..]);
    PieceFold(p, Wire(|ps| == 1, kind, p.data, p.form), more, opcode, st);
    if |ps| == 1 {
      NoPieces(ps[1..]);
      assert text + [] == text && Answers(p.before) + [] == Answers(p.before);
      assert Then(Answers(p.before) + [Queue(opcode, text)], Folded([], EMPTY)).effects
             == Answers(p.before) + [Queue(opcode, text)];
    } else {
      PiecesFold(ps[1..], 0, opcode, Assembly(text, Some(opcode)));
      hide PieceWires, Text;
      var rest, queue := PieceAnswers(ps[1..]), [Queue(opcode, st.text + Text(ps))];
      assert Answers(p.before) + (rest + queue) == (Answers(p.before) + rest) + queue;
    }
  }

  lemma NoPieces(ps: seq<Piece>)
    requires ps == []
    ensures PieceAnswers(ps) == [] && Text(ps) == [] && OnWires(PieceWires(ps, 0), EMPTY) == Folded([], EMPTY)
  {
  }

  lemma {:induction false} MessagesFold(ms: seq<Message>)
    requires forall i | 0 <= i < |ms| :: LegalMessage(ms[i])
    ensures OnWires(MessageWires(ms), EMPTY) == Folded(Expected(ms), EMPTY)
    ensures LegalWires(MessageWires(ms))
  {
    if ms != [] {
      assert LegalMessage(ms[0]);
      PiecesLegal(ms[0].pieces, ms[0].kind);
      PiecesFold(ms[0].pieces, ms[0].kind, ms[0].kind, EMPTY);
      assert EMPTY.text + Text(ms[0].pieces) == Text(ms[0].pieces);
      OnWiresAppend(PieceWires(ms[0].pieces, ms[0].kind), MessageWires(ms[1..]), EMPTY);
      MessagesFold(ms[1..]);
    }
  }

  /**
   Reassembly: legal messages, cut and interleaved with control frames in any way, come out
   whole and in order with every ping answered; then the loop goes on with what follows.
   */
  lemma MessagesRead(ms: seq<Message>, rest: Octets)
    requires forall i | 0 <= i < |ms| :: LegalMessage(ms[i])
    ensures LegalWires(MessageWires(ms))
    ensures ReadFrom(RenderWires(MessageWires(ms)) + rest, EMPTY) == After(Expected(ms), ReadFrom(rest, EMPTY))
  {
    MessagesFold(ms);
    WiresRead(MessageWires(ms), rest, EMPTY);
  }

  predicate WithinLimits(e: Effect) {
    match e
    case Queue(opcode, payload) => (opcode == 1 || opcode == 2) && |payload| <= MAX_FRAME
    case Answer(payload) => |payload| <= 125
  }

  /** Whatever bytes arrive, only text and binary messages within the size limit are queued. */
  lemma {:induction false} EffectsWithinLimits(s: Octets, st: Assembly)
    requires st.opcode.Some? ==> st.opcode.value == 1 || st.opcode.value == 2
    ensures forall e | e in ReadFrom(s, st).effects :: WithinLimits(e)
    decreases |s|
  {
    var got := NextFrame(s);
    if got.Got? {
      var turn := OnFrame(got.frame, st);
      if turn.Turn? {
        EffectsWithinLimits(got.rest, turn.next);
        assert ReadFrom(s, st).effects == turn.effects + ReadFrom(got.rest, turn.next).effects;
      }
    }
  }
}
