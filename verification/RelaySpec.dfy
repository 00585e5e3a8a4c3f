/**
 What a relay is, without its deque and counters: every message ever queued, how much of that
 the client has acknowledged, and what was typed into ttyd.
 */
module RelaySpec {
  import opened WebSocket

  const MAX_BUFFER: nat := 2 * 1024 * 1024
  const MAX_BATCH: nat := 128

  datatype Msg = Msg(opcode: bv8, data: Octets)

  /** A retained message under its sequence number. */
  datatype Frame = Frame(number: nat, msg: Msg)

  datatype Server = Server(
    history: seq<Msg>, acked: nat, closed: bool, typed: seq<Msg>)

  datatype Response = Response(frames: seq<Frame>, closed: bool)

  datatype Outcome<+T> = Ok(value: T) | Refused(status: nat)

  function Max(a: nat, b: nat): nat { if a < b then b else a }

  /** The messages with sequence numbers after `from`. */
  function Window(history: seq<Msg>, from: nat): (r: seq<Frame>)
    requires from <= |history|
    ensures |r| == |history| - from
  {
    seq(|history| - from, i requires 0 <= i < |history| - from => Frame(from + 1 + i, history[from + i]))
  }

  function Total(frames: seq<Frame>): nat {
    if frames == [] then 0 else |frames[0].msg.data| + Total(frames[1..])
  }

  predicate ValidServer(s: Server) {
    s.acked <= |s.history| && Total(Window(s.history, s.acked)) <= MAX_BUFFER
  }

  // ---- Steps ------------------------------------------------------------------

  predicate HasRoom(s: Server, msg: Msg)
    requires ValidServer(s)
  {
    Total(Window(s.history, s.acked)) + |msg.data| <= MAX_BUFFER
  }

  /** The read loop hands over a message: it waits for room, and gives up once closed. */
  function Enqueue(s: Server, msg: Msg): Server
    requires ValidServer(s)
  {
    if s.closed || !HasRoom(s, msg) then s else s.(history := s.history + [msg])
  }

  /** The first half of `poll`: check the acknowledgement and forget what it covers. */
  function Acknowledge(s: Server, after: int, acknowledge: bool): Outcome<Server> {
    if !(s.acked <= after <= |s.history|) then Refused(409)
    else Ok(if acknowledge then s.(acked := after) else s)
  }

  /** The `ack` request: an acknowledgement that may come late counts as the newest one. */
  function AckRequest(s: Server, after: int): Outcome<Server> {
    if !(0 <= after <= |s.history|) then Refused(409)
    else Acknowledge(s, if after < s.acked then s.acked else after, true)
  }

  /** How many frames one response carries: at most 128, or until they reach MAX_FRAME bytes. */
  function BatchSize(frames: seq<Frame>, size: nat, count: nat): (n: nat)
    ensures n <= |frames|
    ensures frames != [] ==> n > 0
    decreases |frames|
  {
    if frames == [] then 0
    else
      var size', count' := size + |frames[0].msg.data|, count + 1;
      if size' >= MAX_FRAME || count' >= MAX_BATCH then 1
      else 1 + BatchSize(frames[1..], size', count')
  }

  function Batch(s: Server, after: nat): seq<Frame>
    requires s.acked <= |s.history| && after <= |s.history|
  {
    var pending := Window(s.history, Max(s.acked, after));
    pending[..BatchSize(pending, 0, 0)]
  }

  /** The second half of `poll`, after the wait: what is retained past `after`. */
  function Respond(s: Server, after: nat): Response
    requires s.acked <= |s.history| && after <= |s.history|
  {
    var batch := Batch(s, after);
    var last := if batch == [] then after else batch[|batch| - 1].number;
    Response(batch, s.closed && last == |s.history|)
  }

  /** `send`, where the write to ttyd may fail half-way. */
  function Type(s: Server, number: int, msg: Msg, written: bool): (Server, Outcome<()>) {
    if number < 1 then (s, Refused(400))
    else if number <= |s.typed| then (s, Ok(()))
    else if number != |s.typed| + 1 then (s, Refused(409))
    else if s.closed then (s, Refused(410))
    else if written then (s.(typed := s.typed + [msg]), Ok(()))
    else (s.(closed := true), Refused(410))
  }

  /** One request's frames under consecutive numbers, up to the first refusal. */
  function TypeAll(s: Server, number: int, msgs: seq<Msg>, writes: seq<bool>): (Server, Outcome<()>)
    requires |writes| == |msgs|
    decreases |msgs|
  {
    if msgs == [] then (s, Ok(()))
    else
      var (next, r) := Type(s, number, msgs[0], writes[0]);
      if r.Refused? then (next, r) else TypeAll(next, number + 1, msgs[1..], writes[1..])
  }

  // ---- Facts about the window -------------------------------------------------

  lemma {:induction false} TotalAppend(a: seq<Frame>, b: seq<Frame>)
    ensures Total(a + b) == Total(a) + Total(b)
  {
    if a == [] {
      assert a + b == b;
    } else {
      assert (a + b)[1..] == a[1..] + b;
      TotalAppend(a[1..], b);
    }
  }

  lemma WindowGrows(history: seq<Msg>, from: nat, msg: Msg)
    requires from <= |history|
    ensures Window(history + [msg], from) == Window(history, from) + [Frame(|history| + 1, msg)]
    ensures Total(Window(history + [msg], from)) == Total(Window(history, from)) + |msg.data|
  {
    TotalAppend(Window(history, from), [Frame(|history| + 1, msg)]);
  }

  lemma WindowShrinks(history: seq<Msg>, from: nat, to: nat)
    requires from <= to <= |history|
    ensures Window(history, to) == Window(history, from)[to - from..]
    ensures Total(Window(history, to)) <= Total(Window(history, from))
  {
    var w := Window(history, from);
    TotalAppend(w[..to - from], w[to - from..]);
    assert w == w[..to - from] + w[to - from..];
  }

  // ---- What a response carries ------------------------------------------------

  /** The batch is full: it has 128 frames, or their payloads reach MAX_FRAME bytes. */
  predicate Full(batch: seq<Frame>) { |batch| >= MAX_BATCH || Total(batch) >= MAX_FRAME }

  lemma {:induction false} TotalOne(frames: seq<Frame>, n: nat)
    requires n < |frames|
    ensures Total(frames[..n + 1]) == Total(frames[..n]) + |frames[n].msg.data|
  {
    assert frames[..n + 1] == frames[..n] + [frames[n]];
    TotalAppend(frames[..n], [frames[n]]);
  }

  lemma {:induction false} BatchFills(frames: seq<Frame>, done: nat)
    requires done <= |frames| && forall k | 0 <= k <= done :: !Full(frames[..k])
    ensures var n := done + BatchSize(frames[done..], Total(frames[..done]), done);
            && n <= |frames| && (n == |frames| || Full(frames[..n]))
            && (forall k | 0 <= k < n :: !Full(frames[..k]))
    decreases |frames| - done
  {
    if done < |frames| {
      TotalOne(frames, done);
      assert frames[done..][1..] == frames[done + 1..];
      if !Full(frames[..done + 1]) { BatchFills(frames, done + 1); }
    } else {
      assert frames[..done] == frames;
    }
  }

  /** A response carries what is waiting up to where the batch is first full, or all of it. */
  lemma BatchExact(s: Server, after: nat)
    requires s.acked <= after <= |s.history|
    ensures var batch, waiting := Respond(s, after).frames, Window(s.history, after);
            && batch <= waiting && (batch == waiting || Full(batch))
            && (forall k | 0 <= k < |batch| :: !Full(batch[..k]))
  {
    var waiting := Window(s.history, after);
    assert waiting[0..] == waiting && waiting[..0] == [];
    BatchFills(waiting, 0);
    var batch := Respond(s, after).frames;
    hide BatchSize, Full;
    forall k | 0 <= k < |batch| ensures !Full(batch[..k]) {
      assert batch[..k] == waiting[..k];
    }
  }

  /** An acknowledgement is accepted for every number up to the newest message, and counts if it is news. */
  lemma AckExact(s: Server, after: int)
    requires s.acked <= |s.history|
    ensures AckRequest(s, after) == if 0 <= after <= |s.history| then Ok(s.(acked := Max(s.acked, after))) else Refused(409)
  {
  }

  /** A poll must not ask behind what was acknowledged. */
  lemma PollExact(s: Server, after: int, acknowledge: bool)
    ensures Acknowledge(s, after, acknowledge)
            == if after < s.acked || after > |s.history| then Refused(409)
               else Ok(s.(acked := if acknowledge then after else s.acked))
  {
  }

  // ---- What a send reports ----------------------------------------------------

  /**
   A request is confirmed exactly when all its inputs are typed. It is refused with 409 exactly
   when it leaves a gap, and then changes nothing; any other refusal leaves the relay closed.
   */
  lemma {:induction false} SendTells(s: Server, number: nat, msgs: seq<Msg>, writes: seq<bool>)
    requires |writes| == |msgs| > 0 && number > 0
    ensures var (s', r) := TypeAll(s, number, msgs, writes);
            && (r.Ok? <==> number - 1 + |msgs| <= |s'.typed|)
            && (r == Refused(409) <==> number > |s.typed| + 1) && (r == Refused(409) ==> s' == s)
            && (r.Refused? && r != Refused(409) ==> r == Refused(410) && s'.closed)
    decreases |msgs|
  {
    var (next, r) := Type(s, number, msgs[0], writes[0]);
    if r.Ok? && |msgs| > 1 {
      SendTells(next, number + 1, msgs[1..], writes[1..]);
    }
  }
}
