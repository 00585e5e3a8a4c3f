/**
 The relay and an honest client over unreliable HTTP: requests and responses may be lost,
 delayed, answered out of order or delivered twice, and the relay may be closed at any time.
 */
module RelayProtocol {
  import opened WebSocket
  import opened RelaySpec

  /** A response on its way; its frames are those after number `base`. */
  datatype Reply = Reply(base: nat, response: Response)

  /** A streaming response: its lines arrive in order, as far as the connection lasts. */
  datatype Stream = Stream(start: nat, after: nat, lines: seq<Reply>, arrived: nat)

  datatype Client = Client(cursor: nat, output: seq<Msg>, finished: bool)

  datatype System = System(
    server: Server, client: Client, polls: set<nat>, replies: seq<Reply>, streams: seq<Stream>,
    keys: seq<Msg>,                     // the client's inputs, in the order of their numbers
    writing: bool)                      // a send has passed its checks and holds the write lock

  datatype Event =
    | Upstream(msg: Msg)                // ttyd sends a message
    | Close                             // anyone closes the relay
    | Poll(after: nat)                  // a poll request arrives
    | Answer(after: nat)                // a waiting poll is answered
    | Ack(after: nat)
    | OpenStream(after: nat)
    | WriteLine(stream: nat)            // the server writes the next line of a stream
    | Deliver(reply: nat)               // a poll's response reaches the client, perhaps again
    | DeliverLine(stream: nat)          // the next line of a stream reaches the client
    | Press(msg: Msg)                   // the client numbers its next input
    | Send(number: nat, writes: seq<bool>)  // a request with |writes| inputs, for the first or nth time
    | Check                             // a send of the next input passes its checks
    | Written(ok: bool)                 // and writes it, perhaps after a close, which takes no write lock
    | PongFails                         // a pong is cut off: its thread gives up the lock and closes only then

  const START := System(Server([], 0, false, []), Client(0, [], false), {}, [], [], [], false)

  // ---- The client ---------------------------------------------------------------

  /** `_deliver`: skip what is known, take the rest, remember the last number. */
  function Take(c: Client, frames: seq<Frame>): Client
    decreases |frames|
  {
    if frames == [] then c
    else if frames[0].number <= c.cursor then Take(c, frames[1..])
    else Take(c.(cursor := frames[0].number, output := c.output + [frames[0].msg]), frames[1..])
  }

  function Receive(c: Client, r: Response): Client {
    if c.finished then c else
      var c' := Take(c, r.frames);
      c'.(finished := r.closed)
  }

  // ---- Steps --------------------------------------------------------------------

  function LastNumber(r: Reply): nat { r.base + |r.response.frames| }

  function MakeReply(s: Server, after: nat): Reply
    requires s.acked <= |s.history| && after <= |s.history|
  {
    Reply(Max(s.acked, after), Respond(s, after))
  }

  /** An honest client asks only after what it has; any other request is not made. */
  function Step(sys: System, e: Event): System {
    var s, c := sys.server, sys.client;
    match e
    case Upstream(msg) => if ValidServer(s) then sys.(server := Enqueue(s, msg)) else sys
    case Close => sys.(server := s.(closed := true))
    case Poll(after) =>
      if after > c.cursor then sys
      else (match Acknowledge(s, after, true)
            case Refused(_) => sys
            case Ok(s') => sys.(server := s', polls := sys.polls + {after}))
    case Answer(after) =>
      if after !in sys.polls || !(s.acked <= |s.history| && after <= |s.history|) then sys
      else sys.(polls := sys.polls - {after}, replies := sys.replies + [MakeReply(s, after)])
    case Ack(after) =>
      if after > c.cursor then sys
      else (match AckRequest(s, after)
            case Refused(_) => sys
            case Ok(s') => sys.(server := s'))
    case OpenStream(after) =>
      if after > c.cursor then sys
      else (match Acknowledge(s, after, true)
            case Refused(_) => sys
            case Ok(s') => sys.(server := s', streams := sys.streams + [Stream(after, after, [], 0)]))
    case WriteLine(i) =>
      if i >= |sys.streams| || !(s.acked <= |s.history| && sys.streams[i].after <= |s.history|) then sys
      else
        var t := sys.streams[i];
        var line := MakeReply(s, t.after);
        var after := if line.response.frames == [] then t.after else LastNumber(line);
        sys.(streams := sys.streams[i := t.(lines := t.lines + [line], after := after)])
    case Deliver(i) =>
      if i >= |sys.replies| then sys
      else sys.(client := Receive(c, sys.replies[i].response))
    case DeliverLine(i) =>
      if i >= |sys.streams| || sys.streams[i].arrived >= |sys.streams[i].lines| || c.finished then sys
      else
        var t := sys.streams[i];
        sys.(client := Receive(c, t.lines[t.arrived].response),
             streams := sys.streams[i := t.(arrived := t.arrived + 1)])
    case Press(msg) => sys.(keys := sys.keys + [msg])
    case Send(number, writes) =>
      if sys.writing || number == 0 || number - 1 + |writes| > |sys.keys| then sys
      else sys.(server := TypeAll(s, number, sys.keys[number - 1..number - 1 + |writes|], writes).0)
    case Check =>
      if s.closed || |s.typed| >= |sys.keys| then sys else sys.(writing := true)
    case Written(ok) =>
      if !sys.writing || |s.typed| >= |sys.keys| then sys
      else sys.(writing := false,
                server := if ok then s.(typed := s.typed + [sys.keys[|s.typed|]]) else s.(closed := true))
    case PongFails => sys
  }

  function RunAll(sys: System, events: seq<Event>): System
    decreases |events|
  {
    if events == [] then sys else RunAll(Step(sys, events[0]), events[1..])
  }

  // ---- The invariant ------------------------------------------------------------

  /** A response carries consecutive messages of the history, and tells the truth about the end. */
  ghost predicate Truthful(r: Reply, s: Server) {
    && LastNumber(r) <= |s.history|
    && (forall i | 0 <= i < |r.response.frames| ::
          r.response.frames[i] == Frame(r.base + 1 + i, s.history[r.base + i]))
    && (r.response.closed ==> s.closed && LastNumber(r) == |s.history|)
  }

  /** The client has, or gets from the lines before `k`, everything line `k` builds on. */
  function Reach(t: Stream, k: nat): nat
    requires k <= |t.lines|
  {
    if k == 0 then t.start else LastNumber(t.lines[k - 1])
  }

  ghost predicate GoodLine(t: Stream, k: nat, s: Server, c: Client)
    requires k < |t.lines|
  {
    Truthful(t.lines[k], s) && t.lines[k].base <= Max(c.cursor, Reach(t, k))
  }

  ghost predicate GoodStream(t: Stream, s: Server, c: Client) {
    && t.start <= c.cursor && t.arrived <= |t.lines|
    && t.after <= |s.history| && t.after <= Max(c.cursor, Reach(t, |t.lines|))
    && (forall k: nat | k < |t.lines| :: GoodLine(t, k, s, c))
    && (t.arrived > 0 ==> LastNumber(t.lines[t.arrived - 1]) <= c.cursor)
  }

  ghost predicate GoodClient(s: Server, c: Client) {
    && s.acked <= c.cursor <= |s.history| && c.output == s.history[..c.cursor]
    && (c.finished ==> s.closed && c.cursor == |s.history|)
  }

  ghost predicate Inv(sys: System) {
    && ValidServer(sys.server) && GoodClient(sys.server, sys.client)
    && sys.server.typed <= sys.keys && (sys.writing ==> |sys.server.typed| < |sys.keys|)
    && (forall a | a in sys.polls :: a <= sys.client.cursor)
    && (forall i | 0 <= i < |sys.replies| ::
          Truthful(sys.replies[i], sys.server) && sys.replies[i].base <= sys.client.cursor)
    && (forall i | 0 <= i < |sys.streams| :: GoodStream(sys.streams[i], sys.server, sys.client))
  }

  lemma ReplyTruthful(s: Server, after: nat)
    requires ValidServer(s) && after <= |s.history|
    ensures Truthful(MakeReply(s, after), s)
  {
  }

  /** A server that moved on keeps what it said true. */
  ghost predicate Extends(s: Server, s': Server) {
    && s.history <= s'.history && s.acked <= s'.acked
    && (s.closed ==> s'.closed && s'.history == s.history)
  }

  lemma TruthfulLater(r: Reply, s: Server, s': Server)
    requires Truthful(r, s) && Extends(s, s')
    ensures Truthful(r, s')
  {
  }

  /** Delivering a truthful response whose base the client has reached leaves no gap. */
  lemma {:induction false} TakeConsecutive(c: Client, frames: seq<Frame>, base: nat, history: seq<Msg>)
    requires base <= c.cursor <= |history| && c.output == history[..c.cursor]
    requires base + |frames| <= |history|
    requires forall i | 0 <= i < |frames| :: frames[i] == Frame(base + 1 + i, history[base + i])
    ensures var c' := Take(c, frames);
            c'.cursor == Max(c.cursor, base + |frames|) && c'.output == history[..c'.cursor]
    decreases |frames|
  {
    if frames != [] {
      var c1 := if base + 1 <= c.cursor then c else Client(base + 1, c.output + [history[base]], c.finished);
      TakeConsecutive(c1, frames[1..], base + 1, history);
    }
  }

  lemma ReceiveGood(s: Server, c: Client, r: Reply)
    requires GoodClient(s, c) && Truthful(r, s) && r.base <= c.cursor
    ensures var c' := Receive(c, r.response);
            && GoodClient(s, c') && c.cursor <= c'.cursor
            && (!c.finished ==> c'.cursor == Max(c.cursor, LastNumber(r)) && c'.finished == r.response.closed)
  {
    TakeConsecutive(c, r.response.frames, r.base, s.history);
  }

  lemma ServerStepKeeps(sys: System, s': Server)
    requires Inv(sys) && ValidServer(s') && Extends(sys.server, s') && s'.acked <= sys.client.cursor
    requires s'.typed <= sys.keys && (sys.writing ==> s'.typed == sys.server.typed)
    ensures Inv(sys.(server := s'))
  {
    forall i | 0 <= i < |sys.replies| ensures Truthful(sys.replies[i], s') {
      TruthfulLater(sys.replies[i], sys.server, s');
    }
    forall i | 0 <= i < |sys.streams| ensures GoodStream(sys.streams[i], s', sys.client) {
      var t := sys.streams[i];
      forall k: nat | k < |t.lines| ensures GoodLine(t, k, s', sys.client) {
        assert GoodLine(t, k, sys.server, sys.client);
        TruthfulLater(t.lines[k], sys.server, s');
      }
    }
  }

  lemma EnqueueKeeps(s: Server, msg: Msg)
    requires ValidServer(s)
    ensures ValidServer(Enqueue(s, msg)) && Extends(s, Enqueue(s, msg))
  {
    WindowGrows(s.history, s.acked, msg);
  }

  lemma AcknowledgeKeeps(s: Server, after: int)
    requires ValidServer(s) && Acknowledge(s, after, true).Ok?
    ensures var s' := Acknowledge(s, after, true).value;
            ValidServer(s') && Extends(s, s') && s'.acked == after && s'.typed == s.typed
  {
    WindowShrinks(s.history, s.acked, after);
  }

  /** Inputs are typed in order, each once: a request adds at most the next inputs it carries. */
  lemma {:induction false} TypeAllKeeps(s: Server, number: nat, msgs: seq<Msg>, writes: seq<bool>, keys: seq<Msg>)
    requires |writes| == |msgs| && number > 0 && number - 1 + |msgs| <= |keys|
    requires msgs == keys[number - 1..number - 1 + |msgs|] && s.typed <= keys
    ensures var s' := TypeAll(s, number, msgs, writes).0;
            && s.typed <= s'.typed <= keys
            && s'.history == s.history && s'.acked == s.acked && (s.closed ==> s' == s)
    decreases |msgs|
  {
    if msgs != [] {
      var (next, r) := Type(s, number, msgs[0], writes[0]);
      assert msgs[1..] == keys[number..number + |msgs| - 1];
      if r.Ok? {
        TypeAllKeeps(next, number + 1, msgs[1..], writes[1..], keys);
      }
    }
  }

  lemma StreamsLater(sys: System, c: Client)
    requires Inv(sys) && sys.client.cursor <= c.cursor
    ensures forall i | 0 <= i < |sys.streams| :: GoodStream(sys.streams[i], sys.server, c)
  {
    forall i | 0 <= i < |sys.streams| ensures GoodStream(sys.streams[i], sys.server, c) {
      var t := sys.streams[i];
      assert GoodStream(t, sys.server, sys.client);
      forall k: nat | k < |t.lines| ensures GoodLine(t, k, sys.server, c) {
        assert GoodLine(t, k, sys.server, sys.client);
      }
    }
  }

  lemma LineAdded(t: Stream, s: Server, c: Client, line: Reply)
    requires GoodStream(t, s, c) && Truthful(line, s) && LastNumber(line) <= |s.history|
    requires line.base <= Max(c.cursor, Reach(t, |t.lines|))
    ensures var after := if line.response.frames == [] then t.after else LastNumber(line);
            t.after <= LastNumber(line) || t.after <= c.cursor ==>
              GoodStream(t.(lines := t.lines + [line], after := after), s, c)
  {
    hide Truthful;
    var after := if line.response.frames == [] then t.after else LastNumber(line);
    var t' := t.(lines := t.lines + [line], after := after);
    forall k: nat | k < |t'.lines| ensures GoodLine(t', k, s, c) {
      if k < |t.lines| {
        assert GoodLine(t, k, s, c);
      }
    }
    assert Reach(t', |t'.lines|) == LastNumber(line);
  }

  lemma WriteLineKeeps(t: Stream, s: Server, c: Client)
    requires GoodStream(t, s, c) && ValidServer(s) && GoodClient(s, c)
    ensures var line := MakeReply(s, t.after);
            var after := if line.response.frames == [] then t.after else LastNumber(line);
            GoodStream(t.(lines := t.lines + [line], after := after), s, c)
  {
    ReplyTruthful(s, t.after);
    hide Respond, Truthful;
    LineAdded(t, s, c, MakeReply(s, t.after));
  }

  lemma UpstreamKeeps(sys: System, e: Event)
    requires Inv(sys) && (e.Upstream? || e.Close?)
    ensures Inv(Step(sys, e))
  {
    if e.Upstream? {
      EnqueueKeeps(sys.server, e.msg);
      ServerStepKeeps(sys, Enqueue(sys.server, e.msg));
    } else {
      ServerStepKeeps(sys, sys.server.(closed := true));
    }
  }

  lemma RequestKeeps(sys: System, e: Event)
    requires Inv(sys) && (e.Poll? || e.Ack? || e.OpenStream?)
    ensures Inv(Step(sys, e))
  {
    var s := sys.server;
    var after := if e.Ack? && e.after < s.acked then s.acked else e.after;
    if Acknowledge(s, after, true).Ok? && after <= sys.client.cursor {
      AcknowledgeKeeps(s, after);
      ServerStepKeeps(sys, Acknowledge(s, after, true).value);
      hide Truthful, ValidServer;
    }
  }

  lemma AnswerKeeps(sys: System, after: nat)
    requires Inv(sys)
    ensures Inv(Step(sys, Answer(after)))
  {
    if after in sys.polls {
      ReplyTruthful(sys.server, after);
      hide Truthful, GoodStream;
    }
  }

  lemma LineKeeps(sys: System, i: nat)
    requires Inv(sys) && i < |sys.streams|
    ensures Inv(Step(sys, WriteLine(i)))
  {
    WriteLineKeeps(sys.streams[i], sys.server, sys.client);
    hide Truthful, GoodStream;
  }

  lemma DeliverKeeps(sys: System, i: nat)
    requires Inv(sys) && i < |sys.replies|
    ensures Inv(Step(sys, Deliver(i)))
  {
    ReceiveGood(sys.server, sys.client, sys.replies[i]);
    StreamsLater(sys, Receive(sys.client, sys.replies[i].response));
    hide Truthful, GoodStream, Receive;
  }

  lemma LineArrives(t: Stream, s: Server, c: Client)
    requires GoodStream(t, s, c) && GoodClient(s, c) && t.arrived < |t.lines| && !c.finished
    ensures var c' := Receive(c, t.lines[t.arrived].response);
            && GoodClient(s, c') && c.cursor <= c'.cursor
            && GoodStream(t.(arrived := t.arrived + 1), s, c')
  {
    var line := t.lines[t.arrived];
    assert GoodLine(t, t.arrived, s, c) && Reach(t, t.arrived) <= c.cursor;
    ReceiveGood(s, c, line);
    var t', c' := t.(arrived := t.arrived + 1), Receive(c, line.response);
    forall k: nat | k < |t'.lines| ensures GoodLine(t', k, s, c') {
      assert GoodLine(t, k, s, c);
    }
  }

  lemma DeliverLineKeeps(sys: System, i: nat)
    requires Inv(sys) && !sys.client.finished
    requires i < |sys.streams| && 0 <= sys.streams[i].arrived < |sys.streams[i].lines|
    ensures Inv(Step(sys, DeliverLine(i)))
  {
    hide Truthful, GoodStream, Receive, ValidServer;
    var t := sys.streams[i];
    LineArrives(t, sys.server, sys.client);
    var c := Receive(sys.client, t.lines[t.arrived].response);
    StreamsLater(sys, c);
    var streams := sys.streams[i := t.(arrived := t.arrived + 1)];
    assert forall k | 0 <= k < |streams| :: GoodStream(streams[k], sys.server, c);
    assert Step(sys, DeliverLine(i)) == sys.(client := c, streams := streams);
  }

  lemma WrittenKeeps(sys: System, ok: bool)
    requires Inv(sys)
    ensures Inv(Step(sys, Written(ok)))
  {
    if sys.writing {
      var s, free := sys.server, sys.(writing := false);
      ServerStepKeeps(free, if ok then s.(typed := s.typed + [sys.keys[|s.typed|]]) else s.(closed := true));
    }
  }

  lemma SendKeeps(sys: System, number: nat, writes: seq<bool>)
    requires Inv(sys) && !sys.writing && number > 0 && number - 1 + |writes| <= |sys.keys|
    ensures Inv(Step(sys, Send(number, writes)))
  {
    var msgs := sys.keys[number - 1..number - 1 + |writes|];
    TypeAllKeeps(sys.server, number, msgs, writes, sys.keys);
    ServerStepKeeps(sys, TypeAll(sys.server, number, msgs, writes).0);
  }

  lemma StepKeeps(sys: System, e: Event)
    requires Inv(sys)
    ensures Inv(Step(sys, e))
  {
    match e
    case Upstream(_) => UpstreamKeeps(sys, e);
    case Close => UpstreamKeeps(sys, e);
    case Poll(_) => RequestKeeps(sys, e);
    case Ack(_) => RequestKeeps(sys, e);
    case OpenStream(_) => RequestKeeps(sys, e);
    case Answer(after) => AnswerKeeps(sys, after);
    case WriteLine(i) =>
      if i < |sys.streams| { LineKeeps(sys, i); }
    case Deliver(i) =>
      if i < |sys.replies| { DeliverKeeps(sys, i); }
    case DeliverLine(i) =>
      if i < |sys.streams| && sys.streams[i].arrived < |sys.streams[i].lines| && !sys.client.finished {
        DeliverLineKeeps(sys, i);
      }
    case Press(_) =>
    case Send(number, writes) =>
      if !sys.writing && number > 0 && number - 1 + |writes| <= |sys.keys| { SendKeeps(sys, number, writes); }
    case Check =>
    case Written(ok) => WrittenKeeps(sys, ok);
    case PongFails =>
  }

  lemma {:induction false} RunKeeps(sys: System, events: seq<Event>)
    requires Inv(sys)
    ensures Inv(RunAll(sys, events))
    decreases |events|
  {
    hide Step, Inv;
    if events != [] {
      StepKeeps(sys, events[0]);
      RunKeeps(Step(sys, events[0]), events[1..]);
    }
  }

  /** The message of this number can still be asked for. */
  ghost predicate Retained(s: Server, n: nat) {
    && s.acked <= |s.history| && 0 < n <= |s.history|
    && Frame(n, s.history[n - 1]) in Window(s.history, s.acked)
  }

  // ---- The promises -------------------------------------------------------------

  /**
   Output delivery: after any events, the client's output is the first `cursor` messages of what
   ttyd sent, without a gap or a repetition, and everything past the cursor is still retained.
   */
  lemma OutputDelivery(events: seq<Event>)
    ensures var sys := RunAll(START, events);
            var s, c := sys.server, sys.client;
            && c.cursor <= |s.history| && c.output == s.history[..c.cursor]
            && s.acked <= |s.history|
            && (forall n: nat | c.cursor < n <= |s.history| :: Retained(s, n))
  {
    RunKeeps(START, events);
    var s := RunAll(START, events).server;
    forall n: nat | s.acked < n <= |s.history| ensures Retained(s, n) {
      assert Window(s.history, s.acked)[n - 1 - s.acked] == Frame(n, s.history[n - 1]);
    }
  }

  /** The buffer: what is retained never exceeds its bound. */
  lemma BoundedBuffer(events: seq<Event>)
    ensures var s := RunAll(START, events).server;
            s.acked <= |s.history| && Total(Window(s.history, s.acked)) <= MAX_BUFFER
  {
    RunKeeps(START, events);
  }

  /** Nothing new was queued, and at most the input that was being written when the relay closed was typed. */
  ghost predicate Final(sys: System, later: System) {
    && later.server.closed && later.server.history == sys.server.history
    && (later.server.typed == sys.server.typed
        || (sys.writing && |sys.server.typed| < |sys.keys|
            && later.server.typed == sys.server.typed + [sys.keys[|sys.server.typed|]] && !later.writing))
    && sys.keys <= later.keys && (later.writing ==> sys.writing)
  }

  lemma StepFinal(sys: System, e: Event)
    requires Inv(sys) && sys.server.closed
    ensures Final(sys, Step(sys, e))
  {
    if e.Send? && e.number > 0 && e.number - 1 + |e.writes| <= |sys.keys| {
      TypeAllKeeps(sys.server, e.number, sys.keys[e.number - 1..e.number - 1 + |e.writes|], e.writes, sys.keys);
    }
  }

  /** From a close on nothing more is queued, and nothing typed but an input that was already being written. */
  lemma {:induction false} ClosedIsFinal(sys: System, events: seq<Event>)
    requires Inv(sys) && sys.server.closed
    ensures Final(sys, RunAll(sys, events))
    decreases |events|
  {
    if events != [] {
      StepKeeps(sys, events[0]);
      StepFinal(sys, events[0]);
      hide Step, Inv;
      ClosedIsFinal(Step(sys, events[0]), events[1..]);
    }
  }

  /** An honest close: a client told so holds every message ever queued, then and later. */
  lemma HonestClose(events: seq<Event>, later: seq<Event>)
    requires RunAll(START, events).client.finished
    ensures RunAll(RunAll(START, events), later).server.history == RunAll(START, events).client.output
  {
    RunKeeps(START, events);
    ClosedIsFinal(RunAll(START, events), later);
  }

  /** The inputs completely written to ttyd are the client's first ones, in order, once each. */
  lemma ExactlyOnceInput(events: seq<Event>)
    ensures var sys := RunAll(START, events);
            |sys.server.typed| <= |sys.keys| && sys.server.typed == sys.keys[..|sys.server.typed|]
  {
    RunKeeps(START, events);
  }

  /** From `skip` on, `m` writes succeed and the next one fails. */
  predicate FailsAfter(writes: seq<bool>, skip: nat, m: nat) {
    skip + m < |writes| && !writes[skip + m] && forall i | skip <= i < skip + m :: writes[i]
  }

  /** Of a request that overlaps what is typed already, only the new inputs are written. */
  lemma {:induction false} TypeOverlap(s: Server, number: nat, msgs: seq<Msg>, writes: seq<bool>, m: nat)
    requires !s.closed && |writes| == |msgs| && 1 <= number <= |s.typed| + 1
    requires FailsAfter(writes, |s.typed| + 1 - number, m)
    ensures var skip := |s.typed| + 1 - number;
            var s' := TypeAll(s, number, msgs, writes).0;
            s'.closed && s'.typed == s.typed + msgs[skip..skip + m]
    decreases |msgs|
  {
    var (next, r) := Type(s, number, msgs[0], writes[0]);
    var skip := |s.typed| + 1 - number;
    if skip > 0 {
      TypeOverlap(s, number + 1, msgs[1..], writes[1..], m);
      assert msgs[1..][skip - 1..skip - 1 + m] == msgs[skip..skip + m];
    } else if m > 0 {
      TypeOverlap(next, number + 1, msgs[1..], writes[1..], m - 1);
      assert s.typed + msgs[..m] == (s.typed + [msgs[0]]) + msgs[1..][..m - 1];
    }
  }

  /** A request that fails part-way closes the relay with the inputs before the failure typed. */
  lemma FailedSend(sys: System, number: nat, writes: seq<bool>, m: nat)
    requires Inv(sys) && !sys.server.closed && !sys.writing
    requires 1 <= number <= |sys.server.typed| + 1 && number - 1 + |writes| <= |sys.keys|
    requires FailsAfter(writes, |sys.server.typed| + 1 - number, m)
    ensures var sys' := Step(sys, Send(number, writes));
            sys'.server.closed && !sys'.writing && sys'.server.typed == sys.keys[..|sys.server.typed| + m]
  {
    hide TypeAll;
    var typed, msgs := sys.server.typed, sys.keys[number - 1..number - 1 + |writes|];
    TypeOverlap(sys.server, number, msgs, writes, m);
    var skip := |typed| + 1 - number;
    assert msgs[skip..skip + m] == sys.keys[|typed|..|typed| + m];
  }

  /**
   After an ambiguous write failure nothing further is written: the request whose next new
   input after `m` others fails leaves exactly those `m` typed, whatever happens then.
   */
  lemma NoInputAfterFailure(sys: System, number: nat, writes: seq<bool>, m: nat, later: seq<Event>)
    requires Inv(sys) && !sys.server.closed && !sys.writing
    requires 1 <= number <= |sys.server.typed| + 1 && number - 1 + |writes| <= |sys.keys|
    requires FailsAfter(writes, |sys.server.typed| + 1 - number, m)
    ensures var typed := sys.server.typed;
            RunAll(Step(sys, Send(number, writes)), later).server.typed == sys.keys[..|typed| + m]
  {
    FailedSend(sys, number, writes, m);
    StepKeeps(sys, Send(number, writes));
    hide Step, Inv;
    ClosedIsFinal(Step(sys, Send(number, writes)), later);
  }

  /** So it is for an input that is written on its own: when it fails, nothing further is ever typed. */
  lemma NoInputAfterFailedWrite(sys: System, later: seq<Event>)
    requires Inv(sys) && sys.writing
    ensures RunAll(Step(sys, Written(false)), later).server.typed == sys.server.typed
  {
    StepKeeps(sys, Written(false));
    ClosedIsFinal(Step(sys, Written(false)), later);
  }

  lemma OpenTypesMore(sys: System) returns (events: seq<Event>)
    requires !sys.server.closed && !sys.writing && |sys.server.typed| <= |sys.keys|
    ensures RunAll(sys, events).server.typed != sys.server.typed
  {
    var sys1 := Step(sys, Press(Msg(1, [])));
    var sys2 := Step(sys1, Check);
    var sys3 := Step(sys2, Written(true));
    assert |sys3.server.typed| == |sys.server.typed| + 1;
    hide Step;
    events := [Press(Msg(1, []))] + ([Check] + ([Written(true)] + []));
    RunCons(sys, Press(Msg(1, [])), [Check] + ([Written(true)] + []));
    RunCons(sys1, Check, [Written(true)] + []);
    RunCons(sys2, Written(true), []);
  }

  /**
   A pong that fails is different, because its thread gives up the write lock before it closes the relay:
   nothing is typed after it in any continuation if and only if the relay was closed already.
   */
  lemma FailedPongExact(sys: System)
    requires Inv(sys) && !sys.writing
    ensures (forall later: seq<Event> :: RunAll(Step(sys, PongFails), later).server.typed == sys.server.typed)
            <==> sys.server.closed
  {
    if sys.server.closed {
      forall later: seq<Event> ensures RunAll(Step(sys, PongFails), later).server.typed == sys.server.typed {
        ClosedIsFinal(sys, later);
      }
    } else {
      var more := OpenTypesMore(sys);
      assert Step(sys, PongFails) == sys;
    }
  }

  lemma PollStep(sys: System)
    requires Inv(sys)
    ensures var after := sys.client.cursor;
            var sys1 := Step(sys, Poll(after));
            && after in sys1.polls && sys1.server == sys.server.(acked := after)
            && sys1.client == sys.client && sys1.replies == sys.replies
  {
  }

  lemma AnswerStep(sys: System, after: nat)
    requires after in sys.polls && after <= |sys.server.history| && sys.server.acked == after
    ensures var sys2 := Step(sys, Answer(after));
            && sys2.server == sys.server && sys2.client == sys.client
            && sys2.replies == sys.replies + [MakeReply(sys.server, after)]
  {
  }

  /** There is something to answer with. */
  lemma ReplyBrings(s: Server, after: nat)
    requires s.acked == after < |s.history|
    ensures var reply := MakeReply(s, after); reply.base == after && reply.response.frames != []
  {
    hide BatchSize;
  }

  /** A waiting poll at the client's cursor brings at least one message when there is one. */
  lemma PollRound(sys: System)
    requires Inv(sys) && !sys.client.finished && sys.client.cursor < |sys.server.history|
    ensures var after := sys.client.cursor;
            var sys' := Step(Step(Step(sys, Poll(after)), Answer(after)), Deliver(|sys.replies|));
            && Inv(sys') && sys'.client.cursor > after
            && sys'.server == sys.server.(acked := after)
  {
    var after := sys.client.cursor;
    var sys1 := Step(sys, Poll(after));
    var sys2 := Step(sys1, Answer(after));
    PollStep(sys);
    AnswerStep(sys1, after);
    StepKeeps(sys, Poll(after));
    StepKeeps(sys1, Answer(after));
    StepKeeps(sys2, Deliver(|sys.replies|));
    ReplyBrings(sys1.server, after);
    DeliverLast(sys2, sys.replies, MakeReply(sys1.server, after));
    hide Step, Inv;
  }

  /** The newest reply, once delivered, moves the client on past what it builds on. */
  lemma DeliverLast(sys: System, earlier: seq<Reply>, reply: Reply)
    requires Inv(sys) && !sys.client.finished && sys.replies == earlier + [reply]
    requires reply.base == sys.client.cursor && reply.response.frames != []
    ensures var sys' := Step(sys, Deliver(|earlier|));
            sys'.client.cursor > sys.client.cursor && sys'.server == sys.server
  {
    assert sys.replies[|earlier|] == reply;
    ReceiveGood(sys.server, sys.client, reply);
    hide Receive, Truthful, GoodStream;
  }

  /** Client requests only: what an honest client can do on its own. */
  predicate FromClient(e: Event) { e.Poll? || e.Answer? || e.Deliver? || e.Ack? }

  /** The client alone can bring itself up to date, and nothing else changes. */
  lemma {:induction false} CatchUp(sys: System) returns (events: seq<Event>)
    requires Inv(sys) && !sys.client.finished
    ensures forall i | 0 <= i < |events| :: FromClient(events[i])
    ensures var sys' := RunAll(sys, events);
            && Inv(sys') && sys'.client.cursor == |sys.server.history|
            && sys'.server == sys.server.(acked := sys'.server.acked)
            && (sys'.client.finished ==> sys.server.closed)
    decreases |sys.server.history| - sys.client.cursor
  {
    var after := sys.client.cursor;
    if after == |sys.server.history| {
      events := [];
    } else {
      var e1, e2, e3 := Poll(after), Answer(after), Deliver(|sys.replies|);
      PollRound(sys);
      var sys1 := Step(sys, e1);
      var sys2 := Step(sys1, e2);
      var sys3 := Step(sys2, e3);
      hide Step;
      var more := [];
      if !sys3.client.finished { more := CatchUp(sys3); }
      events := [e1] + ([e2] + ([e3] + more));
      RunCons(sys, e1, [e2] + ([e3] + more));
      RunCons(sys1, e2, [e3] + more);
      RunCons(sys2, e3, more);
    }
  }

  /** A reader blocked on a full buffer can always be released by the client's polls and acks. */
  lemma {:induction false} AcksMakeRoom(sys: System, msg: Msg) returns (events: seq<Event>)
    requires Inv(sys) && !sys.server.closed && |msg.data| <= MAX_FRAME
    ensures forall i | 0 <= i < |events| :: FromClient(events[i])
    ensures var s := RunAll(sys, events).server;
            && s == sys.server.(acked := s.acked) && s.acked <= |s.history|
            && Total(Window(s.history, s.acked)) + |msg.data| <= MAX_BUFFER
  {
    var polls := CatchUp(sys);
    var sys1 := RunAll(sys, polls);
    var ack := Ack(sys1.client.cursor);
    events := polls + [ack];
    RunAppend(sys, polls, [ack]);
    RunCons(sys1, ack, []);
    assert [ack] + [] == [ack];
    assert Window(sys1.server.history, sys1.client.cursor) == [];
  }

  lemma RunCons(sys: System, e: Event, more: seq<Event>)
    ensures RunAll(sys, [e] + more) == RunAll(Step(sys, e), more)
  {
    assert ([e] + more)[1..] == more;
  }

  lemma {:induction false} RunAppend(sys: System, a: seq<Event>, b: seq<Event>)
    ensures RunAll(sys, a + b) == RunAll(RunAll(sys, a), b)
    decreases |a|
  {
    hide Step;
    if a == [] {
      assert a + b == b;
    } else {
      assert (a + b)[1..] == a[1..] + b;
      RunAppend(Step(sys, a[0]), a[1..], b);
    }
  }

  /** An honest client's acknowledgement counts whenever it comes, and never moves the window back. */
  lemma LateAckCounts(sys: System, after: nat)
    requires Inv(sys) && after <= sys.client.cursor
    ensures Step(sys, Ack(after)) == sys.(server := sys.server.(acked := Max(sys.server.acked, after)))
  {
  }

  // ---- Everything arrives ---------------------------------------------------------

  /** A message for which there is room is queued on an open relay, and nothing else happens. */
  lemma RoomQueues(sys: System, msg: Msg)
    requires Inv(sys) && !sys.server.closed
    requires Total(Window(sys.server.history, sys.server.acked)) + |msg.data| <= MAX_BUFFER
    ensures Step(sys, Upstream(msg)) == sys.(server := sys.server.(history := sys.server.history + [msg]))
  {
  }

  /** What ttyd sends in these events. */
  function Sent(events: seq<Event>): seq<Msg>
    decreases |events|
  {
    if events == [] then []
    else (if events[0].Upstream? then [events[0].msg] else []) + Sent(events[1..])
  }

  lemma {:induction false} SentAppend(a: seq<Event>, b: seq<Event>)
    ensures Sent(a + b) == Sent(a) + Sent(b)
    decreases |a|
  {
    if a == [] {
      assert a + b == b;
    } else {
      var rest := a[1..] + b;
      assert a + b == [a[0]] + rest && (a + b)[1..] == rest;
      SentAppend(a[1..], b);
      var first := if a[0].Upstream? then [a[0].msg] else [];
      assert Sent(a + b) == first + Sent(rest);
      hide Sent;
      assert first + (Sent(a[1..]) + Sent(b)) == (first + Sent(a[1..])) + Sent(b);
    }
  }

  lemma {:induction false} ClientSendsNothing(events: seq<Event>)
    requires forall i | 0 <= i < |events| :: FromClient(events[i])
    ensures Sent(events) == []
    decreases |events|
  {
    if events != [] {
      assert FromClient(events[0]);
      ClientSendsNothing(events[1..]);
    }
  }

  /**
   From any moment on at which the relay is open, whatever ttyd sends next can reach the client: there is a
   run in which ttyd sends just these messages, the client does the rest, and has them all, in order.
   */
  lemma {:induction false} EverythingArrives(sys: System, msgs: seq<Msg>) returns (events: seq<Event>)
    requires Inv(sys) && !sys.server.closed && forall i | 0 <= i < |msgs| :: |msgs[i].data| <= MAX_FRAME
    ensures Sent(events) == msgs && forall i | 0 <= i < |events| :: events[i].Upstream? || FromClient(events[i])
    ensures var sys' := RunAll(sys, events);
            && sys'.client.output == sys'.server.history == sys.server.history + msgs
            && !sys'.server.closed && Inv(sys')
    decreases |msgs|
  {
    hide Step, Inv, FromClient;
    if msgs == [] {
      Unfinished(sys);
      events := CatchUp(sys);
      ClientSendsNothing(events);
      OutputIsHistory(RunAll(sys, events));
    } else {
      var room := AcksMakeRoom(sys, msgs[0]);
      var sys1 := RunAll(sys, room);
      var e := Upstream(msgs[0]);
      RunKeeps(sys, room);
      RoomQueues(sys1, msgs[0]);
      StepKeeps(sys1, e);
      var more := EverythingArrives(Step(sys1, e), msgs[1..]);
      events := room + ([e] + more);
      RunAppend(sys, room, [e] + more);
      RunCons(sys1, e, more);
      ClientSendsNothing(room);
      SentAppend(room, [e] + more);
      assert ([e] + more)[1..] == more;
      assert sys.server.history + msgs == (sys.server.history + [msgs[0]]) + msgs[1..];
    }
  }

  lemma Unfinished(sys: System)
    requires Inv(sys) && !sys.server.closed
    ensures !sys.client.finished
  {
  }

  lemma OutputIsHistory(sys: System)
    requires Inv(sys) && sys.client.cursor == |sys.server.history|
    ensures sys.client.output == sys.server.history
  {
  }

  /** After a close, the client's own requests bring it everything, and then tell it of the close. */
  lemma CloseIsTold(sys: System) returns (events: seq<Event>)
    requires Inv(sys) && sys.server.closed
    ensures forall i | 0 <= i < |events| :: FromClient(events[i])
    ensures var c := RunAll(sys, events).client; c.finished && c.output == sys.server.history
  {
    hide Step, Inv;
    if sys.client.finished {
      FinishedHasAll(sys);
      return [];
    }
    var polls := CatchUp(sys);
    var sys1 := RunAll(sys, polls);
    OutputIsHistory(sys1);
    if sys1.client.finished {
      return polls;
    }
    var after := sys1.client.cursor;
    var sys2 := Step(sys1, Poll(after));
    var sys3 := Step(sys2, Answer(after));
    LastRound(sys1);
    var round := [Poll(after)] + ([Answer(after)] + ([Deliver(|sys1.replies|)] + []));
    events := polls + round;
    RunAppend(sys, polls, round);
    RunCons(sys1, Poll(after), [Answer(after)] + ([Deliver(|sys1.replies|)] + []));
    RunCons(sys2, Answer(after), [Deliver(|sys1.replies|)] + []);
    RunCons(sys3, Deliver(|sys1.replies|), []);
  }

  lemma FinishedHasAll(sys: System)
    requires Inv(sys) && sys.client.finished
    ensures sys.client.output == sys.server.history
  {
  }

  /** A poll of a client that has everything is told of a close. */
  lemma LastRound(sys: System)
    requires Inv(sys) && sys.server.closed && sys.client.cursor == |sys.server.history|
    ensures var after := sys.client.cursor;
            var sys' := Step(Step(Step(sys, Poll(after)), Answer(after)), Deliver(|sys.replies|));
            sys'.client == sys.client.(finished := true)
  {
    var after := sys.client.cursor;
    var sys1 := Step(sys, Poll(after));
    PollStep(sys);
    AnswerStep(sys1, after);
    EmptyReply(sys1.server, after);
    hide MakeReply, Inv;
  }

  lemma EmptyReply(s: Server, after: nat)
    requires s.acked == after == |s.history|
    ensures MakeReply(s, after).response == Response([], s.closed)
  {
  }

  /** A stream opened at the client's cursor brings at least one message when there is one. */
  lemma StreamRound(sys: System)
    requires Inv(sys) && !sys.client.finished && sys.client.cursor < |sys.server.history|
    ensures var after, i := sys.client.cursor, |sys.streams|;
            var sys' := Step(Step(Step(sys, OpenStream(after)), WriteLine(i)), DeliverLine(i));
            sys'.client.cursor > after && sys'.server == sys.server.(acked := after)
  {
    var after, i := sys.client.cursor, |sys.streams|;
    var sys1 := Step(sys, OpenStream(after));
    var sys2 := Step(sys1, WriteLine(i));
    OpenStep(sys);
    var reply := MakeReply(sys1.server, after);
    FirstLine(sys1, i, reply);
    ReplyBrings(sys1.server, after);
    StepKeeps(sys, OpenStream(after));
    StepKeeps(sys1, WriteLine(i));
    hide Step, MakeReply, Inv;
    FirstArrives(sys2, i, reply);
  }

  lemma OpenStep(sys: System)
    requires Inv(sys)
    ensures var after := sys.client.cursor;
            var sys1 := Step(sys, OpenStream(after));
            && sys1.server == sys.server.(acked := after) && sys1.client == sys.client
            && sys1.streams == sys.streams + [Stream(after, after, [], 0)]
  {
  }

  lemma FirstArrives(sys: System, i: nat, line: Reply)
    requires Inv(sys) && !sys.client.finished && i < |sys.streams|
    requires sys.streams[i].lines == [line] && sys.streams[i].arrived == 0
    requires line.base == sys.client.cursor && line.response.frames != []
    ensures var sys' := Step(sys, DeliverLine(i));
            sys'.client.cursor > sys.client.cursor && sys'.server == sys.server
  {
    assert GoodLine(sys.streams[i], 0, sys.server, sys.client);
    ReceiveGood(sys.server, sys.client, line);
    hide Receive, Inv, Truthful, GoodStream, GoodLine;
  }

  lemma FirstLine(sys: System, i: nat, line: Reply)
    requires i < |sys.streams| && sys.streams[i].lines == [] && sys.server.acked <= |sys.server.history|
    requires sys.streams[i].after <= |sys.server.history| && line == MakeReply(sys.server, sys.streams[i].after)
    ensures var sys' := Step(sys, WriteLine(i));
            && i < |sys'.streams| && sys'.streams[i].lines == [line] && sys'.streams[i].arrived == sys.streams[i].arrived
            && sys'.server == sys.server && sys'.client == sys.client
  {
  }

  lemma {:induction false} AllTyped(s: Server, number: nat, msgs: seq<Msg>, writes: seq<bool>)
    requires |writes| == |msgs| && number == |s.typed| + 1 && !s.closed
    requires forall i | 0 <= i < |writes| :: writes[i]
    ensures TypeAll(s, number, msgs, writes).0 == s.(typed := s.typed + msgs)
    decreases |msgs|
  {
    if msgs != [] {
      AllTyped(s.(typed := s.typed + [msgs[0]]), number + 1, msgs[1..], writes[1..]);
      assert s.typed + msgs == (s.typed + [msgs[0]]) + msgs[1..];
    } else {
      assert s.typed + [] == s.typed;
    }
  }

  /** On an open relay, a request with all further inputs, whose writes succeed, types them all. */
  lemma InputArrives(sys: System)
    requires Inv(sys) && !sys.server.closed && !sys.writing
    ensures var n := |sys.server.typed|;
            && n <= |sys.keys|
            && var writes := seq(|sys.keys| - n, _ => true);
               Step(sys, Send(n + 1, writes)).server == sys.server.(typed := sys.keys)
  {
    hide TypeAll;
    var typed, keys := sys.server.typed, sys.keys;
    var n := |typed|;
    assert typed + keys[n..] == keys && keys[n..n + (|keys| - n)] == keys[n..];
    AllTyped(sys.server, n + 1, keys[n..], seq(|keys| - n, _ => true));
  }
}
