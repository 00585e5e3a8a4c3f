/** From the bytes ttyd sends to the output a client holds: the read loop and the relay together. */
module TerminalOutput {
  import opened Options
  import opened RelayProtocol
  import opened RelaySpec
  import opened WebSocket
  import R = WebSocketReader

  /** What the read loop hands to the relay, in order. */
  function Queued(effects: seq<R.Effect>): seq<Msg>
    decreases |effects|
  {
    if effects == [] then []
    else (if effects[0].Queue? then [Msg(effects[0].opcode, effects[0].payload)] else []) + Queued(effects[1..])
  }

  /** The messages themselves, whatever they were cut into. */
  function Whole(ms: seq<R.Message>): seq<Msg>
    decreases |ms|
  {
    if ms == [] then [] else [Msg(ms[0].kind, R.Text(ms[0].pieces))] + Whole(ms[1..])
  }

  lemma {:induction false} QueuedAppend(a: seq<R.Effect>, b: seq<R.Effect>)
    ensures Queued(a + b) == Queued(a) + Queued(b)
    decreases |a|
  {
    if a == [] {
      assert a + b == b;
    } else {
      var rest := a[1..] + b;
      assert a + b == [a[0]] + rest && (a + b)[1..] == rest;
      QueuedAppend(a[1..], b);
      var first := if a[0].Queue? then [Msg(a[0].opcode, a[0].payload)] else [];
      assert Queued(a + b) == first + Queued(rest);
      hide Queued;
      assert first + (Queued(a[1..]) + Queued(b)) == (first + Queued(a[1..])) + Queued(b);
    }
  }

  lemma {:induction false} AnswersQueueNothing(cs: seq<R.Control>)
    ensures Queued(R.Answers(cs)) == []
    decreases |cs|
  {
    if cs != [] {
      AnswersQueueNothing(cs[1..]);
      QueuedAppend(if cs[0].Ping? then [R.Answer(cs[0].data)] else [], R.Answers(cs[1..]));
    }
  }

  lemma {:induction false} PieceAnswersQueueNothing(ps: seq<R.Piece>)
    ensures Queued(R.PieceAnswers(ps)) == []
    decreases |ps|
  {
    if ps != [] {
      AnswersQueueNothing(ps[0].before);
      PieceAnswersQueueNothing(ps[1..]);
      QueuedAppend(R.Answers(ps[0].before), R.PieceAnswers(ps[1..]));
    }
  }

  lemma {:induction false} ExpectedQueuesWhole(ms: seq<R.Message>)
    ensures Queued(R.Expected(ms)) == Whole(ms)
    decreases |ms|
  {
    if ms != [] {
      var answers, queue := R.PieceAnswers(ms[0].pieces), [R.Queue(ms[0].kind, R.Text(ms[0].pieces))];
      ExpectedQueuesWhole(ms[1..]);
      PieceAnswersQueueNothing(ms[0].pieces);
      QueuedAppend(answers, queue);
      QueuedAppend(answers + queue, R.Expected(ms[1..]));
      assert queue[1..] == [];
    }
  }

  /** The read loop offers the relay the next of these messages, again and again while it has to wait for room. */
  predicate Feeds(sys: System, events: seq<Event>, msgs: seq<Msg>)
    decreases |events|
  {
    events == [] || (
      && (events[0].Upstream? ==> |sys.server.history| < |msgs| && events[0].msg == msgs[|sys.server.history|])
      && Feeds(Step(sys, events[0]), events[1..], msgs))
  }

  lemma {:induction false} TypingQueuesNothing(s: Server, number: nat, msgs: seq<Msg>, writes: seq<bool>)
    requires |writes| == |msgs|
    ensures TypeAll(s, number, msgs, writes).0.history == s.history
    decreases |msgs|
  {
    if msgs != [] {
      var (next, r) := Type(s, number, msgs[0], writes[0]);
      if r.Ok? { TypingQueuesNothing(next, number + 1, msgs[1..], writes[1..]); }
    }
  }

  /** The relay queues what it is offered, and nothing else. */
  lemma StepQueuesOffered(sys: System, e: Event, msgs: seq<Msg>)
    requires sys.server.history <= msgs
    requires e.Upstream? ==> |sys.server.history| < |msgs| && e.msg == msgs[|sys.server.history|]
    ensures Step(sys, e).server.history <= msgs
  {
    if e.Send? && !sys.writing && e.number > 0 && e.number - 1 + |e.writes| <= |sys.keys| {
      TypingQueuesNothing(sys.server, e.number, sys.keys[e.number - 1..e.number - 1 + |e.writes|], e.writes);
    }
    hide TypeAll, MakeReply;
  }

  lemma {:induction false} HistoryIsOffered(sys: System, events: seq<Event>, msgs: seq<Msg>)
    requires sys.server.history <= msgs && Feeds(sys, events, msgs)
    ensures RunAll(sys, events).server.history <= msgs
    decreases |events|
  {
    if events != [] {
      StepQueuesOffered(sys, events[0], msgs);
      hide Step;
      HistoryIsOffered(Step(sys, events[0]), events[1..], msgs);
    }
  }

  /**
   End to end: ttyd sends legal messages, cut and interleaved with control frames in any way, and then
   anything else. Whatever the network does, the client's output is a prefix of those messages, whole and
   in order, and of what the read loop makes of the rest; a client told that the relay is closed holds
   everything that was ever queued of them.
   */
  lemma TerminalReachesClient(ms: seq<R.Message>, rest: Octets, events: seq<Event>)
    requires forall i | 0 <= i < |ms| :: R.LegalMessage(ms[i])
    requires R.LegalWires(R.MessageWires(ms))
    requires Feeds(START, events, Queued(R.ReadFrom(R.RenderWires(R.MessageWires(ms)) + rest, R.EMPTY).effects))
    ensures var sys := RunAll(START, events);
            var all := Whole(ms) + Queued(R.ReadFrom(rest, R.EMPTY).effects);
            && sys.client.cursor <= |sys.server.history| <= |all|
            && sys.client.output == all[..sys.client.cursor]
            && (sys.client.finished ==> sys.client.cursor == |sys.server.history|)
  {
    hide Feeds, RunAll, R.ReadFrom, R.LegalMessage, R.RenderWires;
    R.MessagesRead(ms, rest);
    ExpectedQueuesWhole(ms);
    QueuedAppend(R.Expected(ms), R.ReadFrom(rest, R.EMPTY).effects);
    var all := Whole(ms) + Queued(R.ReadFrom(rest, R.EMPTY).effects);
    HistoryIsOffered(START, events, all);
    OutputDelivery(events);
    if RunAll(START, events).client.finished {
      HonestClose(events, []);
      RunNothing(RunAll(START, events));
    }
  }

  lemma RunNothing(sys: System)
    ensures RunAll(sys, []) == sys
  {
  }

  // ---- It can all arrive ------------------------------------------------------------

  /** A step queues what ttyd sends in it, or nothing. */
  lemma StepQueues(sys: System, e: Event)
    ensures var history := Step(sys, e).server.history;
            history == sys.server.history || (e.Upstream? && history == sys.server.history + [e.msg])
  {
    if e.Send? && !sys.writing && e.number > 0 && e.number - 1 + |e.writes| <= |sys.keys| {
      TypingQueuesNothing(sys.server, e.number, sys.keys[e.number - 1..e.number - 1 + |e.writes|], e.writes);
    }
    hide TypeAll, MakeReply;
  }

  lemma {:induction false} QueuesAtMost(sys: System, events: seq<Event>)
    ensures |RunAll(sys, events).server.history| <= |sys.server.history| + |Sent(events)|
    ensures sys.server.history <= RunAll(sys, events).server.history
    decreases |events|
  {
    if events != [] {
      StepQueues(sys, events[0]);
      QueuesAtMost(Step(sys, events[0]), events[1..]);
      hide Step;
    }
  }

  /** In a run that queues all that ttyd sends, the read loop only ever offers the next message. */
  lemma {:induction false} FedInOrder(sys: System, events: seq<Event>)
    requires |RunAll(sys, events).server.history| == |sys.server.history| + |Sent(events)|
    ensures Feeds(sys, events, RunAll(sys, events).server.history)
    decreases |events|
  {
    if events != [] {
      StepQueues(sys, events[0]);
      QueuesAtMost(Step(sys, events[0]), events[1..]);
      hide Step;
      FedInOrder(Step(sys, events[0]), events[1..]);
    }
  }

  lemma {:induction false} WholeFits(ms: seq<R.Message>)
    requires forall i | 0 <= i < |ms| :: R.LegalMessage(ms[i])
    ensures forall i | 0 <= i < |Whole(ms)| :: |Whole(ms)[i].data| <= MAX_FRAME
    decreases |ms|
  {
    if ms != [] {
      WholeFits(ms[1..]);
      assert R.LegalMessage(ms[0]);
    }
  }

  /** Whatever legal messages ttyd sends, there is a run in which the client gets them all. */
  lemma TerminalCanReachClient(ms: seq<R.Message>) returns (events: seq<Event>)
    requires forall i | 0 <= i < |ms| :: R.LegalMessage(ms[i])
    ensures R.LegalWires(R.MessageWires(ms))
    ensures Feeds(START, events, Queued(R.ReadFrom(R.RenderWires(R.MessageWires(ms)), R.EMPTY).effects))
    ensures RunAll(START, events).client.output == Whole(ms)
  {
    hide Feeds, RunAll, R.LegalMessage, R.RenderWires, R.LegalWires, R.ReadFrom, R.Expected, Queued, Inv;
    OfferedWhole(ms);
    WholeFits(ms);
    StartInv();
    hide Whole;
    events := EverythingArrives(START, Whole(ms));
    assert START.server.history + Whole(ms) == Whole(ms);
    FedInOrder(START, events);
  }

  lemma StartInv()
    ensures Inv(START)
  {
  }

  /** Of the messages alone, the read loop offers just the messages. */
  lemma OfferedWhole(ms: seq<R.Message>)
    requires forall i | 0 <= i < |ms| :: R.LegalMessage(ms[i])
    ensures R.LegalWires(R.MessageWires(ms))
    ensures Queued(R.ReadFrom(R.RenderWires(R.MessageWires(ms)), R.EMPTY).effects) == Whole(ms)
  {
    hide R.LegalMessage, R.RenderWires, R.ReadFrom, R.Expected;
    R.MessagesRead(ms, []);
    var bytes := R.RenderWires(R.MessageWires(ms));
    assert bytes + [] == bytes;
    NothingRead();
    assert R.Expected(ms) + [] == R.Expected(ms);
    ExpectedQueuesWhole(ms);
  }

  lemma NothingRead()
    ensures R.ReadFrom([], R.EMPTY).effects == []
  {
  }
}
