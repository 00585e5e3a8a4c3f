/** `Relay`: the deque, its counters and the operations on them, one locked region a method. */
module Relay {
  import opened WebSocket
  import opened RelaySpec

  datatype Queued = Queued | Blocked | Gone

  class Relay {
    var frames: seq<Frame>
    var size: nat
    var sequence: nat
    var acked: nat
    var inputSequence: nat
    var closed: bool
    ghost var history: seq<Msg>
    ghost var typed: seq<Msg>

    /** The frames held are exactly those after the acknowledged one, and `size` is their size. */
    ghost predicate Valid() reads this {
      && ValidServer(Abs())
      && frames == Window(history, acked) && size == Total(frames)
      && sequence == |history| && inputSequence == |typed|
    }

    ghost function Abs(): Server reads this {
      Server(history, acked, closed, typed)
    }

    constructor ()
      ensures Valid() && Abs() == Server([], 0, false, [])
    {
      frames, size, sequence, acked, inputSequence, closed := [], 0, 0, 0, 0, false;
      history, typed := [], [];
    }

    /** `Blocked` is one turn of the wait for room. */
    method Enqueue(msg: Msg) returns (r: Queued)
      requires Valid()
      modifies this
      ensures Valid() && Abs() == RelaySpec.Enqueue(old(Abs()), msg)
      ensures r == if old(closed) then Gone else if old(HasRoom(Abs(), msg)) then Queued else Blocked
      ensures r == Queued <==> history == old(history) + [msg]
      ensures r == Queued <==> frames == old(frames) + [Frame(old(sequence) + 1, msg)]
      ensures r == Queued <==> !old(closed) && old(size) + |msg.data| <= MAX_BUFFER
    {
      if closed {
        return Gone;
      }
      if size + |msg.data| > MAX_BUFFER {
        return Blocked;
      }
      WindowGrows(history, acked, msg);
      sequence := sequence + 1;
      frames := frames + [Frame(sequence, msg)];
      size := size + |msg.data|;
      history := history + [msg];
      return Queued;
    }

    /** Drop the acknowledged frames from the front of the deque. */
    method Forget(after: nat)
      requires Valid() && acked <= after <= sequence
      modifies this`frames, this`size
      ensures frames == Window(history, after) && size == Total(frames)
    {
      ghost var held, k := frames, 0;
      while frames != [] && frames[0].number <= after
        invariant 0 <= k <= after - acked && frames == held[k..]
        invariant size == Total(frames)
      {
        size := size - |frames[0].msg.data|;
        frames := frames[1..];
        k := k + 1;
      }
      assert k == after - acked;
      WindowShrinks(history, acked, after);
    }

    method PollBegin(after: int, acknowledge: bool) returns (r: Outcome<()>)
      requires Valid()
      modifies this
      ensures Valid()
      ensures match Acknowledge(old(Abs()), after, acknowledge)
              case Refused(status) => r == Refused(status) && Abs() == old(Abs())
              case Ok(s) => r == Ok(()) && Abs() == s
    {
      if !(acked <= after <= sequence) {
        return Refused(409);
      }
      if acknowledge {
        WindowShrinks(history, acked, after);
        Forget(after);
        acked := after;
      }
      return Ok(());
    }

    method AckRequest(after: int) returns (r: Outcome<()>)
      requires Valid()
      modifies this
      ensures Valid()
      ensures match RelaySpec.AckRequest(old(Abs()), after)
              case Refused(status) => r == Refused(status) && Abs() == old(Abs())
              case Ok(s) => r == Ok(()) && Abs() == s
    {
      if !(0 <= after <= sequence) {
        return Refused(409);
      }
      r := PollBegin(if after < acked then acked else after, true);
    }

    method PollEnd(after: nat) returns (r: Response)
      requires Valid() && after <= sequence
      ensures r == Respond(Abs(), after)
    {
      hide BatchSize, Total;
      ghost var from := Max(acked, after);
      WindowShrinks(history, acked, from);
      var batch := Collect(frames, after, from - acked);
      var last := if batch == [] then after else batch[|batch| - 1].number;
      return Response(batch, closed && last == sequence);
    }

    method Send(number: int, msg: Msg, written: bool) returns (r: Outcome<()>)
      requires Valid()
      modifies this
      ensures Valid() && (Abs(), r) == Type(old(Abs()), number, msg, written)
    {
      if number < 1 {
        return Refused(400);
      }
      if number <= inputSequence {
        return Ok(());
      }
      if number != inputSequence + 1 {
        return Refused(409);
      }
      if closed {
        return Refused(410);
      }
      if !written {
        Close();
        return Refused(410);
      }
      typed := typed + [msg];
      inputSequence := number;
      return Ok(());
    }

    /** One `send` request of the client, frame by frame. */
    method SendAll(number: int, msgs: seq<Msg>, writes: seq<bool>) returns (r: Outcome<()>)
      requires Valid() && |writes| == |msgs|
      modifies this
      ensures Valid() && (Abs(), r) == TypeAll(old(Abs()), number, msgs, writes)
    {
      for i := 0 to |msgs|
        invariant Valid()
        invariant TypeAll(Abs(), number + i, msgs[i..], writes[i..]) == TypeAll(old(Abs()), number, msgs, writes)
      {
        assert msgs[i..][1..] == msgs[i + 1..] && writes[i..][1..] == writes[i + 1..];
        r := Send(number + i, msgs[i], writes[i]);
        if r.Refused? {
          return;
        }
      }
      return Ok(());
    }

    method Close()
      requires Valid()
      modifies this
      ensures Valid() && Abs() == old(Abs()).(closed := true)
    {
      closed := true;
    }
  }

  /** The loop of `poll` over the deque: skip what the client has, stop when the batch is full. */
  method Collect(frames: seq<Frame>, after: nat, ghost skip: nat) returns (batch: seq<Frame>)
    requires skip <= |frames| && forall i | 0 <= i < |frames| :: frames[i].number <= after <==> i < skip
    ensures batch == frames[skip..][..BatchSize(frames[skip..], 0, 0)]
  {
    hide BatchSize;
    ghost var pending := frames[skip..];
    var bytes: nat, i := 0, 0;
    batch := [];
    while i < |frames|
      invariant 0 <= i <= |frames|
      invariant i <= skip ==> batch == [] && bytes == 0
      invariant i >= skip ==> pending == batch + frames[i..]
      invariant i >= skip ==> BatchSize(pending, 0, 0) == |batch| + BatchSize(frames[i..], bytes, |batch|)
    {
      if frames[i].number > after {
        BatchOne(frames[i], frames[i + 1..], bytes, |batch|);
        assert frames[i..] == [frames[i]] + frames[i + 1..];
        batch := batch + [frames[i]];
        bytes := bytes + |frames[i].msg.data|;
        assert pending == batch + frames[i + 1..];
        if bytes >= MAX_FRAME || |batch| >= MAX_BATCH {
          return;
        }
      }
      i := i + 1;
    }
    assert frames[i..] == [];
    BatchNone(bytes, |batch|);
  }

  lemma BatchOne(first: Frame, rest: seq<Frame>, size: nat, count: nat)
    ensures BatchSize([first] + rest, size, count)
            == if size + |first.msg.data| >= MAX_FRAME || count + 1 >= MAX_BATCH then 1
               else 1 + BatchSize(rest, size + |first.msg.data|, count + 1)
  {
    assert ([first] + rest)[1..] == rest;
  }

  lemma BatchNone(size: nat, count: nat)
    ensures BatchSize([], size, count) == 0
  {
  }
}
