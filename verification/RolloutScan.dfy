/** The incremental scan of a rollout file: a cached offset and fold against a scan from byte 0. */
module RolloutScan {
  import opened Bytes
  import opened CodexScan
  import opened Options

  datatype Limits = Limits(id: Option<string>, primary: Option<Source>, secondary: Option<Source>)

  datatype Event = Event(updated: int, limits: Limits)

  datatype State = State(newest: Option<Event>, primary: Option<Best>, secondary: Option<Best>)

  const NOTHING := State(None, None, None)

  /** What a line says, if it is a rate-limit event at all. */
  type Parser = Bytes -> Option<Event>

  predicate IsCodexLimit(l: Limits) {
    if l.id.Some? then l.id.value == "codex"
    else
      var first := if l.primary.Some? then l.primary.value.mins else None;
      var second := if l.secondary.Some? then l.secondary.value.mins else None;
      && (first.None? || first.value == SESSION_MINUTES)
      && (second.None? || second.value == WEEKLY_MINUTES)
      && (first.Some? || second.Some?)
  }

  /** One complete line; a line over the limit says nothing. */
  function Absorb(parse: Parser, s: State, line: Bytes): State {
    if |line| > LINE_MAX then s
    else
      match parse(line)
      case None => s
      case Some(e) =>
        if !IsCodexLimit(e.limits) then s
        else State(Some(e), Better(s.primary, e.limits.primary), Better(s.secondary, e.limits.secondary))
  }

  /** The length of the first complete line. */
  function FirstLine(data: Bytes, from: nat := 0): (n: Option<nat>)
    requires from <= |data| && forall i | 0 <= i < from :: data[i] != NEWLINE
    ensures n.Some? ==> 0 < n.value <= |data| && data[n.value - 1] == NEWLINE
                        && forall i | 0 <= i < n.value - 1 :: data[i] != NEWLINE
    ensures n.None? ==> forall i | 0 <= i < |data| :: data[i] != NEWLINE
    decreases |data| - from
  {
    if from == |data| then None
    else if data[from] == NEWLINE then Some(from + 1)
    else FirstLine(data, from + 1)
  }

  /** A scan from the first byte: every complete line, in order. */
  function Fold(parse: Parser, data: Bytes, s: State): State
    decreases |data|
  {
    match FirstLine(data)
    case None => s
    case Some(n) => Fold(parse, data[n..], Absorb(parse, s, data[..n]))
  }

  predicate WholeLines(data: Bytes) { data == [] || data[|data| - 1] == NEWLINE }

  lemma {:induction false} FoldAppend(parse: Parser, p: Bytes, q: Bytes, s: State)
    requires WholeLines(p)
    ensures Fold(parse, p + q, s) == Fold(parse, q, Fold(parse, p, s))
    decreases |p|
  {
    if p == [] {
      assert p + q == q;
    } else {
      var n := FirstLine(p).value;
      assert (p + q)[n - 1] == NEWLINE && forall i | 0 <= i < n - 1 :: (p + q)[i] == p[i];
      assert FirstLine(p + q) == Some(n);
      assert (p + q)[..n] == p[..n] && (p + q)[n..] == p[n..] + q;
      FoldAppend(parse, p[n..], q, Absorb(parse, s, p[..n]));
    }
  }

  predicate EndsLine(line: Bytes) { line != [] && line[|line| - 1] == NEWLINE }

  /** No line ends between two offsets. */
  predicate Bare(data: Bytes, a: nat, b: nat)
    requires a <= b <= |data|
  {
    forall i | a <= i < b :: data[i] != NEWLINE
  }

  lemma OneLine(parse: Parser, line: Bytes, s: State)
    requires EndsLine(line) && Bare(line, 0, |line| - 1)
    ensures Fold(parse, line, s) == Absorb(parse, s, line)
  {
    hide Absorb;
    var n := FirstLine(line).value;
    assert n == |line|;
    assert line[..n] == line && line[n..] == [];
  }

  lemma TakeLine(parse: Parser, data: Bytes, a: nat, b: nat, s: State)
    requires a < b <= |data| && WholeLines(data[..a]) && Bare(data, a, b - 1) && data[b - 1] == NEWLINE
    ensures WholeLines(data[..b])
    ensures Fold(parse, data[..b], s) == Absorb(parse, Fold(parse, data[..a], s), data[a..b])
  {
    hide Fold, Absorb;
    var line := data[a..b];
    assert data[..b] == data[..a] + line;
    FoldAppend(parse, data[..a], line, s);
    assert line[|line| - 1] == data[b - 1];
    OneLine(parse, line, Fold(parse, data[..a], s));
  }

  lemma DropTail(parse: Parser, data: Bytes, a: nat, b: nat, s: State)
    requires a <= b <= |data| && WholeLines(data[..a]) && Bare(data, a, b)
    ensures Fold(parse, data[..b], s) == Fold(parse, data[..a], s)
  {
    assert data[..b] == data[..a] + data[a..b];
    FoldAppend(parse, data[..a], data[a..b], s);
  }

  // ---- What growth of the file can do to the answer -------------------------------

  /** The primary and secondary windows of the events a scan accepts. */
  function Readings(parse: Parser, data: Bytes, primary: bool): seq<Option<Source>>
    decreases |data|
  {
    match FirstLine(data)
    case None => []
    case Some(n) =>
      var line := data[..n];
      var e := if |line| > LINE_MAX then None else parse(line);
      (if e.Some? && IsCodexLimit(e.value.limits)
       then [if primary then e.value.limits.primary else e.value.limits.secondary] else [])
      + Readings(parse, data[n..], primary)
  }

  function Window(s: State, primary: bool): Option<Best> { if primary then s.primary else s.secondary }

  lemma {:induction false} BestOfFirst(cur: Option<Best>, first: Option<Source>, rest: seq<Option<Source>>)
    ensures BestOf(cur, [first] + rest) == BestOf(Better(cur, first), rest)
    decreases |rest|
  {
    var all := [first] + rest;
    if rest == [] {
      assert all[..0] == [] && BestOf(cur, all[..0]) == cur;
    } else {
      assert all[..|all| - 1] == [first] + rest[..|rest| - 1];
      BestOfFirst(cur, first, rest[..|rest| - 1]);
    }
  }

  /** Each window of a scan's answer is the best of the readings the scan accepts. */
  lemma {:induction false} WindowIsBest(parse: Parser, data: Bytes, s: State, primary: bool)
    ensures Window(Fold(parse, data, s), primary) == BestOf(Window(s, primary), Readings(parse, data, primary))
    decreases |data|
  {
    hide Better;
    var n := FirstLine(data);
    if n.Some? {
      var line := data[..n.value];
      var rest := data[n.value..];
      WindowIsBest(parse, rest, Absorb(parse, s, line), primary);
      var e := if |line| > LINE_MAX then None else parse(line);
      if e.Some? && IsCodexLimit(e.value.limits) {
        var w := if primary then e.value.limits.primary else e.value.limits.secondary;
        BestOfFirst(Window(s, primary), w, Readings(parse, rest, primary));
      } else {
        assert [] + Readings(parse, rest, primary) == Readings(parse, rest, primary);
      }
    }
  }

  /** The events of the complete lines that are not too long, in order. */
  function Events(parse: Parser, data: Bytes): seq<Event>
    decreases |data|
  {
    match FirstLine(data)
    case None => []
    case Some(n) =>
      var e := if n <= LINE_MAX then parse(data[..n]) else None;
      (if e.Some? then [e.value] else []) + Events(parse, data[n..])
  }

  /** Of another family, or without a family and with a window that is not where Codex has it, or with none. */
  predicate Foreign(l: Limits) {
    match l.id
    case Some(id) => id != "codex"
    case None =>
      || (l.primary.Some? && l.primary.value.mins.Some? && l.primary.value.mins.value != 300)
      || (l.secondary.Some? && l.secondary.value.mins.Some? && l.secondary.value.mins.value != 10080)
      || ((l.primary.None? || l.primary.value.mins.None?) && (l.secondary.None? || l.secondary.value.mins.None?))
  }

  lemma ForeignExact(l: Limits)
    ensures IsCodexLimit(l) <==> !Foreign(l)
  {
  }

  lemma OwnFirst(e: Event, more: seq<Event>)
    ensures OwnEvents([e] + more) == (if Foreign(e.limits) then [] else [e]) + OwnEvents(more)
    ensures Primaries([e] + more) == [e.limits.primary] + Primaries(more)
    ensures Secondaries([e] + more) == [e.limits.secondary] + Secondaries(more)
  {
    assert ([e] + more)[1..] == more;
  }

  /** The scan's newest event is the last that is not foreign. */
  lemma {:induction false} NewestIsLast(parse: Parser, data: Bytes, s: State)
    ensures var own := OwnEvents(Events(parse, data));
            Fold(parse, data, s).newest == if own == [] then s.newest else Some(own[|own| - 1])
    decreases |data|
  {
    hide Better, Foreign, IsCodexLimit, OwnEvents;
    var n := FirstLine(data);
    if n.Some? {
      var line, rest := data[..n.value], data[n.value..];
      NewestIsLast(parse, rest, Absorb(parse, s, line));
      if n.value <= LINE_MAX && parse(line).Some? {
        ForeignExact(parse(line).value.limits);
        OwnFirst(parse(line).value, Events(parse, rest));
      } else {
        assert [] + Events(parse, rest) == Events(parse, rest);
      }
    } else {
      NoneOwn();
    }
  }

  lemma NoneOwn()
    ensures OwnEvents([]) == []
  {
  }

  /** And the windows are made of the readings of those events alone. */
  lemma {:induction false} ReadingsAreOwn(parse: Parser, data: Bytes)
    ensures Readings(parse, data, true) == Primaries(OwnEvents(Events(parse, data)))
    ensures Readings(parse, data, false) == Secondaries(OwnEvents(Events(parse, data)))
    decreases |data|
  {
    hide Foreign, IsCodexLimit, OwnEvents;
    NoneOwn();
    var n := FirstLine(data);
    if n.Some? {
      var line, rest := data[..n.value], data[n.value..];
      var more := Events(parse, rest);
      ReadingsAreOwn(parse, rest);
      assert |line| == n.value;
      if n.value <= LINE_MAX && parse(line).Some? {
        var e := parse(line).value;
        ForeignExact(e.limits);
        OwnFirst(e, more);
        OwnFirst(e, OwnEvents(more));
        assert [] + OwnEvents(more) == OwnEvents(more);
      } else {
        assert [] + more == more;
      }
    }
  }

  function OwnEvents(events: seq<Event>): seq<Event> {
    if events == [] then []
    else (if Foreign(events[0].limits) then [] else [events[0]]) + OwnEvents(events[1..])
  }

  function Primaries(events: seq<Event>): seq<Option<Source>> {
    if events == [] then [] else [events[0].limits.primary] + Primaries(events[1..])
  }

  function Secondaries(events: seq<Event>): seq<Option<Source>> {
    if events == [] then [] else [events[0].limits.secondary] + Secondaries(events[1..])
  }

  /** Where the last, unfinished line starts. */
  function LastLine(data: Bytes): (k: nat)
    ensures k <= |data| && WholeLines(data[..k]) && Bare(data, k, |data|)
  {
    if WholeLines(data) then
      assert data[..|data|] == data;
      |data|
    else
      var n := |data| - 1;
      assert forall k | 0 <= k <= n :: data[..n][..k] == data[..k];
      LastLine(data[..n])
  }

  /** What an append adds to a scan: the unfinished line's completion and everything after it. */
  lemma ScanExtends(parse: Parser, data: Bytes, more: Bytes)
    ensures Fold(parse, data + more, NOTHING) == Fold(parse, data[LastLine(data)..] + more, Fold(parse, data, NOTHING))
  {
    hide Fold, WholeLines;
    var k := LastLine(data);
    DropTail(parse, data, k, |data|, NOTHING);
    assert data[..|data|] == data;
    assert data + more == data[..k] + (data[k..] + more);
    FoldAppend(parse, data[..k], data[k..] + more, NOTHING);
  }

  /**
   However a rollout file grows, a window's reset, once shown, never moves back, and its percentage
   falls only when an appended reading's reset jumped by at least half a window.
   */
  lemma GrowthNeverMovesBack(parse: Parser, data: Bytes, more: Bytes, primary: bool)
    requires HasReset(Window(Fold(parse, data, NOTHING), primary))
    ensures var before, after := Window(Fold(parse, data, NOTHING), primary), Window(Fold(parse, data + more, NOTHING), primary);
            var appended := Readings(parse, data[LastLine(data)..] + more, primary);
            && HasReset(after) && after.value.reset.value >= before.value.reset.value
            && (after.value.pct < before.value.pct ==> RolledOver(before, appended))
            && (RolledOver(before, appended) ==> after.value.reset.value >= before.value.reset.value + 60)
  {
    hide Fold, Readings, HasReset, RolledOver;
    var before := Fold(parse, data, NOTHING);
    var rest := data[LastLine(data)..] + more;
    ScanExtends(parse, data, more);
    WindowIsBest(parse, rest, before, primary);
    ResetNeverMovesBack(Window(before, primary), Readings(parse, rest, primary));
  }

  // ---- The scan in place ------------------------------------------------------------

  function Min(a: nat, b: nat): nat { if a < b then a else b }

  /** `readline(limit)`: up to and with the newline, at most `limit` bytes. */
  method ReadLine(data: Bytes, pos: nat, limit: nat) returns (line: Bytes)
    requires pos <= |data|
    ensures |line| <= limit && pos + |line| <= |data| && line == data[pos..pos + |line|]
    ensures if EndsLine(line) then Bare(data, pos, pos + |line| - 1)
            else Bare(data, pos, pos + |line|) && (|line| == limit || pos + |line| == |data|)
  {
    var end := pos;
    while end < |data| && end - pos < limit
      invariant pos <= end <= |data| && end - pos <= limit
      invariant Bare(data, pos, end)
    {
      end := end + 1;
      if data[end - 1] == NEWLINE { return data[pos..end]; }
    }
    line := data[pos..end];
    assert line != [] ==> line[|line| - 1] == data[end - 1];
  }

  class Scanner {
    const parse: Parser
    var cache: map<string, (nat, State)>
    ghost var scanned: map<string, Bytes>    // the bytes behind each cached fold

    ghost predicate Cached(path: string)
      requires path in cache && path in scanned
      reads this
    {
      && cache[path].0 == |scanned[path]| && WholeLines(scanned[path])
      && cache[path].1 == Fold(parse, scanned[path], NOTHING)
    }

    ghost predicate Valid() reads this {
      cache.Keys == scanned.Keys && forall path :: path in cache ==> Cached(path)
    }

    /** The file still starts with what was scanned, or is now shorter than that. */
    ghost predicate Grown(path: string, file: Bytes, size: nat) reads this {
      path in scanned ==> size < |scanned[path]| || scanned[path] <= file
    }

    constructor (parse: Parser)
      ensures Valid() && cache == map[] && this.parse == parse
    {
      this.parse := parse;
      cache, scanned := map[], map[];
    }

    /** `size` is the file's size when the call began; `stats` and `opens` tell whether the OS let it. */
    method LastRateLimit(path: string, file: Bytes, size: nat, stats: bool, opens: bool) returns (r: Option<State>)
      requires Valid() && size <= |file| && Grown(path, file, size)
      modifies this
      ensures Valid()
      ensures stats && opens ==> r.Some?
      ensures !stats ==> r.None?
      ensures r.Some? ==> r.value == Fold(parse, file[..size], NOTHING)
      ensures r.None? ==> cache == old(cache) && scanned == old(scanned)
      ensures r.Some? ==> path in scanned && scanned == old(scanned)[path := scanned[path]]
                          && scanned[path] <= file[..size]
    {
      if !stats { return None; }
      if path in cache && cache[path].0 == size {
        assert Cached(path) && file[..size] == scanned[path];
        return Some(cache[path].1);
      }
      var start := if path in cache && cache[path].0 < size then cache[path].0 else 0;
      var state := if path in cache && start > 0 then cache[path].1 else NOTHING;
      if !opens { return None; }
      assert WholeLines(file[..start]) && state == Fold(parse, file[..start], NOTHING) by {
        if start > 0 { assert Cached(path) && file[..start] == scanned[path]; }
      }
      var complete;
      complete, state := ScanFrom(file, size, start, state);
      DropTail(parse, file, complete, size, NOTHING);
      cache := cache[path := (complete, state)];
      scanned := scanned[path := file[..complete]];
      r := Some(state);
    }

    method ScanFrom(file: Bytes, size: nat, start: nat, resumed: State) returns (complete: nat, state: State)
      requires start <= size <= |file| && WholeLines(file[..start])
      requires resumed == Fold(parse, file[..start], NOTHING)
      ensures start <= complete <= size && WholeLines(file[..complete]) && Bare(file, complete, size)
      ensures state == Fold(parse, file[..complete], NOTHING)
    {
      hide Fold, WholeLines;
      var pos := start;
      complete, state := start, resumed;
      while pos < size
        invariant start <= complete <= pos <= size && WholeLines(file[..complete])
        invariant state == Fold(parse, file[..complete], NOTHING)
        invariant Bare(file, complete, pos) && (complete == pos || pos == size)
      {
        var line := ReadLine(file, pos, Min(LINE_MAX + 1, size - pos));
        pos := pos + |line|;
        if |line| > LINE_MAX && !EndsLine(line) {
          var ended;
          pos, ended := Discard(file, size, complete, pos);
          if ended {
            TakeLine(parse, file, complete, pos, NOTHING);
            complete := pos;
          }
          continue;
        }
        if !EndsLine(line) { break; }
        TakeLine(parse, file, complete, pos, NOTHING);
        complete := pos;
        if |line| > LINE_MAX { continue; }
        state := Absorb(parse, state, line);
      }
    }

    /** The rest of an oversized line, in bounded chunks. */
    method Discard(file: Bytes, size: nat, begin: nat, from: nat) returns (pos: nat, ended: bool)
      requires begin + LINE_MAX < from <= size <= |file| && Bare(file, begin, from)
      ensures from <= pos <= size
      ensures if ended then from < pos && Bare(file, begin, pos - 1) && file[pos - 1] == NEWLINE
              else pos == size && Bare(file, begin, pos)
    {
      pos, ended := from, false;
      while pos < size && !ended
        invariant from <= pos <= size
        invariant if ended then from < pos && Bare(file, begin, pos - 1) && file[pos - 1] == NEWLINE
                  else Bare(file, begin, pos)
        decreases size - pos
      {
        var line := ReadLine(file, pos, Min(CHUNK, size - pos));
        pos := pos + |line|;
        ended := EndsLine(line);
      }
    }
  }
}
