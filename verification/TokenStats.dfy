/**
 Token statistics: every transcript's usage records, replayed through one global
 de-duplication into totals by day, by hour and by model.
 */
module TokenStats {
  import opened Options

  /** A message id and, if known, its request id. */
  datatype Key = Key(message: string, request: Option<string>)

  datatype Usage = Usage(tin: int, tout: int, cw: int, cr: int, cost: real)

  /** `day` is that of the record's hour; a record whose time cannot be read has neither. */
  datatype Moment = Moment(day: int, hour: int)

  datatype Record = Record(key: Option<Key>, session: Option<string>, at: Option<Moment>, model: string, usage: Usage)

  datatype Sum = Sum(tin: int, tout: int, cw: int, cr: int, cost: real, req: int)

  const BLANK := Sum(0, 0, 0, 0, 0.0, 0)

  function Plus(a: Sum, b: Sum): Sum {
    Sum(a.tin + b.tin, a.tout + b.tout, a.cw + b.cw, a.cr + b.cr, a.cost + b.cost, a.req + b.req)
  }

  function One(u: Usage): Sum { Sum(u.tin, u.tout, u.cw, u.cr, u.cost, 1) }

  /** `agg.get(key)`, or a blank. */
  function At<K>(agg: map<K, Sum>, k: K): Sum { if k in agg then agg[k] else BLANK }

  function Add<K>(agg: map<K, Sum>, k: K, u: Usage): map<K, Sum> { agg[k := Plus(At(agg, k), One(u))] }

  datatype Totals = Totals(
    seen: set<Key>, sessions: set<string>, byDay: map<int, Sum>, byHour: map<int, Sum>, byModel: map<string, Sum>)

  const NO_TOTALS := Totals({}, {}, map[], map[], map[])

  /** One record, unless its key has been seen. */
  function Count(t: Totals, r: Record): Totals {
    if r.key.Some? && r.key.value in t.seen then t
    else
      Totals(
        if r.key.Some? then t.seen + {r.key.value} else t.seen,
        if r.session.Some? then t.sessions + {r.session.value} else t.sessions,
        if r.at.Some? then Add(t.byDay, r.at.value.day, r.usage) else t.byDay,
        if r.at.Some? then Add(t.byHour, r.at.value.hour, r.usage) else t.byHour,
        Add(t.byModel, r.model, r.usage))
  }

  function Replay(recs: seq<Record>): Totals
    decreases |recs|
  {
    if recs == [] then NO_TOTALS else Count(Replay(recs[..|recs| - 1]), recs[|recs| - 1])
  }

  // ---- What the totals mean -----------------------------------------------------

  /** No key, or its first occurrence. */
  predicate FirstOccurrence(recs: seq<Record>, i: nat)
    requires i < |recs|
  {
    recs[i].key.None? || forall j | 0 <= j < i :: recs[j].key != recs[i].key
  }

  /** Which records a total is about. */
  datatype Scope = Everything | Day(day: int) | Hour(hour: int) | Model(model: string)

  predicate InScope(r: Record, s: Scope) {
    match s
    case Everything => true
    case Day(d) => r.at.Some? && r.at.value.day == d
    case Hour(h) => r.at.Some? && r.at.value.hour == h
    case Model(m) => r.model == m
  }

  /** The sum over the first occurrences in scope. */
  function Tally(recs: seq<Record>, s: Scope): Sum
    decreases |recs|
  {
    if recs == [] then BLANK
    else
      var n := |recs| - 1;
      var before := Tally(recs[..n], s);
      if FirstOccurrence(recs, n) && InScope(recs[n], s) then Plus(before, One(recs[n].usage)) else before
  }

  lemma {:induction false} SeenKeys(recs: seq<Record>, k: Key)
    ensures k in Replay(recs).seen <==> exists i :: 0 <= i < |recs| && recs[i].key == Some(k)
    decreases |recs|
  {
    if recs != [] {
      var n := |recs| - 1;
      SeenKeys(recs[..n], k);
      if recs[n].key.Some? { SeenKeys(recs[..n], recs[n].key.value); }
      assert recs[n].key == Some(k) ==> k in Replay(recs).seen;
      assert forall i | 0 <= i < n :: recs[..n][i] == recs[i];
    }
  }

  lemma FirstExactlyWhenUnseen(recs: seq<Record>, n: nat)
    requires n < |recs|
    ensures FirstOccurrence(recs, n) <==> recs[n].key.None? || recs[n].key.value !in Replay(recs[..n]).seen
  {
    if recs[n].key.Some? {
      SeenKeys(recs[..n], recs[n].key.value);
      assert forall j | 0 <= j < n :: recs[..n][j] == recs[j];
    }
  }

  /** Every keyed record counts once, at its first occurrence, in its day, its hour and its model. */
  lemma {:induction false} CountsFirstOccurrences(recs: seq<Record>, d: int, h: int, m: string)
    ensures At(Replay(recs).byDay, d) == Tally(recs, Day(d))
    ensures At(Replay(recs).byHour, h) == Tally(recs, Hour(h))
    ensures At(Replay(recs).byModel, m) == Tally(recs, Model(m))
    decreases |recs|
  {
    if recs != [] {
      var n := |recs| - 1;
      CountsFirstOccurrences(recs[..n], d, h, m);
      FirstExactlyWhenUnseen(recs, n);
      hide FirstOccurrence, Plus, One;
    }
  }

  // ---- The grand total ------------------------------------------------------------

  ghost function Total<K>(agg: map<K, Sum>): Sum
    decreases |agg|
  {
    if agg == map[] then BLANK
    else
      var k :| k in agg;
      Plus(agg[k], Total(agg - {k}))
  }

  lemma PlusSwap(a: Sum, b: Sum, c: Sum)
    ensures Plus(a, Plus(b, c)) == Plus(b, Plus(a, c))
  {
  }

  lemma {:induction false} TotalWithout<K>(agg: map<K, Sum>, k: K)
    requires k in agg
    ensures Total(agg) == Plus(agg[k], Total(agg - {k}))
    decreases |agg|
  {
    var first :| first in agg && Total(agg) == Plus(agg[first], Total(agg - {first}));
    if first != k {
      var a, b := agg - {first}, agg - {k};
      TotalWithout(a, k);
      TotalWithout(b, first);
      assert a - {k} == b - {first};
      PlusSwap(agg[first], agg[k], Total(a - {k}));
    }
  }

  lemma AddToTotal<K>(agg: map<K, Sum>, k: K, u: Usage)
    ensures Total(Add(agg, k, u)) == Plus(Total(agg), One(u))
  {
    var agg' := Add(agg, k, u);
    TotalWithout(agg', k);
    assert agg' - {k} == agg - {k};
    if k in agg { TotalWithout(agg, k); } else { assert agg - {k} == agg; }
  }

  /** Conservation: the models' totals add up to all first occurrences, and nothing else. */
  lemma {:induction false} TotalConserved(recs: seq<Record>)
    ensures Total(Replay(recs).byModel) == Tally(recs, Everything)
    decreases |recs|
  {
    if recs != [] {
      var n := |recs| - 1;
      TotalConserved(recs[..n]);
      FirstExactlyWhenUnseen(recs, n);
      AddToTotal(Replay(recs[..n]).byModel, recs[n].model, recs[n].usage);
    }
  }

  // ---- In numbers -----------------------------------------------------------------

  datatype Column = Input | Output | CacheWrite | CacheRead | Cost | Requests

  /** What a record has in a column. */
  function Amount(r: Record, c: Column): real {
    match c
    case Input => r.usage.tin as real
    case Output => r.usage.tout as real
    case CacheWrite => r.usage.cw as real
    case CacheRead => r.usage.cr as real
    case Cost => r.usage.cost
    case Requests => 1.0
  }

  /** What a total has there. */
  function Shown(s: Sum, c: Column): real {
    match c
    case Input => s.tin as real
    case Output => s.tout as real
    case CacheWrite => s.cw as real
    case CacheRead => s.cr as real
    case Cost => s.cost
    case Requests => s.req as real
  }

  function AmountSum(recs: seq<Record>, s: Scope, c: Column): real
    decreases |recs|
  {
    if recs == [] then 0.0
    else
      var n := |recs| - 1;
      AmountSum(recs[..n], s, c) + (if FirstOccurrence(recs, n) && InScope(recs[n], s) then Amount(recs[n], c) else 0.0)
  }

  lemma {:induction false} TallyAmounts(recs: seq<Record>, s: Scope, c: Column)
    ensures Shown(Tally(recs, s), c) == AmountSum(recs, s, c)
    decreases |recs|
  {
    if recs != [] {
      TallyAmounts(recs[..|recs| - 1], s, c);
      hide FirstOccurrence, InScope;
    }
  }

  /** Each column of each total is the sum of that column over the first occurrences in its scope. */
  lemma ColumnsAddUp(recs: seq<Record>, d: int, h: int, m: string, c: Column)
    ensures Shown(At(Replay(recs).byDay, d), c) == AmountSum(recs, Day(d), c)
    ensures Shown(At(Replay(recs).byHour, h), c) == AmountSum(recs, Hour(h), c)
    ensures Shown(At(Replay(recs).byModel, m), c) == AmountSum(recs, Model(m), c)
    ensures Shown(Total(Replay(recs).byModel), c) == AmountSum(recs, Everything, c)
  {
    CountsFirstOccurrences(recs, d, h, m);
    TotalConserved(recs);
    TallyAmounts(recs, Day(d), c);
    TallyAmounts(recs, Hour(h), c);
    TallyAmounts(recs, Model(m), c);
    TallyAmounts(recs, Everything, c);
  }

  /** Some first occurrence is in this scope. */
  ghost predicate Occurs(recs: seq<Record>, s: Scope) {
    exists i :: 0 <= i < |recs| && OccursAt(recs, i, s)
  }

  ghost predicate OccursAt(recs: seq<Record>, i: nat, s: Scope)
    requires i < |recs|
  {
    FirstOccurrence(recs, i) && InScope(recs[i], s)
  }

  ghost predicate InSession(recs: seq<Record>, session: string) {
    exists i :: 0 <= i < |recs| && BeganAt(recs, i, session)
  }

  ghost predicate BeganAt(recs: seq<Record>, i: nat, session: string)
    requires i < |recs|
  {
    FirstOccurrence(recs, i) && recs[i].session == Some(session)
  }

  lemma FirstStays(recs: seq<Record>, i: nat)
    requires i < |recs| - 1
    ensures FirstOccurrence(recs[..|recs| - 1], i) <==> FirstOccurrence(recs, i)
  {
    assert forall j | 0 <= j <= i :: recs[..|recs| - 1][j] == recs[j];
  }

  lemma OccursMore(recs: seq<Record>, s: Scope)
    requires recs != []
    ensures var n := |recs| - 1;
            Occurs(recs, s) <==> Occurs(recs[..n], s) || OccursAt(recs, n, s)
  {
    var n := |recs| - 1;
    forall i: nat | i < n ensures OccursAt(recs[..n], i, s) <==> OccursAt(recs, i, s) { FirstStays(recs, i); }
    hide OccursAt;
    if Occurs(recs[..n], s) {
      var i :| 0 <= i < n && OccursAt(recs[..n], i, s);
      assert OccursAt(recs, i, s);
    }
  }

  lemma SessionMore(recs: seq<Record>, session: string)
    requires recs != []
    ensures var n := |recs| - 1;
            InSession(recs, session) <==> InSession(recs[..n], session) || BeganAt(recs, n, session)
  {
    var n := |recs| - 1;
    forall i: nat | i < n ensures BeganAt(recs[..n], i, session) <==> BeganAt(recs, i, session) { FirstStays(recs, i); }
    hide BeganAt;
    if InSession(recs[..n], session) {
      var i :| 0 <= i < n && BeganAt(recs[..n], i, session);
      assert BeganAt(recs, i, session);
    }
  }

  /** A day, an hour, a model or a session is listed exactly if a first occurrence is of it. */
  lemma {:induction false} ListedExactly(recs: seq<Record>, d: int, h: int, m: string, session: string)
    ensures d in Replay(recs).byDay <==> Occurs(recs, Day(d))
    ensures h in Replay(recs).byHour <==> Occurs(recs, Hour(h))
    ensures m in Replay(recs).byModel <==> Occurs(recs, Model(m))
    ensures session in Replay(recs).sessions <==> InSession(recs, session)
    decreases |recs|
  {
    if recs != [] {
      var n := |recs| - 1;
      ListedExactly(recs[..n], d, h, m, session);
      FirstExactlyWhenUnseen(recs, n);
      OccursMore(recs, Day(d));
      OccursMore(recs, Hour(h));
      OccursMore(recs, Model(m));
      SessionMore(recs, session);
      hide FirstOccurrence, Occurs, InSession, Plus, One;
    }
  }

  // ---- The cache of extracted records ------------------------------------------------

  type Path = string

  datatype Signature = Signature(mtime: int, size: nat)

  /** A transcript as a pass finds it: its signature, its records, and whether it can be opened. */
  datatype File = File(sig: Signature, recs: seq<Record>, opens: bool)

  type Disk = map<Path, File>

  datatype Entry = Entry(sig: Signature, recs: seq<Record>)

  type Cache = map<Path, Entry>

  const FILE_CACHE_MAX := 4000

  /** What a file contributes: its cached records, or what opening it gives. */
  function Served(cache: Cache, disk: Disk, path: Path): Entry
    requires path in disk
  {
    var f := disk[path];
    if path in cache && cache[path].sig == f.sig then cache[path]
    else Entry(f.sig, if f.opens then f.recs else [])
  }

  function AllServed(cache: Cache, disk: Disk, paths: seq<Path>): seq<Record>
    decreases |paths|
  {
    if paths == [] then []
    else
      var before, p := AllServed(cache, disk, paths[..|paths| - 1]), paths[|paths| - 1];
      before + (if p in disk then Served(cache, disk, p).recs else [])
  }

  /** The cache a pass leaves: exactly the live files, or nothing when there are too many. */
  function CacheAfter(cache: Cache, disk: Disk, paths: seq<Path>): Cache {
    var live := map p | p in disk && p in paths :: Served(cache, disk, p);
    if |live| > FILE_CACHE_MAX then map[] else live
  }

  /** Records as a cold pass over the same files would find them. */
  function ColdRecords(disk: Disk, paths: seq<Path>): seq<Record>
    decreases |paths|
  {
    if paths == [] then []
    else
      var before, p := ColdRecords(disk, paths[..|paths| - 1]), paths[|paths| - 1];
      before + (if p in disk then disk[p].recs else [])
  }

  /** What every file holds under each of its signatures. */
  type Contents = (Path, Signature) -> seq<Record>

  ghost predicate Determined(disk: Disk, contents: Contents) {
    forall p | p in disk :: disk[p].recs == contents(p, disk[p].sig)
  }

  ghost predicate Faithful(cache: Cache, contents: Contents) {
    forall p | p in cache :: cache[p].recs == contents(p, cache[p].sig)
  }

  /** Every file that has to be read now can be opened, or has nothing to give. */
  ghost predicate ReadsSucceed(cache: Cache, disk: Disk, paths: seq<Path>) {
    forall p | p in disk && p in paths ::
      disk[p].opens || disk[p].recs == [] || (p in cache && cache[p].sig == disk[p].sig)
  }

  lemma {:induction false} FaithfulPass(cache: Cache, disk: Disk, paths: seq<Path>, contents: Contents)
    requires Determined(disk, contents) && Faithful(cache, contents) && ReadsSucceed(cache, disk, paths)
    ensures AllServed(cache, disk, paths) == ColdRecords(disk, paths)
    decreases |paths|
  {
    if paths != [] {
      var n := |paths| - 1;
      assert forall p | p in paths[..n] :: p in paths;
      FaithfulPass(cache, disk, paths[..n], contents);
      assert paths[n] in paths;
    }
  }

  /** A pass leaves only true records in the cache exactly when what it had to read could be read. */
  lemma FaithfulExact(cache: Cache, disk: Disk, paths: seq<Path>, contents: Contents)
    requires Determined(disk, contents) && Faithful(cache, contents)
    requires |set p | p in disk && p in paths| <= FILE_CACHE_MAX
    ensures Faithful(CacheAfter(cache, disk, paths), contents) <==> ReadsSucceed(cache, disk, paths)
  {
    var live := map p | p in disk && p in paths :: Served(cache, disk, p);
    assert live.Keys == set p | p in disk && p in paths;
    assert CacheAfter(cache, disk, paths) == live;
    if Faithful(live, contents) {
      forall p | p in disk && p in paths && !(p in cache && cache[p].sig == disk[p].sig)
        ensures disk[p].opens || disk[p].recs == []
      {
        assert p in live;
      }
    }
  }

  /** One pass of a run: the files in the order they were listed, as they then were. */
  datatype Pass = Pass(disk: Disk, paths: seq<Path>)

  /** The cache after these passes. */
  function CacheThrough(cache: Cache, passes: seq<Pass>): Cache
    decreases |passes|
  {
    if passes == [] then cache
    else
      var last := passes[|passes| - 1];
      CacheAfter(CacheThrough(cache, passes[..|passes| - 1]), last.disk, last.paths)
  }

  function CacheBefore(passes: seq<Pass>): Cache { CacheThrough(map[], passes) }

  ghost predicate HonestRun(passes: seq<Pass>, contents: Contents)
    decreases |passes|
  {
    passes == [] || (
      var n := |passes| - 1;
      && HonestRun(passes[..n], contents)
      && Determined(passes[n].disk, contents)
      && ReadsSucceed(CacheBefore(passes[..n]), passes[n].disk, passes[n].paths))
  }

  lemma {:induction false} RunFaithful(passes: seq<Pass>, contents: Contents)
    requires HonestRun(passes, contents)
    ensures Faithful(CacheBefore(passes), contents)
    decreases |passes|
  {
    if passes != [] {
      var n := |passes| - 1;
      RunFaithful(passes[..n], contents);
    }
  }

  /**
   Cache transparency: after any history of added, changed and deleted transcripts whose signatures
   determine their contents, a pass counts exactly what one cold pass over the same files would.
   */
  lemma CacheTransparency(passes: seq<Pass>, contents: Contents)
    requires passes != [] && HonestRun(passes, contents)
    ensures var n := |passes| - 1;
            Replay(AllServed(CacheBefore(passes[..n]), passes[n].disk, passes[n].paths))
            == Replay(ColdRecords(passes[n].disk, passes[n].paths))
  {
    var n := |passes| - 1;
    RunFaithful(passes[..n], contents);
    FaithfulPass(CacheBefore(passes[..n]), passes[n].disk, passes[n].paths, contents);
  }

  // ---- A failed open ------------------------------------------------------------------

  /** The pass lists the file and finds it with this signature. */
  predicate Finds(p: Pass, path: Path, sig: Signature) {
    path in p.paths && path in p.disk && p.disk[path].sig == sig
  }

  /** The file stays cached: the pass finds it unchanged, and not too many files are live. */
  predicate KeepsCached(p: Pass, path: Path, sig: Signature) {
    Finds(p, path, sig) && |set k | k in p.disk && k in p.paths| <= FILE_CACHE_MAX
  }

  /** Under this signature the file has these records and can be opened. */
  predicate Readable(p: Pass, path: Path, sig: Signature, recs: seq<Record>) {
    Finds(p, path, sig) ==> p.disk[path].opens && p.disk[path].recs == recs
  }

  /** What a pass would take for the file's records. */
  function Contribution(cache: Cache, p: Pass, path: Path): seq<Record> {
    if path in p.disk then Served(cache, p.disk, path).recs else []
  }

  lemma PassKeepsEntry(cache: Cache, p: Pass, path: Path, sig: Signature)
    ensures var cache' := CacheAfter(cache, p.disk, p.paths);
            && (KeepsCached(p, path, sig) ==> path in cache' && cache'[path] == Served(cache, p.disk, path))
            && (!KeepsCached(p, path, sig) ==> path in cache' ==> cache'[path].sig != sig)
  {
    var live := map k | k in p.disk && k in p.paths :: Served(cache, p.disk, k);
    assert live.Keys == set k | k in p.disk && k in p.paths;
  }

  /** Every one of these passes keeps the file cached. */
  predicate AllKeep(passes: seq<Pass>, path: Path, sig: Signature)
    decreases |passes|
  {
    passes == [] || (AllKeep(passes[..|passes| - 1], path, sig) && KeepsCached(passes[|passes| - 1], path, sig))
  }

  /** What the cache knows of the file: nothing, as long as the failure is remembered, and else no untruth. */
  ghost predicate Remembers(cache: Cache, failure: bool, path: Path, sig: Signature, recs: seq<Record>) {
    if failure then path in cache && cache[path] == Entry(sig, [])
    else path in cache && cache[path].sig == sig ==> cache[path].recs == recs
  }

  lemma FailureEnters(cache: Cache, p: Pass, path: Path, sig: Signature, recs: seq<Record>)
    requires Finds(p, path, sig) && !p.disk[path].opens && !(path in cache && cache[path].sig == sig)
    ensures Remembers(CacheAfter(cache, p.disk, p.paths), KeepsCached(p, path, sig), path, sig, recs)
  {
    PassKeepsEntry(cache, p, path, sig);
  }

  lemma FailureStays(cache: Cache, failure: bool, p: Pass, path: Path, sig: Signature, recs: seq<Record>)
    requires Remembers(cache, failure, path, sig, recs) && Readable(p, path, sig, recs)
    ensures Remembers(CacheAfter(cache, p.disk, p.paths), failure && KeepsCached(p, path, sig), path, sig, recs)
  {
    PassKeepsEntry(cache, p, path, sig);
  }

  lemma {:induction false} FailedOpenThrough(cache: Cache, passes: seq<Pass>, path: Path, sig: Signature, recs: seq<Record>)
    requires passes != [] && Finds(passes[0], path, sig) && !passes[0].disk[path].opens
    requires !(path in cache && cache[path].sig == sig)
    requires forall j | 0 < j < |passes| :: Readable(passes[j], path, sig, recs)
    ensures Remembers(CacheThrough(cache, passes), AllKeep(passes, path, sig), path, sig, recs)
    decreases |passes|
  {
    hide CacheAfter, KeepsCached, Remembers, Finds, Readable;
    var n := |passes| - 1;
    if n == 0 {
      assert passes[..0] == [] && CacheThrough(cache, []) == cache && AllKeep([], path, sig);
      FailureEnters(cache, passes[0], path, sig, recs);
    } else {
      FailedOpenThrough(cache, passes[..n], path, sig, recs);
      FailureStays(CacheThrough(cache, passes[..n]), AllKeep(passes[..n], path, sig), passes[n], path, sig, recs);
    }
  }

  lemma {:induction false} ServeOneMore(cache: Cache, disk: Disk, done: seq<Path>, f: Path)
    ensures f in disk ==> AllServed(cache, disk, done + [f]) == AllServed(cache, disk, done) + Served(cache, disk, f).recs
    ensures f !in disk ==> AllServed(cache, disk, done + [f]) == AllServed(cache, disk, done)
  {
    assert (done + [f])[..|done|] == done;
  }

  /** The pass as if it did not list the file. */
  function Omit(paths: seq<Path>, path: Path): seq<Path>
    decreases |paths|
  {
    if paths == [] then []
    else
      var n := |paths| - 1;
      Omit(paths[..n], path) + (if paths[n] == path then [] else [paths[n]])
  }

  /** The contributions, in order, are what a pass replays. */
  lemma {:induction false} ServedContributions(cache: Cache, p: Pass, n: nat)
    requires n < |p.paths|
    ensures AllServed(cache, p.disk, p.paths[..n + 1])
            == AllServed(cache, p.disk, p.paths[..n]) + Contribution(cache, p, p.paths[n])
  {
    assert p.paths[..n + 1][..n] == p.paths[..n];
  }

  /** A file that contributes nothing might as well not be listed. */
  lemma {:induction false} SilentFile(cache: Cache, p: Pass, path: Path, n: nat)
    requires n <= |p.paths| && Contribution(cache, p, path) == []
    ensures AllServed(cache, p.disk, p.paths[..n]) == AllServed(cache, p.disk, Omit(p.paths[..n], path))
    decreases n
  {
    if n > 0 {
      var before, last := p.paths[..n - 1], p.paths[n - 1];
      assert p.paths[..n][..n - 1] == before;
      SilentFile(cache, p, path, n - 1);
      ServedContributions(cache, p, n - 1);
      if last != path {
        ServeOneMore(cache, p.disk, Omit(before, path), last);
      } else {
        assert Omit(before, path) + [] == Omit(before, path);
      }
    }
  }

  /**
   A failed open is cached as no records. However the passes go on, and whatever else they list, the next
   pass that finds the file replays all its files as if it had not listed this one, exactly while every
   pass, from the one that failed, finds it unchanged among at most 4000 live files; once one does not,
   the file's records are replayed where it is listed.
   */
  lemma FailedOpenExact(cache: Cache, passes: seq<Pass>, next: Pass, path: Path, sig: Signature, recs: seq<Record>)
    requires passes != [] && Finds(passes[0], path, sig) && !passes[0].disk[path].opens
    requires !(path in cache && cache[path].sig == sig)
    requires forall j | 0 < j < |passes| :: Readable(passes[j], path, sig, recs)
    requires Finds(next, path, sig) && Readable(next, path, sig, recs) && recs != []
    ensures var c := CacheThrough(cache, passes);
            if AllKeep(passes, path, sig)
            then AllServed(c, next.disk, next.paths) == AllServed(c, next.disk, Omit(next.paths, path))
            else forall n | 0 <= n < |next.paths| && next.paths[n] == path ::
                   AllServed(c, next.disk, next.paths[..n + 1]) == AllServed(c, next.disk, next.paths[..n]) + recs
  {
    FailedOpenThrough(cache, passes, path, sig, recs);
    hide KeepsCached, CacheThrough, AllKeep, AllServed, Omit;
    var c := CacheThrough(cache, passes);
    if AllKeep(passes, path, sig) {
      SilentFile(c, next, path, |next.paths|);
      assert next.paths[..|next.paths|] == next.paths;
    } else {
      forall n | 0 <= n < |next.paths| && next.paths[n] == path
        ensures AllServed(c, next.disk, next.paths[..n + 1]) == AllServed(c, next.disk, next.paths[..n]) + recs
      {
        ServedContributions(c, next, n);
      }
    }
  }

  // ---- The pass itself --------------------------------------------------------------

  /** The cache in the middle of a pass: the files done so far are served, the others untouched. */
  ghost predicate Midway(was: Cache, now: Cache, disk: Disk, done: seq<Path>, live: set<Path>) {
    && (forall p :: p in live <==> p in disk && p in done)
    && (forall p | p in live :: p in now && now[p] == Served(was, disk, p))
    && (forall p | p !in live :: (p in now <==> p in was) && (p in now ==> now[p] == was[p]))
  }

  lemma MidwayNext(was: Cache, now: Cache, disk: Disk, done: seq<Path>, live: set<Path>, f: Path)
    requires Midway(was, now, disk, done, live) && f in disk
    ensures Midway(was, now[f := Served(now, disk, f)], disk, done + [f], live + {f})
    ensures Served(now, disk, f) == Served(was, disk, f)
  {
  }

  lemma MidwaySkips(was: Cache, now: Cache, disk: Disk, done: seq<Path>, live: set<Path>, f: Path)
    requires Midway(was, now, disk, done, live) && f !in disk
    ensures Midway(was, now, disk, done + [f], live)
  {
  }

  lemma MidwayEnds(was: Cache, now: Cache, disk: Disk, done: seq<Path>, live: set<Path>)
    requires Midway(was, now, disk, done, live)
    ensures (map p | p in now && p in live :: now[p]) == map p | p in disk && p in done :: Served(was, disk, p)
  {
  }

  lemma NothingServed(cache: Cache, disk: Disk)
    ensures Replay(AllServed(cache, disk, [])) == NO_TOTALS && Midway(cache, cache, disk, [], {})
  {
  }

  class Stats {
    var cache: Cache

    constructor ()
      ensures cache == map[]
    {
      cache := map[];
    }

    method Compute(disk: Disk, files: seq<Path>) returns (t: Totals)
      modifies this
      ensures t == Replay(AllServed(old(cache), disk, files))
      ensures cache == CacheAfter(old(cache), disk, files)
    {
      hide Replay, AllServed, Midway;
      t := NO_TOTALS;
      var live: set<Path> := {};
      ghost var done: seq<Path> := [];
      assert t == Replay(AllServed(old(cache), disk, done)) && Midway(old(cache), cache, disk, done, live) by {
        NothingServed(cache, disk);
      }
      for i := 0 to |files|
        invariant done == files[..i] && Midway(old(cache), cache, disk, done, live)
        invariant t == Replay(AllServed(old(cache), disk, done))
      {
        var f := files[i];
        ServeOneMore(old(cache), disk, done, f);
        if f in disk {
          MidwayNext(old(cache), cache, disk, done, live, f);
          live := live + {f};
          ghost var was := cache;
          if f !in cache || cache[f].sig != disk[f].sig {
            var recs := ParseFile(disk[f]);
            cache := cache[f := Entry(disk[f].sig, recs)];
          }
          assert cache == was[f := Served(was, disk, f)];
          t := ReplayFile(t, AllServed(old(cache), disk, done), cache[f].recs);
        } else {
          MidwaySkips(old(cache), cache, disk, done, live, f);
        }
        done := done + [f];
      }
      assert done == files;
      MidwayEnds(old(cache), cache, disk, done, live);
      cache := map p | p in cache && p in live :: cache[p];
      if |cache| > FILE_CACHE_MAX { cache := map[]; }
    }

    method ParseFile(f: File) returns (recs: seq<Record>)
      ensures recs == if f.opens then f.recs else []
    {
      recs := [];
      if !f.opens { return; }
      recs := f.recs;
    }

    method ReplayFile(before: Totals, ghost replayed: seq<Record>, recs: seq<Record>) returns (t: Totals)
      requires before == Replay(replayed)
      ensures t == Replay(replayed + recs)
    {
      t := before;
      assert replayed + recs[..0] == replayed;
      for i := 0 to |recs|
        invariant t == Replay(replayed + recs[..i])
      {
        ghost var next := replayed + recs[..i + 1];
        assert next[..|next| - 1] == replayed + recs[..i] && next[|next| - 1] == recs[i];
        var r := recs[i];
        if r.key.Some? {
          if r.key.value in t.seen { continue; }
          t := t.(seen := t.seen + {r.key.value});
        }
        if r.session.Some? { t := t.(sessions := t.sessions + {r.session.value}); }
        if r.at.Some? {
          t := t.(byDay := Add(t.byDay, r.at.value.day, r.usage));
          t := t.(byHour := Add(t.byHour, r.at.value.hour, r.usage));
        }
        t := t.(byModel := Add(t.byModel, r.model, r.usage));
      }
      assert replayed + recs[..|recs|] == replayed + recs;
    }
  }
}
