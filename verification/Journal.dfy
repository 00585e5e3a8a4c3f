/**
 Activating a configuration and an nginx site under a write-ahead journal.

 A step may succeed, raise, or be the last thing the process does; when it raises or the
 process dies, the step's own effect may or may not have reached the disk. The outcome of every
 step is read off a list of fates, so a statement about all lists is one about every crash point.
 */
module Journal {
  import opened Bytes
  import opened Options

  type File = Option<Bytes>   // None: the file is absent

  datatype Pair = Pair(config: File, site: File)

  datatype Phase = Staged | PendingRestart

  /** The journal's record. The hash of the new configuration stands for the configuration. */
  datatype Record = Record(phase: Phase, saved: Pair, newConfig: File, nginxChanged: bool, oldInstance: Option<nat>)

  datatype Fate = Done | Raises(applied: bool) | Dies(applied: bool)

  datatype Status = Running | Raised | Dead

  datatype Machine = Machine(
    files: Pair, loaded: File, journal: Option<Record>, fates: seq<Fate>, status: Status)

  datatype Action =
    | WriteJournal(record: Record)
    | ClearJournal
    | WriteSite(site: File)
    | WriteConfig(config: File)
    | Reload            // nginx loads the site file
    | Check             // validate nginx, restart the manager, ask for its health or its process

  function Effect(m: Machine, a: Action): Machine {
    match a
    case WriteJournal(r) => m.(journal := Some(r))
    case ClearJournal => m.(journal := None)
    case WriteSite(f) => m.(files := m.files.(site := f))
    case WriteConfig(f) => m.(files := m.files.(config := f))
    case Reload => m.(loaded := m.files.site)
    case Check => m
  }

  /** A step of a process that still runs; a raised exception or a death skips all further steps. */
  function Do(m: Machine, a: Action): (r: Machine)
    ensures m.status != Running ==> r == m
  {
    if m.status != Running then m
    else if m.fates == [] then m.(status := Dead)
    else
      var rest := m.(fates := m.fates[1..]);
      match m.fates[0]
      case Done => Effect(rest, a)
      case Raises(applied) => (if applied then Effect(rest, a) else rest).(status := Raised)
      case Dies(applied) => (if applied then Effect(rest, a) else rest).(status := Dead)
  }

  function DoIf(m: Machine, c: bool, a: Action): Machine { if c then Do(m, a) else m }

  function Fail(m: Machine): Machine { if m.status == Running then m.(status := Raised) else m }

  // ---- The operations ------------------------------------------------------

  function Restore(m: Machine, r: Record, refresh: bool): Machine {
    var m := Do(m, WriteSite(r.saved.site));
    var m := Do(m, WriteConfig(r.saved.config));
    var m := Do(m, Check);
    var m := DoIf(m, r.nginxChanged, Reload);
    var m := DoIf(m, refresh, Check);
    var m := DoIf(m, refresh, Check);
    Do(m, ClearJournal)
  }

  /** The manager is healthy on the new configuration and is not the process it was. */
  function Adopt(m: Machine, r: Record): Machine {
    if m.files.config != r.newConfig then Fail(m)
    else DoIf(Do(m, Check), r.oldInstance.Some?, Check)
  }

  function RecoverRecord(m: Machine, r: Record): Machine {
    if r.phase == PendingRestart then Do(Adopt(m, r), ClearJournal) else Restore(m, r, true)
  }

  datatype Repair = Recover | RecoverPending | Finish | Rollback(refresh: bool)

  function Apply(m: Machine, op: Repair): Machine
    requires m.status == Running
  {
    if m.journal.None? then m
    else
      var r := m.journal.value;
      match op
      case Recover => RecoverRecord(m, r)
      case RecoverPending => if r.phase == PendingRestart then RecoverRecord(m, r) else Fail(m)
      case Finish =>
        if r.phase != PendingRestart then Fail(m)
        else
          var adopted := Adopt(m, r);
          if adopted.status == Raised then Fail(Restore(adopted.(status := Running), r, true))
          else Do(adopted, ClearJournal)
      case Rollback(refresh) => Restore(m, r, refresh)
  }

  /** The steps under the staged journal, up to the point where it is cleared or handed over. */
  function Switch(m: Machine, r: Record, next: Pair, defer: bool): Machine {
    var m := DoIf(m, r.nginxChanged, WriteSite(next.site));
    var m := Do(m, Check);
    var m := Do(m, WriteConfig(next.config));
    var m := DoIf(m, r.nginxChanged, Reload);
    if defer then Do(m, WriteJournal(r.(phase := PendingRestart)))
    else Do(Do(m, Check), Check)
  }

  function Stage(m: Machine, r: Record, next: Pair, defer: bool): Machine {
    var staged := Do(m, WriteJournal(r));
    if staged.status != Running then staged
    else
      var switched := Switch(staged, r, next, defer);
      if switched.status == Raised then Fail(Restore(switched.(status := Running), r, true))
      else if defer then switched
      else Do(switched, ClearJournal)
  }

  function NewRecord(m: Machine, next: Pair, instance: Option<nat>): Record {
    Record(Staged, m.files, next.config, m.files.site != next.site, instance)
  }

  /** `instance` is what the callback says of the running manager, if it answers at all. */
  function Activate(m: Machine, next: Pair, defer: bool, instance: Option<nat>): Machine
    requires m.status == Running
  {
    var m := if m.journal.Some? then RecoverRecord(m, m.journal.value) else m;
    if m.status != Running then m
    else if m.files.site.None? then Fail(m)
    else if m.files == next then m
    else
      var r := NewRecord(m, next, instance);
      var asked := Do(m, Check);
      if asked.status != Running then asked else Stage(asked, r, next, defer)
  }

  // ---- Crash atomicity -----------------------------------------------------

  /** No journal: both files are old or both new, and nginx serves the site file. */
  ghost predicate Settled(m: Machine, was: Pair, next: Pair) {
    (m.files == was || m.files == next) && m.loaded == m.files.site
  }

  ghost predicate Records(r: Record, was: Pair, next: Pair) {
    r.saved == was && r.newConfig == next.config && r.nginxChanged == (was.site != next.site)
  }

  /** Some steps of the switch, or of taking it back, have happened. */
  ghost predicate Between(m: Machine, was: Pair, next: Pair) {
    && (m.files.config == was.config || m.files.config == next.config)
    && (m.files.site == was.site || m.files.site == next.site)
    && (m.loaded == was.site || m.loaded == next.site)
  }

  /** The promise at every crash point, while the record on disk is a staged one or gone. */
  ghost predicate Atomic(m: Machine, was: Pair, next: Pair) {
    match m.journal
    case None => Settled(m, was, next)
    case Some(r) => r.phase == Staged && Records(r, was, next) && Between(m, was, next)
  }

  /** Between two pairs, with the journal as it was when the steps began. */
  ghost predicate Under(m: Machine, journal: Option<Record>, was: Pair, next: Pair) {
    Between(m, was, next) && m.journal == journal
  }

  lemma {:induction false} StepUnder(m: Machine, a: Action, journal: Option<Record>, was: Pair, next: Pair)
    requires Under(m, journal, was, next)
    requires match a
             case WriteSite(f) => f == was.site || f == next.site
             case WriteConfig(f) => f == was.config || f == next.config
             case Reload => true
             case Check => true
             case _ => false
    ensures Under(Do(m, a), journal, was, next)
    ensures m.status != Running ==> Do(m, a) == m
    ensures Do(m, a).status == Running ==> m.status == Running && Do(m, a) == Effect(m, a).(fates := m.fates[1..])
  {
    if m.status == Running && m.fates != [] {
      var rest := m.(fates := m.fates[1..]);
      var done := Effect(rest, a);
      assert Under(done, journal, was, next);
      assert done == Effect(m, a).(fates := rest.fates);
      hide Effect;
    }
  }

  /** Restoring takes everything back; interrupted anywhere, it leaves something between. */
  lemma RestoreOutcome(m: Machine, r: Record, refresh: bool, was: Pair, next: Pair)
    requires m.status == Running && m.journal.Some? && Records(r, was, next) && Between(m, was, next)
    ensures var m' := Restore(m, r, refresh);
            && Between(m', was, next)
            && (m'.journal == None || m'.journal == m.journal)
            && (m'.journal.None? ==> m'.files == was && m'.loaded == was.site)
            && (m'.status == Running ==> m'.journal.None?)
  {
    hide Do;
    var j := m.journal;
    StepUnder(m, WriteSite(r.saved.site), j, was, next);
    var m1 := Do(m, WriteSite(r.saved.site));
    StepUnder(m1, WriteConfig(r.saved.config), j, was, next);
    var m2 := Do(m1, WriteConfig(r.saved.config));
    StepUnder(m2, Check, j, was, next);
    var m3 := Do(m2, Check);
    StepUnder(m3, Reload, j, was, next);
    var m4 := DoIf(m3, r.nginxChanged, Reload);
    StepUnder(m4, Check, j, was, next);
    var m5 := DoIf(m4, refresh, Check);
    StepUnder(m5, Check, j, was, next);
    var m6 := DoIf(m5, refresh, Check);
    JournalStep(m6, ClearJournal);
  }

  lemma JournalStep(m: Machine, a: Action)
    requires a.ClearJournal? || a.WriteJournal?
    ensures var m' := Do(m, a);
            && m'.files == m.files && m'.loaded == m.loaded
            && (m'.journal == m.journal || m'.journal == (if a.ClearJournal? then None else Some(a.record)))
            && (m'.journal != m.journal ==> m.status == Running)
            && (m'.status == Running ==>
                  m.status == Running && m'.journal == (if a.ClearJournal? then None else Some(a.record)))
  {
  }

  lemma SwitchOutcome(m: Machine, r: Record, was: Pair, next: Pair, defer: bool)
    requires m.status == Running && m.journal == Some(r) && Records(r, was, next)
    requires m.files == was && m.loaded == was.site
    ensures var m' := Switch(m, r, next, defer);
            && Between(m', was, next)
            && (m'.journal == Some(r) || (defer && m'.journal == Some(r.(phase := PendingRestart))))
            && (m'.status == Running ==> m'.files == next && m'.loaded == next.site)
            && (m'.status == Running && defer ==> m'.journal == Some(r.(phase := PendingRestart)))
            && (m'.journal != Some(r) ==> m'.files == next && m'.loaded == next.site)
  {
    hide Do;
    var j := m.journal;
    StepUnder(m, WriteSite(next.site), j, was, next);
    var m1 := DoIf(m, r.nginxChanged, WriteSite(next.site));
    StepUnder(m1, Check, j, was, next);
    var m2 := Do(m1, Check);
    StepUnder(m2, WriteConfig(next.config), j, was, next);
    var m3 := Do(m2, WriteConfig(next.config));
    StepUnder(m3, Reload, j, was, next);
    var m4 := DoIf(m3, r.nginxChanged, Reload);
    StepUnder(m4, Check, j, was, next);
    StepUnder(Do(m4, Check), Check, j, was, next);
    JournalStep(m4, WriteJournal(r.(phase := PendingRestart)));
  }

  /** Activation from a settled state, wherever it stops; a deferred one may be handed over. */
  lemma ActivateOutcome(m: Machine, next: Pair, defer: bool, instance: Option<nat>)
    requires m.status == Running && m.journal.None? && m.loaded == m.files.site
    ensures var m' := Activate(m, next, defer, instance);
            if m'.journal.Some? && m'.journal.value.phase == PendingRestart
            then defer && Records(m'.journal.value, m.files, next) && Between(m', m.files, next)
                 && (m'.status == Running ==> m'.files == next && m'.loaded == next.site)
            else Atomic(m', m.files, next)
  {
    var r, asked := NewRecord(m, next, instance), Do(m, Check);
    StepUnder(m, Check, None, m.files, next);
    JournalStep(asked, WriteJournal(r));
    var staged := Do(asked, WriteJournal(r));
    if m.files.site.Some? && m.files != next && asked.status == Running && staged.status == Running {
      SwitchOutcome(staged, r, m.files, next, defer);
      hide Switch, Restore;
      var switched := Switch(staged, r, next, defer);
      if switched.status == Raised {
        RestoreOutcome(switched.(status := Running), r, true, m.files, next);
      } else {
        JournalStep(switched, ClearJournal);
      }
    }
  }

  /** Every repair, interrupted or not, keeps the promise while the record is a staged one. */
  lemma RepairKeepsAtomic(m: Machine, op: Repair, was: Pair, next: Pair)
    requires m.status == Running && Atomic(m, was, next)
    ensures Atomic(Apply(m, op), was, next)
  {
    if m.journal.Some? {
      RestoreOutcome(m, m.journal.value, true, was, next);
      RestoreOutcome(m, m.journal.value, if op.Rollback? then op.refresh else true, was, next);
      hide Restore;
    }
  }

  /** A series of processes, each with its own fates, each perhaps dying half-way. */
  function Repairs(m: Machine, ops: seq<(Repair, seq<Fate>)>): Machine
    decreases |ops|
  {
    if ops == [] then m
    else Repairs(Apply(m.(status := Running, fates := ops[0].1), ops[0].0), ops[1..])
  }

  lemma {:induction false} RepairsKeepAtomic(m: Machine, ops: seq<(Repair, seq<Fate>)>, was: Pair, next: Pair)
    requires Atomic(m, was, next)
    ensures Atomic(Repairs(m, ops), was, next)
    decreases |ops|
  {
    if ops != [] {
      var process := m.(status := Running, fates := ops[0].1);
      RepairKeepsAtomic(process, ops[0].0, was, next);
      hide Apply;
      RepairsKeepAtomic(Apply(process, ops[0].0), ops[1..], was, next);
    }
  }

  /**
   Crash atomicity: stop an immediate activation anywhere, then repair any number of times,
   each repair stopping anywhere too. Once the journal is gone, the files are both old or both
   new and nginx serves the site file.
   */
  lemma CrashAtomicity(m: Machine, next: Pair, instance: Option<nat>, ops: seq<(Repair, seq<Fate>)>)
    requires m.status == Running && m.journal.None? && m.loaded == m.files.site
    ensures var m' := Repairs(Activate(m, next, false, instance), ops);
            m'.journal.None? ==> Settled(m', m.files, next)
  {
    ActivateOutcome(m, next, false, instance);
    RepairsKeepAtomic(Activate(m, next, false, instance), ops, m.files, next);
  }

  /** An activation started over an interrupted one first finishes taking that one back. */
  lemma ActivateOverStaged(m: Machine, was: Pair, mid: Pair, next: Pair, instance: Option<nat>)
    requires m.status == Running && Atomic(m, was, mid)
    ensures var m' := Activate(m, next, false, instance);
            Atomic(m', was, mid) || Atomic(m', was, next) || Atomic(m', mid, next)
  {
    if m.journal.Some? {
      RestoreOutcome(m, m.journal.value, true, was, mid);
      var recovered := RecoverRecord(m, m.journal.value);
      hide Restore;
      if recovered.status == Running {
        ActivateOutcome(recovered, next, false, instance);
        assert Activate(m, next, false, instance) == Activate(recovered, next, false, instance);
      }
    } else {
      ActivateOutcome(m, next, false, instance);
    }
  }

  /** One process: an immediate activation or a repair. */
  datatype Deed = Activating(next: Pair, instance: Option<nat>) | Repairing(op: Repair)

  /** Any mix of processes one after the other, each with its own fates, each perhaps dying half-way. */
  function Deeds(m: Machine, deeds: seq<(Deed, seq<Fate>)>): Machine
    decreases |deeds|
  {
    if deeds == [] then m
    else
      var (deed, fates) := deeds[|deeds| - 1];
      var process := Deeds(m, deeds[..|deeds| - 1]).(status := Running, fates := fates);
      match deed
      case Activating(next, instance) => Activate(process, next, false, instance)
      case Repairing(op) => Apply(process, op)
  }

  /** The pair the processes started from, and those they were asked for. */
  function Requested(start: Pair, deeds: seq<(Deed, seq<Fate>)>): set<Pair>
    decreases |deeds|
  {
    if deeds == [] then {start}
    else
      var deed := deeds[|deeds| - 1].0;
      Requested(start, deeds[..|deeds| - 1]) + if deed.Activating? then {deed.next} else {}
  }

  lemma {:induction false} DeedsKeepAtomic(m: Machine, deeds: seq<(Deed, seq<Fate>)>) returns (was: Pair, next: Pair)
    requires m.journal.None? && m.loaded == m.files.site
    ensures was in Requested(m.files, deeds) && next in Requested(m.files, deeds) && Atomic(Deeds(m, deeds), was, next)
    decreases |deeds|
  {
    if deeds == [] {
      return m.files, m.files;
    }
    var before := deeds[..|deeds| - 1];
    var (deed, fates) := deeds[|deeds| - 1];
    var w, n := DeedsKeepAtomic(m, before);
    var process := Deeds(m, before).(status := Running, fates := fates);
    assert Atomic(process, w, n);
    if deed.Repairing? {
      RepairKeepsAtomic(process, deed.op, w, n);
      return w, n;
    }
    ActivateOverStaged(process, w, n, deed.next, deed.instance);
    hide Atomic, Activate;
    var after := Activate(process, deed.next, false, deed.instance);
    if Atomic(after, w, n) { return w, n; }
    if Atomic(after, w, deed.next) { return w, deed.next; }
    return n, deed.next;
  }

  /**
   Whatever immediate activations and repairs follow each other, each stopping anywhere: whenever no
   journal is left, the files are one whole requested pair, or the first one, and nginx serves its site.
   */
  lemma AnyMixSettles(m: Machine, deeds: seq<(Deed, seq<Fate>)>)
    requires m.journal.None? && m.loaded == m.files.site
    ensures var m' := Deeds(m, deeds);
            m'.journal.None? ==> m'.files in Requested(m.files, deeds) && m'.loaded == m'.files.site
  {
    var was, next := DeedsKeepAtomic(m, deeds);
  }

  // ---- What success means ----------------------------------------------------

  predicate AllDone(fates: seq<Fate>, n: nat) {
    n <= |fates| && forall i | 0 <= i < n :: fates[i] == Done
  }

  /** After `n` steps the process still runs exactly if they were all done. */
  ghost predicate Took(m: Machine, fates: seq<Fate>, n: nat) {
    if m.status == Running then AllDone(fates, n) && m.fates == fates[n..] else !AllDone(fates, n)
  }

  lemma StepTook(m: Machine, a: Action, fates: seq<Fate>, n: nat)
    requires Took(m, fates, n)
    ensures Took(Do(m, a), fates, n + 1)
    ensures m.status != Running ==> forall k | n <= k :: !AllDone(fates, k)
  {
    if m.status == Running && m.fates != [] {
      assert fates[n..][0] == fates[n] && fates[n..][1..] == fates[n + 1..];
      hide Effect;
    }
  }

  function RestoreSteps(r: Record, refresh: bool): nat {
    4 + (if r.nginxChanged then 1 else 0) + (if refresh then 2 else 0)
  }

  /** A restore runs through exactly if its steps are all done. */
  lemma RestoreTakes(m: Machine, r: Record, refresh: bool)
    requires m.status == Running
    ensures Restore(m, r, refresh).status == Running <==> AllDone(m.fates, RestoreSteps(r, refresh))
  {
    hide Do;
    assert Took(m, m.fates, 0);
    StepTook(m, WriteSite(r.saved.site), m.fates, 0);
    var m1 := Do(m, WriteSite(r.saved.site));
    StepTook(m1, WriteConfig(r.saved.config), m.fates, 1);
    var m2 := Do(m1, WriteConfig(r.saved.config));
    StepTook(m2, Check, m.fates, 2);
    var m3 := Do(m2, Check);
    if r.nginxChanged { StepTook(m3, Reload, m.fates, 3); }
    var n, m4 := if r.nginxChanged then 4 else 3, DoIf(m3, r.nginxChanged, Reload);
    if refresh {
      StepTook(m4, Check, m.fates, n);
      StepTook(Do(m4, Check), Check, m.fates, n + 1);
    }
    var k, m6 := if refresh then n + 2 else n, DoIf(DoIf(m4, refresh, Check), refresh, Check);
    StepTook(m6, ClearJournal, m.fates, k);
  }

  function SwitchSteps(r: Record, defer: bool): nat {
    2 + (if r.nginxChanged then 2 else 0) + (if defer then 1 else 2)
  }

  lemma SwitchTakes(m: Machine, r: Record, next: Pair, defer: bool, fates: seq<Fate>, n: nat)
    requires m.status == Running && Took(m, fates, n)
    ensures Took(Switch(m, r, next, defer), fates, n + SwitchSteps(r, defer))
  {
    hide Do, Took;
    StepTook(m, WriteSite(next.site), fates, n);
    var n1, m1 := if r.nginxChanged then n + 1 else n, DoIf(m, r.nginxChanged, WriteSite(next.site));
    StepTook(m1, Check, fates, n1);
    var m2 := Do(m1, Check);
    StepTook(m2, WriteConfig(next.config), fates, n1 + 1);
    var m3 := Do(m2, WriteConfig(next.config));
    StepTook(m3, Reload, fates, n1 + 2);
    var n4, m4 := if r.nginxChanged then n1 + 3 else n1 + 2, DoIf(m3, r.nginxChanged, Reload);
    StepTook(m4, Check, fates, n4);
    StepTook(Do(m4, Check), Check, fates, n4 + 1);
    StepTook(m4, WriteJournal(r.(phase := PendingRestart)), fates, n4);
  }

  /** The steps of an immediate activation, up to where the journal is cleared. */
  function ActivateSteps(was: Pair, next: Pair): nat { if was.site != next.site then 8 else 6 }

  /**
   An immediate activation succeeds exactly if its steps are all done, and then both files are new, nginx
   serves the new site and no journal is left. When it raises without a journal it has put everything
   back, unless it was only the clearing of the journal that raised, after the journal was gone.
   */
  lemma ActivateExact(m: Machine, next: Pair, instance: Option<nat>)
    requires m.status == Running && m.journal.None? && m.loaded == m.files.site
    requires m.files.site.Some? && m.files != next
    ensures var m', n := Activate(m, next, false, instance), ActivateSteps(m.files, next);
            && (m'.status == Running <==> AllDone(m.fates, n + 1))
            && (m'.status == Running ==> m'.files == next && m'.loaded == next.site && m'.journal.None?)
            && (m'.status == Raised && m'.journal.None? ==>
                  if AllDone(m.fates, n) then m'.files == next && m'.loaded == next.site
                  else m'.files == m.files && m'.loaded == m.files.site)
  {
    hide Do, Took, AllDone;
    var r, asked, n := NewRecord(m, next, instance), Do(m, Check), ActivateSteps(m.files, next);
    Start(m);
    StepTook(m, Check, m.fates, 0);
    CheckStep(m);
    StepTook(asked, WriteJournal(r), m.fates, 1);
    JournalStep(asked, WriteJournal(r));
    var staged := Do(asked, WriteJournal(r));
    TookMore(asked, m.fates, 1, n);
    TookMore(staged, m.fates, 2, n);
    if asked.status == Running && staged.status == Running {
      SwitchTakes(staged, r, next, false, m.fates, 2);
      SwitchOutcome(staged, r, m.files, next, false);
      hide Switch, Restore;
      var switched := Switch(staged, r, next, false);
      TookMore(switched, m.fates, n, n);
      StepTook(switched, ClearJournal, m.fates, n);
      JournalStep(switched, ClearJournal);
      TookMore(Do(switched, ClearJournal), m.fates, n + 1, n + 1);
      if switched.status == Raised {
        RestoreOutcome(switched.(status := Running), r, true, m.files, next);
      }
    }
  }

  lemma CheckStep(m: Machine)
    ensures var m' := Do(m, Check); m'.files == m.files && m'.loaded == m.loaded && m'.journal == m.journal
  {
  }

  lemma Start(m: Machine)
    requires m.status == Running
    ensures Took(m, m.fates, 0)
  {
  }

  lemma TookMore(m: Machine, fates: seq<Fate>, n: nat, k: nat)
    requires Took(m, fates, n) && n <= k
    ensures m.status != Running ==> !AllDone(fates, k) && !AllDone(fates, k + 1)
    ensures m.status == Running ==> AllDone(fates, n)
  {
  }

  /** Nothing to change is success without a step; without a site, an activation is refused. */
  lemma NothingToActivate(m: Machine, next: Pair, defer: bool, instance: Option<nat>)
    requires m.status == Running && m.journal.None? && (m.files.site.None? || m.files == next)
    ensures Activate(m, next, defer, instance) == if m.files.site.None? then m.(status := Raised) else m
  {
  }

  /** An interrupted switch is only ever taken back by a full recovery or a rollback. */
  lemma StagedExact(m: Machine, op: Repair, was: Pair, next: Pair)
    requires m.status == Running && Atomic(m, was, next) && m.journal.Some?
    ensures var m' := Apply(m, op);
            if op.Recover? || op.Rollback?
            then var refresh := if op.Rollback? then op.refresh else true;
                 && (m'.status == Running <==> AllDone(m.fates, RestoreSteps(m.journal.value, refresh)))
                 && (m'.status == Running ==> m'.files == was && m'.loaded == was.site && m'.journal.None?)
            else m' == m.(status := Raised)
  {
    if op.Recover? || op.Rollback? {
      var r, refresh := m.journal.value, if op.Rollback? then op.refresh else true;
      RestoreTakes(m, r, refresh);
      RestoreOutcome(m, r, refresh, was, next);
      hide Restore;
    }
  }

  // ---- Records that wait for the manager's restart -------------------------

  /** A deferred activation handed over to the restart watchdog. */
  ghost predicate HandedOver(m: Machine, was: Pair, next: Pair) {
    && m.journal.Some? && m.journal.value.phase == PendingRestart && Records(m.journal.value, was, next)
    && m.files == next && m.loaded == next.site
  }

  lemma AdoptOutcome(m: Machine, r: Record)
    requires m.status == Running
    ensures var m' := Adopt(m, r);
            && m'.files == m.files && m'.loaded == m.loaded && m'.journal == m.journal
            && (m'.status == Running ==> m.files.config == r.newConfig)
  {
  }

  /** One repair of a handed-over activation settles it, or leaves the journal in place. */
  lemma HandedOverRepair(m: Machine, op: Repair, was: Pair, next: Pair)
    requires m.status == Running && HandedOver(m, was, next)
    ensures var m' := Apply(m, op);
            && (m'.journal.None? ==> Settled(m', was, next))
            && (m'.journal.Some? ==> m'.journal == m.journal && Between(m', was, next))
            && (m'.journal.Some? && (op.Recover? || op.RecoverPending?) ==> HandedOver(m', was, next))
  {
    var r := m.journal.value;
    AdoptOutcome(m, r);
    var adopted := Adopt(m, r);
    JournalStep(adopted, ClearJournal);
    RestoreOutcome(adopted.(status := Running), r, true, was, next);
    RestoreOutcome(m, r, if op.Rollback? then op.refresh else true, was, next);
    hide Restore, Adopt, Do;
  }

  function AdoptSteps(r: Record): nat { if r.oldInstance.Some? then 2 else 1 }

  lemma AdoptTakes(m: Machine, r: Record)
    requires m.status == Running && m.files.config == r.newConfig
    ensures Took(Adopt(m, r), m.fates, AdoptSteps(r))
  {
    hide Do, Took;
    Start(m);
    StepTook(m, Check, m.fates, 0);
    StepTook(Do(m, Check), Check, m.fates, 1);
  }

  /**
   Finishing or recovering a handed-over activation succeeds exactly if its steps are all done, and then
   the new pair stays. When finishing raises without a journal, the old pair is back, unless it was only
   the clearing of the journal that raised; a recovery that fails changes nothing but perhaps the journal.
   */
  lemma AdoptionExact(m: Machine, op: Repair, was: Pair, next: Pair)
    requires m.status == Running && HandedOver(m, was, next) && !op.Rollback?
    ensures var m', n := Apply(m, op), AdoptSteps(m.journal.value);
            && (m'.status == Running <==> AllDone(m.fates, n + 1))
            && (m'.status == Running ==> m'.files == next && m'.loaded == next.site && m'.journal.None?)
            && (m'.status == Raised && m'.journal.None? ==>
                  if AllDone(m.fates, n) then m'.files == next && m'.loaded == next.site
                  else m'.files == was && m'.loaded == was.site)
            && (!op.Finish? ==> m'.files == next && m'.loaded == next.site)
  {
    hide Do, Took, AllDone;
    var r := m.journal.value;
    var n, adopted := AdoptSteps(r), Adopt(m, r);
    AdoptOutcome(m, r);
    AdoptTakes(m, r);
    TookMore(adopted, m.fates, n, n);
    StepTook(adopted, ClearJournal, m.fates, n);
    TookMore(Do(adopted, ClearJournal), m.fates, n + 1, n + 1);
    JournalStep(adopted, ClearJournal);
    RestoreOutcome(adopted.(status := Running), r, true, was, next);
    hide Restore, Adopt;
  }

  /** A pending record whose configuration is no longer the one it names is not adopted: a recovery only fails, finishing restores. */
  lemma CandidateChanged(m: Machine, op: Repair, was: Pair, next: Pair)
    requires m.status == Running && m.journal.Some? && m.journal.value.phase == PendingRestart
    requires Records(m.journal.value, was, next) && Between(m, was, next) && m.files.config != next.config && !op.Rollback?
    ensures var m' := Apply(m, op);
            && m'.status != Running
            && (!op.Finish? ==> m' == m.(status := Raised))
            && (m'.journal.None? ==> m'.files == was && m'.loaded == was.site)
            && (op.Finish? && AllDone(m.fates, RestoreSteps(m.journal.value, true)) ==> m'.journal.None?)
  {
    RestoreTakes(m, m.journal.value, true);
    RestoreOutcome(m, m.journal.value, true, was, next);
    hide Restore;
  }

  /** A rollback of a handed-over activation that runs through brings the old pair back. */
  lemma RollbackExact(m: Machine, refresh: bool, was: Pair, next: Pair)
    requires m.status == Running && HandedOver(m, was, next)
    ensures var m' := Apply(m, Rollback(refresh));
            && (m'.status == Running <==> AllDone(m.fates, RestoreSteps(m.journal.value, refresh)))
            && (m'.status == Running ==> m'.files == was && m'.loaded == was.site && m'.journal.None?)
  {
    RestoreTakes(m, m.journal.value, refresh);
    RestoreOutcome(m, m.journal.value, refresh, was, next);
    hide Restore;
  }

  /** Recoveries alone never touch a handed-over activation: they adopt it or leave it. */
  lemma {:induction false} RecoveriesKeepHandedOver(
    m: Machine, ops: seq<(Repair, seq<Fate>)>, was: Pair, next: Pair)
    requires HandedOver(m, was, next)
    requires forall i | 0 <= i < |ops| :: ops[i].0 == Recover || ops[i].0 == RecoverPending
    ensures var m' := Repairs(m, ops); HandedOver(m', was, next) || (m'.journal.None? && Settled(m', was, next))
    decreases |ops|
  {
    if ops != [] {
      var process := m.(status := Running, fates := ops[0].1);
      HandedOverRepair(process, ops[0].0, was, next);
      var m1 := Apply(process, ops[0].0);
      hide Apply;
      if m1.journal.Some? {
        RecoveriesKeepHandedOver(m1, ops[1..], was, next);
      } else {
        NothingToRepair(m1, ops[1..]);
      }
    }
  }

  lemma {:induction false} NothingToRepair(m: Machine, ops: seq<(Repair, seq<Fate>)>)
    requires m.journal.None?
    ensures var m' := Repairs(m, ops); m'.files == m.files && m'.loaded == m.loaded && m'.journal.None?
    decreases |ops|
  {
    if ops != [] {
      NothingToRepair(m.(status := Running, fates := ops[0].1), ops[1..]);
    }
  }

  /** The promise for one machine and everything that may be done to repair it. */
  ghost predicate SettlesEventually(m: Machine, was: Pair, next: Pair) {
    forall ops: seq<(Repair, seq<Fate>)> ::
      Repairs(m, ops).journal.None? ==> Settled(Repairs(m, ops), was, next)
  }

  /** Some steps happened under a record that only changes the configuration. */
  ghost predicate ConfigOnly(m: Machine, was: Pair, next: Pair) {
    && was.site == next.site && Between(m, was, next)
    && (m.journal.Some? ==> Records(m.journal.value, was, next))
  }

  lemma ConfigOnlyRepair(m: Machine, op: Repair, was: Pair, next: Pair)
    requires m.status == Running && ConfigOnly(m, was, next)
    ensures ConfigOnly(Apply(m, op), was, next)
  {
    if m.journal.Some? {
      var r := m.journal.value;
      AdoptOutcome(m, r);
      var adopted := Adopt(m, r);
      JournalStep(adopted, ClearJournal);
      RestoreOutcome(adopted.(status := Running), r, true, was, next);
      RestoreOutcome(m, r, if op.Rollback? then op.refresh else true, was, next);
      hide Restore, Adopt, Do;
    }
  }

  lemma {:induction false} ConfigOnlyRepairs(m: Machine, ops: seq<(Repair, seq<Fate>)>, was: Pair, next: Pair)
    requires ConfigOnly(m, was, next)
    ensures ConfigOnly(Repairs(m, ops), was, next)
    decreases |ops|
  {
    if ops != [] {
      var process := m.(status := Running, fates := ops[0].1);
      ConfigOnlyRepair(process, ops[0].0, was, next);
      hide Apply;
      ConfigOnlyRepairs(Apply(process, ops[0].0), ops[1..], was, next);
    }
  }

  /** The rollback dies between the two files; the recovery then finds the new configuration. */
  lemma HalfRestoredIsAdopted(m: Machine, was: Pair, next: Pair)
    requires HandedOver(m, was, next) && was.site != next.site
    ensures exists ops: seq<(Repair, seq<Fate>)> ::
              Repairs(m, ops).journal.None? && Repairs(m, ops).files == Pair(next.config, was.site)
    ensures !SettlesEventually(m, was, next)
  {
    var first, second := (Rollback(false), [Done, Dies(false)]), (Recover, [Done, Done, Done]);
    var ops := [first, second];
    var half := Apply(m.(status := Running, fates := first.1), first.0);
    assert half.journal == m.journal && half.files == Pair(next.config, was.site) && half.loaded == next.site;
    var r := m.journal.value;
    var ready := half.(status := Running, fates := second.1);
    assert Do(ready, Check) == ready.(fates := [Done, Done]);
    var adopted := Apply(ready, second.0);
    assert adopted.journal.None? && adopted.files == half.files && adopted.loaded == half.loaded;
    assert ops[1..] == [second] && ops[1..][1..] == [];
    assert Repairs(m, ops) == Repairs(half, [second]) == adopted;
  }

  /**
   A restore that starts from a record waiting for the restart does not mark it as staged first.
   Repairing a handed-over activation keeps the promise at every crash point if and only if the
   activation leaves the nginx site alone.
   */
  lemma HandedOverExact(m: Machine, was: Pair, next: Pair)
    requires HandedOver(m, was, next)
    ensures SettlesEventually(m, was, next) <==> was.site == next.site
  {
    if was.site == next.site {
      forall ops: seq<(Repair, seq<Fate>)> ensures Repairs(m, ops).journal.None? ==> Settled(Repairs(m, ops), was, next) {
        ConfigOnlyRepairs(m, ops, was, next);
      }
    } else {
      HalfRestoredIsAdopted(m, was, next);
    }
  }

  /** The same for a deferred activation as a whole, whatever its own fates. */
  lemma DeferredExact(m: Machine, next: Pair, instance: Option<nat>)
    requires m.status == Running && m.journal.None? && m.loaded == m.files.site
    requires m.files.site.Some? && m.files != next
    ensures (forall fates: seq<Fate> ::
               SettlesEventually(Activate(m.(fates := fates), next, true, instance), m.files, next))
            <==> m.files.site == next.site
  {
    if m.files.site == next.site {
      forall fates: seq<Fate>, ops: seq<(Repair, seq<Fate>)>
        ensures var m' := Repairs(Activate(m.(fates := fates), next, true, instance), ops);
                m'.journal.None? ==> Settled(m', m.files, next)
      {
        var start := m.(fates := fates);
        ActivateOutcome(start, next, true, instance);
        ConfigOnlyRepairs(Activate(start, next, true, instance), ops, m.files, next);
      }
    } else {
      var start := m.(fates := [Done, Done, Done, Done, Done, Done, Done]);
      DeferredTakes(start, next, instance);
      HalfRestoredIsAdopted(Activate(start, next, true, instance), m.files, next);
    }
  }

  /** A deferred activation is handed over exactly if its steps are all done. */
  lemma DeferredTakes(m: Machine, next: Pair, instance: Option<nat>)
    requires m.status == Running && m.journal.None? && m.loaded == m.files.site
    requires m.files.site.Some? && m.files != next
    ensures var m' := Activate(m, next, true, instance);
            && (m'.status == Running <==> AllDone(m.fates, if m.files.site != next.site then 7 else 5))
            && (m'.status == Running ==> HandedOver(m', m.files, next) && m'.journal.value.oldInstance == instance)
  {
    hide Do, Took, AllDone;
    var r, asked := NewRecord(m, next, instance), Do(m, Check);
    var n := 2 + SwitchSteps(r, true);
    Start(m);
    StepTook(m, Check, m.fates, 0);
    CheckStep(m);
    StepTook(asked, WriteJournal(r), m.fates, 1);
    JournalStep(asked, WriteJournal(r));
    var staged := Do(asked, WriteJournal(r));
    TookMore(asked, m.fates, 1, n);
    TookMore(staged, m.fates, 2, n);
    if asked.status == Running && staged.status == Running {
      SwitchTakes(staged, r, next, true, m.fates, 2);
      SwitchOutcome(staged, r, m.files, next, true);
      TookMore(Switch(staged, r, next, true), m.fates, n, n);
      hide Switch, Restore;
    }
  }
}
