/** `Activation`: the journal's operations step by step, on the files and on nginx in place. */
module Activation {
  import opened Bytes
  import J = Journal
  import opened Options

  class Activation {
    var config: J.File
    var site: J.File
    var loaded: J.File
    var journal: Option<J.Record>
    var fates: seq<J.Fate>       // what the system will let happen, step by step

    /** The files and the process that works on them, as the specification sees them. */
    function State(status: J.Status): (m: J.Machine) reads this {
      J.Machine(J.Pair(config, site), loaded, journal, fates, status)
    }

    constructor (config: J.File, site: J.File, fates: seq<J.Fate>)
      ensures State(J.Running) == J.Machine(J.Pair(config, site), site, None, fates, J.Running)
    {
      this.config, this.site, loaded, journal, this.fates := config, site, site, None, fates;
    }

    /** One step on the outside world: it happens, raises, or is the process's last. */
    method Step(a: J.Action) returns (s: J.Status)
      modifies this
      ensures State(s) == J.Do(old(State(J.Running)), a)
    {
      if fates == [] {
        return J.Dead;
      }
      var fate := fates[0];
      fates := fates[1..];
      if fate.Done? || fate.applied {
        match a
        case WriteJournal(r) => journal := Some(r);
        case ClearJournal => journal := None;
        case WriteSite(f) => site := f;
        case WriteConfig(f) => config := f;
        case Reload => loaded := site;
        case Check =>
      }
      s := match fate case Done => J.Running case Raises(_) => J.Raised case Dies(_) => J.Dead;
    }

    method Restore(r: J.Record, refresh: bool) returns (s: J.Status)
      modifies this
      ensures State(s) == J.Restore(old(State(J.Running)), r, refresh)
    {
      hide J.Do;
      s := Step(J.WriteSite(r.saved.site));
      if s == J.Running { s := Step(J.WriteConfig(r.saved.config)); }
      if s == J.Running { s := Step(J.Check); }
      if s == J.Running && r.nginxChanged { s := Step(J.Reload); }
      if s == J.Running && refresh {
        s := Step(J.Check);
        if s == J.Running { s := Step(J.Check); }
      }
      if s == J.Running { s := Step(J.ClearJournal); }
    }

    method Adopt(r: J.Record) returns (s: J.Status)
      modifies this
      ensures State(s) == J.Adopt(old(State(J.Running)), r)
    {
      hide J.Do;
      if config != r.newConfig {
        return J.Raised;
      }
      s := Step(J.Check);
      if s == J.Running && r.oldInstance.Some? { s := Step(J.Check); }
    }

    method RecoverRecord(r: J.Record) returns (s: J.Status)
      modifies this
      ensures State(s) == J.RecoverRecord(old(State(J.Running)), r)
    {
      hide J.Do, J.Adopt, J.Restore;
      if r.phase == J.PendingRestart {
        s := Adopt(r);
        if s == J.Running { s := Step(J.ClearJournal); }
      } else {
        s := Restore(r, true);
      }
    }

    method Repair(op: J.Repair) returns (s: J.Status)
      modifies this
      ensures State(s) == J.Apply(old(State(J.Running)), op)
    {
      hide J.Do, J.Adopt, J.Restore, J.RecoverRecord;
      if journal.None? {
        return J.Running;
      }
      var r := journal.value;
      match op
      case Recover =>
        s := RecoverRecord(r);
      case RecoverPending =>
        if r.phase != J.PendingRestart {
          return J.Raised;
        }
        s := RecoverRecord(r);
      case Finish =>
        if r.phase != J.PendingRestart {
          return J.Raised;
        }
        s := Adopt(r);
        if s == J.Raised {
          s := Restore(r, true);
          s := if s == J.Running then J.Raised else s;
        } else if s == J.Running {
          s := Step(J.ClearJournal);
        }
      case Rollback(refresh) =>
        s := Restore(r, refresh);
    }

    method Switch(r: J.Record, next: J.Pair, defer: bool) returns (s: J.Status)
      modifies this
      ensures State(s) == J.Switch(old(State(J.Running)), r, next, defer)
    {
      hide J.Do;
      s := J.Running;
      if r.nginxChanged { s := Step(J.WriteSite(next.site)); }
      if s == J.Running { s := Step(J.Check); }
      if s == J.Running { s := Step(J.WriteConfig(next.config)); }
      if s == J.Running && r.nginxChanged { s := Step(J.Reload); }
      if s == J.Running {
        if defer {
          s := Step(J.WriteJournal(r.(phase := J.PendingRestart)));
        } else {
          s := Step(J.Check);
          if s == J.Running { s := Step(J.Check); }
        }
      }
    }

    /** The handler's promise at every crash point is stated by Journal.CrashAtomicity. */
    method Activate(next: J.Pair, defer: bool, instance: Option<nat>) returns (s: J.Status)
      modifies this
      ensures State(s) == J.Activate(old(State(J.Running)), next, defer, instance)
      ensures old(journal).None? && old(loaded) == old(site) && !defer && journal.None? ==>
                loaded == site && ((config == old(config) && site == old(site)) || J.Pair(config, site) == next)
      ensures old(journal).None? && old(loaded) == old(site) && !defer && s == J.Running ==>
                J.Pair(config, site) == next && loaded == site && journal.None?
    {
      hide J.Do, J.Restore, J.Switch, J.RecoverRecord;
      ghost var start := State(J.Running);
      if start.journal.None? && start.loaded == start.files.site {
        J.ActivateOutcome(start, next, defer, instance);
        if site.Some? && start.files != next { J.ActivateExact(start, next, instance); }
      }
      s := J.Running;
      if journal.Some? { s := RecoverRecord(journal.value); }
      if s != J.Running {
        return;
      }
      if site.None? {
        return J.Raised;
      }
      if J.Pair(config, site) == next {
        return;
      }
      var r := J.NewRecord(State(s), next, instance);
      s := Step(J.Check);
      if s == J.Running { s := Step(J.WriteJournal(r)); }
      if s == J.Running {
        s := Switch(r, next, defer);
        if s == J.Raised {
          s := Restore(r, true);
          s := if s == J.Running then J.Raised else s;
        } else if s == J.Running && !defer {
          s := Step(J.ClearJournal);
        }
      }
    }
  }
}
