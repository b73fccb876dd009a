/** Settlement as it runs: runs are heap objects, and the gate reads the containment verdict only because
    the registry updates the same object that complete() holds. */
module Dispatcher {
  import opened Prelude
  import opened RunStatus
  import opened EvidenceGate
  import opened Settlement
  import opened SettlementTerms

  class Run {
    var record: RunRecord
    const top: bool
    var mutating: bool
    var status: Status
    var evidence: Option<Evidence>

    constructor (record: RunRecord, top: bool)
      ensures View() == RunState(record, top, false, Running, None)
    {
      this.record, this.top, mutating, status, evidence := record, top, false, Running, None;
    }

    function View(): RunState
      reads this
    {
      RunState(record, top, mutating, status, evidence)
    }
  }

  class RunRegistry {
    var runs: map<Id, Run>

    /** Each id has its own object, which carries that id. */
    predicate Valid()
      reads this, runs.Values
    {
      && (forall a, b :: a in runs && b in runs && runs[a] == runs[b] ==> a == b)
      && forall id <- runs :: runs[id].record.runId == id
    }

    function View(): map<Id, RunState>
      reads this, runs.Values
    {
      map id | id in runs :: runs[id].View()
    }

    constructor ()
      ensures Valid() && View() == map[] && fresh(this)
    {
      runs := map[];
    }

    /** An id that is already there is overwritten. */
    method Add(id: Id, run: Run)
      requires Valid() && run !in runs.Values && run.record.runId == id
      modifies this
      ensures Valid() && runs == old(runs)[id := run] && View() == old(View())[id := run.View()]
    {
      runs := runs[id := run];
    }

    method SetContainment(id: Id, code: Containment)
      requires Valid() && id in runs
      modifies runs[id]
      ensures Valid()
      ensures runs[id].View() == old(runs[id].View()).(record := old(runs[id].record).(containment := Some(code)))
      ensures View() == old(View())[id := runs[id].View()]
    {
      var run := runs[id];
      run.record := run.record.(containment := Some(code));
    }

    method SetSettled(id: Id, status: Status, evidence: Option<Evidence>)
      requires Valid() && id in runs
      modifies runs[id]
      ensures Valid()
      ensures var before := old(runs[id].View());
        View() == old(View())[id := before.(status := status,
          evidence := if evidence.Some? then evidence else before.evidence)]
    {
      var run := runs[id];
      run.status := status;
      if evidence.Some? {
        run.evidence := evidence;
      }
    }
  }

  class Dispatcher {
    const registry: RunRegistry
    /** The launcher's pre-launch snapshots of runs in flight, consumed by the recorder it wires in. */
    var snapshots: set<Id>

    predicate Valid()
      reads this, registry, registry.runs.Values
    {
      registry.Valid()
    }

    constructor (registry: RunRegistry)
      ensures this.registry == registry && snapshots == {}
    {
      this.registry, snapshots := registry, {};
    }

    /** Registers a new run object; a child inherits its parent's issue and nothing else the gate reads. */
    method SpawnChild(id: Id, parent: Id, second: int) returns (ok: bool)
      requires Valid()
      modifies registry
      ensures Valid() && (ok <==> parent in old(registry.runs))
      ensures registry.View() ==
        if ok then old(registry.View())[id := NewRun(id, old(registry.View())[parent].record.issueId, false, second)]
        else old(registry.View())
    {
      if parent !in registry.runs {
        return false;
      }
      var run := new Run(NewRun(id, registry.runs[parent].record.issueId, false, second).record, false);
      registry.Add(id, run);
      return true;
    }

    method RecordContainment(id: Id, scan: Containment)
      requires Valid() && id in registry.runs
      modifies `snapshots, registry.runs[id]
      ensures Valid() && snapshots == old(snapshots) - {id}
      ensures registry.runs[id].View() == Recorded(old(registry.runs[id].View()), id in old(snapshots), scan)
      ensures id in old(snapshots) ==> registry.runs[id].record.containment == Some(scan)
      ensures registry.View() == old(registry.View())[id := registry.runs[id].View()]
    {
      var run := registry.runs[id];
      if id in snapshots {
        snapshots := snapshots - {id};
        registry.SetContainment(id, scan);
      } else if run.mutating && run.top && run.record.containment.None? {
        registry.SetContainment(id, SnapshotMissing);
      }
    }

    /** The hook's scan: an unknown run only loses its snapshot. */
    method TerminalContainment(id: Id, scan: Containment)
      requires Valid()
      modifies `snapshots, if id in registry.runs then {registry.runs[id]} else {}
      ensures Valid() && snapshots == old(snapshots) - {id}
      ensures registry.View() ==
        var before := old(registry.View());
        if id in registry.runs then
          before[id := Recorded(old(registry.runs[id].View()), id in old(snapshots), scan)]
        else before
    {
      hide Recorded;
      if id in registry.runs {
        RecordContainment(id, scan);
      } else {
        snapshots := snapshots - {id};
      }
    }

    /** Refuses an unknown or terminal run and changes nothing; otherwise settles it. */
    method Complete(id: Id, outcome: Outcome, env: Envelope, a: Answers) returns (ok: bool)
      requires Valid() && a.scan != SnapshotMissing
      requires id in registry.runs && a.git.Some? ==> Faithful(a.git.value, registry.runs[id].record)
      modifies `snapshots, if id in registry.runs then {registry.runs[id]} else {}
      ensures Valid()
      ensures ok <==> id in registry.runs && old(registry.View())[id].status.Running?
      ensures !ok ==> registry.View() == old(registry.View()) && snapshots == old(snapshots)
      ensures ok ==>
        && snapshots == old(snapshots) - {id}
        && registry.View() ==
             old(registry.View())[id := Settled(old(registry.runs[id].View()), id in old(snapshots), outcome, env, a)]
      ensures ok && old(registry.runs[id].mutating) && id in old(snapshots) && a.scan in {CheckoutDirty, ScanError} ==>
        registry.View()[id].status != Done(Succeeded)
    {
      hide Correlate, Faithful, Recover, Gate, Recorded, Settled;
      if id !in registry.runs || registry.runs[id].status.Done? {
        return false;
      }
      if registry.runs[id].mutating && id in snapshots && a.scan in {CheckoutDirty, ScanError} {
        BadScanNeverSucceeds(registry.runs[id].View(), outcome, env, a);
      }
      SettleLocked(id, outcome, env, a);
      return true;
    }

    /** The recorder updates the object `run` names, so the gate below reads the verdict just recorded. */
    method SettleLocked(id: Id, outcome: Outcome, env: Envelope, a: Answers)
      requires Valid() && id in registry.runs && a.scan != SnapshotMissing
      requires a.git.Some? ==> Faithful(a.git.value, registry.runs[id].record)
      modifies `snapshots, registry.runs[id]
      ensures Valid() && snapshots == old(snapshots) - {id}
      ensures registry.View() ==
        old(registry.View())[id := Settled(old(registry.runs[id].View()), id in old(snapshots), outcome, env, a)]
    {
      hide Correlate, Faithful, Recover, Gate, Recorded, RunRegistry.Valid, RunRegistry.View;
      ghost var before := registry.runs[id].View();
      var run := registry.runs[id];
      if a.git.Some? { RecordedSameGit(before, id in snapshots, a.scan, a.git.value); }
      RecordContainment(id, a.scan);
      var (claimed, report) := Recover(run.record, outcome, env, a);
      var final, evidence := GateCommit(run, claimed, report, a);
      registry.SetSettled(id, Done(final), evidence);
    }

    method GateCommit(run: Run, outcome: Outcome, env: Envelope, a: Answers)
      returns (final: Outcome, evidence: Option<Evidence>)
      requires a.git.Some? ==> Faithful(a.git.value, run.record)
      ensures (final, evidence) == Gate(run.View(), outcome, env, a)
    {
      if outcome != Succeeded {
        return outcome, None;
      }
      if !run.mutating {
        return if a.passes then Succeeded else Blocked, None;
      }
      if a.git.None? {
        return Blocked, None;
      }
      var v := VerifyCommitCorrelation(a.git.value, run.record, env);
      match v
      case Accepted(e) => return Succeeded, Some(e);
      case Refused(_) => return Blocked, None;
    }
  }
}
