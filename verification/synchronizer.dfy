/**
 The synchronizer's rounds: apply a batch and delete what it no longer holds, purge
 a subscription, clean up statuses whose subscription is gone
 (pkg/synchronizer/kubernetes/synchronizer.go, sync_appsubstatus.go, sync_server.go).
 */
module Synchronizer {
  import opened Text
  import opened Cluster

  datatype Resource = Resource(template: Template, faults: ApplyFaults)

  /** The shared cluster and the unit lists stored in the SubscriptionStatus objects. */
  datatype State = State(objects: Objects, statuses: map<SubKey, seq<Unit>>)

  /** The REST mapping, and where the synchronizer runs: hub, standalone controller, the local cluster's agent. */
  datatype Config = Config(rest: RestMapper, hub: bool, standalone: bool, localCluster: bool)

  datatype SubLookup = Present | Gone | Unknown

  const LOCAL_SUFFIX := "-local"

  function TrimLocal(name: string): string {
    if |name| >= 6 && name[|name| - 6..] == LOCAL_SUFFIX then name[..|name| - 6] else name
  }

  function Trimmed(sub: SubKey): SubKey {
    NamespacedName(sub.ns, TrimLocal(sub.name))
  }

  /** isLocalCluster for names that end in "-local": the status of `x-local` is stored under `x`. */
  predicate SharesStatus(c: Config) {
    (c.hub && !c.standalone) || c.localCluster || c.standalone
  }

  /** The name under which the APPLY and DELETE actions store a subscription's units. */
  function StatusKey(c: Config, sub: SubKey): SubKey {
    if SharesStatus(c) then Trimmed(sub) else sub
  }

  /** The name under which a purge looks for them, by a test of its own. */
  function PurgeKey(c: Config, sub: SubKey): SubKey {
    if c.hub && !c.standalone then Trimmed(sub) else sub
  }

  // ----- what the loops compute

  /** The cluster and the units after the first resources of a batch. */
  function ApplyAll(c: Config, objs: Objects, sub: SubKey, isAdmin: bool, rs: seq<Resource>): (Objects, seq<Unit>)
    decreases |rs|
  {
    if rs == [] then (objs, [])
    else
      var (before, units) := ApplyAll(c, objs, sub, isAdmin, rs[..|rs| - 1]);
      var r := rs[|rs| - 1];
      var (after, unit) := ApplyResource(c.rest, before, sub, isAdmin, r.template, r.faults);
      (after, units + [unit])
  }

  predicate SameUnit(a: Unit, b: Unit) {
    a.name == b.name && a.ns == b.ns && a.kind == b.kind && a.apiVersion == b.apiVersion
  }

  predicate Listed(u: Unit, units: seq<Unit>) {
    exists i :: 0 <= i < |units| && SameUnit(u, units[i])
  }

  function Orphans(stored: seq<Unit>, units: seq<Unit>): seq<Unit>
    decreases |stored|
  {
    if stored == [] then []
    else
      var before, u := Orphans(stored[..|stored| - 1], units), stored[|stored| - 1];
      if Listed(u, units) then before else before + [u]
  }

  /** The cluster after deleting the units, and those whose deletion failed. */
  function DeleteAll(c: Config, objs: Objects, host: SubKey, units: seq<Unit>, faults: nat -> DeleteFaults)
    : (Objects, seq<Unit>)
    decreases |units|
  {
    if units == [] then (objs, [])
    else
      var (before, failed) := DeleteAll(c, objs, host, units[..|units| - 1], faults);
      var u := units[|units| - 1];
      var (after, ok) := DeleteUnit(c.rest, before, host, u, faults(|units| - 1));
      (after, if ok then failed else failed + [u.(phase := DeployFailed)])
  }

  // ----- rounds

  /** ProcessSubResources on a non-empty batch, with the APPLY action on the stored status. */
  function ApplyRound(c: Config, st: State, sub: SubKey, isAdmin: bool, rs: seq<Resource>,
                      faults: nat -> DeleteFaults, statusLookup: bool, statusWrite: bool): State
  {
    var (applied, units) := ApplyAll(c, st.objects, sub, isAdmin, rs);
    var key := StatusKey(c, sub);
    if statusLookup then State(applied, st.statuses)
    else if key !in st.statuses then
      State(applied, if statusWrite then st.statuses else st.statuses[key := units])
    else
      var (deleted, failed) := DeleteAll(c, applied, key, Orphans(st.statuses[key], units), faults);
      State(deleted, if statusWrite then st.statuses else st.statuses[key := units + failed])
  }

  function Stored(st: State, key: SubKey): seq<Unit> {
    if key in st.statuses then st.statuses[key] else []
  }

  function Stripped(sub: SubKey, units: seq<Unit>): seq<Unit> {
    seq(|units|, i requires 0 <= i < |units| => Unit("", "", sub.ns, units[i].name, DeployFailed))
  }

  /** PurgeAllSubscribedResources, with the DELETE action on the stored status. */
  function PurgeRound(c: Config, st: State, sub: SubKey, faults: nat -> DeleteFaults,
                      statusLookup: bool, subLookup: SubLookup, statusWrite: bool): State
  {
    if statusLookup then st
    else
      var (deleted, failed) := DeleteAll(c, st.objects, sub, Stored(st, PurgeKey(c, sub)), faults);
      var key := StatusKey(c, sub);
      State(deleted,
            if statusWrite || key !in st.statuses then st.statuses
            else if subLookup.Unknown? && failed != [] then st.statuses[key := Stripped(sub, failed)]
            else st.statuses - {key})
  }

  /** cleanup of one stored status */
  function CleanupRound(c: Config, st: State, key: SubKey, faults: nat -> DeleteFaults,
                        subLookup: SubLookup, statusWrite: bool): State
  {
    if key !in st.statuses || !subLookup.Gone? || st.statuses[key] == [] then st
    else
      var (deleted, failed) := DeleteAll(c, st.objects, key, st.statuses[key], faults);
      State(deleted, if failed == [] && !statusWrite then st.statuses - {key} else st.statuses)
  }

  // ----- the synchronizer object

  class KubeSynchronizer {
    const config: Config
    var objects: Objects
    var statuses: map<SubKey, seq<Unit>>

    ghost function Current(): State
      reads this
    {
      State(objects, statuses)
    }

    constructor (config: Config, objects: Objects, statuses: map<SubKey, seq<Unit>>)
      ensures this.config == config && Current() == State(objects, statuses)
    {
      this.config, this.objects, this.statuses := config, objects, statuses;
    }

    method DeleteUnits(host: SubKey, units: seq<Unit>, faults: nat -> DeleteFaults) returns (failed: seq<Unit>)
      modifies this`objects
      ensures (objects, failed) == DeleteAll(config, old(objects), host, units, faults)
    {
      failed := [];
      for i := 0 to |units|
        invariant (objects, failed) == DeleteAll(config, old(objects), host, units[..i], faults)
      {
        assert units[..i + 1][..i] == units[..i];
        var (after, ok) := DeleteUnit(config.rest, objects, host, units[i], faults(i));
        objects := after;
        if !ok {
          failed := failed + [units[i].(phase := DeployFailed)];
        }
      }
      assert units[..|units|] == units;
    }

    method ProcessSubResources(sub: SubKey, isAdmin: bool, resources: seq<Resource>, faults: nat -> DeleteFaults,
                               statusLookup: bool, subLookup: SubLookup, statusWrite: bool)
      modifies this
      ensures Current() ==
              if resources == [] then
                PurgeRound(config, old(Current()), sub, faults, statusLookup, subLookup, statusWrite)
              else ApplyRound(config, old(Current()), sub, isAdmin, resources, faults, statusLookup, statusWrite)
    {
      if |resources| == 0 {
        PurgeAllSubscribedResources(sub, faults, statusLookup, subLookup, statusWrite);
        return;
      }
      var units := [];
      for i := 0 to |resources|
        invariant statuses == old(statuses)
        invariant (objects, units) == ApplyAll(config, old(objects), sub, isAdmin, resources[..i])
      {
        assert resources[..i + 1][..i] == resources[..i];
        var r := resources[i];
        var (after, unit) := ApplyResource(config.rest, objects, sub, isAdmin, r.template, r.faults);
        objects := after;
        units := units + [unit];
      }
      assert resources[..|resources|] == resources;
      SyncApply(StatusKey(config, sub), units, faults, statusLookup, statusWrite);
    }

    /** SyncAppsubClusterStatus with action APPLY */
    method SyncApply(key: SubKey, units: seq<Unit>, faults: nat -> DeleteFaults, statusLookup: bool, statusWrite: bool)
      modifies this
      ensures statusLookup ==> Current() == old(Current())
      ensures !statusLookup && key !in old(statuses) ==>
                Current() == State(old(objects), if statusWrite then old(statuses) else old(statuses)[key := units])
      ensures !statusLookup && key in old(statuses) ==>
                var orphans := Orphans(old(statuses)[key], units);
                var (deleted, failed) := DeleteAll(config, old(objects), key, orphans, faults);
                Current() == State(deleted, if statusWrite then old(statuses) else old(statuses)[key := units + failed])
    {
      if statusLookup {
        return;
      }
      var newUnits := units;
      if key in statuses {
        var oldUnits := statuses[key];
        var deleteUnits := [];
        for i := 0 to |oldUnits|
          invariant deleteUnits == Orphans(oldUnits[..i], units)
        {
          assert oldUnits[..i + 1][..i] == oldUnits[..i];
          var found := false;
          var j := 0;
          while j < |units| && !found
            invariant 0 <= j <= |units|
            invariant found ==> Listed(oldUnits[i], units)
            invariant !found ==> forall l | 0 <= l < j :: !SameUnit(oldUnits[i], units[l])
          {
            found := SameUnit(oldUnits[i], units[j]);
            j := j + 1;
          }
          if !found {
            deleteUnits := deleteUnits + [oldUnits[i]];
          }
        }
        assert oldUnits[..|oldUnits|] == oldUnits;
        var failed := DeleteUnits(key, deleteUnits, faults);
        newUnits := newUnits + failed;
      }
      if !statusWrite {
        statuses := statuses[key := newUnits];
      }
    }

    method PurgeAllSubscribedResources(sub: SubKey, faults: nat -> DeleteFaults,
                                       statusLookup: bool, subLookup: SubLookup, statusWrite: bool)
      modifies this
      ensures Current() == PurgeRound(config, old(Current()), sub, faults, statusLookup, subLookup, statusWrite)
    {
      if statusLookup {
        return;
      }
      var units := if PurgeKey(config, sub) in statuses then statuses[PurgeKey(config, sub)] else [];
      var failed := DeleteUnits(sub, units, faults);
      var key := StatusKey(config, sub);
      if statusWrite || key !in statuses {
        return;
      }
      if subLookup.Unknown? && |failed| != 0 {
        statuses := statuses[key := Stripped(sub, failed)];
      } else {
        statuses := statuses - {key};
      }
    }

    /** One turn of the loop of cleanup. */
    method Cleanup(key: SubKey, faults: nat -> DeleteFaults, subLookup: SubLookup, statusWrite: bool)
      modifies this
      ensures Current() == CleanupRound(config, old(Current()), key, faults, subLookup, statusWrite)
    {
      if key !in statuses || !subLookup.Gone? || |statuses[key]| == 0 {
        return;
      }
      var failed := DeleteUnits(key, statuses[key], faults);
      if |failed| == 0 && !statusWrite {
        statuses := statuses - {key};
      }
    }
  }
}
