/**
 Ownership over whole runs: many subscriptions apply and delete on one cluster, in
 any order, with any client call failing.
 */
module Ownership {
  import opened Text
  import opened JsonMerge
  import opened Cluster

  /** The writes of all rounds come down to these two steps, in any interleaving. */
  datatype Step =
    | ApplyOne(sub: SubKey, isAdmin: bool, template: Template, applyFaults: ApplyFaults)
    | DeleteOne(sub: SubKey, unit: Unit, deleteFaults: DeleteFaults)

  function After(rest: RestMapper, objs: Objects, s: Step): Objects {
    match s
    case ApplyOne(sub, isAdmin, t, f) => ApplyResource(rest, objs, sub, isAdmin, t, f).0
    case DeleteOne(sub, u, f) => DeleteUnit(rest, objs, sub, u, f).0
  }

  /** The source names no host and the template is not elevated to cluster admin. */
  ghost predicate Plain(s: Step) {
    ValidSub(s.sub) &&
    (s.ApplyOne? ==> Anno(s.template.annotations, Hosting) == "" &&
                     !EqualFold(Anno(s.template.annotations, ClusterAdmin), "true"))
  }

  function Host(o: Obj): string {
    Anno(o.annotations, Hosting)
  }

  /** All that a step of a subscription does to the cluster. */
  ghost predicate OwnChanges(before: Objects, after: Objects, sub: SubKey) {
    (forall k | k in before && k in after ::
      after[k] == before[k] || Host(before[k]) == Host(after[k]) == HostString(sub)) &&
    (forall k | k in before && k !in after :: HostedByGroup(before[k], sub)) &&
    (forall k | k !in before && k in after :: Host(after[k]) == HostString(sub))
  }

  /** A template that carries the subscription's host and no cluster-admin rights. */
  ghost predicate CarriesHost(t: Template, sub: SubKey) {
    ValidSub(sub) && Anno(t.annotations, Hosting) == HostString(sub) &&
    !EqualFold(Anno(t.annotations, ClusterAdmin), "true")
  }

  lemma {:induction false} UpdateKeepsHost(orig: Obj, m: Mapping, t: Template, sub: SubKey, outcome: WriteOutcome)
    requires CarriesHost(t, sub)
    ensures var o := UpdateExisting(orig, m, t, outcome).0;
            o == orig || Host(orig) == Host(o) == HostString(sub)
  {
    HostRoundTrip(t.annotations, sub);
    HostRoundTrip(orig.annotations, sub);
  }

  lemma {:induction false} CreateSetsHost(objs: Objects, m: Mapping, t: Template, sub: SubKey, f: ApplyFaults)
    requires CarriesHost(t, sub) && TemplateKey(m, t) !in objs
    ensures OwnChanges(objs, CreateNew(objs, m, t, f).0, sub)
  {
    assert Host(AutoNamespace(t)) == HostString(sub);
  }

  lemma {:induction false} ApplyKeepsOwnership(objs: Objects, m: Mapping, t: Template, sub: SubKey, isAdmin: bool,
      f: ApplyFaults)
    requires CarriesHost(t, sub)
    ensures OwnChanges(objs, ApplyTemplate(objs, m, t, isAdmin, f).0, sub)
  {
    var key := TemplateKey(m, t);
    if key in objs {
      UpdateKeepsHost(objs[key], m, t, sub, f.update);
    } else {
      CreateSetsHost(objs, m, t, sub, f);
    }
  }

  lemma {:induction false} StepKeepsOwnership(rest: RestMapper, objs: Objects, s: Step)
    requires Plain(s)
    ensures OwnChanges(objs, After(rest, objs, s), s.sub)
  {
    if s.ApplyOne? {
      var t := Override(s.sub, s.template);
      assert CarriesHost(t, s.sub);
      if (t.apiVersion, t.kind) in rest {
        ApplyKeepsOwnership(objs, rest[(t.apiVersion, t.kind)], t, s.sub, s.isAdmin, s.applyFaults);
      }
    }
  }

  /** The clusters that a run goes through, the first one included. */
  function Trace(rest: RestMapper, objs: Objects, steps: seq<Step>): (trace: seq<Objects>)
    ensures |trace| == |steps| + 1 && trace[0] == objs
    ensures forall i | 0 <= i < |steps| :: trace[i + 1] == After(rest, trace[i], steps[i])
    decreases |steps|
  {
    if steps == [] then [objs] else [objs] + Trace(rest, After(rest, objs, steps[0]), steps[1..])
  }

  /** From creation to deletion an object keeps its host. */
  lemma {:induction false} HostNeverChanges(rest: RestMapper, objs: Objects, steps: seq<Step>, key: Key, i: nat, j: nat)
    requires forall s | s in steps :: Plain(s)
    requires i <= j <= |steps| && forall n | i <= n <= j :: key in Trace(rest, objs, steps)[n]
    ensures Host(Trace(rest, objs, steps)[i][key]) == Host(Trace(rest, objs, steps)[j][key])
    decreases j
  {
    if i < j {
      var trace := Trace(rest, objs, steps);
      HostNeverChanges(rest, objs, steps, key, i, j - 1);
      assert steps[j - 1] in steps;
      StepKeepsOwnership(rest, trace[j - 1], steps[j - 1]);
    }
  }

  /**
   In a run of plain writes, each in the name of some subscription: the one that
   creates an object is its host as long as it lives; the one that changes it is its
   host; the one that deletes it is its host or has the host as its `-local` twin.
   */
  lemma {:induction false} OnlyTheHostActs(rest: RestMapper, objs: Objects, steps: seq<Step>, key: Key, n: nat)
    requires (forall s | s in steps :: Plain(s)) && n < |steps|
    ensures var before, after := Trace(rest, objs, steps)[n], Trace(rest, objs, steps)[n + 1];
            var sub := steps[n].sub;
            (key in before && key in after && before[key] != after[key] ==>
              Host(before[key]) == Host(after[key]) == HostString(sub)) &&
            (key in before && key !in after ==> HostedByGroup(before[key], sub)) &&
            (key !in before && key in after ==>
              forall j | n < j <= |steps| && (forall l | n < l <= j :: key in Trace(rest, objs, steps)[l]) ::
                Host(Trace(rest, objs, steps)[j][key]) == HostString(sub))
  {
    var trace := Trace(rest, objs, steps);
    assert steps[n] in steps;
    StepKeepsOwnership(rest, trace[n], steps[n]);
    if key !in trace[n] && key in trace[n + 1] {
      forall j | n < j <= |steps| && (forall l | n < l <= j :: key in trace[l])
        ensures Host(trace[j][key]) == HostString(steps[n].sub)
      {
        HostNeverChanges(rest, objs, steps, key, n + 1, j);
      }
    }
  }

  // ----- cluster-admin templates

  /** An elevated template meets an object of another host, and the write goes through. */
  ghost predicate TakesOver(rest: RestMapper, objs: Objects, s: Step) {
    s.ApplyOne? && ValidSub(s.sub) && Anno(s.template.annotations, Hosting) == "" &&
    s.applyFaults == ApplyFaults(false, false, false, false, false, false, false, Written) &&
    s.template.kind != "" && MayTakeOver(s.template) && !IsSubscription(s.template) && !IsHelmRelease(s.template) &&
    (s.template.apiVersion, s.template.kind) in rest &&
    var m := rest[(s.template.apiVersion, s.template.kind)];
    (m.namespaced || s.isAdmin) && Target(rest, s) in objs && Host(objs[Target(rest, s)]) != HostString(s.sub)
  }

  ghost function Target(rest: RestMapper, s: Step): Key
    requires s.ApplyOne? && (s.template.apiVersion, s.template.kind) in rest
  {
    TemplateKey(rest[(s.template.apiVersion, s.template.kind)], Override(s.sub, s.template))
  }

  /** The unit that the step reports, as a later purge by the same subscription finds it. */
  ghost function Reported(rest: RestMapper, objs: Objects, s: Step): Unit
    requires s.ApplyOne?
  {
    ApplyResource(rest, objs, s.sub, s.isAdmin, s.template, s.applyFaults).1
  }

  /** What an elevated template makes of another host's object. */
  function TakenOver(orig: Obj, t: Template): Obj {
    if HasOption(t, "merge") then
      Obj(orig.annotations + RemoveSubAnnotations(t.annotations), Patched(orig.body, t.body))
    else
      Obj(orig.annotations + t.annotations, Patched(orig.body, t.body))
  }

  lemma {:induction false} TakeoverUpdates(orig: Obj, m: Mapping, t: Template, sub: SubKey)
    requires ValidSub(sub) && Anno(t.annotations, Hosting) == HostString(sub) != Host(orig)
    requires MayTakeOver(t) && !IsSubscription(t) && !IsHelmRelease(t)
    ensures var (o, ok) := UpdateExisting(orig, m, t, Written);
            ok && (o == TakenOver(orig, t) || (HasOption(t, "replace") && o == Obj(t.annotations, t.body)))
    ensures var o := UpdateExisting(orig, m, t, Written).0;
            Host(o) == if HasOption(t, "merge") then Host(orig) else HostString(sub)
  {
    HostRoundTrip(t.annotations, sub);
    HostRoundTrip(orig.annotations, sub);
    OptionsExclude(t);
  }

  lemma {:induction false} TakeoverWrites(rest: RestMapper, objs: Objects, s: Step)
    requires TakesOver(rest, objs, s)
    ensures var t, key := Override(s.sub, s.template), Target(rest, s);
            var m := rest[(s.template.apiVersion, s.template.kind)];
            After(rest, objs, s) == objs[key := UpdateExisting(objs[key], m, t, Written).0] &&
            MayTakeOver(t) && HasOption(t, "merge") == HasOption(s.template, "merge") &&
            Anno(t.annotations, Hosting) == HostString(s.sub) && !IsSubscription(t) && !IsHelmRelease(t)
    ensures !BadApiVersion(s.template.apiVersion) ==> KeyOf(rest, Reported(rest, objs, s)) == Some(Target(rest, s))
  {
  }

  /**
   "merge" keeps the old host, so that a purge leaves the object, unless that host is
   the subscription's `-local` twin; "replace" and "mergeAndOwn" move the host, so that
   a purge removes it unless it is do-not-delete.
   */
  lemma {:induction false} TakeoverDecidesThePurge(rest: RestMapper, objs: Objects, s: Step)
    requires TakesOver(rest, objs, s) && !BadApiVersion(s.template.apiVersion)
    ensures var key, applied := Target(rest, s), After(rest, objs, s);
            var purged := DeleteUnit(rest, applied, s.sub, Reported(rest, objs, s), DeleteFaults(false, false));
            key in applied && purged.1 &&
            if HasOption(s.template, "merge") then
              Host(applied[key]) == Host(objs[key]) &&
              purged.0 == if Host(objs[key]) == HostString(Twin(s.sub)) && !Kept(applied[key]) then applied - {key}
                          else applied
            else
              Host(applied[key]) == HostString(s.sub) &&
              purged.0 == if Kept(applied[key]) then applied else applied - {key}
  {
    TakeoverWrites(rest, objs, s);
    var t, key, m := Override(s.sub, s.template), Target(rest, s), rest[(s.template.apiVersion, s.template.kind)];
    TakeoverUpdates(objs[key], m, t, s.sub);
  }

  lemma {:induction false} OptionsExclude(t: Template)
    ensures HasOption(t, "merge") ==> !HasOption(t, "replace") && !HasOption(t, "mergeandown")
  {
    assert |"merge"| == 5 && |"replace"| == 7 && |"mergeandown"| == 11;
  }

  /** Applying the same merge template again changes nothing. */
  lemma {:induction false} RepeatedMergeChangesNothing(rest: RestMapper, objs: Objects, s: Step)
    requires TakesOver(rest, objs, s) && HasOption(s.template, "merge")
    ensures After(rest, After(rest, objs, s), s) == After(rest, objs, s)
  {
    var t, key, m := Override(s.sub, s.template), Target(rest, s), rest[(s.template.apiVersion, s.template.kind)];
    OptionsExclude(t);
    TakeoverWrites(rest, objs, s);
    TakeoverUpdates(objs[key], m, t, s.sub);
    var once := After(rest, objs, s);
    assert TakesOver(rest, once, s);
    TakeoverWrites(rest, once, s);
    TakeoverUpdates(once[key], m, t, s.sub);
    PatchIsIdempotent(objs[key].body, t.body);
    assert once[key].annotations + RemoveSubAnnotations(t.annotations) == once[key].annotations;
  }
}
