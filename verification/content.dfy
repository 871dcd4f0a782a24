/**
 What applying stores: what an object says after an update, a creation and a whole
 batch, which templates get through, and what is reported of them.
 */
module Content {
  import opened Text
  import opened JsonMerge
  import opened Cluster
  import opened Ownership
  import opened Synchronizer
  import opened Tracking
  import opened Rounds

  const V1 := "apps.open-cluster-management.io/v1"

  ghost predicate Asks(t: Template, option: string) {
    SameLetters(Anno(t.annotations, ReconcileOption), option)
  }

  ghost predicate OfKind(t: Template, kind: string) {
    SameLetters(t.kind, kind) && SameLetters(t.apiVersion, V1)
  }

  lemma {:induction false} KindsAndOptions(t: Template)
    ensures HasOption(t, "merge") <==> Asks(t, "merge")
    ensures HasOption(t, "replace") <==> Asks(t, "replace")
    ensures HasOption(t, "mergeandown") <==> Asks(t, "mergeandown")
    ensures IsSubscription(t) <==> OfKind(t, "subscription")
    ensures IsHelmRelease(t) <==> OfKind(t, "helmrelease")
    ensures EqualFold(Anno(t.annotations, ClusterAdmin), "true") <==>
            SameLetters(Anno(t.annotations, ClusterAdmin), "true")
  {
    var option := Anno(t.annotations, ReconcileOption);
    FoldIsSameLetters(option, "merge");
    FoldIsSameLetters(option, "replace");
    FoldIsSameLetters(option, "mergeandown");
    FoldIsSameLetters(t.kind, "subscription");
    FoldIsSameLetters(t.kind, "helmrelease");
    FoldIsSameLetters(t.apiVersion, V1);
    FoldIsSameLetters(Anno(t.annotations, ClusterAdmin), "true");
  }

  // ----- updating an object

  /** The object is not the template's host's own. */
  ghost predicate Foreign(orig: Obj, t: Template) {
    exists k ::
      HostOf(t.annotations) == Some(k) && (ManagedCluster in orig.annotations || HostOf(orig.annotations) != Some(k))
  }

  /** Another host's object is written by a cluster-admin template with one of the three options only. */
  ghost predicate MayWrite(orig: Obj, t: Template) {
    Foreign(orig, t) ==>
      SameLetters(Anno(t.annotations, ClusterAdmin), "true") &&
      (Asks(t, "merge") || Asks(t, "replace") || Asks(t, "mergeandown"))
  }

  /** The object is replaced, not patched. */
  ghost predicate Replaces(m: Mapping, t: Template) {
    OfKind(t, "helmrelease") ||
    ((Asks(t, "replace") || OfKind(t, "subscription")) && m.resource !in {"services", "serviceaccounts",
      "namespaces"})
  }

  const SUB_ANNOTATIONS: set<AnnoKey> := {ClusterAdmin, Hosting, SyncSource, HostingDeployable, ChannelType}

  /**
   The annotation is written; an elevated merge into another host's object keeps the
   subscription's marks to itself.
   */
  ghost predicate Carries(orig: Obj, t: Template, a: AnnoKey) {
    a in t.annotations &&
    !(Foreign(orig, t) && Asks(t, "merge") && !OfKind(t, "subscription") && a in SUB_ANNOTATIONS)
  }

  /** After a patch: all that the template says, and what it does not name is as before. */
  ghost predicate PatchedTo(orig: Obj, t: Template, obj: Obj) {
    Includes(obj.body, t.body) && Preserves(orig.body, obj.body, t.body) &&
    forall a :: if Carries(orig, t, a) then a in obj.annotations && obj.annotations[a] == t.annotations[a]
                else (a in obj.annotations <==> a in orig.annotations) &&
                     (a in orig.annotations ==> obj.annotations[a] == orig.annotations[a])
  }

  /** After a replacement: what the template says, and nothing else. */
  ghost predicate ReplacedBy(orig: Obj, t: Template, obj: Obj) {
    obj.body == t.body &&
    forall a :: (a in obj.annotations <==> Carries(orig, t, a)) &&
      (a in obj.annotations ==> obj.annotations[a] == t.annotations[a])
  }

  lemma {:induction false} OwnershipTest(orig: Obj, t: Template)
    ensures Foreign(orig, t) <==>
            HostOf(t.annotations).Some? && !IsObjectOwnedByHost(orig, HostOf(t.annotations).value)
    ensures Foreign(orig, t) ==> (MayWrite(orig, t) <==> MayTakeOver(t))
  {
    KindsAndOptions(t);
  }

  /** When an update goes through, and what it leaves. */
  lemma {:induction false} UpdateStoresExactly(orig: Obj, m: Mapping, t: Template, outcome: WriteOutcome)
    ensures var (obj, ok) := UpdateExisting(orig, m, t, outcome);
            (ok <==> MayWrite(orig, t) && (outcome.Written? || (outcome.Ignored? && Replaces(m, t)))) &&
            (if ok && outcome.Written? then if Replaces(m, t) then ReplacedBy(orig, t, obj) else PatchedTo(orig, t, obj)
             else obj == orig)
  {
    KindsAndOptions(t);
    OwnershipTest(orig, t);
    if MayWrite(orig, t) {
      if Replaces(m, t) {
        UpdateReplaces(orig, m, t);
      } else {
        UpdatePatches(orig, m, t);
      }
    }
  }

  lemma {:induction false} UpdatePatches(orig: Obj, m: Mapping, t: Template)
    requires MayWrite(orig, t) && !Replaces(m, t)
    ensures PatchedTo(orig, t, UpdateExisting(orig, m, t, Written).0)
  {
    KindsAndOptions(t);
    OwnershipTest(orig, t);
    OptionsExclude(t);
    PatchActsAsTemplate(orig.body, t.body);
    MergesExactly(orig.body, MergePatch(orig.body, t.body), t.body);
  }

  lemma {:induction false} UpdateReplaces(orig: Obj, m: Mapping, t: Template)
    requires MayWrite(orig, t) && Replaces(m, t)
    ensures ReplacedBy(orig, t, UpdateExisting(orig, m, t, Written).0)
  {
    KindsAndOptions(t);
    OwnershipTest(orig, t);
    OptionsExclude(t);
  }

  // ----- creating an object

  ghost predicate NeedsNamespace(objs: Objects, m: Mapping, t: Template) {
    m.namespaced && Key("namespaces", "", t.ns) !in objs
  }

  /** The namespace created on the way: the template's host and admin marks, and no content. */
  ghost predicate NamespaceFor(t: Template, o: Obj) {
    o.body == Object(map[]) &&
    Anno(o.annotations, Hosting) == Anno(t.annotations, Hosting) &&
    Anno(o.annotations, ClusterAdmin) == Anno(t.annotations, ClusterAdmin) &&
    (Anno(t.annotations, Hosting) != "" ==> Anno(o.annotations, SyncSource) == "subnsdpl-" + Anno(t.annotations,
      Hosting))
  }

  /** When a creation goes through, and what it leaves. */
  lemma {:induction false} CreateStoresExactly(objs: Objects, m: Mapping, t: Template, f: ApplyFaults)
    requires TemplateKey(m, t) !in objs
    ensures var (after, ok) := CreateNew(objs, m, t, f);
            var made := NeedsNamespace(objs, m, t) && !f.create && !f.namespace;
            (ok <==> !f.create && (NeedsNamespace(objs, m, t) ==> !f.namespace && !f.retry)) &&
            (ok ==> TemplateKey(m, t) in after && after[TemplateKey(m, t)] == Obj(t.annotations, t.body)) &&
            (forall k | k != TemplateKey(m, t) ::
              (k in after <==> k in objs || (made && k == Key("namespaces", "", t.ns))) &&
              (k in objs ==> after[k] == objs[k]) && (k in after && k !in objs ==> NamespaceFor(t, after[k])))
  {
  }

  // ----- one template

  ghost predicate Refused(m: Mapping, isAdmin: bool, f: ApplyFaults) {
    (!m.namespaced && !isAdmin) || f.denied || f.lookup
  }

  /** Nothing stands in the way of the template. */
  ghost predicate Succeeds(objs: Objects, m: Mapping, t: Template, isAdmin: bool, f: ApplyFaults) {
    f.paused ||
    (!Refused(m, isAdmin, f) &&
     if TemplateKey(m, t) in objs then
       MayWrite(objs[TemplateKey(m, t)], t) && (f.update.Written? || (f.update.Ignored? && Replaces(m, t)))
     else
       !f.create && (NeedsNamespace(objs, m, t) ==> !f.namespace && !f.retry))
  }

  /** The object says what the template says, apart from the marks of subscriptions. */
  ghost predicate Says(o: Obj, t: Template) {
    Includes(o.body, t.body) &&
    forall a | a in t.annotations && a !in SUB_ANNOTATIONS :: a in o.annotations && o.annotations[a] == t.annotations[a]
  }

  lemma {:induction false} IncludesItself(j: Json)
    ensures Includes(j, j)
    decreases j
  {
    if j.Object? {
      forall k | k in j.fields ensures Includes(j.fields[k], j.fields[k]) {
        IncludesItself(j.fields[k]);
      }
    }
  }

  /**
   Exactly when a template succeeds; then its object says what it says, unless it is
   paused or the API server refuses a replacement for good; a refused one changes nothing.
   */
  lemma {:induction false} ApplyStoresExactly(objs: Objects, m: Mapping, t: Template, isAdmin: bool, f: ApplyFaults)
    ensures var (after, ok) := ApplyTemplate(objs, m, t, isAdmin, f);
            (ok <==> Succeeds(objs, m, t, isAdmin, f)) &&
            (f.paused || Refused(m, isAdmin, f) ==> after == objs) &&
            (ok && !f.paused && f.update.Written? ==>
              TemplateKey(m, t) in after && Says(after[TemplateKey(m, t)], t)) &&
            (!ok && TemplateKey(m, t) in objs ==> after == objs)
  {
    var key := TemplateKey(m, t);
    if key in objs {
      UpdateStoresExactly(objs[key], m, t, f.update);
      assert objs[key := objs[key]] == objs;
    } else {
      CreateStoresExactly(objs, m, t, f);
    }
    IncludesItself(t.body);
  }

  /** Any other object is left alone; a namespace is created only where there is none. */
  lemma {:induction false} ApplyLeavesOthers(objs: Objects, m: Mapping, t: Template, isAdmin: bool, f: ApplyFaults,
      k: Key)
    requires k in objs && k != TemplateKey(m, t)
    ensures var after := ApplyTemplate(objs, m, t, isAdmin, f).0; k in after && after[k] == objs[k]
  {
    if TemplateKey(m, t) !in objs {
      CreateStoresExactly(objs, m, t, f);
    }
  }

  // ----- one resource of a batch

  /** What the override leaves of a manifest and adds to it. */
  lemma {:induction false} OverrideSays(sub: SubKey, t: Template)
    ensures var o := Override(sub, t);
            o.apiVersion == t.apiVersion && o.kind == t.kind && o.ns == t.ns && o.body == t.body &&
            o.name == (if t.name == "" then sub.name else t.name) && ManagedCluster !in o.annotations &&
            (forall a | a != ManagedCluster && a != Hosting ::
              (a in o.annotations <==> a in t.annotations) && (a in t.annotations ==>
                o.annotations[a] == t.annotations[a])) &&
            Anno(o.annotations, Hosting) ==
            (if Anno(t.annotations, Hosting) == "" then sub.ns + "/" + sub.name else Anno(t.annotations, Hosting))
  {
    HostIsWritten(sub.ns, sub.name);
  }

  /** The key that the manifest is applied under, if its kind is known. */
  ghost function TargetOf(rest: RestMapper, sub: SubKey, r: Resource): Option<Key> {
    if r.faults.override || r.template.kind == "" || (r.template.apiVersion, r.template.kind) !in rest then None
    else Some(TemplateKey(rest[(r.template.apiVersion, r.template.kind)], Override(sub, r.template)))
  }

  /** The unit names the object, and says whether the template succeeded; an unresolved one changes nothing. */
  lemma {:induction false} UnitTells(rest: RestMapper, objs: Objects, sub: SubKey, isAdmin: bool, r: Resource)
    ensures var (after, unit) := ApplyResource(rest, objs, sub, isAdmin, r.template, r.faults);
            var target := TargetOf(rest, sub, r);
            if target.None? then
              after == objs && unit.phase.DeployFailed? &&
              if r.faults.override || r.template.kind == "" then
                unit.apiVersion == unit.kind == unit.ns == unit.name == ""
              else
                unit.apiVersion == r.template.apiVersion && unit.kind == r.template.kind &&
                unit.ns == r.template.ns && unit.name == (if r.template.name == "" then sub.name else r.template.name)
            else
              var t, m := Override(sub, r.template), rest[(r.template.apiVersion, r.template.kind)];
              after == ApplyTemplate(objs, m, t, isAdmin, r.faults).0 &&
              (unit.phase.Deployed? <==> Succeeds(objs, m, t, isAdmin, r.faults)) &&
              unit.apiVersion == t.apiVersion && unit.kind == t.kind && unit.name == t.name &&
              unit.ns == (if m.namespaced then t.ns else "") && target.value == Key(m.resource, unit.ns, unit.name)
  {
    OverrideSays(sub, r.template);
    if TargetOf(rest, sub, r).Some? {
      var m := rest[(r.template.apiVersion, r.template.kind)];
      ApplyStoresExactly(objs, m, Override(sub, r.template), isAdmin, r.faults);
    }
  }

  // ----- a batch

  /** The last manifest of the batch for its object, deployed and neither paused nor ignored. */
  ghost predicate HasTheLastWord(c: Config, objs: Objects, sub: SubKey, isAdmin: bool, rs: seq<Resource>, i: nat) {
    i < |rs| && |ApplyAll(c, objs, sub, isAdmin, rs).1| == |rs| &&
    ApplyAll(c, objs, sub, isAdmin, rs).1[i].phase.Deployed? && !rs[i].faults.paused && rs[i].faults.update.Written? &&
    forall j | i < j < |rs| :: TargetOf(c.rest, sub, rs[j]) != TargetOf(c.rest, sub, rs[i])
  }

  /** After a batch, the object of a deployed unit says what the last manifest for it says. */
  lemma {:induction false} BatchSays(c: Config, objs: Objects, sub: SubKey, isAdmin: bool, rs: seq<Resource>, i: nat)
    requires HasTheLastWord(c, objs, sub, isAdmin, rs, i)
    ensures var applied, k := ApplyAll(c, objs, sub, isAdmin, rs).0, TargetOf(c.rest, sub, rs[i]);
            k.Some? && k.value in applied && Says(applied[k.value], Override(sub, rs[i].template))
    decreases |rs|
  {
    var n := |rs| - 1;
    var before, r := ApplyAll(c, objs, sub, isAdmin, rs[..n]).0, rs[n];
    OneUnitEach(c, objs, sub, isAdmin, rs[..n]);
    if i < n {
      BatchSays(c, objs, sub, isAdmin, rs[..n], i);
      ResourceLeavesOthers(c.rest, before, sub, isAdmin, r, TargetOf(c.rest, sub, rs[i]).value);
    } else {
      ResourceSays(c.rest, before, sub, isAdmin, r);
    }
  }

  lemma {:induction false} ResourceSays(rest: RestMapper, objs: Objects, sub: SubKey, isAdmin: bool, r: Resource)
    requires ApplyResource(rest, objs, sub, isAdmin, r.template, r.faults).1.phase.Deployed?
    requires !r.faults.paused && r.faults.update.Written?
    ensures var after, k := ApplyResource(rest, objs, sub, isAdmin, r.template, r.faults).0, TargetOf(rest, sub, r);
            k.Some? && k.value in after && Says(after[k.value], Override(sub, r.template))
  {
    UnitTells(rest, objs, sub, isAdmin, r);
    var t, m := Override(sub, r.template), rest[(r.template.apiVersion, r.template.kind)];
    ApplyStoresExactly(objs, m, t, isAdmin, r.faults);
  }

  lemma {:induction false} ResourceLeavesOthers(rest: RestMapper, objs: Objects, sub: SubKey, isAdmin: bool,
      r: Resource, k: Key)
    requires k in objs && TargetOf(rest, sub, r) != Some(k)
    ensures var after := ApplyResource(rest, objs, sub, isAdmin, r.template, r.faults).0;
            k in after && after[k] == objs[k]
  {
    UnitTells(rest, objs, sub, isAdmin, r);
    if TargetOf(rest, sub, r).Some? {
      var t, m := Override(sub, r.template), rest[(r.template.apiVersion, r.template.kind)];
      ApplyLeavesOthers(objs, m, t, isAdmin, r.faults, k);
    }
  }

  /** One unit for each manifest, in order. */
  lemma {:induction false} OneUnitEach(c: Config, objs: Objects, sub: SubKey, isAdmin: bool, rs: seq<Resource>)
    ensures |ApplyAll(c, objs, sub, isAdmin, rs).1| == |rs|
    decreases |rs|
  {
    if rs != [] {
      OneUnitEach(c, objs, sub, isAdmin, rs[..|rs| - 1]);
    }
  }

  /** And after the whole round, unless a dropped unit names the same object. */
  lemma {:induction false} RoundSays(c: Config, st: State, r: Round, i: nat)
    requires r.Apply? && HasTheLastWord(c, st.objects, r.sub, r.isAdmin, r.resources, i)
    ensures var k := TargetOf(c.rest, r.sub, r.resources[i]);
            k.Some? && k.value in Applied(c, st, r) &&
            if Removes(c, Applied(c, st, r), DeletesAs(c, r), Condemned(c, st, r), r.faults, k.value) then
              k.value !in Next(c, st, r).objects
            else
              k.value in Next(c, st, r).objects &&
              Says(Next(c, st, r).objects[k.value], Override(r.sub, r.resources[i].template))
  {
    BatchSays(c, st.objects, r.sub, r.isAdmin, r.resources, i);
    LostExactly(c, st, r, TargetOf(c.rest, r.sub, r.resources[i]).value);
    RoundIsTwoPhases(c, st, r);
    DeleteShrinks(c, Applied(c, st, r), DeletesAs(c, r), Condemned(c, st, r), r.faults);
  }

  /** A unit names an object when its kind is known; the namespace it gives counts for namespaced kinds only. */
  lemma {:induction false} UnitNames(rest: RestMapper, u: Unit, k: Key)
    ensures KeyOf(rest, u) == Some(k) <==>
            u.apiVersion != "" && u.apiVersion != "/" && Count(u.apiVersion, '/') <= 1 &&
            exists m :: (u.apiVersion, u.kind) in rest && m == rest[(u.apiVersion, u.kind)] &&
                        k.resource == m.resource && k.name == u.name && k.ns in (if m.namespaced then {u.ns} else {""})
  {
    BadApiVersionIs(u.apiVersion);
  }

  /** What a deletion may take: objects of the host or its twin that are not marked do-not-delete. */
  lemma {:induction false} DeletableIs(o: Obj, host: SubKey)
    ensures HostedByGroup(o, host) && !Kept(o) <==>
            Hosting in o.annotations &&
            o.annotations[Hosting] in {host.ns + "/" + host.name, host.ns + "/" + host.name + "-local"} &&
            (DoNotDelete in o.annotations ==> o.annotations[DoNotDelete] != "true")
  {
    HostIsWritten(host.ns, host.name);
    assert |host.ns + "/" + host.name| > 0;
  }

  // ----- the stored lists

  /** A unit of the old list stays listed if the batch reports the same four names again, in whatever phase. */
  lemma {:induction false} ListedAgain(u: Unit, units: seq<Unit>)
    ensures Listed(u, units) <==> exists v :: v in units && v.(phase := u.phase) == u
  {
    if i :| 0 <= i < |units| && SameUnit(u, units[i]) {
      assert units[i] in units && units[i].(phase := u.phase) == u;
    }
    if v :| v in units && v.(phase := u.phase) == u {
      var i :| 0 <= i < |units| && units[i] == v;
      assert SameUnit(u, units[i]);
    }
  }

  /** Each unlisted unit is an orphan as often as it is stored. */
  lemma {:induction false} OrphansCount(stored: seq<Unit>, units: seq<Unit>, u: Unit)
    ensures multiset(Orphans(stored, units))[u] == if Listed(u, units) then 0 else multiset(stored)[u]
    decreases |stored|
  {
    if stored != [] {
      OrphansCount(stored[..|stored| - 1], units, u);
      assert stored == stored[..|stored| - 1] + [stored[|stored| - 1]];
    }
  }

  ghost predicate ErrsAs(c: Config, objs: Objects, host: SubKey, units: seq<Unit>, faults: nat -> DeleteFaults,
                         u: Unit, i: nat)
  {
    Errs(c, objs, host, units, faults, i) && u == units[i].(phase := DeployFailed)
  }

  /** What a delete phase lists again: the units that erred, as failed. */
  lemma {:induction false} RelistedUnits(c: Config, objs: Objects, host: SubKey, units: seq<Unit>,
                                         faults: nat -> DeleteFaults, u: Unit)
    ensures u in DeleteAll(c, objs, host, units, faults).1 <==>
            exists i: nat :: ErrsAs(c, objs, host, units, faults, u, i)
    decreases |units|
  {
    if units != [] {
      var less := units[..|units| - 1];
      RelistedUnits(c, objs, host, less, faults, u);
      LastErrs(c, objs, host, units, faults);
      ErrsAsOfMore(c, objs, host, less, units, faults, u);
    }
  }

  lemma {:induction false} ErrsAsOfMore(c: Config, objs: Objects, host: SubKey, less: seq<Unit>, units: seq<Unit>,
                     faults: nat -> DeleteFaults, u: Unit)
    requires units != [] && less == units[..|units| - 1]
    ensures (exists i: nat :: ErrsAs(c, objs, host, units, faults, u, i)) <==>
            (exists i: nat :: ErrsAs(c, objs, host, less, faults, u, i)) ||
            ErrsAs(c, objs, host, units, faults, u, |units| - 1)
  {
    if i: nat :| ErrsAs(c, objs, host, units, faults, u, i) && i < |less| {
      ErrsOfMore(c, objs, host, less, units, faults, i);
      assert ErrsAs(c, objs, host, less, faults, u, i);
    }
    if i: nat :| ErrsAs(c, objs, host, less, faults, u, i) {
      ErrsOfMore(c, objs, host, less, units, faults, i);
      assert ErrsAs(c, objs, host, units, faults, u, i);
    }
  }

  lemma {:induction false} ErrsOfMore(c: Config, objs: Objects, host: SubKey, less: seq<Unit>, units: seq<Unit>,
                   faults: nat -> DeleteFaults, i: nat)
    requires units != [] && less == units[..|units| - 1] && i < |less|
    ensures Errs(c, objs, host, less, faults, i) <==> Errs(c, objs, host, units, faults, i)
  {
    assert less[i] == units[i];
    assert forall j: nat, k | j < i :: Hits(c, less, faults, k, j) <==> Hits(c, units, faults, k, j);
  }

  /**
   A purge that cannot tell whether the subscription still exists keeps a failed entry
   with the name of each unit that was not deleted; any other purge gives up the list.
   */
  lemma {:induction false} UnknownPurgeKeepsFailed(c: Config, st: State, r: Round)
    requires r.Purge? && !ListStays(c, st, r)
    ensures var key, failed := StatusKey(c, r.sub), DeleteAll(c, st.objects, r.sub, Condemned(c, st, r), r.faults).1;
            var after := Next(c, st, r).statuses;
            (key in after <==> r.subLookup.Unknown? && failed != []) &&
            (key in after ==>
              |after[key]| == |failed| &&
              forall i | 0 <= i < |failed| ::
                after[key][i].name == failed[i].name && after[key][i].ns == r.sub.ns &&
                  after[key][i].phase.DeployFailed?)
  {
  }

  /** Whose status is stored under another name, and where a purge looks for it. */
  lemma {:induction false} StatusNames(c: Config, base: SubKey)
    ensures StatusKey(c, Twin(base)) == if c.hub || c.standalone || c.localCluster then base else Twin(base)
    ensures PurgeKey(c, Twin(base)) == if c.hub && !c.standalone then base else Twin(base)
    ensures |base.name| < 6 || base.name[|base.name| - 6..] != "-local" ==>
            StatusKey(c, base) == base == PurgeKey(c, base)
  {
    var name := Twin(base).name;
    assert name[|name| - 6..] == "-local" && name[..|name| - 6] == base.name;
  }
}
