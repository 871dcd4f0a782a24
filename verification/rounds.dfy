/**
 Whole rounds of many subscriptions on one cluster: each is a run of single writes,
 so that ownership carries over; who can lose what to whom, exactly; and when the
 stored unit lists keep track of everything.
 */
module Rounds {
  import opened Text
  import opened JsonMerge
  import opened Cluster
  import opened Ownership
  import opened Synchronizer
  import opened Tracking

  /** A round, with the outcome of every client call it makes. */
  datatype Round =
    | Apply(sub: SubKey, isAdmin: bool, resources: seq<Resource>, faults: nat -> DeleteFaults,
            statusLookup: bool, statusWrite: bool)
    | Purge(sub: SubKey, faults: nat -> DeleteFaults, statusLookup: bool, subLookup: SubLookup, statusWrite: bool)
    | Cleanup(sub: SubKey, faults: nat -> DeleteFaults, subLookup: SubLookup, statusWrite: bool)

  function Next(c: Config, st: State, r: Round): State {
    match r
    case Apply(sub, isAdmin, rs, faults, lookup, write) => ApplyRound(c, st, sub, isAdmin, rs, faults, lookup, write)
    case Purge(sub, faults, lookup, subLookup, write) => PurgeRound(c, st, sub, faults, lookup, subLookup, write)
    case Cleanup(sub, faults, subLookup, write) => CleanupRound(c, st, sub, faults, subLookup, write)
  }

  /** The subscription in whose name the round deletes: for an APPLY round the one that the status is stored under. */
  function DeletesAs(c: Config, r: Round): SubKey {
    if r.Apply? then StatusKey(c, r.sub) else r.sub
  }

  /** The units that the round tries to delete. */
  function Condemned(c: Config, st: State, r: Round): seq<Unit> {
    match r
    case Apply(sub, isAdmin, rs, _, lookup, _) =>
      if lookup then [] else Orphans(Stored(st, StatusKey(c, sub)), ApplyAll(c, st.objects, sub, isAdmin, rs).1)
    case Purge(sub, _, lookup, _, _) => if lookup then [] else Stored(st, PurgeKey(c, sub))
    case Cleanup(sub, _, subLookup, _) => if subLookup.Gone? then Stored(st, sub) else []
  }

  /** The cluster when the deletions of the round begin. */
  function Applied(c: Config, st: State, r: Round): Objects {
    if r.Apply? then ApplyAll(c, st.objects, r.sub, r.isAdmin, r.resources).0 else st.objects
  }

  /** Every round is an apply phase and a delete phase. */
  lemma {:induction false} RoundIsTwoPhases(c: Config, st: State, r: Round)
    ensures Next(c, st, r).objects == DeleteAll(c, Applied(c, st, r), DeletesAs(c, r), Condemned(c, st, r), r.faults).0
  {
  }

  // ----- a round is a run of single writes

  function Final(rest: RestMapper, objs: Objects, steps: seq<Step>): Objects {
    Trace(rest, objs, steps)[|steps|]
  }

  lemma {:induction false} FinalOfMore(rest: RestMapper, objs: Objects, steps: seq<Step>, s: Step)
    ensures Final(rest, objs, steps + [s]) == After(rest, Final(rest, objs, steps), s)
    decreases |steps|
  {
    FinalFromSecond(rest, objs, steps + [s]);
    if steps != [] {
      FinalFromSecond(rest, objs, steps);
      FinalOfMore(rest, After(rest, objs, steps[0]), steps[1..], s);
      assert (steps + [s])[1..] == steps[1..] + [s];
    } else {
      assert (steps + [s])[1..] == [];
    }
  }

  lemma {:induction false} FinalFromSecond(rest: RestMapper, objs: Objects, steps: seq<Step>)
    requires steps != []
    ensures Final(rest, objs, steps) == Final(rest, After(rest, objs, steps[0]), steps[1..])
  {
    var later := Trace(rest, After(rest, objs, steps[0]), steps[1..]);
    assert Trace(rest, objs, steps) == [objs] + later;
  }

  lemma {:induction false} FinalOfBoth(rest: RestMapper, objs: Objects, a: seq<Step>, b: seq<Step>)
    ensures Final(rest, objs, a + b) == Final(rest, Final(rest, objs, a), b)
    decreases |b|
  {
    if b == [] {
      assert a + b == a;
    } else {
      var less, s := b[..|b| - 1], b[|b| - 1];
      FinalOfBoth(rest, objs, a, less);
      FinalOfMore(rest, objs, a + less, s);
      FinalOfMore(rest, Final(rest, objs, a), less, s);
      assert a + b == a + less + [s] && b == less + [s];
    }
  }

  function ApplySteps(sub: SubKey, isAdmin: bool, rs: seq<Resource>): seq<Step> {
    seq(|rs|, i requires 0 <= i < |rs| => ApplyOne(sub, isAdmin, rs[i].template, rs[i].faults))
  }

  function DeleteSteps(host: SubKey, units: seq<Unit>, faults: nat -> DeleteFaults): seq<Step> {
    seq(|units|, i requires 0 <= i < |units| => DeleteOne(host, units[i], faults(i)))
  }

  lemma {:induction false} ApplyPhaseIsSteps(c: Config, objs: Objects, sub: SubKey, isAdmin: bool, rs: seq<Resource>)
    ensures ApplyAll(c, objs, sub, isAdmin, rs).0 == Final(c.rest, objs, ApplySteps(sub, isAdmin, rs))
    decreases |rs|
  {
    if rs != [] {
      var less, r := rs[..|rs| - 1], rs[|rs| - 1];
      ApplyPhaseIsSteps(c, objs, sub, isAdmin, less);
      FinalOfMore(c.rest, objs, ApplySteps(sub, isAdmin, less), ApplyOne(sub, isAdmin, r.template, r.faults));
      assert ApplySteps(sub, isAdmin, rs) ==
             ApplySteps(sub, isAdmin, less) + [ApplyOne(sub, isAdmin, r.template, r.faults)];
    }
  }

  lemma {:induction false} DeletePhaseIsSteps(c: Config, objs: Objects, host: SubKey, units: seq<Unit>,
                                              faults: nat -> DeleteFaults)
    ensures DeleteAll(c, objs, host, units, faults).0 == Final(c.rest, objs, DeleteSteps(host, units, faults))
    decreases |units|
  {
    if units != [] {
      var n := |units| - 1;
      DeletePhaseIsSteps(c, objs, host, units[..n], faults);
      FinalOfMore(c.rest, objs, DeleteSteps(host, units[..n], faults), DeleteOne(host, units[n], faults(n)));
      assert DeleteSteps(host, units, faults) ==
             DeleteSteps(host, units[..n], faults) + [DeleteOne(host, units[n], faults(n))];
    }
  }

  function StepsOf(c: Config, st: State, r: Round): seq<Step> {
    (if r.Apply? then ApplySteps(r.sub, r.isAdmin, r.resources) else []) +
    DeleteSteps(DeletesAs(c, r), Condemned(c, st, r), r.faults)
  }

  /** A round is a run of writes: applied as its subscription, deleted as the one that `DeletesAs` names. */
  lemma {:induction false} RoundIsSteps(c: Config, st: State, r: Round)
    ensures Next(c, st, r).objects == Final(c.rest, st.objects, StepsOf(c, st, r))
    ensures forall s | s in StepsOf(c, st, r) :: s.sub == if s.ApplyOne? then r.sub else DeletesAs(c, r)
  {
    RoundIsTwoPhases(c, st, r);
    var deletes := DeleteSteps(DeletesAs(c, r), Condemned(c, st, r), r.faults);
    DeletePhaseIsSteps(c, Applied(c, st, r), DeletesAs(c, r), Condemned(c, st, r), r.faults);
    if r.Apply? {
      ApplyPhaseIsSteps(c, st.objects, r.sub, r.isAdmin, r.resources);
      FinalOfBoth(c.rest, st.objects, ApplySteps(r.sub, r.isAdmin, r.resources), deletes);
    } else {
      assert [] + deletes == deletes;
    }
  }

  // ----- ownership over runs of rounds

  /** The manifests name no host and none is elevated to cluster admin. */
  ghost predicate PlainRound(r: Round) {
    ValidSub(r.sub) &&
    (r.Apply? ==> forall x | x in r.resources :: Plain(ApplyOne(r.sub, r.isAdmin, x.template, x.faults)))
  }

  ghost predicate OnlyAdds(before: Objects, after: Objects, sub: SubKey) {
    OwnChanges(before, after, sub) && before.Keys <= after.Keys
  }

  lemma {:induction false} ApplyOnlyAdds(c: Config, objs: Objects, sub: SubKey, isAdmin: bool, rs: seq<Resource>)
    requires forall x | x in rs :: Plain(ApplyOne(sub, isAdmin, x.template, x.faults))
    ensures OnlyAdds(objs, ApplyAll(c, objs, sub, isAdmin, rs).0, sub)
    decreases |rs|
  {
    if rs != [] {
      var less, r := rs[..|rs| - 1], rs[|rs| - 1];
      assert forall x | x in less :: x in rs;
      ApplyOnlyAdds(c, objs, sub, isAdmin, less);
      var before := ApplyAll(c, objs, sub, isAdmin, less).0;
      StepOnlyAdds(c.rest, before, ApplyOne(sub, isAdmin, r.template, r.faults));
      AddsChain(objs, before, ApplyAll(c, objs, sub, isAdmin, rs).0, sub);
    } else {
      AddsNothing(objs, sub);
    }
  }

  lemma {:induction false} StepOnlyAdds(rest: RestMapper, objs: Objects, s: Step)
    requires Plain(s) && s.ApplyOne?
    ensures OnlyAdds(objs, After(rest, objs, s), s.sub)
  {
    StepKeepsOwnership(rest, objs, s);
  }

  lemma {:induction false} AddsNothing(objs: Objects, sub: SubKey)
    ensures OnlyAdds(objs, objs, sub)
  {
  }

  lemma {:induction false} AddsChain(a: Objects, b: Objects, d: Objects, sub: SubKey)
    requires OnlyAdds(a, b, sub) && OnlyAdds(b, d, sub)
    ensures OnlyAdds(a, d, sub)
  {
  }

  /** All that a round does to the shared cluster. */
  ghost predicate RoundEffect(c: Config, before: Objects, after: Objects, r: Round) {
    (forall k | k in before && k in after ::
      after[k] == before[k] || (r.Apply? && Host(before[k]) == Host(after[k]) == HostString(r.sub))) &&
    (forall k | k in before && k !in after :: HostedByGroup(before[k], DeletesAs(c, r))) &&
    (forall k | k !in before && k in after :: r.Apply? && Host(after[k]) == HostString(r.sub))
  }

  lemma {:induction false} RoundKeepsOwnership(c: Config, st: State, r: Round)
    requires PlainRound(r)
    ensures RoundEffect(c, st.objects, Next(c, st, r).objects, r)
  {
    RoundIsTwoPhases(c, st, r);
    var applied := Applied(c, st, r);
    if r.Apply? {
      ApplyOnlyAdds(c, st.objects, r.sub, r.isAdmin, r.resources);
    }
    DeleteShrinks(c, applied, DeletesAs(c, r), Condemned(c, st, r), r.faults);
    PhasesCompose(c, st.objects, applied, Next(c, st, r).objects, r, Condemned(c, st, r));
  }

  lemma {:induction false} PhasesCompose(c: Config, before: Objects, applied: Objects, after: Objects, r: Round,
      units: seq<Unit>)
    requires if r.Apply? then OnlyAdds(before, applied, r.sub) else applied == before
    requires Shrunk(c, applied, after, DeletesAs(c, r), units)
    ensures RoundEffect(c, before, after, r)
  {
  }

  /** The states that a run goes through, the first one included. */
  function RoundTrace(c: Config, st: State, rounds: seq<Round>): (trace: seq<State>)
    ensures |trace| == |rounds| + 1 && trace[0] == st
    ensures forall i | 0 <= i < |rounds| :: trace[i + 1] == Next(c, trace[i], rounds[i])
    decreases |rounds|
  {
    if rounds == [] then [st] else [st] + RoundTrace(c, Next(c, st, rounds[0]), rounds[1..])
  }

  ghost predicate LivesThrough(trace: seq<State>, k: Key, i: nat, j: nat) {
    i <= j < |trace| && forall n | i <= n <= j :: k in trace[n].objects
  }

  /** Over every run of rounds by any subscriptions an object keeps its host from creation to deletion. */
  lemma {:induction false} HostsOutliveRounds(c: Config, st: State, rounds: seq<Round>, k: Key, i: nat, j: nat)
    requires forall r | r in rounds :: PlainRound(r)
    requires LivesThrough(RoundTrace(c, st, rounds), k, i, j)
    ensures Host(RoundTrace(c, st, rounds)[i].objects[k]) == Host(RoundTrace(c, st, rounds)[j].objects[k])
    decreases j
  {
    if i < j {
      var trace := RoundTrace(c, st, rounds);
      HostsOutliveRounds(c, st, rounds, k, i, j - 1);
      assert rounds[j - 1] in rounds;
      RoundKeepsOwnership(c, trace[j - 1], rounds[j - 1]);
    }
  }

  /**
   In a run of rounds: a round changes objects of its own subscription only, creates
   objects whose host is its subscription as long as they live, and takes away objects
   hosted by the one it deletes as or by that one's `-local` twin.
   */
  lemma {:induction false} RoundsActOnTheirOwn(c: Config, st: State, rounds: seq<Round>, k: Key, n: nat)
    requires (forall r | r in rounds :: PlainRound(r)) && n < |rounds|
    ensures RoundEffect(c, RoundTrace(c, st, rounds)[n].objects, RoundTrace(c, st, rounds)[n + 1].objects, rounds[n])
    ensures var trace := RoundTrace(c, st, rounds);
            k !in trace[n].objects && k in trace[n + 1].objects ==>
              forall j: nat | LivesThrough(trace, k, n + 1, j) :: Host(trace[j].objects[k]) == HostString(rounds[n].sub)
  {
    var trace := RoundTrace(c, st, rounds);
    assert rounds[n] in rounds;
    RoundKeepsOwnership(c, trace[n], rounds[n]);
    if k !in trace[n].objects && k in trace[n + 1].objects {
      forall j: nat | LivesThrough(trace, k, n + 1, j) ensures Host(trace[j].objects[k]) == HostString(rounds[n].sub) {
        HostsOutliveRounds(c, st, rounds, k, n + 1, j);
      }
    }
  }

  // ----- who loses what

  /**
   A round takes an object away if and only if a condemned unit names it, no call
   fails, and its host and annotations allow it.
   */
  lemma {:induction false} LostExactly(c: Config, st: State, r: Round, k: Key)
    requires k in Applied(c, st, r)
    ensures k !in Next(c, st, r).objects <==>
            Removes(c, Applied(c, st, r), DeletesAs(c, r), Condemned(c, st, r), r.faults, k)
  {
    RoundIsTwoPhases(c, st, r);
    GoneExactly(c, Applied(c, st, r), DeletesAs(c, r), Condemned(c, st, r), r.faults, k);
  }

  /** A round of the subscription, of the given sort, on these objects takes the object away. */
  ghost predicate Takes(c: Config, objs: Objects, sub: SubKey, applies: bool, k: Key,
                        statuses: map<SubKey, seq<Unit>>, r: Round)
  {
    r.sub == sub && r.Apply? == applies && PlainRound(r) && k !in Next(c, State(objs, statuses), r).objects
  }

  /**
   With a suitable status some round of the subscription takes the object away if and
   only if the object is hosted by the one that such rounds delete as, or by its twin:
   for APPLY rounds that is the name of the status, otherwise the subscription itself.
   */
  lemma {:induction false} WhoCanLose(c: Config, objs: Objects, sub: SubKey, applies: bool, k: Key, u: Unit)
    requires ValidSub(sub) && k in objs && !Kept(objs[k]) && KeyOf(c.rest, u) == Some(k)
    ensures (exists statuses, r :: Takes(c, objs, sub, applies, k, statuses, r)) <==>
            HostedByGroup(objs[k], if applies then StatusKey(c, sub) else sub)
  {
    forall statuses, r | Takes(c, objs, sub, applies, k, statuses, r)
      ensures HostedByGroup(objs[k], if applies then StatusKey(c, sub) else sub)
    {
      RoundKeepsOwnership(c, State(objs, statuses), r);
    }
    if HostedByGroup(objs[k], if applies then StatusKey(c, sub) else sub) {
      if applies {
        AnApplyTakes(c, objs, sub, k, u);
      } else {
        ACleanupTakes(c, objs, sub, k, u);
      }
    }
  }

  const NO_FAULT := DeleteFaults(false, false)

  lemma {:induction false} ACleanupTakes(c: Config, objs: Objects, sub: SubKey, k: Key, u: Unit)
    requires ValidSub(sub) && k in objs && !Kept(objs[k]) && KeyOf(c.rest, u) == Some(k) && HostedByGroup(objs[k], sub)
    ensures exists statuses, r :: Takes(c, objs, sub, false, k, statuses, r)
  {
    var r, statuses := Cleanup(sub, (i: nat) => NO_FAULT, Gone, false), map[sub := [u]];
    LostExactly(c, State(objs, statuses), r, k);
    assert Hits(c, [u], r.faults, k, 0);
    assert Takes(c, objs, sub, false, k, statuses, r);
  }

  /** A batch whose one manifest cannot be processed touches nothing and reports a nameless unit. */
  lemma {:induction false} AnApplyTakes(c: Config, objs: Objects, sub: SubKey, k: Key, u: Unit)
    requires ValidSub(sub) && k in objs && !Kept(objs[k]) && KeyOf(c.rest, u) == Some(k)
    requires HostedByGroup(objs[k], StatusKey(c, sub))
    ensures exists statuses, r :: Takes(c, objs, sub, true, k, statuses, r)
  {
    var x := Resource(Template("", "", "", "", map[], Object(map[])),
                      ApplyFaults(true, false, false, false, false, false, false, Written));
    var r := Apply(sub, false, [x], (i: nat) => NO_FAULT, false, false);
    var statuses, units := map[StatusKey(c, sub) := [u]], [Unit("", "", "", "", DeployFailed)];
    FailedBatch(c, objs, sub, x);
    LoneOrphan(u, units);
    LostExactly(c, State(objs, statuses), r, k);
    assert Hits(c, [u], r.faults, k, 0);
    assert Takes(c, objs, sub, true, k, statuses, r);
  }

  lemma {:induction false} FailedBatch(c: Config, objs: Objects, sub: SubKey, x: Resource)
    requires x.faults.override
    ensures ApplyAll(c, objs, sub, false, [x]) == (objs, [Unit("", "", "", "", DeployFailed)])
  {
    var rs := [x];
    assert rs[..|rs| - 1] == [] && ApplyAll(c, objs, sub, false, rs[..|rs| - 1]) == (objs, []);
    var unit := ApplyResource(c.rest, objs, sub, false, x.template, x.faults).1;
    assert [] + [unit] == [unit];
  }

  lemma {:induction false} LoneOrphan(u: Unit, units: seq<Unit>)
    requires !Listed(u, units)
    ensures Orphans([u], units) == [u]
  {
    var stored := [u];
    assert stored[..|stored| - 1] == [] && Orphans([], units) == [];
  }

  /** Where statuses are shared, an APPLY round of `x-local` can take objects of `x` away, which are not its own. */
  lemma {:induction false} SharedStatusTakesTheBases(c: Config, objs: Objects, base: SubKey, k: Key, u: Unit)
    requires SharesStatus(c) && ValidSub(base) && ValidSub(Twin(base))
    requires k in objs && Host(objs[k]) == HostString(base) && !Kept(objs[k]) && KeyOf(c.rest, u) == Some(k)
    ensures exists statuses, r :: Takes(c, objs, Twin(base), true, k, statuses, r)
    ensures !HostedByGroup(objs[k], Twin(base))
  {
    TwinSharesStatus(c, base);
    WhoCanLose(c, objs, Twin(base), true, k, u);
    assert |HostString(base)| < |HostString(Twin(base))| < |HostString(Twin(Twin(base)))|;
  }

  lemma {:induction false} TwinSharesStatus(c: Config, base: SubKey)
    requires SharesStatus(c)
    ensures StatusKey(c, Twin(base)) == base
  {
    var name := Twin(base).name;
    assert name[|name| - 6..] == LOCAL_SUFFIX && name[..|name| - 6] == base.name;
  }

  // ----- tracking over runs of rounds

  ghost predicate AllTracked(c: Config, st: State) {
    forall s | ValidSub(s) :: Tracked(c, st, s)
  }

  /** No host of its own; an elevated template leaves the do-not-delete annotation alone. */
  predicate Tame(t: Template) {
    Anno(t.annotations, Hosting) == "" &&
    (EqualFold(Anno(t.annotations, ClusterAdmin), "true") ==> DoNotDelete !in t.annotations)
  }

  ghost predicate TameRound(r: Round) {
    ValidSub(r.sub) && (r.Apply? ==> forall x | x in r.resources :: Tame(x.template))
  }

  /** The status of an APPLY round is read and written, and its lookups fail with "not found" only. */
  ghost predicate Undisturbed(r: Round) {
    Reliable(r.faults) && (r.Apply? ==> !r.statusLookup && !r.statusWrite)
  }

  /** Only the subscription may have objects to track that were none before. */
  ghost predicate NoNewNeeds(before: Objects, after: Objects, sub: SubKey) {
    forall s, k | ValidSub(s) && s != sub && k in after && NeedsTracking(after[k], s) ::
      k in before && NeedsTracking(before[k], s)
  }

  lemma {:induction false} HostStringsDiffer(a: SubKey, b: SubKey)
    requires ValidSub(a) && ValidSub(b)
    ensures HostString(a) == HostString(b) <==> a == b
  {
    HostRoundTrip(map[Hosting := HostString(a)], a);
    HostRoundTrip(map[Hosting := HostString(a)], b);
  }

  lemma {:induction false} UpdateMakesNoNeeds(orig: Obj, m: Mapping, t: Template, sub: SubKey, outcome: WriteOutcome,
      s: SubKey)
    requires ValidSub(sub) && ValidSub(s) && s != sub && Anno(t.annotations, Hosting) == HostString(sub)
    requires EqualFold(Anno(t.annotations, ClusterAdmin), "true") ==> DoNotDelete !in t.annotations
    ensures NeedsTracking(UpdateExisting(orig, m, t, outcome).0, s) ==> NeedsTracking(orig, s)
  {
    HostStringsDiffer(s, sub);
  }

  /**
   Exactly when an update leaves another subscription with an object to track that was
   none: an elevated "merge" that takes the do-not-delete mark off that host's object.
   */
  lemma {:induction false} UpdateNeedsExactly(orig: Obj, m: Mapping, t: Template, sub: SubKey, s: SubKey)
    requires ValidSub(sub) && ValidSub(s) && s != sub && Anno(t.annotations, Hosting) == HostString(sub)
    ensures NeedsTracking(UpdateExisting(orig, m, t, Written).0, s) && !NeedsTracking(orig, s) <==>
            MergesElevated(t) && DoNotDelete in t.annotations && t.annotations[DoNotDelete] != "true" &&
            Host(orig) == HostString(s) && Kept(orig) && !IsAutoNamespace(orig)
  {
    HostStringsDiffer(s, sub);
    UpdateOfAnothers(orig, m, t, sub);
  }

  predicate MergesElevated(t: Template) {
    EqualFold(Anno(t.annotations, ClusterAdmin), "true") && HasOption(t, "merge") &&
    !IsSubscription(t) && !IsHelmRelease(t)
  }

  lemma {:induction false} UpdateOfAnothers(orig: Obj, m: Mapping, t: Template, sub: SubKey)
    requires ValidSub(sub) && Anno(t.annotations, Hosting) == HostString(sub)
    ensures var o := UpdateExisting(orig, m, t, Written).0;
            if Host(orig) != HostString(sub) && MergesElevated(t) then
              o.annotations == orig.annotations + RemoveSubAnnotations(t.annotations)
            else
              o == orig || Host(o) == HostString(sub) || Host(o) == ""
  {
    HostRoundTrip(t.annotations, sub);
    HostRoundTrip(orig.annotations, sub);
    OptionsExclude(t);
  }

  lemma {:induction false} ApplyMakesNoNeeds(objs: Objects, m: Mapping, t: Template, sub: SubKey, isAdmin: bool,
      f: ApplyFaults)
    requires ValidSub(sub) && Anno(t.annotations, Hosting) == HostString(sub)
    requires EqualFold(Anno(t.annotations, ClusterAdmin), "true") ==> DoNotDelete !in t.annotations
    ensures NoNewNeeds(objs, ApplyTemplate(objs, m, t, isAdmin, f).0, sub)
  {
    ApplyTouches(objs, m, t, isAdmin, f);
    var key, after := TemplateKey(m, t), ApplyTemplate(objs, m, t, isAdmin, f).0;
    forall s, k | ValidSub(s) && s != sub && k in after && NeedsTracking(after[k], s)
      ensures k in objs && NeedsTracking(objs[k], s)
    {
      HostStringsDiffer(s, sub);
      if key in objs {
        UpdateMakesNoNeeds(objs[key], m, t, sub, f.update, s);
      }
    }
  }

  lemma {:induction false} StepMakesNoNeeds(rest: RestMapper, objs: Objects, sub: SubKey, isAdmin: bool, x: Resource)
    requires ValidSub(sub) && Tame(x.template)
    ensures NoNewNeeds(objs, ApplyResource(rest, objs, sub, isAdmin, x.template, x.faults).0, sub)
  {
    var t := Override(sub, x.template);
    assert Anno(t.annotations, Hosting) == HostString(sub);
    if (t.apiVersion, t.kind) in rest {
      ApplyMakesNoNeeds(objs, rest[(t.apiVersion, t.kind)], t, sub, isAdmin, x.faults);
    }
  }

  lemma {:induction false} BatchMakesNoNeeds(c: Config, objs: Objects, sub: SubKey, isAdmin: bool, rs: seq<Resource>)
    requires ValidSub(sub) && forall x | x in rs :: Tame(x.template)
    ensures NoNewNeeds(objs, ApplyAll(c, objs, sub, isAdmin, rs).0, sub)
    decreases |rs|
  {
    if rs != [] {
      var less, r := rs[..|rs| - 1], rs[|rs| - 1];
      assert forall x | x in less :: x in rs;
      BatchMakesNoNeeds(c, objs, sub, isAdmin, less);
      var before := ApplyAll(c, objs, sub, isAdmin, less).0;
      StepMakesNoNeeds(c.rest, before, sub, isAdmin, r);
      NeedsChain(objs, before, ApplyAll(c, objs, sub, isAdmin, rs).0, sub);
    }
  }

  lemma {:induction false} NeedsChain(a: Objects, b: Objects, d: Objects, sub: SubKey)
    requires NoNewNeeds(a, b, sub) && NoNewNeeds(b, d, sub)
    ensures NoNewNeeds(a, d, sub)
  {
  }

  /** No new objects to track, and the same list: still tracked. */
  lemma {:induction false} FewerStaysTracked(c: Config, st: State, after: State, s: SubKey)
    requires Tracked(c, st, s)
    requires forall k | k in after.objects && NeedsTracking(after.objects[k], s) ::
               k in st.objects && NeedsTracking(st.objects[k], s)
    requires StatusKey(c, s) in st.statuses ==>
               StatusKey(c, s) in after.statuses && after.statuses[StatusKey(c, s)] == st.statuses[StatusKey(c, s)]
    ensures Tracked(c, after, s)
  {
  }

  /** An undisturbed APPLY round keeps every subscription tracked, those that share its status included. */
  lemma {:induction false} ApplyRoundTracks(c: Config, st: State, r: Round, s: SubKey)
    requires GoodRest(c) && r.Apply? && TameRound(r) && Undisturbed(r) && ValidSub(s) && Tracked(c, st, s)
    ensures Tracked(c, Next(c, st, r), s)
  {
    if StatusKey(c, s) == StatusKey(c, r.sub) {
      ApplyKeepsTracking(c, st, r.sub, r.isAdmin, r.resources, r.faults, s);
    } else {
      RoundIsTwoPhases(c, st, r);
      BatchMakesNoNeeds(c, st.objects, r.sub, r.isAdmin, r.resources);
      DeleteShrinks(c, Applied(c, st, r), DeletesAs(c, r), Condemned(c, st, r), r.faults);
      FewerStaysTracked(c, st, Next(c, st, r), s);
    }
  }

  /**
   Whether the list stored for `s` after an APPLY round names the object, if it is still
   there: a list that is written holds the units of the batch and the dropped ones that
   were looked up and stay; any other list is the old one.
   */
  ghost predicate StaysListed(c: Config, st: State, r: Round, s: SubKey, k: Key)
    requires r.Apply? && k in Applied(c, st, r)
  {
    if StatusKey(c, s) == StatusKey(c, r.sub) && !r.statusLookup && !r.statusWrite then
      Tracks(c, ApplyAll(c, st.objects, r.sub, r.isAdmin, r.resources).1, k) ||
      exists i: nat :: LooksUp(c, Condemned(c, st, r), r.faults, k, i)
    else
      Tracks(c, Stored(st, StatusKey(c, s)), k) ||
      Removes(c, Applied(c, st, r), DeletesAs(c, r), Condemned(c, st, r), r.faults, k)
  }

  /** An APPLY round, whatever its templates are and whatever fails, leaves `s` tracked exactly under this condition. */
  lemma {:induction false} ApplyTracksExactly(c: Config, st: State, r: Round, s: SubKey)
    requires r.Apply?
    ensures Tracked(c, Next(c, st, r), s) <==>
            forall k | k in Applied(c, st, r) && NeedsTracking(Applied(c, st, r)[k], s) :: StaysListed(c, st, r, s, k)
  {
    RoundIsTwoPhases(c, st, r);
    var applied, after := Applied(c, st, r), Next(c, st, r);
    DeleteShrinks(c, applied, DeletesAs(c, r), Condemned(c, st, r), r.faults);
    forall k | k in applied && NeedsTracking(applied[k], s)
      ensures (k in after.objects ==> Tracks(c, Stored(after, StatusKey(c, s)), k)) <==> StaysListed(c, st, r, s, k)
    {
      ObjectStaysListed(c, st, r, s, k);
    }
    forall k ensures Tracks(c, Stored(after, StatusKey(c, s)), k) ==> StatusKey(c, s) in after.statuses {
    }
  }

  lemma {:induction false} ObjectStaysListed(c: Config, st: State, r: Round, s: SubKey, k: Key)
    requires r.Apply? && k in Applied(c, st, r) && NeedsTracking(Applied(c, st, r)[k], s)
    ensures (k in Next(c, st, r).objects ==> Tracks(c, Stored(Next(c, st, r), StatusKey(c, s)), k)) <==>
            StaysListed(c, st, r, s, k)
  {
    LostExactly(c, st, r, k);
    if StatusKey(c, s) == StatusKey(c, r.sub) && !r.statusLookup && !r.statusWrite {
      var applied, orphans, key := Applied(c, st, r), Condemned(c, st, r), StatusKey(c, s);
      var units := ApplyAll(c, st.objects, r.sub, r.isAdmin, r.resources).1;
      var failed := DeleteAll(c, applied, key, orphans, r.faults).1;
      assert Stored(Next(c, st, r), key) == units + failed;
      TracksOfMore(c, units, failed, k);
      TrimIsGroup(c, s);
      RoundIsTwoPhases(c, st, r);
      if k in Next(c, st, r).objects {
        RelistedExactly(c, applied, key, orphans, r.faults, k);
      } else {
        var i: nat :| Hits(c, orphans, r.faults, k, i);
        assert LooksUp(c, orphans, r.faults, k, i);
      }
    }
  }

  /** A dropped unit whose lookup fails with another error: its object stays, and is tracked no more. */
  lemma {:induction false} LookupErrorForgets(c: Config, sub: SubKey, k: Key, o: Obj, u: Unit, x: Resource)
    requires ValidSub(sub) && NeedsTracking(o, sub) && KeyOf(c.rest, u) == Some(k) && x.faults.override
    ensures var st := State(map[k := o], map[StatusKey(c, sub) := [u]]);
            var after := Next(c, st, Apply(sub, false, [x], (i: nat) => DeleteFaults(true, false), false, false));
            Tracked(c, st, sub) && k in after.objects && !Tracked(c, after, sub)
  {
    var st := State(map[k := o], map[StatusKey(c, sub) := [u]]);
    var r := Apply(sub, false, [x], (i: nat) => DeleteFaults(true, false), false, false);
    var units := [Unit("", "", "", "", DeployFailed)];
    FailedBatch(c, st.objects, sub, x);
    LoneOrphan(u, units);
    assert KeyOf(c.rest, [u][0]) == Some(k);
    LostExactly(c, st, r, k);
    assert forall i: nat :: !LooksUp(c, [u], r.faults, k, i);
    assert !Tracks(c, units, k);
    ApplyTracksExactly(c, st, r, sub);
    assert !StaysListed(c, st, r, sub, k);
  }

  /** A first round whose status cannot be written leaves the subscription tracked only if it has nothing to track. */
  lemma {:induction false} UnwrittenStatusForgets(c: Config, st: State, r: Round)
    requires r.Apply? && (r.statusLookup || r.statusWrite) && StatusKey(c, r.sub) !in st.statuses
    ensures Tracked(c, Next(c, st, r), r.sub) <==>
            forall k | k in Applied(c, st, r) :: !NeedsTracking(Applied(c, st, r)[k], r.sub)
  {
    ApplyTracksExactly(c, st, r, r.sub);
    assert forall k, i: nat :: !Hits(c, [], r.faults, k, i);
  }

  /** The name whose list a purge or cleanup gives up. */
  function ListKey(c: Config, r: Round): SubKey {
    if r.Cleanup? then r.sub else StatusKey(c, r.sub)
  }

  /** The purge or cleanup leaves the list as it is: nothing to do, a status call fails, or a cleanup meets an error. */
  ghost predicate ListStays(c: Config, st: State, r: Round)
    requires !r.Apply?
  {
    ListKey(c, r) !in st.statuses || r.statusWrite ||
    match r
    case Purge(_, _, lookup, _, _) => lookup
    case Cleanup(sub, faults, subLookup, _) =>
      !subLookup.Gone? || st.statuses[sub] == [] || exists i: nat ::
        Errs(c, st.objects, sub, st.statuses[sub], faults, i)
  }

  lemma {:induction false} ListStaysOrTracksNothing(c: Config, st: State, r: Round)
    requires !r.Apply?
    ensures var after := Next(c, st, r).statuses;
            if ListStays(c, st, r) then after == st.statuses
            else (forall key | key != ListKey(c, r) :: Stored(Next(c, st, r), key) == Stored(st, key) &&
                                                     (key in after <==> key in st.statuses)) &&
                 (ListKey(c, r) in after ==> forall k :: !Tracks(c, after[ListKey(c, r)], k))
  {
    if r.Cleanup? && r.sub in st.statuses {
      FailsExactly(c, st.objects, r.sub, st.statuses[r.sub], r.faults);
    }
  }

  /**
   A purge or cleanup that gives up a list leaves a subscription of that list tracked
   if and only if it takes away each of its objects.
   */
  lemma {:induction false} RemovalTracksExactly(c: Config, st: State, r: Round, s: SubKey)
    requires !r.Apply? && !ListStays(c, st, r) && StatusKey(c, s) == ListKey(c, r)
    ensures Tracked(c, Next(c, st, r), s) <==>
            forall k | k in st.objects && NeedsTracking(st.objects[k], s) ::
              Removes(c, st.objects, r.sub, Condemned(c, st, r), r.faults, k)
  {
    ListStaysOrTracksNothing(c, st, r);
    RoundIsTwoPhases(c, st, r);
    DeleteShrinks(c, st.objects, r.sub, Condemned(c, st, r), r.faults);
    forall k | k in st.objects
      ensures k !in Next(c, st, r).objects <==> Removes(c, st.objects, r.sub, Condemned(c, st, r), r.faults, k)
    {
      LostExactly(c, st, r, k);
    }
  }

  /** The round stores no list, and gives up none, that lacks an object to track. */
  ghost predicate Safe(c: Config, st: State, r: Round) {
    if r.Apply? then
      forall s, k | ValidSub(s) && k in Applied(c, st, r) && NeedsTracking(Applied(c, st, r)[k], s) ::
        StaysListed(c, st, r, s, k)
    else
      ListStays(c, st, r) ||
      forall s, k | ValidSub(s) && StatusKey(c, s) == ListKey(c, r) && k in st.objects &&
                    NeedsTracking(st.objects[k], s) ::
        Removes(c, st.objects, r.sub, Condemned(c, st, r), r.faults, k)
  }

  /** After a round of any subscription everything is tracked if and only if the round is safe. */
  lemma {:induction false} RoundTracksExactly(c: Config, st: State, r: Round)
    requires AllTracked(c, st)
    ensures AllTracked(c, Next(c, st, r)) <==> Safe(c, st, r)
  {
    if r.Apply? {
      forall s | ValidSub(s)
        ensures Tracked(c, Next(c, st, r), s) <==>
                forall k | k in Applied(c, st, r) && NeedsTracking(Applied(c, st, r)[k], s) ::
                  StaysListed(c, st, r, s, k)
      {
        ApplyTracksExactly(c, st, r, s);
      }
    } else {
      forall s | ValidSub(s) && (StatusKey(c, s) != ListKey(c, r) || ListStays(c, st, r))
        ensures Tracked(c, Next(c, st, r), s)
      {
        UnlistedStaysTracked(c, st, r, s);
      }
      forall s | ValidSub(s) && StatusKey(c, s) == ListKey(c, r) && !ListStays(c, st, r)
        ensures Tracked(c, Next(c, st, r), s) <==>
                forall k | k in st.objects && NeedsTracking(st.objects[k], s) ::
                  Removes(c, st.objects, r.sub, Condemned(c, st, r), r.faults, k)
      {
        RemovalTracksExactly(c, st, r, s);
      }
    }
  }

  lemma {:induction false} UnlistedStaysTracked(c: Config, st: State, r: Round, s: SubKey)
    requires !r.Apply? && Tracked(c, st, s) && (StatusKey(c, s) != ListKey(c, r) || ListStays(c, st, r))
    ensures Tracked(c, Next(c, st, r), s)
  {
    ListStaysOrTracksNothing(c, st, r);
    RoundIsTwoPhases(c, st, r);
    DeleteShrinks(c, st.objects, r.sub, Condemned(c, st, r), r.faults);
    var key := StatusKey(c, s);
    assert Stored(Next(c, st, r), key) == Stored(st, key) && (key in Next(c, st, r).statuses <==> key in st.statuses);
    FewerStaysTracked(c, st, Next(c, st, r), s);
  }

  /** An undisturbed APPLY round with tame templates is safe. */
  lemma {:induction false} ApplyIsSafe(c: Config, st: State, r: Round)
    requires GoodRest(c) && r.Apply? && TameRound(r) && Undisturbed(r) && AllTracked(c, st)
    ensures Safe(c, st, r)
  {
    forall s | ValidSub(s) ensures Tracked(c, Next(c, st, r), s) {
      ApplyRoundTracks(c, st, r, s);
    }
    RoundTracksExactly(c, st, r);
  }

  /** A cleanup whose lookups fail with "not found" only is safe: it gives up a list only when all is gone. */
  lemma {:induction false} CleanupIsSafe(c: Config, st: State, r: Round)
    requires r.Cleanup? && Reliable(r.faults) && AllTracked(c, st)
    ensures Safe(c, st, r)
  {
    if !ListStays(c, st, r) {
      var units := st.statuses[r.sub];
      forall s, k | ValidSub(s) && StatusKey(c, s) == r.sub && k in st.objects && NeedsTracking(st.objects[k], s)
        ensures Removes(c, st.objects, r.sub, units, r.faults, k)
      {
        assert Tracked(c, st, s);
        TrimIsGroup(c, s);
        FailsExactly(c, st.objects, r.sub, units, r.faults);
        TrackedUnitHits(c, st.objects, r.sub, units, r.faults, k);
      }
    }
  }

  /** Without an error the list takes all that it tracks and may take. */
  lemma {:induction false} TrackedUnitHits(c: Config, objs: Objects, host: SubKey, units: seq<Unit>,
      faults: nat -> DeleteFaults, k: Key)
    requires k in objs && Tracks(c, units, k) && HostedByGroup(objs[k], host) && !Kept(objs[k])
    requires Reliable(faults) && DeleteAll(c, objs, host, units, faults).1 == []
    ensures Removes(c, objs, host, units, faults, k)
  {
    var i :| 0 <= i < |units| && KeyOf(c.rest, units[i]) == Some(k);
    UnitIsSpared(c, objs, host, units, faults, i);
    DeleteShrinks(c, objs, host, units, faults);
    GoneExactly(c, objs, host, units, faults, k);
  }

  /** A purge without errors that looks where the units are is safe if no other subscription shares the status. */
  lemma {:induction false} PurgeIsSafe(c: Config, st: State, r: Round)
    requires r.Purge? && AllTracked(c, st) && (forall i: nat :: r.faults(i) == NO_FAULT)
    requires PurgeKey(c, r.sub) == StatusKey(c, r.sub)
    requires forall s, k | ValidSub(s) && StatusKey(c, s) == StatusKey(c, r.sub) && s != r.sub && k in st.objects ::
               !NeedsTracking(st.objects[k], s)
    ensures Safe(c, st, r)
  {
    if !ListStays(c, st, r) {
      var units := st.statuses[StatusKey(c, r.sub)];
      forall s, k | ValidSub(s) && StatusKey(c, s) == ListKey(c, r) && k in st.objects &&
        NeedsTracking(st.objects[k], s)
        ensures Removes(c, st.objects, r.sub, units, r.faults, k)
      {
        assert s == r.sub && Tracked(c, st, s);
        var i :| 0 <= i < |units| && KeyOf(c.rest, units[i]) == Some(k);
        assert Hits(c, units, r.faults, k, i);
      }
    }
  }

  /** Everything is tracked at every point of a run if and only if all its rounds are safe. */
  lemma {:induction false} RunTracksExactly(c: Config, st: State, rounds: seq<Round>)
    requires AllTracked(c, st)
    ensures var trace := RoundTrace(c, st, rounds);
            (forall i | 0 <= i <= |rounds| :: AllTracked(c, trace[i])) <==>
            (forall i | 0 <= i < |rounds| :: Safe(c, trace[i], rounds[i]))
  {
    var trace := RoundTrace(c, st, rounds);
    if forall i | 0 <= i <= |rounds| :: AllTracked(c, trace[i]) {
      forall i | 0 <= i < |rounds| ensures Safe(c, trace[i], rounds[i]) {
        assert AllTracked(c, trace[i + 1]);
        RoundTracksExactly(c, trace[i], rounds[i]);
      }
    }
    if forall i | 0 <= i < |rounds| :: Safe(c, trace[i], rounds[i]) {
      forall i | 0 <= i <= |rounds| ensures AllTracked(c, trace[i]) {
        SafeRunTracks(c, st, rounds, i);
      }
    }
  }

  lemma {:induction false} SafeRunTracks(c: Config, st: State, rounds: seq<Round>, i: nat)
    requires AllTracked(c, st) && i <= |rounds|
    requires forall n | 0 <= n < |rounds| :: Safe(c, RoundTrace(c, st, rounds)[n], rounds[n])
    ensures AllTracked(c, RoundTrace(c, st, rounds)[i])
    decreases i
  {
    if i > 0 {
      SafeRunTracks(c, st, rounds, i - 1);
      RoundTracksExactly(c, RoundTrace(c, st, rounds)[i - 1], rounds[i - 1]);
    }
  }

  /** A tame round whose deletions look up without errors and, in a purge, succeed. */
  ghost predicate Orderly(r: Round) {
    TameRound(r) && Undisturbed(r) && (r.Purge? ==> forall i: nat :: r.faults(i) == NO_FAULT)
  }

  /** On a managed cluster, in every run of orderly rounds by any subscriptions, all that is hosted is tracked. */
  lemma {:induction false} RunKeepsTracking(c: Config, st: State, rounds: seq<Round>, n: nat)
    requires !SharesStatus(c) && GoodRest(c) && AllTracked(c, st) && (forall r | r in rounds :: Orderly(r))
    requires n <= |rounds|
    ensures AllTracked(c, RoundTrace(c, st, rounds)[n])
    decreases n
  {
    if n > 0 {
      RunKeepsTracking(c, st, rounds, n - 1);
      var before, r := RoundTrace(c, st, rounds)[n - 1], rounds[n - 1];
      assert r in rounds;
      if r.Cleanup? {
        CleanupIsSafe(c, before, r);
      } else if r.Purge? {
        PurgeIsSafe(c, before, r);
      } else {
        ApplyIsSafe(c, before, r);
      }
      RoundTracksExactly(c, before, r);
    }
  }

  /** Where statuses are shared, a purge of `x-local` leaves `x` tracked if and only if `x` has nothing to track. */
  lemma {:induction false} PurgeForgetsTheBase(c: Config, st: State, base: SubKey, r: Round)
    requires SharesStatus(c) && r.Purge? && r.sub == Twin(base) && !ListStays(c, st, r) && StatusKey(c, base) == base
    ensures Tracked(c, Next(c, st, r), base) <==> forall k | k in st.objects :: !NeedsTracking(st.objects[k], base)
  {
    TwinSharesStatus(c, base);
    RemovalTracksExactly(c, st, r, base);
    assert |HostString(base)| < |HostString(Twin(base))| < |HostString(Twin(Twin(base)))|;
  }

  /**
   Where `x-local` is stored under `x` but a purge looks for `x-local`, which is not
   there: it deletes nothing, and gives up the list.
   */
  lemma {:induction false} MisplacedPurgeDeletesNothing(c: Config, st: State, base: SubKey, r: Round)
    requires SharesStatus(c) && (!c.hub || c.standalone) && r.Purge? && r.sub == Twin(base)
    requires Twin(base) !in st.statuses && !ListStays(c, st, r)
    ensures Next(c, st, r).objects == st.objects && base in st.statuses && base !in Next(c, st, r).statuses
    ensures Tracked(c, Next(c, st, r), Twin(base)) <==>
            forall k | k in st.objects :: !NeedsTracking(st.objects[k], Twin(base))
  {
    TwinSharesStatus(c, base);
  }
}
