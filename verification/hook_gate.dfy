/**
 The order of hooks and propagation in one reconcile of a hub subscription
 (Reconcile, finalCommit and IsSubscriptionCompleted in
 pkg/controller/mcmhub/mcmhub_controller.go, the hook registry in hook.go).
 */
module HookGate {
  import opened Text
  import opened HookJobs
  import opened Sorting

  // ----- completion of hooks

  predicate JobDone(jobs: seq<Job>, key: Name) {
    exists i :: 0 <= i < |jobs| && jobs[i].key == key && jobs[i].successful
  }

  /** The hook holds an instance with a name; a nameless one is left by a failed registration. */
  predicate HasInstance(st: State, h: Hook) {
    h in st.instances && !Nameless(st.instances[h])
  }

  /** The hook holds an instance whose job in the API server is successful. */
  predicate HookDone(st: State, h: Hook) {
    HasInstance(st, h) && JobDone(st.jobs, st.instances[h].key)
  }

  lemma {:induction false} DoneIs(st: State, h: Hook)
    ensures HookDone(st, h) <==>
            h in st.instances && st.instances[h].key.name != "" &&
            exists j :: j in st.jobs && j.key == st.instances[h].key && j.successful
  {
    if HookDone(st, h) {
      var i :| 0 <= i < |st.jobs| && st.jobs[i].key == st.instances[h].key && st.jobs[i].successful;
      assert st.jobs[i] in st.jobs;
    }
  }

  datatype Completion = Complete | Incomplete | CheckFailed

  /**
   isJobsCompleted in the iteration order given: the first hook without an instance ends
   the check.  `fails` are the lookups that return an error; a nameless instance either
   fails, or is not found by a cached client and so not complete.
   */
  function JobsCompleted(st: State, order: seq<Hook>, fails: Hook -> bool): Completion {
    if order == [] || order[0] !in st.instances then Complete
    else if fails(order[0]) then CheckFailed
    else if !HookDone(st, order[0]) then Incomplete
    else JobsCompleted(st, order[1..], fails)
  }

  method IsJobsCompleted(st: State, order: seq<Hook>, fails: Hook -> bool) returns (c: Completion)
    ensures c == JobsCompleted(st, order, fails)
    ensures c.Complete? && (forall h | h in order :: h in st.instances) ==> forall h | h in order :: HookDone(st, h)
  {
    CompleteIffDone(st, order, fails);
    for i := 0 to |order|
      invariant JobsCompleted(st, order, fails) == JobsCompleted(st, order[i..], fails)
    {
      var h := order[i];
      assert order[i..][0] == h && order[i..][1..] == order[i + 1..];
      if h !in st.instances {
        return Complete;
      }
      if fails(h) {
        return CheckFailed;
      }
      if Nameless(st.instances[h]) || !JobDone(st.jobs, st.instances[h].key) {
        return Incomplete;
      }
    }
    return Complete;
  }

  lemma {:induction false} CompleteIffDone(st: State, order: seq<Hook>, fails: Hook -> bool)
    ensures (forall h | h in order :: h in st.instances && !fails(h)) ==>
              (JobsCompleted(st, order, fails).Complete? <==> forall h | h in order :: HookDone(st, h))
    ensures (forall h | h in order :: h in st.instances) && JobsCompleted(st, order, fails).Complete? ==>
              forall h | h in order :: HookDone(st, h)
  {
    if order != [] {
      assert order[0] in order && order == [order[0]] + order[1..];
      CompleteIffDone(st, order[1..], fails);
    }
  }

  /** One hook without an instance lets the whole set pass, whatever the other jobs are doing. */
  lemma {:induction false} MissingInstancePasses(st: State, hooks: seq<Hook>, missing: Hook, fails: Hook -> bool)
    returns (order: seq<Hook>)
    requires missing in hooks && missing !in st.instances
    ensures multiset(order) == multiset(hooks) && JobsCompleted(st, order, fails).Complete?
  {
    var i :| 0 <= i < |hooks| && hooks[i] == missing;
    order := [missing] + hooks[..i] + hooks[i + 1..];
    assert hooks == hooks[..i] + [missing] + hooks[i + 1..];
    assert multiset(order) == multiset(hooks);
    assert order[0] == missing;
  }

  ghost predicate Passes(st: State, hooks: seq<Hook>, fails: Hook -> bool, order: seq<Hook>) {
    multiset(order) == multiset(hooks) && JobsCompleted(st, order, fails).Complete?
  }

  /** Some iteration order passes exactly when all hooks are done or one of them has no instance. */
  lemma {:induction false} PassesInSomeOrder(st: State, hooks: seq<Hook>, fails: Hook -> bool)
    requires forall h | h in hooks :: !fails(h)
    ensures (exists order :: Passes(st, hooks, fails, order)) <==>
            (exists h :: h in hooks && h !in st.instances) || forall h | h in hooks :: HookDone(st, h)
  {
    if missing :| missing in hooks && missing !in st.instances {
      var order := MissingInstancePasses(st, hooks, missing, fails);
      assert Passes(st, hooks, fails, order);
    } else {
      forall order | Passes(st, hooks, fails, order) ensures forall h | h in hooks :: HookDone(st, h) {
        SameElements(order, hooks);
        CompleteIffDone(st, order, fails);
      }
      CompleteIffDone(st, hooks, fails);
      assert (forall h | h in hooks :: HookDone(st, h)) ==> Passes(st, hooks, fails, hooks);
    }
  }

  /** The check ends with an error exactly when a call fails for a hook behind done ones only. */
  lemma {:induction false} CheckFailsIff(st: State, order: seq<Hook>, fails: Hook -> bool)
    ensures JobsCompleted(st, order, fails).CheckFailed? <==>
            exists i :: 0 <= i < |order| && FirstFailure(st, order, fails, i)
  {
    if order == [] || order[0] !in st.instances || fails(order[0]) || !HookDone(st, order[0]) {
      assert JobsCompleted(st, order, fails).CheckFailed? ==> FirstFailure(st, order, fails, 0);
    } else {
      CheckFailsIff(st, order[1..], fails);
      if i :| 0 <= i < |order[1..]| && FirstFailure(st, order[1..], fails, i) {
        assert FirstFailure(st, order, fails, i + 1);
      }
      if i :| 0 <= i < |order| && FirstFailure(st, order, fails, i) {
        assert i > 0 && FirstFailure(st, order[1..], fails, i - 1);
      }
    }
  }

  ghost predicate FirstFailure(st: State, order: seq<Hook>, fails: Hook -> bool, i: int)
    requires 0 <= i < |order|
  {
    order[i] in st.instances && fails(order[i]) &&
    forall j | 0 <= j < i :: HookDone(st, order[j]) && !fails(order[j])
  }

  // ----- the inputs of a reconcile

  /** `Empty`: a placement with neither the local flag nor anything remote. */
  datatype Placement = NoPlacement | LocalAndRemote | Remote | Local | Empty

  predicate LocalFlag(p: Placement) {
    p.Local? || p.LocalAndRemote?
  }

  datatype Phase = PropagationFailed | SubscriptionFailed | Unknown | Propagated | OtherPhase(name: string)

  predicate FailedPhase(p: Phase) {
    p.PropagationFailed? || p.SubscriptionFailed? || p.Unknown?
  }

  /** What a read of the subscription shows. */
  datatype Snapshot = Snapshot(phase: Phase, placement: Placement)

  /** The numbers of the subscription's report; None when a field does not parse. */
  datatype Report = Report(clusters: Option<int>, deployed: Option<int>, inProgress: Option<int>)

  datatype Lookup<T> = Found(value: T) | NotFound | Failed

  /**
   The first read and all that calls return.  The maps of hooks are ranged over in an
   order of their own each time: `preHooks` to apply, `checkOrder` to check.
   */
  datatype Input = Input(
    found: bool, deleting: bool, first: Snapshot, channelFound: bool, isGit: bool, branchRegistered: bool,
    registrations: seq<Registration>, hooksRegistered: bool,
    preHooks: seq<Hook>, preCalls: ApplyCalls, checkOrder: seq<Hook>, checkFails: Hook -> bool,
    propagationFails: bool, basicChanged: bool, otherStatusChanged: bool,
    postHooks: seq<Hook>, postCalls: ApplyCalls,
    reread: Lookup<Snapshot>, report: Lookup<Report>)

  datatype Registration = Registration(hook: Hook, next: Job, manualSync: bool, listFails: bool)

  function StepOf(r: Registration): Step {
    if r.listFails then RegisterBlindly(r.hook) else Register(r.hook, r.next, r.manualSync)
  }

  function StepsOf(rs: seq<Registration>): seq<Step> {
    seq(|rs|, i requires 0 <= i < |rs| => StepOf(rs[i]))
  }

  /** Both maps hold the same prehooks. */
  ghost predicate SameHooks(in_: Input) {
    multiset(in_.checkOrder) == multiset(in_.preHooks)
  }

  // ----- when the subscription counts as complete

  datatype Answer = Yes | No | Crash

  /** IsSubscriptionCompleted on its own read; errors count as No, a missing placement is dereferenced. */
  function SubscriptionCompleted(in_: Input): Answer {
    match in_.reread
    case NotFound => Yes
    case Failed => No
    case Found(s) =>
      if FailedPhase(s.phase) then No
      else if s.placement.NoPlacement? then Crash
      else if LocalFlag(s.placement) || FullReport(in_.report) then Yes
      else No
  }

  predicate FullReport(report: Lookup<Report>) {
    report.Found? && report.value.clusters != Some(0) &&
    report.value.clusters.Some? && report.value.deployed.Some? && report.value.inProgress.Some? &&
    report.value.deployed.value + report.value.inProgress.value == report.value.clusters.value &&
    report.value.inProgress.value <= 0
  }

  /** Phase not failed, clusters not zero, none in progress, deployed on at least as many clusters. */
  ghost predicate FullyDeployed(in_: Input) {
    in_.reread.Found? && !FailedPhase(in_.reread.value.phase) && in_.report.Found? &&
    var r := in_.report.value;
    r.clusters.Some? && r.deployed.Some? && r.inProgress.Some? &&
    r.clusters.value != 0 && r.inProgress.value <= 0 && r.deployed.value >= r.clusters.value
  }

  /** Nobody changed the subscription between the two reads. */
  ghost predicate SameRead(in_: Input) {
    in_.reread == Found(in_.first)
  }

  /**
   The subscription counts as complete without being fully deployed exactly when it is
   gone or read with the local flag.
   */
  lemma {:induction false} CompleteWithoutReport(in_: Input)
    ensures SubscriptionCompleted(in_).Yes? && !FullyDeployed(in_) <==>
            in_.reread.NotFound? ||
            (in_.reread.Found? && !FailedPhase(in_.reread.value.phase) && LocalFlag(in_.reread.value.placement) &&
             !FullyDeployed(in_))
  {
  }

  /** Some phase that is not failed, and a placement. */
  ghost predicate ReadsWell(s: Snapshot) {
    s.phase !in {PropagationFailed, SubscriptionFailed, Unknown} && s.placement != NoPlacement
  }

  /** The three numbers parse, there are clusters, they are all deployed or in progress, and none is in progress. */
  ghost predicate NumbersMatch(report: Lookup<Report>) {
    exists clusters, deployed, inProgress ::
      report == Found(Report(Some(clusters), Some(deployed), Some(inProgress))) &&
      clusters != 0 && deployed + inProgress == clusters && inProgress <= 0
  }

  /** When posthooks may run: the subscription is gone, or reads well and is local or matched by its report. */
  ghost predicate CountsAsComplete(in_: Input) {
    in_.reread == NotFound ||
    (in_.reread.Found? && ReadsWell(in_.reread.value) &&
     (in_.reread.value.placement in {Local, LocalAndRemote} || NumbersMatch(in_.report)))
  }

  /**
   The answer in terms of what is read; for a subscription that is not local and a report
   with no negative number in progress and no more deployed than clusters, complete is
   fully deployed.
   */
  lemma {:induction false} CompletesExactly(in_: Input)
    ensures SubscriptionCompleted(in_).Yes? <==> CountsAsComplete(in_)
    ensures SubscriptionCompleted(in_).Crash? <==>
            exists phase :: in_.reread == Found(Snapshot(phase, NoPlacement)) && ReadsWell(Snapshot(phase, Local))
    ensures in_.reread.Found? && in_.reread.value.placement in {Remote, Empty} && Sensible(in_.report) ==>
              (CountsAsComplete(in_) <==> FullyDeployed(in_))
  {
    FullReportMatches(in_.report);
  }

  ghost predicate Sensible(report: Lookup<Report>) {
    forall clusters, deployed, inProgress ::
      report == Found(Report(Some(clusters), Some(deployed), Some(inProgress))) ==>
        inProgress >= 0 && deployed <= clusters
  }

  lemma {:induction false} FullReportMatches(report: Lookup<Report>)
    ensures FullReport(report) <==> NumbersMatch(report)
  {
    if FullReport(report) {
      var r := report.value;
      assert report == Found(Report(Some(r.clusters.value), Some(r.deployed.value), Some(r.inProgress.value)));
    }
  }

  // ----- one reconcile

  ghost predicate PreHooksDone(in_: Input, st: State) {
    forall h | h in in_.preHooks :: HookDone(st, h)
  }

  /** The registry once the reconcile's registrations, if it comes to them, are done. */
  ghost function Registered(in_: Input, st: State): State {
    if in_.found && in_.first.placement.Remote? && in_.channelFound && in_.isGit && in_.branchRegistered
    then Run(st, StepsOf(in_.registrations)) else st
  }

  ghost predicate AllHaveInstances(in_: Input, st: State) {
    forall h | h in in_.preHooks :: h in st.instances
  }

  /** Every prehook has an instance, and no check returns an error. */
  ghost predicate ChecksGoThrough(in_: Input, st: State) {
    forall h | h in in_.preHooks :: h in st.instances && !in_.checkFails(h)
  }

  /** Applying the prehooks meets no error. */
  ghost predicate PreHooksApply(in_: Input, st: State) {
    in_.preCalls.deleting ||
    forall i | 0 <= i < |in_.preHooks| && in_.preHooks[i] in st.instances ::
      HasInstance(st, in_.preHooks[i]) && !in_.preCalls.fails(i)
  }

  /** Applying the posthooks meets no error, and the subscription is not being deleted. */
  ghost predicate PostHooksApply(in_: Input, st: State) {
    !in_.postCalls.deleting &&
    forall i | 0 <= i < |in_.postHooks| && in_.postHooks[i] in st.instances ::
      HasInstance(st, in_.postHooks[i]) && !in_.postCalls.fails(i)
  }

  ghost function AfterPreHooks(in_: Input, st: State): State {
    if in_.preCalls.deleting then st else Run(st, ApplyAllOf(in_.preHooks, in_.preCalls.time))
  }

  /** All prehooks are applied without an error, and checked complete. */
  ghost predicate PreHooksPass(in_: Input, st: State) {
    in_.preHooks == [] ||
    (PreHooksApply(in_, st) && JobsCompleted(AfterPreHooks(in_, st), in_.checkOrder, in_.checkFails).Complete?)
  }

  /** All prehooks are applied without an error, and the check ends with one. */
  ghost predicate PreHooksUnchecked(in_: Input, st: State) {
    in_.preHooks != [] && PreHooksApply(in_, st) &&
    JobsCompleted(AfterPreHooks(in_, st), in_.checkOrder, in_.checkFails).CheckFailed?
  }

  /** A remote subscription whose channel is found. */
  ghost predicate ForRemote(in_: Input) {
    in_.found && in_.first.placement == Remote && in_.channelFound
  }

  /** Exactly when a subscription is propagated. */
  ghost predicate Propagates(in_: Input, st: State) {
    ForRemote(in_) &&
    (in_.isGit ==> in_.branchRegistered && in_.hooksRegistered && PreHooksPass(in_, Registered(in_, st)))
  }

  /**
   Exactly when posthooks are due: the reconcile came to an end, changed nothing, and
   the subscription is complete.
   */
  ghost predicate PostHooksDue(in_: Input, st: State) {
    CountsAsComplete(in_) && in_.found &&
    if Propagates(in_, st) then
      AsksForPostHooks(in_, true, true, if in_.propagationFails then PropagationFailed else Propagated)
    else if ForRemote(in_) then
      in_.isGit && in_.branchRegistered && in_.hooksRegistered && PreHooksUnchecked(in_, Registered(in_, st)) &&
      AsksForPostHooks(in_, true, true, in_.first.phase)
    else
      in_.first.placement !in {Local, Empty} && AsksForPostHooks(in_, true, true, PropagationFailed)
  }

  /** What one reconcile does to the hooks: registrations, then some prehooks applied, then some posthooks. */
  ghost predicate Applied(in_: Input, before: State, after: State, pre: nat, post: nat) {
    pre <= |in_.preHooks| && post <= |in_.postHooks| &&
    after == Run(Run(Registered(in_, before), ApplyAllOf(in_.preHooks[..pre], in_.preCalls.time)),
                 ApplyAllOf(in_.postHooks[..post], in_.postCalls.time))
  }

  /** finalCommit gets to ask whether the subscription is complete; `phase` is what the reconcile made of it. */
  predicate AsksForPostHooks(in_: Input, passedBranchRegistration: bool, passedPrehook: bool, phase: Phase) {
    !in_.deleting && passedBranchRegistration && !in_.basicChanged &&
    in_.first.phase == phase && !in_.otherStatusChanged && passedPrehook && in_.postHooks != []
  }

  class HubReconciler {
    const registry: JobRegistry

    constructor (registry: JobRegistry)
      ensures this.registry == registry
    {
      this.registry := registry;
    }

    /**
     Reconcile with its deferred finalCommit.  `propagated`: doMCMHubReconcile ran;
     `due`: ApplyPostHooks was called; `crashed`: a missing placement was dereferenced; `pre`,
       `post`: how many hooks were applied.
     */
    method Reconcile(in_: Input)
      returns (propagated: bool, due: bool, crashed: bool, ghost pre: nat, ghost post: nat)
      requires SameHooks(in_) && ValidStore(registry.jobs)
      modifies registry
      ensures Applied(in_, old(registry.Current()), registry.Current(), pre, post) && (post > 0 ==> due)
      ensures propagated <==> Propagates(in_, old(registry.Current()))
      ensures due <==> PostHooksDue(in_, old(registry.Current()))
      ensures due && PostHooksApply(in_, registry.Current()) ==> post == |in_.postHooks|
      ensures propagated && in_.isGit && AllHaveInstances(in_, Registered(in_, old(registry.Current()))) ==>
                PreHooksDone(in_, registry.Current())
      ensures crashed ==> SubscriptionCompleted(in_).Crash? && !SameRead(in_) && post == 0
      ensures due && SameRead(in_) ==> FullyDeployed(in_) && in_.first.placement.Remote? && in_.channelFound
      ensures due && SameRead(in_) && (in_.isGit ==> ChecksGoThrough(in_, Registered(in_, old(registry.Current())))) ==>
                propagated && !in_.propagationFails && (in_.isGit ==> PreHooksDone(in_, registry.Current()))
      ensures in_.found && in_.first.placement.LocalAndRemote? ==>
                (due <==> AsksForPostHooks(in_, true, true, PropagationFailed) && CountsAsComplete(in_))
      ensures in_.found && in_.first.placement.NoPlacement? ==>
                (crashed <==> AsksForPostHooks(in_, true, true, PropagationFailed) && SubscriptionCompleted(in_).Crash?)
      ensures Invariant(old(registry.Current())) && ProperInput(in_, old(registry.jobs)) ==>
              Invariant(registry.Current())
    {
      propagated, due, crashed, pre, post := false, false, false, 0, 0;
      ghost var start := registry.Current();
      ApplyNone(in_, start);
      var passedBranchRegistration, passedPrehook, phase := true, true, in_.first.phase;
      if !in_.found {
        return;
      }
      var placement := in_.first.placement;
      if placement.Local? || placement.Empty? {
        return;
      }
      if !placement.Remote? || !in_.channelFound {
        phase := PropagationFailed;
      } else {
        var goOn := true;
        if in_.isGit {
          if !in_.branchRegistered {
            passedBranchRegistration, goOn := false, false;
          } else {
            RegisterHooks(in_.registrations);
            ApplyNone(in_, registry.Current());
            if !in_.hooksRegistered {
              passedPrehook, goOn := false, false;
            } else if |in_.preHooks| != 0 {
              passedPrehook, goOn, pre := CheckPreHooks(in_);
            }
          }
        }
        if goOn {
          propagated := true;
          phase := if in_.propagationFails then PropagationFailed else Propagated;
        }
      }
      if !passedBranchRegistration || !passedPrehook {
        phase := PropagationFailed;
      }
      ghost var middle := registry.Current();
      CompletesExactly(in_);
      due, crashed, post := FinalCommit(in_, passedBranchRegistration, passedPrehook, phase);
      DoneAfterPost(in_, middle, post);
      ReconcileKeepsInvariant(in_, start, pre, post);
    }

    /** RegisterSubscription: the jobs of the hook folders, one after the other. */
    method RegisterHooks(rs: seq<Registration>)
      requires ValidStore(registry.jobs)
      modifies registry`instances
      ensures registry.Current() == Run(old(registry.Current()), StepsOf(rs)) && registry.jobs == old(registry.jobs)
    {
      for i := 0 to |rs|
        invariant registry.jobs == old(registry.jobs)
        invariant registry.Current() == Run(old(registry.Current()), StepsOf(rs[..i]))
      {
        RunOfMore(old(registry.Current()), StepsOf(rs[..i]), StepOf(rs[i]));
        assert StepsOf(rs[..i + 1]) == StepsOf(rs[..i]) + [StepOf(rs[i])];
        registry.RegistryAnsibleJob(rs[i].hook, rs[i].next, rs[i].manualSync, rs[i].listFails);
      }
      assert rs[..|rs|] == rs;
    }

    /** ApplyPreHooks and IsPreHooksCompleted; an error of the check leaves passedPrehook true. */
    method CheckPreHooks(in_: Input) returns (passedPrehook: bool, goOn: bool, ghost pre: nat)
      requires SameHooks(in_)
      modifies registry`jobs
      ensures pre <= |in_.preHooks| && registry.instances == old(registry.instances)
      ensures registry.Current() == Run(old(registry.Current()), ApplyAllOf(in_.preHooks[..pre], in_.preCalls.time))
      ensures in_.preHooks != [] ==> (goOn <==> PreHooksPass(in_, old(registry.Current())))
      ensures in_.preHooks != [] ==> (passedPrehook && !goOn <==> PreHooksUnchecked(in_, old(registry.Current())))
      ensures goOn ==> passedPrehook
      ensures goOn && AllHaveInstances(in_, old(registry.Current())) ==> PreHooksDone(in_, registry.Current())
      ensures passedPrehook && ChecksGoThrough(in_, old(registry.Current())) ==> goOn
      ensures passedPrehook && !goOn ==> JobsCompleted(registry.Current(), in_.checkOrder, in_.checkFails).CheckFailed?
      ensures PreHooksApply(in_, old(registry.Current())) &&
              JobsCompleted(registry.Current(), in_.checkOrder, in_.checkFails).CheckFailed? ==>
                passedPrehook && !goOn
    {
      var ok;
      ok, pre := registry.ApplyJobs(in_.preHooks, in_.preCalls);
      if !ok {
        return false, false, pre;
      }
      SameElements(in_.checkOrder, in_.preHooks);
      assert in_.preHooks[..|in_.preHooks|] == in_.preHooks;
      ApplyNone(in_, old(registry.Current()));
      var c := IsJobsCompleted(State(registry.jobs, registry.instances), in_.checkOrder, in_.checkFails);
      NeverFailsToCheck(registry.Current(), in_.checkOrder, in_.checkFails);
      return !c.Incomplete?, c.Complete?, pre;
    }

    method FinalCommit(in_: Input, passedBranchRegistration: bool, passedPrehook: bool, phase: Phase)
      returns (due: bool, crashed: bool, ghost post: nat)
      modifies registry`jobs
      ensures post <= |in_.postHooks| && registry.instances == old(registry.instances) && (post > 0 ==> due)
      ensures registry.Current() == Run(old(registry.Current()), ApplyAllOf(in_.postHooks[..post], in_.postCalls.time))
      ensures due <==> AsksForPostHooks(in_, passedBranchRegistration, passedPrehook, phase) && CountsAsComplete(in_)
      ensures due && PostHooksApply(in_, registry.Current()) ==> post == |in_.postHooks|
      ensures crashed <==> AsksForPostHooks(in_, passedBranchRegistration, passedPrehook, phase) &&
                           SubscriptionCompleted(in_).Crash?
    {
      due, crashed, post := false, false, 0;
      ApplyNone(in_, registry.Current());
      CompletesExactly(in_);
      if in_.deleting || !passedBranchRegistration || in_.basicChanged {
        return;
      }
      if in_.first.phase != phase || in_.otherStatusChanged {
        return;
      }
      if !passedPrehook || |in_.postHooks| == 0 {
        return;
      }
      if !SubscriptionCompleted(in_).Yes? {
        crashed := SubscriptionCompleted(in_).Crash?;
        return;
      }
      due := true;
      var ok;
      ok, post := registry.ApplyJobs(in_.postHooks, in_.postCalls);
    }
  }

  // ----- a reconcile keeps the jobs in order

  /** The hooks are different ones, and the clock is past the creation of their jobs. */
  ghost predicate Clock(jobs: seq<Job>, order: seq<Hook>, time: nat -> int) {
    Distinct(order) &&
    (forall i, j | 0 <= i < |order| && j in jobs && j.hook == order[i] :: j.created < time(i))
  }

  /** Templates of the subscription's own namespace; prehooks and posthooks differ; the clock moves on. */
  ghost predicate ProperInput(in_: Input, jobs: seq<Job>) {
    (forall r | r in in_.registrations && !r.listFails ::
      r.hook.template.ns == r.hook.sub.ns && GeneratedFor(r.hook, r.next)) &&
    (forall h | h in in_.preHooks :: h !in in_.postHooks) &&
    Clock(jobs, in_.preHooks, in_.preCalls.time) && Clock(jobs, in_.postHooks, in_.postCalls.time)
  }

  lemma {:induction false} RegistrationsKeepInvariant(st: State, rs: seq<Registration>)
    requires Invariant(st)
    requires forall r | r in rs && !r.listFails :: r.hook.template.ns == r.hook.sub.ns && GeneratedFor(r.hook, r.next)
    ensures Invariant(Run(st, StepsOf(rs))) && Run(st, StepsOf(rs)).jobs == st.jobs
    decreases |rs|
  {
    if rs != [] {
      var less, r := rs[..|rs| - 1], rs[|rs| - 1];
      assert forall x | x in less :: x in rs;
      RegistrationsKeepInvariant(st, less);
      assert StepsOf(rs) == StepsOf(less) + [StepOf(r)];
      RunOfMore(st, StepsOf(less), StepOf(r));
      assert r in rs && Proper(Run(st, StepsOf(less)), StepOf(r));
      StepKeepsInvariant(Run(st, StepsOf(less)), StepOf(r));
    }
  }

  /** Applying hooks keeps the invariant and creates jobs of these hooks only. */
  lemma {:induction false} ApplyKeepsInvariant(st: State, order: seq<Hook>, time: nat -> int, n: nat)
    requires Invariant(st) && Clock(st.jobs, order, time) && n <= |order|
    ensures var after := Run(st, ApplyAllOf(order[..n], time));
            Invariant(after) && after.instances == st.instances &&
            forall j | j in after.jobs :: j in st.jobs || j.hook in order[..n]
    decreases n
  {
    if n == 0 {
      assert ApplyAllOf(order[..0], time) == [];
    } else {
      var m, h := n - 1, order[n - 1];
      ApplyKeepsInvariant(st, order, time, m);
      var before, step := Run(st, ApplyAllOf(order[..m], time)), ApplyHook(h, time(m));
      assert ApplyAllOf(order[..n], time) == ApplyAllOf(order[..m], time) + [step];
      RunOfMore(st, ApplyAllOf(order[..m], time), step);
      assert h !in order[..m];
      StepKeepsInvariant(before, step);
      assert Waits(before, h) ==> before.instances[h].hook == h;
      assert forall g | g in order[..m] :: g in order[..n];
      assert h in order[..n];
    }
  }

  lemma {:induction false} ReconcileKeepsInvariant(in_: Input, st: State, pre: nat, post: nat)
    requires pre <= |in_.preHooks| && post <= |in_.postHooks|
    ensures Invariant(st) && ProperInput(in_, st.jobs) ==>
            Invariant(Run(Run(Registered(in_, st), ApplyAllOf(in_.preHooks[..pre], in_.preCalls.time)),
                          ApplyAllOf(in_.postHooks[..post], in_.postCalls.time)))
  {
    if Invariant(st) && ProperInput(in_, st.jobs) {
      RegistrationsKeepInvariant(st, in_.registrations);
      ApplyKeepsInvariant(Registered(in_, st), in_.preHooks, in_.preCalls.time, pre);
      var middle := Run(Registered(in_, st), ApplyAllOf(in_.preHooks[..pre], in_.preCalls.time));
      assert forall h | h in in_.preHooks[..pre] :: h in in_.preHooks;
      ApplyKeepsInvariant(middle, in_.postHooks, in_.postCalls.time, post);
    }
  }

  /**
   A placement both local and remote: when the phase is repaired between the two reads
   the posthooks are due although there is no report at all.
   */
  lemma {:induction false} LocalFlagSkipsTheReport(in_: Input)
    requires in_.first == Snapshot(PropagationFailed, LocalAndRemote) &&
             in_.reread == Found(Snapshot(Propagated, LocalAndRemote))
    requires !in_.deleting && !in_.basicChanged && !in_.otherStatusChanged && in_.postHooks != [] &&
             in_.report.NotFound?
    ensures AsksForPostHooks(in_, true, true, PropagationFailed) && SubscriptionCompleted(in_).Yes? &&
            !FullyDeployed(in_)
  {
  }

  lemma {:induction false} ApplyNone(in_: Input, st: State)
    ensures Run(st, ApplyAllOf(in_.preHooks[..0], in_.preCalls.time)) == st
    ensures Run(st, ApplyAllOf(in_.postHooks[..0], in_.postCalls.time)) == st
  {
    assert ApplyAllOf(in_.preHooks[..0], in_.preCalls.time) == [] &&
      ApplyAllOf(in_.postHooks[..0], in_.postCalls.time) == [];
  }

  lemma {:induction false} NeverFailsToCheck(st: State, order: seq<Hook>, fails: Hook -> bool)
    ensures (forall h | h in order :: !fails(h)) ==>
            !JobsCompleted(st, order, fails).CheckFailed?
  {
    if order != [] {
      assert order[0] in order && forall h | h in order[1..] :: h in order;
      NeverFailsToCheck(st, order[1..], fails);
    }
  }

  /** Creating jobs takes no success back. */
  lemma {:induction false} CreatingKeepsDone(st: State, steps: seq<Step>, h: Hook)
    requires HookDone(st, h) && forall s | s in steps :: s.ApplyHook?
    ensures HookDone(Run(st, steps), h)
    decreases |steps|
  {
    if steps != [] {
      var after := After(st, steps[0]);
      assert steps[0] in steps;
      var i :| 0 <= i < |st.jobs| && st.jobs[i].key == st.instances[h].key && st.jobs[i].successful;
      assert after.jobs[i] == st.jobs[i] && after.instances == st.instances;
      CreatingKeepsDone(after, steps[1..], h);
    }
  }

  lemma {:induction false} DoneAfterPost(in_: Input, st: State, post: nat)
    requires post <= |in_.postHooks|
    ensures PreHooksDone(in_, st) ==> PreHooksDone(in_, Run(st, ApplyAllOf(in_.postHooks[..post], in_.postCalls.time)))
  {
    if PreHooksDone(in_, st) {
      forall h | h in in_.preHooks ensures HookDone(Run(st, ApplyAllOf(in_.postHooks[..post], in_.postCalls.time)), h) {
        CreatingKeepsDone(st, ApplyAllOf(in_.postHooks[..post], in_.postCalls.time), h);
      }
    }
  }
}
