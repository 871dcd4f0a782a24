/**
 Ansible hook jobs of a hub subscription (pkg/controller/mcmhub/ansiblejob.go): which
 job a registration picks, and what applying it creates.
 */
module HookJobs {
  import opened Text
  import opened Sorting

  type Name = NamespacedName

  /** A hook: the subscription, "prehook" or "posthook", and the job template of the repository. */
  datatype Hook = Hook(sub: Name, hookType: string, template: Name)

  datatype ExtraVars = NoVars | Garbled | Targets(clusters: seq<string>)

  /** A job carries its hook in annotations; `created` is its creation time. */
  datatype Job = Job(key: Name, hook: Hook, vars: ExtraVars, successful: bool, created: int)

  /** The jobs in the API server and the instance that each registered hook holds. */
  datatype State = State(jobs: seq<Job>, instances: map<Hook, Job>)

  /** Jobs are listed by creation, those of one hook have different creation times, keys are unique. */
  ghost predicate ValidStore(jobs: seq<Job>) {
    (forall i, j | 0 <= i < j < |jobs| && jobs[i].hook == jobs[j].hook :: jobs[i].created < jobs[j].created) &&
    (forall i, j | 0 <= i < j < |jobs| :: jobs[i].key != jobs[j].key)
  }

  predicate Exists(jobs: seq<Job>, key: Name) {
    exists i :: 0 <= i < |jobs| && jobs[i].key == key
  }

  // ----- the last job of a hook

  function LastOf(jobs: seq<Job>, h: Hook): Option<Job>
    decreases |jobs|
  {
    if jobs == [] then None
    else if jobs[|jobs| - 1].hook == h then Some(jobs[|jobs| - 1])
    else LastOf(jobs[..|jobs| - 1], h)
  }

  lemma {:induction false} LastOfIs(jobs: seq<Job>, h: Hook, i: nat)
    requires i < |jobs| && jobs[i].hook == h && forall j | i < j < |jobs| :: jobs[j].hook != h
    ensures LastOf(jobs, h) == Some(jobs[i])
    decreases |jobs|
  {
    if i < |jobs| - 1 {
      LastOfIs(jobs[..|jobs| - 1], h, i);
    }
  }

  lemma {:induction false} LastOfNone(jobs: seq<Job>, h: Hook)
    requires forall j | 0 <= j < |jobs| :: jobs[j].hook != h
    ensures LastOf(jobs, h) == None
    decreases |jobs|
  {
    if jobs != [] {
      LastOfNone(jobs[..|jobs| - 1], h);
    }
  }

  function NewestFirst(j: Job): int {
    -j.created
  }

  /** findLastAnsibleJob: list in any order, sort by creation time, take the first match. */
  method FindLastAnsibleJob(listed: seq<Job>, h: Hook, ghost jobs: seq<Job>) returns (last: Option<Job>)
    requires ValidStore(jobs) && multiset(listed) == multiset(jobs)
    ensures last == LastOf(jobs, h)
  {
    var items := SortBy(listed, NewestFirst);
    SameElements(items, jobs);
    for i := 0 to |items|
      invariant forall k | 0 <= k < i :: items[k].hook != h
    {
      if items[i].hook == h {
        FirstMatchIsLast(items, jobs, h, i);
        return Some(items[i]);
      }
    }
    assert forall j | 0 <= j < |jobs| :: jobs[j] in items;
    LastOfNone(jobs, h);
    return None;
  }

  lemma {:induction false} FirstMatchIsLast(items: seq<Job>, jobs: seq<Job>, h: Hook, i: nat)
    requires ValidStore(jobs) && SortedBy(items, NewestFirst) && (forall x :: x in items <==> x in jobs)
    requires i < |items| && items[i].hook == h && forall k | 0 <= k < i :: items[k].hook != h
    ensures LastOf(jobs, h) == Some(items[i])
  {
    assert items[i] in jobs;
    var n :| 0 <= n < |jobs| && jobs[n] == items[i];
    forall j | n < j < |jobs| ensures jobs[j].hook != h {
      assert jobs[j] in items;
      var k :| 0 <= k < |items| && items[k] == jobs[j];
      assert jobs[j].hook == h ==> NewestFirst(items[k]) < NewestFirst(items[i]);
      assert NewestFirst(items[k]) < NewestFirst(items[i]) ==> k < i;
    }
    LastOfIs(jobs, h, n);
  }

  // ----- registration

  /** isEqualClusterList; None stands for a parse error. */
  function EqualClusterList(last: Job, next: Job): Option<bool> {
    if last.vars.NoVars? then Some(false)
    else if !next.vars.Targets? || !last.vars.Targets? then None
    else Some(next.vars.clusters == last.vars.clusters)
  }

  /** registryAnsibleJob: the instance that the hook holds afterwards. */
  function Choose(last: Option<Job>, next: Job, manualSync: bool): Job {
    if last.None? then next
    else if !last.value.successful then last.value
    else if last.value.key.name == next.key.name then last.value
    else if manualSync then next
    else if EqualClusterList(last.value, next) == Some(false) then next
    else last.value
  }

  /** The empty instance that a registration leaves when it cannot list the jobs. */
  const NOTHING := Job(NO_NAME, Hook(NO_NAME, "", NO_NAME), NoVars, false, 0)

  const NO_NAME := NamespacedName("", "")

  /** The API server holds no job without a name: looking it up is an error. */
  predicate Nameless(j: Job) {
    j.key.name == ""
  }

  /** The job generated for a hook lives in the subscription's namespace, and so does the template it names. */
  predicate GeneratedFor(h: Hook, j: Job) {
    j.key.ns == h.sub.ns && !Nameless(j) && !j.successful &&
    j.hook == Hook(h.sub, h.hookType, NamespacedName(h.sub.ns, h.template.name))
  }

  datatype Step =
    | Register(hook: Hook, next: Job, manualSync: bool)
    | RegisterBlindly(hook: Hook)
    | ApplyHook(hook: Hook, time: int)
    | Succeed(key: Name)

  function Succeeded(jobs: seq<Job>, key: Name): seq<Job> {
    seq(|jobs|, i requires 0 <= i < |jobs| => if jobs[i].key == key then jobs[i].(successful := true) else jobs[i])
  }

  function After(st: State, s: Step): State {
    match s
    case Register(h, next, manual) =>
      st.(instances := st.instances[h := Choose(LastOf(st.jobs, h), next, manual)])
    case RegisterBlindly(h) => st.(instances := st.instances[h := NOTHING])
    case ApplyHook(h, time) =>
      if h !in st.instances || Nameless(st.instances[h]) || Exists(st.jobs, st.instances[h].key) then st
      else st.(jobs := st.jobs + [st.instances[h].(created := time)])
    case Succeed(key) => st.(jobs := Succeeded(st.jobs, key))
  }

  /** Templates of the subscription's own namespace; the clock moves on. */
  ghost predicate Proper(st: State, s: Step) {
    (s.Register? ==> s.hook.template.ns == s.hook.sub.ns && GeneratedFor(s.hook, s.next)) &&
    (s.ApplyHook? ==> forall j | j in st.jobs && j.hook == s.hook :: j.created < s.time)
  }

  // ----- at most one unfinished job

  /** All jobs of the hook are successful, except possibly the newest one. */
  ghost predicate OneUnfinished(jobs: seq<Job>, h: Hook) {
    forall i | 0 <= i < |jobs| && jobs[i].hook == h && !jobs[i].successful :: LastOf(jobs, h) == Some(jobs[i])
  }

  ghost predicate AllFinished(jobs: seq<Job>, h: Hook) {
    forall i | 0 <= i < |jobs| && jobs[i].hook == h :: jobs[i].successful
  }

  /** An instance that waits to be created belongs to its hook, which has no job under way. */
  ghost predicate Waits(st: State, h: Hook) {
    h in st.instances && !Nameless(st.instances[h]) && !Exists(st.jobs, st.instances[h].key)
  }

  ghost predicate Invariant(st: State) {
    ValidStore(st.jobs) &&
    (forall h :: OneUnfinished(st.jobs, h)) &&
    (forall h | Waits(st, h) :: st.instances[h].hook == h && AllFinished(st.jobs, h))
  }

  lemma {:induction false} LastIsAJob(jobs: seq<Job>, h: Hook) returns (i: nat)
    requires LastOf(jobs, h).Some?
    ensures i < |jobs| && LastOf(jobs, h) == Some(jobs[i]) && jobs[i].hook == h
    ensures forall j | i < j < |jobs| :: jobs[j].hook != h
    decreases |jobs|
  {
    i := |jobs| - 1;
    if jobs[i].hook != h {
      i := LastIsAJob(jobs[..|jobs| - 1], h);
    }
  }

  lemma {:induction false} ChosenWaitsOnlyIfFinished(st: State, s: Step)
    requires s.Register? && Proper(st, s) && Invariant(st)
    ensures var c := Choose(LastOf(st.jobs, s.hook), s.next, s.manualSync);
            !Nameless(c) && !Exists(st.jobs, c.key) ==> c == s.next && c.hook == s.hook && AllFinished(st.jobs, s.hook)
  {
    var h := s.hook;
    if LastOf(st.jobs, h).Some? {
      var i := LastIsAJob(st.jobs, h);
      assert Exists(st.jobs, st.jobs[i].key) && OneUnfinished(st.jobs, h);
    } else {
      NoneMeansNone(st.jobs, h);
    }
  }

  lemma {:induction false} NoneMeansNone(jobs: seq<Job>, h: Hook)
    requires LastOf(jobs, h).None?
    ensures forall j | 0 <= j < |jobs| :: jobs[j].hook != h
    decreases |jobs|
  {
    if jobs != [] {
      NoneMeansNone(jobs[..|jobs| - 1], h);
    }
  }

  lemma {:induction false} StepKeepsInvariant(st: State, s: Step)
    requires Invariant(st) && Proper(st, s)
    ensures Invariant(After(st, s))
  {
    match s
    case Register(h, next, manual) =>
      ChosenWaitsOnlyIfFinished(st, s);
      assert forall g | g != h && Waits(After(st, s), g) :: Waits(st, g);
    case RegisterBlindly(h) =>
      assert forall g | Waits(After(st, s), g) :: Waits(st, g);
    case ApplyHook(h, time) =>
      if Waits(st, h) {
        CreateKeepsInvariant(st, h, time);
      }
    case Succeed(key) =>
      SuccessKeepsInvariant(st, key);
  }

  lemma {:induction false} CreateKeepsInvariant(st: State, h: Hook, time: int)
    requires Invariant(st) && Waits(st, h) && forall j | j in st.jobs && j.hook == h :: j.created < time
    ensures Invariant(After(st, ApplyHook(h, time)))
  {
    var j := st.instances[h].(created := time);
    forall g ensures OneUnfinished(st.jobs + [j], g) {
      assert OneUnfinished(st.jobs, g);
      NewestOfHook(st.jobs, j, g);
    }
    CreateKeepsStore(st.jobs, j);
    forall g | Waits(State(st.jobs + [j], st.instances), g)
      ensures AllFinished(st.jobs + [j], g) && st.instances[g].hook == g
    {
      ExistsMore(st.jobs, j, st.instances[g].key);
      ExistsMore(st.jobs, j, j.key);
      assert Waits(st, g);
    }
  }

  lemma {:induction false} CreateKeepsStore(jobs: seq<Job>, j: Job)
    requires ValidStore(jobs) && !Exists(jobs, j.key)
    requires forall x | x in jobs && x.hook == j.hook :: x.created < j.created
    ensures ValidStore(jobs + [j])
  {
    assert forall i | 0 <= i < |jobs| :: jobs[i] in jobs && jobs[i].key != j.key by {
      assert forall i | 0 <= i < |jobs| && jobs[i].key == j.key :: Exists(jobs, j.key);
    }
  }

  lemma {:induction false} NewestOfHook(jobs: seq<Job>, j: Job, g: Hook)
    requires OneUnfinished(jobs, g) && (j.hook == g ==> AllFinished(jobs, g))
    ensures OneUnfinished(jobs + [j], g)
  {
    var more := jobs + [j];
    assert more[..|more| - 1] == jobs;
    assert forall i | 0 <= i < |jobs| :: more[i] == jobs[i];
  }

  lemma {:induction false} ExistsMore(jobs: seq<Job>, j: Job, key: Name)
    ensures Exists(jobs + [j], key) <==> Exists(jobs, key) || j.key == key
  {
    var more := jobs + [j];
    assert more[|jobs|] == j && forall i | 0 <= i < |jobs| :: more[i] == jobs[i];
  }

  lemma {:induction false} LastAfterSuccess(jobs: seq<Job>, key: Name, h: Hook)
    ensures LastOf(Succeeded(jobs, key), h) ==
            match LastOf(jobs, h)
            case None => None
            case Some(j) => Some(if j.key == key then j.(successful := true) else j)
    decreases |jobs|
  {
    if jobs != [] {
      LastAfterSuccess(jobs[..|jobs| - 1], key, h);
      assert Succeeded(jobs, key)[..|jobs| - 1] == Succeeded(jobs[..|jobs| - 1], key);
    }
  }

  lemma {:induction false} SuccessKeepsInvariant(st: State, key: Name)
    requires Invariant(st)
    ensures Invariant(After(st, Succeed(key)))
  {
    var after := After(st, Succeed(key));
    forall h ensures OneUnfinished(after.jobs, h) {
      LastAfterSuccess(st.jobs, key, h);
      assert OneUnfinished(st.jobs, h);
    }
    assert forall i | 0 <= i < |st.jobs| :: after.jobs[i].key == st.jobs[i].key;
    assert forall k :: Exists(after.jobs, k) <==> Exists(st.jobs, k);
    assert forall h :: Waits(after, h) <==> Waits(st, h);
  }

  ghost predicate ProperRun(st: State, steps: seq<Step>)
    decreases |steps|
  {
    steps == [] || (Proper(st, steps[0]) && ProperRun(After(st, steps[0]), steps[1..]))
  }

  function Run(st: State, steps: seq<Step>): State
    decreases |steps|
  {
    if steps == [] then st else Run(After(st, steps[0]), steps[1..])
  }

  /** In every run of registrations, applications and successes each hook has at most its newest job unfinished. */
  lemma {:induction false} AtMostOneUnfinished(st: State, steps: seq<Step>)
    requires Invariant(st) && ProperRun(st, steps)
    ensures Invariant(Run(st, steps))
    decreases |steps|
  {
    if steps != [] {
      StepKeepsInvariant(st, steps[0]);
      AtMostOneUnfinished(After(st, steps[0]), steps[1..]);
    }
  }

  // ----- a job per change of the cluster list

  function Count(jobs: seq<Job>, h: Hook): nat
    decreases |jobs|
  {
    if jobs == [] then 0
    else Count(jobs[..|jobs| - 1], h) + if jobs[|jobs| - 1].hook == h then 1 else 0
  }

  /** How often the cluster list registered for the hook changes in a run. */
  function Changes(steps: seq<Step>, h: Hook, previous: Option<seq<string>>): nat
    requires forall s | s in steps :: Automatic(s, h)
    decreases |steps|
  {
    if steps == [] then 0
    else if !(steps[0].Register? && steps[0].hook == h) then Changes(steps[1..], h, previous)
    else
      assert steps[0] in steps && Automatic(steps[0], h);
      var clusters := steps[0].next.vars.clusters;
      (if previous.Some? && previous.value != clusters then 1 else 0) + Changes(steps[1..], h, Some(clusters))
  }

  /** No manual refresh of the hook, and the generated job names its target clusters. */
  predicate Automatic(s: Step, h: Hook) {
    s.Register? && s.hook == h ==> !s.manualSync && s.next.vars.Targets?
  }

  function ListedBy(s: Step, h: Hook, previous: Option<seq<string>>): Option<seq<string>>
    requires Automatic(s, h)
  {
    if s.Register? && s.hook == h then Some(s.next.vars.clusters) else previous
  }

  ghost predicate NoneBetween(jobs: seq<Job>, h: Hook, i: int, j: int)
    requires 0 <= i < j <= |jobs|
  {
    forall k | i < k < j :: jobs[k].hook != h
  }

  /** Two jobs of the hook with none of its jobs between them target different clusters. */
  ghost predicate Alternating(jobs: seq<Job>, h: Hook) {
    forall i, j | 0 <= i < j < |jobs| && NoneBetween(jobs, h, i, j) && jobs[i].hook == h && jobs[j].hook == h ::
      jobs[i].vars != jobs[j].vars
  }

  ghost predicate ListInvariant(st: State, h: Hook, previous: Option<seq<string>>) {
    (forall i | 0 <= i < |st.jobs| && st.jobs[i].hook == h :: st.jobs[i].vars.Targets?) &&
    Alternating(st.jobs, h) &&
    (Waits(st, h) ==>
      st.instances[h].vars.Targets? && previous == Some(st.instances[h].vars.clusters) &&
      (LastOf(st.jobs, h).Some? ==> LastOf(st.jobs, h).value.vars != st.instances[h].vars))
  }

  lemma {:induction false} StepKeepsList(st: State, s: Step, h: Hook, previous: Option<seq<string>>)
    requires Invariant(st) && Proper(st, s) && Automatic(s, h) && ListInvariant(st, h, previous)
    ensures ListInvariant(After(st, s), h, ListedBy(s, h, previous))
  {
    match s
    case Register(g, next, manual) =>
      RegisterKeepsList(st, s, h, previous);
    case RegisterBlindly(g) =>
      assert Waits(After(st, s), h) ==> Waits(st, h);
    case ApplyHook(g, time) =>
      if Waits(st, g) {
        CreateKeepsList(st, g, time, h, previous);
      }
    case Succeed(key) =>
      SuccessKeepsList(st, key, h, previous);
  }

  lemma {:induction false} RegisterKeepsList(st: State, s: Step, h: Hook, previous: Option<seq<string>>)
    requires s.Register? && Invariant(st) && Proper(st, s) && Automatic(s, h) && ListInvariant(st, h, previous)
    ensures ListInvariant(After(st, s), h, ListedBy(s, h, previous))
  {
    if s.hook == h {
      ChosenWaitsOnlyIfFinished(st, s);
      if LastOf(st.jobs, h).Some? {
        var i := LastIsAJob(st.jobs, h);
        assert Exists(st.jobs, st.jobs[i].key);
      }
    } else {
      assert Waits(After(st, s), h) <==> Waits(st, h);
    }
  }

  lemma {:induction false} SuccessKeepsList(st: State, key: Name, h: Hook, previous: Option<seq<string>>)
    requires ListInvariant(st, h, previous)
    ensures ListInvariant(After(st, Succeed(key)), h, previous)
  {
    var after := After(st, Succeed(key));
    LastAfterSuccess(st.jobs, key, h);
    assert forall i | 0 <= i < |st.jobs| ::
        after.jobs[i].key == st.jobs[i].key && after.jobs[i].hook == st.jobs[i].hook &&
          after.jobs[i].vars == st.jobs[i].vars;
    assert forall k :: Exists(after.jobs, k) <==> Exists(st.jobs, k);
    AlternatingSame(st.jobs, after.jobs, h);
  }

  lemma {:induction false} AlternatingSame(jobs: seq<Job>, after: seq<Job>, h: Hook)
    requires Alternating(jobs, h) && |after| == |jobs|
    requires forall i | 0 <= i < |jobs| :: after[i].hook == jobs[i].hook && after[i].vars == jobs[i].vars
    ensures Alternating(after, h)
  {
    forall i, j | 0 <= i < j < |after| && NoneBetween(after, h, i, j) && after[i].hook == h && after[j].hook == h
      ensures after[i].vars != after[j].vars
    {
      assert NoneBetween(jobs, h, i, j);
    }
  }

  lemma {:induction false} CreateKeepsList(st: State, g: Hook, time: int, h: Hook, previous: Option<seq<string>>)
    requires Invariant(st) && Waits(st, g) && ListInvariant(st, h, previous)
    ensures ListInvariant(After(st, ApplyHook(g, time)), h, previous)
  {
    var j := st.instances[g].(created := time);
    assert (st.jobs + [j])[..|st.jobs|] == st.jobs;
    ExistsMore(st.jobs, j, j.key);
    if h in st.instances {
      ExistsMore(st.jobs, j, st.instances[h].key);
    }
    AlternatingMore(st.jobs, j, h);
  }

  lemma {:induction false} AlternatingMore(jobs: seq<Job>, j: Job, h: Hook)
    requires Alternating(jobs, h)
    requires j.hook == h && LastOf(jobs, h).Some? ==> LastOf(jobs, h).value.vars != j.vars
    ensures Alternating(jobs + [j], h)
  {
    var more := jobs + [j];
    forall a, b | 0 <= a < b < |more| && NoneBetween(more, h, a, b) && more[a].hook == h && more[b].hook == h
      ensures more[a].vars != more[b].vars
    {
      assert more[a] == jobs[a];
      NoneBetweenBefore(jobs, j, h, a, b);
      if b == |jobs| {
        LastOfIs(jobs, h, a);
      } else {
        assert more[b] == jobs[b];
      }
    }
  }

  lemma {:induction false} NoneBetweenBefore(jobs: seq<Job>, j: Job, h: Hook, a: int, b: int)
    requires 0 <= a < b <= |jobs| && NoneBetween(jobs + [j], h, a, b)
    ensures NoneBetween(jobs, h, a, b)
  {
    assert forall k | a < k < b :: (jobs + [j])[k] == jobs[k];
  }

  /** Jobs that may still be created without a further change of the list. */
  ghost function Slack(st: State, h: Hook, previous: Option<seq<string>>): nat {
    var last := LastOf(st.jobs, h);
    Count(st.jobs, h) +
    if !Waits(st, h) && last.Some? && last.value.vars.Targets? && previous == Some(last.value.vars.clusters) then 0
    else 1
  }

  lemma {:induction false} CountAfterSuccess(jobs: seq<Job>, key: Name, h: Hook)
    ensures Count(Succeeded(jobs, key), h) == Count(jobs, h)
    decreases |jobs|
  {
    if jobs != [] {
      CountAfterSuccess(jobs[..|jobs| - 1], key, h);
      assert Succeeded(jobs, key)[..|jobs| - 1] == Succeeded(jobs[..|jobs| - 1], key);
    }
  }

  lemma {:induction false} CountZero(jobs: seq<Job>, h: Hook)
    requires LastOf(jobs, h).None?
    ensures Count(jobs, h) == 0
    decreases |jobs|
  {
    if jobs != [] {
      CountZero(jobs[..|jobs| - 1], h);
    }
  }

  lemma {:induction false} StepKeepsSlack(st: State, s: Step, h: Hook, previous: Option<seq<string>>)
    requires Invariant(st) && Proper(st, s) && Automatic(s, h) && ListInvariant(st, h, previous)
    ensures Slack(After(st, s), h, ListedBy(s, h, previous)) <=
            Slack(st, h, previous) + Changes([s], h, previous)
  {
    match s
    case Register(g, next, manual) =>
      if g == h {
        RegisterKeepsSlack(st, s, previous);
      } else {
        assert Waits(After(st, s), h) <==> Waits(st, h);
      }
    case RegisterBlindly(g) =>
      assert Waits(After(st, s), h) ==> Waits(st, h);
    case ApplyHook(g, time) =>
      if Waits(st, g) {
        CreateKeepsSlack(st, g, time, h, previous);
      }
    case Succeed(key) =>
      SuccessKeepsSlack(st, key, h, previous);
  }

  lemma {:induction false} RegisterKeepsSlack(st: State, s: Step, previous: Option<seq<string>>)
    requires s.Register? && Invariant(st) && Proper(st, s) && Automatic(s, s.hook) &&
             ListInvariant(st, s.hook, previous)
    ensures Slack(After(st, s), s.hook, Some(s.next.vars.clusters)) <=
            Slack(st, s.hook, previous) + Changes([s], s.hook, previous)
  {
    var h := s.hook;
    assert Changes([s], h, previous) == if previous.Some? && previous.value != s.next.vars.clusters then 1 else 0;
    ChosenWaitsOnlyIfFinished(st, s);
    if LastOf(st.jobs, h).Some? {
      var i := LastIsAJob(st.jobs, h);
      assert Exists(st.jobs, st.jobs[i].key);
    }
  }

  lemma {:induction false} CreateKeepsSlack(st: State, g: Hook, time: int, h: Hook, previous: Option<seq<string>>)
    requires Invariant(st) && Waits(st, g) && ListInvariant(st, h, previous)
    ensures Slack(After(st, ApplyHook(g, time)), h, previous) <= Slack(st, h, previous)
  {
    var j := st.instances[g].(created := time);
    assert (st.jobs + [j])[..|st.jobs|] == st.jobs;
    ExistsMore(st.jobs, j, j.key);
    if h in st.instances {
      ExistsMore(st.jobs, j, st.instances[h].key);
    }
  }

  lemma {:induction false} SuccessKeepsSlack(st: State, key: Name, h: Hook, previous: Option<seq<string>>)
    ensures Slack(After(st, Succeed(key)), h, previous) <= Slack(st, h, previous)
  {
    var after := After(st, Succeed(key));
    LastAfterSuccess(st.jobs, key, h);
    CountAfterSuccess(st.jobs, key, h);
    assert forall i | 0 <= i < |st.jobs| :: after.jobs[i].key == st.jobs[i].key;
    assert forall k :: Exists(after.jobs, k) <==> Exists(st.jobs, k);
  }

  lemma {:induction false} ChangesOfMore(steps: seq<Step>, h: Hook, previous: Option<seq<string>>)
    requires steps != [] && forall s | s in steps :: Automatic(s, h)
    ensures Changes(steps, h, previous) ==
            Changes([steps[0]], h, previous) + Changes(steps[1..], h, ListedBy(steps[0], h, previous))
  {
    assert [steps[0]][1..] == [];
  }

  lemma {:induction false} RunKeepsSlack(st: State, steps: seq<Step>, h: Hook, previous: Option<seq<string>>)
    requires Invariant(st) && ProperRun(st, steps) && ListInvariant(st, h, previous)
    requires forall s | s in steps :: Automatic(s, h)
    ensures Count(Run(st, steps).jobs, h) <= Slack(st, h, previous) + Changes(steps, h, previous)
    ensures Alternating(Run(st, steps).jobs, h)
    decreases |steps|
  {
    if steps != [] {
      var s := steps[0];
      assert s in steps;
      StepKeepsInvariant(st, s);
      StepKeepsList(st, s, h, previous);
      StepKeepsSlack(st, s, h, previous);
      ChangesOfMore(steps, h, previous);
      RunKeepsSlack(After(st, s), steps[1..], h, ListedBy(s, h, previous));
    }
  }

  /**
   Without manual refresh, consecutive jobs of a hook target different cluster lists,
   and at most one job more is created than the list changes.
   */
  lemma {:induction false} JobsFollowTheClusterList(st: State, steps: seq<Step>, h: Hook)
    requires Invariant(st) && ProperRun(st, steps) && forall s | s in steps :: Automatic(s, h)
    requires LastOf(st.jobs, h).None? && h !in st.instances
    ensures Alternating(Run(st, steps).jobs, h)
    ensures Count(Run(st, steps).jobs, h) <= 1 + Changes(steps, h, None)
  {
    NoneMeansNone(st.jobs, h);
    CountZero(st.jobs, h);
    RunKeepsSlack(st, steps, h, None);
  }

  // ----- when a new job is due

  ghost predicate IsNewest(jobs: seq<Job>, h: Hook, i: int) {
    0 <= i < |jobs| && jobs[i].hook == h && forall j | i < j < |jobs| :: jobs[j].hook != h
  }

  /**
   A registration picks the new job: the hook has none yet, or the newest is successful
   and has another name, and there is a manual refresh, no variables to compare with, or
   target clusters on both sides that differ.
   */
  ghost predicate Due(jobs: seq<Job>, h: Hook, next: Job, manualSync: bool) {
    forall i | IsNewest(jobs, h, i) ::
      jobs[i].successful && jobs[i].key.name != next.key.name &&
      (manualSync || jobs[i].vars.NoVars? ||
       (jobs[i].vars.Targets? && next.vars.Targets? && jobs[i].vars.clusters != next.vars.clusters))
  }

  /** The instance that a registration leaves: the new job exactly when it is due, the newest one otherwise. */
  lemma {:induction false} RegistersExactly(st: State, h: Hook, next: Job, manualSync: bool)
    ensures var after := After(st, Register(h, next, manualSync));
            after.jobs == st.jobs && h in after.instances &&
            (forall g | g != h :: (g in after.instances <==> g in st.instances) &&
                                  (g in st.instances ==> after.instances[g] == st.instances[g])) &&
            if Due(st.jobs, h, next, manualSync) then after.instances[h] == next
            else exists i :: IsNewest(st.jobs, h, i) && after.instances[h] == st.jobs[i]
  {
    if LastOf(st.jobs, h).Some? {
      var i := LastIsAJob(st.jobs, h);
      assert IsNewest(st.jobs, h, i);
      forall j | IsNewest(st.jobs, h, j) ensures j == i {
      }
    } else {
      NoneMeansNone(st.jobs, h);
    }
  }

  /** Applying creates the instance's job if there is none of its name, and nothing else. */
  lemma {:induction false} AppliesExactly(st: State, h: Hook, time: int)
    ensures var after := After(st, ApplyHook(h, time));
            after.instances == st.instances &&
            after.jobs == st.jobs + if Waits(st, h) then [st.instances[h].(created := time)] else []
  {
  }

  /** A list that is registered after a success and applied is targeted by the newest job. */
  lemma {:induction false} ChangedListIsTargeted(st: State, h: Hook, next: Job, time: int)
    requires GeneratedFor(h, next) && next.hook == h && next.vars.Targets? && !Exists(st.jobs, next.key)
    requires forall i | IsNewest(st.jobs, h, i) ::
               st.jobs[i].successful && st.jobs[i].key.name != next.key.name && st.jobs[i].vars.Targets?
    ensures var after := After(After(st, Register(h, next, false)), ApplyHook(h, time)).jobs;
            exists i :: IsNewest(after, h, i) && after[i].vars == next.vars
    ensures Due(st.jobs, h, next, false) ==>
              After(After(st, Register(h, next, false)), ApplyHook(h, time)).jobs == st.jobs + [next.(created := time)]
  {
    RegistersExactly(st, h, next, false);
    var mid := After(st, Register(h, next, false));
    AppliesExactly(mid, h, time);
    var after := After(mid, ApplyHook(h, time)).jobs;
    if Due(st.jobs, h, next, false) {
      assert IsNewest(after, h, |st.jobs|);
    } else {
      var i :| IsNewest(st.jobs, h, i) && mid.instances[h] == st.jobs[i];
      assert Exists(st.jobs, st.jobs[i].key);
      assert IsNewest(after, h, i);
    }
  }

  /** Each list registered in turn, applied, and its job brought to success. */
  function Cycles(h: Hook, nexts: seq<Job>, time: nat -> int): seq<Step>
    decreases |nexts|
  {
    if nexts == [] then []
    else
      var n, next := |nexts| - 1, nexts[|nexts| - 1];
      Cycles(h, nexts[..n], time) + [Register(h, next, false)] + [ApplyHook(h, time(n))] + [Succeed(next.key)]
  }

  /** How often the list differs from the one before. */
  function ListChanges(nexts: seq<Job>): nat
    decreases |nexts|
  {
    if |nexts| <= 1 then 0
    else
      var n := |nexts| - 1;
      ListChanges(nexts[..n]) + if nexts[n].vars != nexts[n - 1].vars then 1 else 0
  }

  /** Generated jobs with names of their own. */
  ghost predicate Fresh(h: Hook, nexts: seq<Job>) {
    (forall i | 0 <= i < |nexts| :: GeneratedFor(h, nexts[i]) && nexts[i].hook == h && nexts[i].vars.Targets?) &&
    forall i, j | 0 <= i < j < |nexts| :: nexts[i].key.name != nexts[j].key.name
  }

  /** What a run of such cycles leaves: only jobs of the lists, the newest successful and on the latest list. */
  ghost predicate Settled(jobs: seq<Job>, h: Hook, nexts: seq<Job>) {
    (forall i | 0 <= i < |jobs| :: jobs[i].hook == h && jobs[i].successful) &&
    (forall i | 0 <= i < |jobs| :: exists j :: 0 <= j < |nexts| && jobs[i].key == nexts[j].key) &&
    (jobs == [] <==> nexts == []) &&
    (jobs != [] ==> jobs[|jobs| - 1].vars == nexts[|nexts| - 1].vars)
  }

  /** One job for the first list and for each change of it, no more and no fewer, the newest on the latest list. */
  lemma {:induction false} OneJobPerChange(h: Hook, nexts: seq<Job>, time: nat -> int)
    requires Fresh(h, nexts) && h.template.ns == h.sub.ns
    ensures var jobs := Run(State([], map[]), Cycles(h, nexts, time)).jobs;
            Settled(jobs, h, nexts) && |jobs| == if nexts == [] then 0 else 1 + ListChanges(nexts)
    decreases |nexts|
  {
    if nexts != [] {
      var n, next := |nexts| - 1, nexts[|nexts| - 1];
      OneJobPerChange(h, nexts[..n], time);
      var st, steps := State([], map[]), Cycles(h, nexts[..n], time);
      RunOfMore(st, steps, Register(h, next, false));
      RunOfMore(st, steps + [Register(h, next, false)], ApplyHook(h, time(n)));
      RunOfMore(st, steps + [Register(h, next, false)] + [ApplyHook(h, time(n))], Succeed(next.key));
      CycleSettles(Run(st, steps), h, nexts, time(n));
    }
  }

  lemma {:induction false} CycleSettles(st: State, h: Hook, nexts: seq<Job>, time: int)
    requires Fresh(h, nexts) && nexts != [] && Settled(st.jobs, h, nexts[..|nexts| - 1])
    ensures var next := nexts[|nexts| - 1];
            var jobs := After(After(After(st, Register(h, next, false)), ApplyHook(h, time)), Succeed(next.key)).jobs;
            Settled(jobs, h, nexts) &&
            |jobs| == |st.jobs| + if |nexts| > 1 && next.vars == nexts[|nexts| - 2].vars then 0 else 1
  {
    var n, next := |nexts| - 1, nexts[|nexts| - 1];
    SettledNames(st.jobs, h, nexts);
    if st.jobs != [] {
      assert IsNewest(st.jobs, h, |st.jobs| - 1) && nexts[..n][n - 1] == nexts[n - 1];
    }
    assert Due(st.jobs, h, next, false) <==> n == 0 || next.vars != nexts[n - 1].vars;
    CycleCreates(st, h, next, time);
    if Due(st.jobs, h, next, false) {
      SettledMore(st.jobs, h, nexts, next.(created := time, successful := true));
    }
  }

  /** What one cycle does to settled jobs. */
  lemma {:induction false} CycleCreates(st: State, h: Hook, next: Job, time: int)
    requires forall i | 0 <= i < |st.jobs| :: st.jobs[i].key.name != next.key.name
    requires GeneratedFor(h, next)
    ensures After(After(After(st, Register(h, next, false)), ApplyHook(h, time)), Succeed(next.key)).jobs ==
            st.jobs + if Due(st.jobs, h, next, false) then [next.(created := time, successful := true)] else []
  {
    var mid := After(st, Register(h, next, false));
    RegistersExactly(st, h, next, false);
    AppliesExactly(mid, h, time);
    if Due(st.jobs, h, next, false) {
      assert !Exists(st.jobs, next.key);
      SucceededLast(st.jobs, next.(created := time));
    } else {
      var i :| IsNewest(st.jobs, h, i) && mid.instances[h] == st.jobs[i];
      assert Exists(st.jobs, st.jobs[i].key);
      SucceededNone(st.jobs, next.key);
    }
  }

  lemma {:induction false} SettledNames(jobs: seq<Job>, h: Hook, nexts: seq<Job>)
    requires Fresh(h, nexts) && nexts != [] && Settled(jobs, h, nexts[..|nexts| - 1])
    ensures forall i | 0 <= i < |jobs| :: jobs[i].key.name != nexts[|nexts| - 1].key.name
    ensures forall i | 0 <= i < |jobs| :: exists j :: 0 <= j < |nexts| && jobs[i].key == nexts[j].key
  {
    var n := |nexts| - 1;
    forall i | 0 <= i < |jobs|
      ensures jobs[i].key.name != nexts[n].key.name
      ensures exists j :: 0 <= j < |nexts| && jobs[i].key == nexts[j].key
    {
      var j :| 0 <= j < n && jobs[i].key == nexts[..n][j].key;
      assert nexts[j] == nexts[..n][j];
    }
  }

  lemma {:induction false} SettledMore(jobs: seq<Job>, h: Hook, nexts: seq<Job>, j: Job)
    requires Fresh(h, nexts) && nexts != [] && Settled(jobs, h, nexts[..|nexts| - 1])
    requires j.hook == h && j.successful && j.key == nexts[|nexts| - 1].key && j.vars == nexts[|nexts| - 1].vars
    ensures Settled(jobs + [j], h, nexts)
  {
    SettledNames(jobs, h, nexts);
    var more := jobs + [j];
    forall i | 0 <= i < |more| ensures exists k :: 0 <= k < |nexts| && more[i].key == nexts[k].key {
      assert i < |jobs| ==> more[i] == jobs[i];
      assert i == |jobs| ==> more[i].key == nexts[|nexts| - 1].key;
    }
  }

  lemma {:induction false} SucceededLast(jobs: seq<Job>, j: Job)
    requires !Exists(jobs, j.key)
    ensures Succeeded(jobs + [j], j.key) == jobs + [j.(successful := true)]
  {
    assert forall i | 0 <= i < |jobs| :: jobs[i].key != j.key;
  }

  lemma {:induction false} SucceededNone(jobs: seq<Job>, key: Name)
    requires forall i | 0 <= i < |jobs| :: jobs[i].key.name != key.name
    ensures Succeeded(jobs, key) == jobs
  {
  }

  /**
   With a template of another namespace the last job is never found, so a new one is
   chosen while the old one runs.
   */
  lemma {:induction false} ForeignTemplateForgetsItsJobs(jobs: seq<Job>, h: Hook, next: Job, manual: bool)
    requires h.template.ns != h.sub.ns
    requires forall i | 0 <= i < |jobs| && jobs[i].hook.sub == h.sub :: jobs[i].hook.template.ns == h.sub.ns
    ensures Choose(LastOf(jobs, h), next, manual) == next
  {
    LastOfNone(jobs, h);
  }

  /** Two registrations and applications of such a hook leave two jobs under way. */
  lemma {:induction false} ForeignTemplateRunsTwice(h: Hook, first: Job, second: Job)
    requires h.template.ns != h.sub.ns && GeneratedFor(h, first) && GeneratedFor(h, second) && first.key != second.key
    ensures var steps := [Register(h, first, false), ApplyHook(h, 1), Register(h, second, false), ApplyHook(h, 2)];
            Run(State([], map[]), steps).jobs == [first.(created := 1), second.(created := 2)]
  {
    var st := State([], map[]);
    var a := After(st, Register(h, first, false));
    var b := After(a, ApplyHook(h, 1));
    assert b.jobs == [first.(created := 1)];
    ForeignTemplateForgetsItsJobs(b.jobs, h, second, false);
    var c := After(b, Register(h, second, false));
    assert c.instances[h] == second && !Exists(c.jobs, second.key);
    var d := After(c, ApplyHook(h, 2));
    assert Run(st, [Register(h, first, false), ApplyHook(h, 1), Register(h, second, false), ApplyHook(h, 2)]) ==
           Run(a, [ApplyHook(h, 1), Register(h, second, false), ApplyHook(h, 2)]) ==
           Run(b, [Register(h, second, false), ApplyHook(h, 2)]) == Run(c, [ApplyHook(h, 2)]) == Run(d, []);
  }

  // ----- the hub's job registry

  /** How the calls of applyJobs turn out: the clock, errors, and whether the subscription is being deleted. */
  datatype ApplyCalls = ApplyCalls(time: nat -> int, fails: nat -> bool, deleting: bool)

  class JobRegistry {
    var jobs: seq<Job>
    var instances: map<Hook, Job>

    ghost function Current(): State
      reads this
    {
      State(jobs, instances)
    }

    constructor ()
      ensures Current() == State([], map[])
    {
      jobs, instances := [], map[];
    }

    /** registryAnsibleJob; `listFails`: the jobs cannot be listed. */
    method RegistryAnsibleJob(h: Hook, next: Job, manualSync: bool, listFails: bool)
      requires ValidStore(jobs)
      modifies this`instances
      ensures Current() ==
              After(old(Current()), if listFails then RegisterBlindly(h) else Register(h, next, manualSync))
    {
      instances := instances[h := NOTHING];
      if listFails {
        return;
      }
      var last := FindLastAnsibleJob(jobs, h, jobs);
      if last == None {
        instances := instances[h := next];
        return;
      }
      if !last.value.successful || last.value.key.name == next.key.name {
        instances := instances[h := last.value];
        return;
      }
      if manualSync {
        instances := instances[h := next];
        return;
      }
      var equal := EqualClusterList(last.value, next);
      if equal == Some(false) {
        instances := instances[h := next];
      } else {
        instances := instances[h := last.value];
      }
    }

    /**
     applyJobs over the hooks in some order, in a run of steps for the first n of them;
     `fails` are the calls that return an error.
     */
    method ApplyJobs(order: seq<Hook>, calls: ApplyCalls) returns (ok: bool, ghost n: nat)
      modifies this`jobs
      ensures n <= |order| && Current() == Run(old(Current()), ApplyAllOf(order[..n], calls.time))
      ensures calls.deleting ==> n == 0
      ensures !calls.deleting ==> (ok <==> n == |order|)
      ensures ok <==> calls.deleting || forall i | 0 <= i < |order| && order[i] in instances ::
                !Nameless(instances[order[i]]) && !calls.fails(i)
    {
      n := 0;
      assert ApplyAllOf(order[..0], calls.time) == [];
      if calls.deleting {
        return true, 0;
      }
      for i := 0 to |order|
        invariant instances == old(instances)
        invariant forall j | 0 <= j < i && order[j] in instances :: !Nameless(instances[order[j]]) && !calls.fails(j)
        invariant Current() == Run(old(Current()), ApplyAllOf(order[..i], calls.time))
      {
        var h := order[i];
        if h in instances && (Nameless(instances[h]) || calls.fails(i)) {
          return false, i;
        }
        ghost var step := ApplyHook(h, calls.time(i));
        RunOfMore(old(Current()), ApplyAllOf(order[..i], calls.time), step);
        assert ApplyAllOf(order[..i + 1], calls.time) == ApplyAllOf(order[..i], calls.time) + [step];
        if h in instances && !Exists(jobs, instances[h].key) {
          jobs := jobs + [instances[h].(created := calls.time(i))];
        }
      }
      return true, |order|;
    }
  }

  function ApplyAllOf(order: seq<Hook>, time: nat -> int): seq<Step> {
    seq(|order|, i requires 0 <= i < |order| => ApplyHook(order[i], time(i)))
  }

  lemma {:induction false} RunOfMore(st: State, steps: seq<Step>, s: Step)
    ensures Run(st, steps + [s]) == After(Run(st, steps), s)
    decreases |steps|
  {
    if steps == [] {
      assert steps + [s] == [s] && [s][1..] == [];
    } else {
      RunOfMore(After(st, steps[0]), steps[1..], s);
      assert (steps + [s])[1..] == steps[1..] + [s];
    }
  }
}
