/**
 Referred secrets and config maps (pkg/utils/reference.go): copies in the
 subscriptions' namespace, counted by referral labels and owner references.
 */
module References {
  import opened Sorting

  /** Labels and owners by subscription name; `labels` are the referral labels. */
  datatype Referred = Referred(labels: set<string>, owners: seq<string>, data: string)

  /** The objects of one kind in one namespace. */
  type Objects = map<string, Referred>

  function AddOwner(owners: seq<string>, sub: string): seq<string> {
    if sub in owners then owners else owners + [sub]
  }

  function Without(owners: seq<string>, sub: string): (r: seq<string>)
    ensures forall o :: o in r <==> o in owners && o != sub
    ensures Distinct(owners) ==> Distinct(r)
  {
    if owners == [] then []
    else
      var r := Without(owners[..|owners| - 1], sub);
      var o := owners[|owners| - 1];
      assert owners == owners[..|owners| - 1] + [o];
      assert Distinct(owners) ==> o !in owners[..|owners| - 1];
      if o != sub then r + [o] else r
  }

  /** deleteSubFromObjectOwnersByName */
  method DeleteOwner(owners: seq<string>, sub: string) returns (r: seq<string>)
    ensures r == Without(owners, sub)
  {
    r := [];
    for i := 0 to |owners|
      invariant r == Without(owners[..i], sub)
    {
      assert owners[..i + 1][..i] == owners[..i];
      if owners[i] != sub {
        r := r + [owners[i]];
      }
    }
    assert owners[..|owners|] == owners;
  }

  // ----- single writes

  /** The listed copy with the subscription added and the new data. */
  function Written(seen: Referred, sub: string, data: string): Referred {
    Referred(seen.labels + {sub}, AddOwner(seen.owners, sub), data)
  }

  /** The listed copy without the subscription. */
  function Released(seen: Referred, sub: string): Referred {
    seen.(labels := seen.labels - {sub}, owners := Without(seen.owners, sub))
  }

  /**
   What deploying the reference `ref` for `sub` does with one object of the list.  The
   decision is made on the copy `seen` in the list.  The referred object is overwritten
   whatever it is by then, an old reference is deleted by its name; only the update of
   an object with further owners is refused when it has changed.
   */
  function DeployOne(objs: Objects, sub: string, ref: string, data: string, name: string, seen: Referred): Objects {
    if name !in objs then objs
    else if name == ref then
      if Written(seen, sub, data) == seen then objs else objs[name := Written(seen, sub, data)]
    else if sub !in seen.labels then objs
    else if |seen.owners| > 1 then ReleaseIfSame(objs, sub, name, seen)
    else objs - {name}
  }

  function ReleaseIfSame(objs: Objects, sub: string, name: string, seen: Referred): Objects {
    if name in objs && objs[name] == seen then objs[name := Released(seen, sub)] else objs
  }

  /** Single writes; Collect is the garbage collection after the last owner `sub` is gone. */
  datatype Step =
    | Deploy(sub: string, ref: string, data: string, name: string, seen: Referred)
    | Create(sub: string, ref: string, data: string)
    | Release(sub: string, name: string, seen: Referred)
    | Collect(sub: string, name: string)

  function After(objs: Objects, s: Step): Objects {
    match s
    case Deploy(sub, ref, data, name, seen) => DeployOne(objs, sub, ref, data, name, seen)
    case Create(sub, ref, data) => if ref in objs then objs else objs[ref := Referred({sub}, [sub], data)]
    case Release(sub, name, seen) =>
      if sub !in seen.labels || |seen.owners| == 1 then objs else ReleaseIfSame(objs, sub, name, seen)
    case Collect(sub, name) => if name in objs && objs[name].owners == [sub] then objs - {name} else objs
  }

  function Run(objs: Objects, steps: seq<Step>): Objects
    decreases |steps|
  {
    if steps == [] then objs else Run(After(objs, steps[0]), steps[1..])
  }

  lemma {:induction false} RunOfMore(objs: Objects, steps: seq<Step>, s: Step)
    ensures Run(objs, steps + [s]) == After(Run(objs, steps), s)
    decreases |steps|
  {
    if steps == [] {
      assert steps + [s] == [s] && [s][1..] == [];
    } else {
      RunOfMore(After(objs, steps[0]), steps[1..], s);
      assert (steps + [s])[1..] == steps[1..] + [s];
    }
  }

  // ----- labelled if and only if owned

  /** Labelled for a subscription if and only if owned by it. */
  ghost predicate Counted(u: Referred) {
    Distinct(u.owners) && forall t :: t in u.labels <==> t in u.owners
  }

  ghost predicate AllCounted(objs: Objects) {
    forall name | name in objs :: Counted(objs[name])
  }

  ghost predicate Refers(objs: Objects, t: string, name: string) {
    name in objs && t in objs[name].labels
  }

  ghost predicate HasCopy(s: Step) {
    s.Deploy? || s.Release?
  }

  lemma {:induction false} WrittenCounts(seen: Referred, sub: string, data: string)
    requires Counted(seen)
    ensures Counted(Written(seen, sub, data)) && Counted(Released(seen, sub))
  {
  }

  /** A labelled object with at most one owner is owned by nobody else. */
  lemma {:induction false} SoleOwner(u: Referred, sub: string)
    requires Counted(u) && |u.owners| <= 1 && (sub in u.labels || u.owners == [sub])
    ensures u.owners == [sub] && u.labels == {sub}
  {
    assert sub in u.owners;
    assert u.owners == [sub];
    assert forall t :: t in u.labels <==> t == sub;
  }

  lemma {:induction false} StepKeepsCounts(objs: Objects, s: Step)
    requires AllCounted(objs) && (HasCopy(s) ==> Counted(s.seen))
    ensures AllCounted(After(objs, s))
  {
    if s.Deploy? {
      WrittenCounts(s.seen, s.sub, s.data);
    } else if s.Release? {
      WrittenCounts(s.seen, s.sub, "");
    } else if s.Create? {
      assert Counted(Referred({s.sub}, [s.sub], s.data));
    }
  }

  /** The copy that the step works on is what some pass listed, at any earlier point of the run. */
  ghost predicate ListedBefore(objs: Objects, steps: seq<Step>, n: nat)
    requires n < |steps|
  {
    HasCopy(steps[n]) ==>
      exists i :: 0 <= i <= n && steps[n].name in Run(objs, steps[..i]) &&
        Run(objs, steps[..i])[steps[n].name] == steps[n].seen
  }

  /** Every copy was listed; how long before does not matter, so that passes may overlap. */
  ghost predicate Listing(objs: Objects, steps: seq<Step>) {
    forall n: nat | n < |steps| :: ListedBefore(objs, steps, n)
  }

  /** Labelled if and only if owned, at every point of every run of passes, overlapping or stopped anywhere. */
  lemma {:induction false} CountsSurviveEveryRun(objs: Objects, steps: seq<Step>, n: nat)
    requires AllCounted(objs) && Listing(objs, steps) && n <= |steps|
    ensures AllCounted(Run(objs, steps[..n]))
    decreases n
  {
    if n > 0 {
      var m, s := n - 1, steps[n - 1];
      CountsSurviveEveryRun(objs, steps, m);
      if HasCopy(s) {
        assert ListedBefore(objs, steps, m);
        var i :| 0 <= i <= m && s.name in Run(objs, steps[..i]) && Run(objs, steps[..i])[s.name] == s.seen;
        CountsSurviveEveryRun(objs, steps, i);
      }
      StepKeepsCounts(Run(objs, steps[..m]), s);
      RunOfMore(objs, steps[..m], s);
      assert steps[..n] == steps[..m] + [s];
    }
  }

  // ----- the references of other subscriptions

  /** The step replaces the referred object by its copy with an addition. */
  ghost predicate Overwrites(objs: Objects, s: Step) {
    s.Deploy? && s.name == s.ref && s.name in objs && Written(s.seen, s.sub, s.data) != s.seen
  }

  /** The step deletes an old reference that had nobody else in the list. */
  ghost predicate DeletesOld(objs: Objects, s: Step) {
    s.Deploy? && s.name != s.ref && s.name in objs && s.sub in s.seen.labels && |s.seen.owners| <= 1
  }

  /** Another subscription came to refer to the object after it was listed. */
  ghost predicate Loses(objs: Objects, s: Step, t: string) {
    (Overwrites(objs, s) || DeletesOld(objs, s)) && t in objs[s.name].labels && t !in s.seen.labels
  }

  /** Another subscription stopped to refer to the object after it was listed. */
  ghost predicate Revives(objs: Objects, s: Step, t: string) {
    Overwrites(objs, s) && t !in objs[s.name].labels && t in s.seen.labels
  }

  /**
   A step takes a reference of another subscription away if and only if that one came
   to refer to the object since the step's list; and gives one back if and only if it
   stopped to refer to it since.
   */
  lemma {:induction false} OthersChangeExactly(objs: Objects, s: Step, t: string, name: string)
    requires AllCounted(objs) && (HasCopy(s) ==> Counted(s.seen)) && t != s.sub
    ensures Refers(objs, t, name) && !Refers(After(objs, s), t, name) <==>
            s.Deploy? && name == s.name && Loses(objs, s, t)
    ensures !Refers(objs, t, name) && Refers(After(objs, s), t, name) <==>
            s.Deploy? && name == s.name && Revives(objs, s, t)
  {
    if DeletesOld(objs, s) {
      SoleOwner(s.seen, s.sub);
    } else if s.Collect? && s.name in objs && objs[s.name].owners == [s.sub] {
      SoleOwner(objs[s.name], s.sub);
    }
  }

  ghost predicate SameReferences(before: Objects, after: Objects, t: string) {
    forall name :: Refers(after, t, name) <==> Refers(before, t, name)
  }

  /** The n-th step leaves the references of `t` as they are. */
  ghost predicate KeepsReferences(objs: Objects, steps: seq<Step>, t: string, n: nat)
    requires n < |steps|
  {
    SameReferences(Run(objs, steps[..n]), Run(objs, steps[..n + 1]), t)
  }

  /** The list that the n-th step works on is not outdated for `t`. */
  ghost predicate UpToDate(objs: Objects, steps: seq<Step>, t: string, n: nat)
    requires n < |steps|
  {
    !Loses(Run(objs, steps[..n]), steps[n], t) && !Revives(Run(objs, steps[..n]), steps[n], t)
  }

  /**
   In every run of other subscriptions, overlapping or not: no reference of `t` ever
   changes if and only if no list was outdated for it.
   */
  lemma {:induction false} ReferencesChangeExactly(objs: Objects, steps: seq<Step>, t: string)
    requires AllCounted(objs) && Listing(objs, steps) && forall s | s in steps :: s.sub != t
    ensures (forall n: nat | n < |steps| :: KeepsReferences(objs, steps, t, n)) <==>
            (forall n: nat | n < |steps| :: UpToDate(objs, steps, t, n))
  {
    forall n: nat | n < |steps| ensures KeepsReferences(objs, steps, t, n) <==> UpToDate(objs, steps, t, n) {
      StepOfRun(objs, steps, t, n);
    }
  }

  lemma {:induction false} StepOfRun(objs: Objects, steps: seq<Step>, t: string, n: nat)
    requires AllCounted(objs) && Listing(objs, steps) && n < |steps| && steps[n].sub != t
    ensures KeepsReferences(objs, steps, t, n) <==> UpToDate(objs, steps, t, n)
  {
    var before, s := Run(objs, steps[..n]), steps[n];
    CountsSurviveEveryRun(objs, steps, n);
    assert steps[..n + 1] == steps[..n] + [s];
    RunOfMore(objs, steps[..n], s);
    if HasCopy(s) {
      assert ListedBefore(objs, steps, n);
      var i :| 0 <= i <= n && s.name in Run(objs, steps[..i]) && Run(objs, steps[..i])[s.name] == s.seen;
      CountsSurviveEveryRun(objs, steps, i);
    }
    StepKeepsExactly(before, s, t);
  }

  lemma {:induction false} StepKeepsExactly(objs: Objects, s: Step, t: string)
    requires AllCounted(objs) && (HasCopy(s) ==> Counted(s.seen)) && t != s.sub
    ensures SameReferences(objs, After(objs, s), t) <==> !Loses(objs, s, t) && !Revives(objs, s, t)
  {
    if Loses(objs, s, t) || Revives(objs, s, t) {
      OthersChangeExactly(objs, s, t, s.name);
    } else {
      forall name ensures Refers(After(objs, s), t, name) <==> Refers(objs, t, name) {
        OthersChangeExactly(objs, s, t, name);
      }
    }
  }

  /** The copy is still the object: nobody wrote it since it was listed. */
  ghost predicate Fresh(objs: Objects, s: Step) {
    HasCopy(s) && s.name in objs ==> objs[s.name] == s.seen
  }

  ghost predicate FreshRun(objs: Objects, steps: seq<Step>)
    decreases |steps|
  {
    steps == [] || (Fresh(objs, steps[0]) && FreshRun(After(objs, steps[0]), steps[1..]))
  }

  lemma {:induction false} FreshRunOfMore(objs: Objects, steps: seq<Step>, s: Step)
    requires FreshRun(objs, steps) && Fresh(Run(objs, steps), s)
    ensures FreshRun(objs, steps + [s])
    decreases |steps|
  {
    if steps == [] {
      assert steps + [s] == [s] && [s][1..] == [];
    } else {
      FreshRunOfMore(After(objs, steps[0]), steps[1..], s);
      assert (steps + [s])[1..] == steps[1..] + [s];
    }
  }

  /** A fresh step keeps the counts, and every reference of every other subscription. */
  lemma {:induction false} FreshStepKeepsReferences(objs: Objects, s: Step, t: string)
    requires AllCounted(objs) && Fresh(objs, s) && t != s.sub
    ensures AllCounted(After(objs, s)) && SameReferences(objs, After(objs, s), t)
  {
    if !HasCopy(s) || s.name in objs {
      StepKeepsCounts(objs, s);
      StepKeepsExactly(objs, s, t);
    }
  }

  /** Passes that do not overlap never delete, or stop counting, an object that another subscription refers to. */
  lemma {:induction false} ReferencesAreSafe(objs: Objects, steps: seq<Step>, t: string)
    requires AllCounted(objs) && FreshRun(objs, steps) && forall s | s in steps :: s.sub != t
    ensures SameReferences(objs, Run(objs, steps), t)
    decreases |steps|
  {
    if steps != [] {
      assert steps[0] in steps;
      FreshStepKeepsReferences(objs, steps[0], t);
      ReferencesAreSafe(After(objs, steps[0]), steps[1..], t);
    }
  }

  /** Two deployments listed the object before either wrote it: the first one's reference is lost. */
  lemma {:induction false} OverlappingUpdatesLoseOne(x: string, data: string)
    ensures var u := Referred({"c"}, ["c"], data);
            var objs: Objects := map[x := u];
            var steps := [Deploy("a", x, data, x, u), Deploy("b", x, data, x, u)];
            AllCounted(objs) && Refers(Run(objs, steps[..1]), "a", x) && !Refers(Run(objs, steps), "a", x)
  {
    var u := Referred({"c"}, ["c"], data);
    var objs: Objects := map[x := u];
    var steps := [Deploy("a", x, data, x, u), Deploy("b", x, data, x, u)];
    RunOfTwo(objs, steps[0], steps[1]);
    assert "a" in After(objs, steps[0])[x].labels && "b" in Written(u, "b", data).labels;
  }

  /**
   One deployment gives up an object that it listed as its own; meanwhile another one
   came to refer to it: it is deleted.
   */
  lemma {:induction false} LateDeletionTakesAnothers(x: string, y: string, data: string)
    requires x != y
    ensures var u := Referred({"a"}, ["a"], data);
            var objs: Objects := map[x := u];
            var steps := [Deploy("b", x, data, x, u), Deploy("a", y, data, x, u)];
            AllCounted(objs) && Refers(Run(objs, steps[..1]), "b", x) && x !in Run(objs, steps)
  {
    var u := Referred({"a"}, ["a"], data);
    var objs: Objects := map[x := u];
    var steps := [Deploy("b", x, data, x, u), Deploy("a", y, data, x, u)];
    RunOfTwo(objs, steps[0], steps[1]);
    assert "b" in Written(u, "b", data).labels;
  }

  lemma {:induction false} RunOfTwo(objs: Objects, a: Step, b: Step)
    ensures Run(objs, [a, b][..1]) == After(objs, a) && Run(objs, [a, b]) == After(After(objs, a), b)
  {
    assert [a, b][..1] == [a] && [a, b] == [a] + [b] && [] + [a] == [a];
    RunOfMore(objs, [], a);
    RunOfMore(objs, [a], b);
  }

  // ----- a whole pass

  /** The list names each object once, in some order. */
  ghost predicate Lists(listed: seq<string>, objs: Objects) {
    Distinct(listed) && forall name :: name in listed <==> name in objs
  }

  /** Nothing but the subscription left the labels and owners; the data is as before. */
  ghost predicate Unreferred(before: Referred, after: Referred, sub: string) {
    after.data == before.data && after.labels == before.labels - {sub} &&
    forall o :: o in after.owners <==> o in before.owners && o != sub
  }

  /** What a deployment should make of one object: the referred one has the data, an old reference is given up. */
  ghost predicate Done(start: Objects, objs: Objects, sub: string, ref: string, data: string, name: string)
    requires name in start
  {
    if name == ref then
      name in objs && objs[name].data == data && objs[name].labels == start[name].labels + {sub} &&
      forall o :: o in objs[name].owners <==> o in start[name].owners || o == sub
    else if sub !in start[name].labels then name in objs && objs[name] == start[name]
    else if |start[name].owners| > 1 then name in objs && Unreferred(start[name], objs[name], sub)
    else name !in objs
  }

  /** After the first n objects of the list: those are done, the others untouched. */
  ghost predicate DoneUpTo(start: Objects, objs: Objects, sub: string, ref: string, data: string, listed: seq<string>,
                           n: nat)
    requires n <= |listed| && forall i | 0 <= i < |listed| :: listed[i] in start
  {
    (forall i | 0 <= i < n :: Done(start, objs, sub, ref, data, listed[i])) &&
    (forall i | n <= i < |listed| :: listed[i] in objs && objs[listed[i]] == start[listed[i]]) &&
    (forall name | name in objs :: name in listed)
  }

  lemma {:induction false} DeployStep(start: Objects, objs: Objects, sub: string, ref: string, data: string,
      listed: seq<string>, i: nat)
    requires Distinct(listed) && i < |listed| && (forall j | 0 <= j < |listed| :: listed[j] in start)
    requires DoneUpTo(start, objs, sub, ref, data, listed, i)
    ensures DoneUpTo(start, DeployOne(objs, sub, ref, data, listed[i], objs[listed[i]]), sub, ref, data, listed, i + 1)
  {
    var after := DeployOne(objs, sub, ref, data, listed[i], objs[listed[i]]);
    forall j | 0 <= j < |listed| && j != i ensures listed[j] != listed[i] {
    }
    assert Done(start, after, sub, ref, data, listed[i]);
    forall j | 0 <= j < i ensures Done(start, after, sub, ref, data, listed[j]) {
      assert Done(start, objs, sub, ref, data, listed[j]);
    }
  }

  /** A deployment as a whole: every object handled, the referred one there with its data. */
  ghost predicate DeployedAll(start: Objects, objs: Objects, sub: string, ref: string, data: string) {
    (forall name | name in start :: Done(start, objs, sub, ref, data, name)) &&
    (forall name | name in objs :: name in start || name == ref) &&
    (ref !in start ==> ref in objs && objs[ref] == Referred({sub}, [sub], data))
  }

  /** All objects of the list are done: all that is missing is the referred object, if it was not among them. */
  lemma {:induction false} AllDone(start: Objects, objs: Objects, sub: string, ref: string, data: string,
      listed: seq<string>)
    requires Lists(listed, start) && DoneUpTo(start, objs, sub, ref, data, listed, |listed|)
    ensures ref in start ==> DeployedAll(start, objs, sub, ref, data) && RefersOnlyTo(objs, sub, ref)
    ensures ref !in start ==>
              var after := objs[ref := Referred({sub}, [sub], data)];
              ref !in objs && DeployedAll(start, after, sub, ref, data) && RefersOnlyTo(after, sub, ref)
  {
    forall name | name in start ensures Done(start, objs, sub, ref, data, name) {
      assert name in listed;
      var i :| 0 <= i < |listed| && listed[i] == name;
    }
  }

  ghost predicate RefersOnlyTo(objs: Objects, sub: string, ref: string) {
    forall name :: Refers(objs, sub, name) <==> name == ref
  }

  /** A write of the pass itself, on its own list, or one of the others'. */
  ghost predicate OfPass(s: Step, sub: string, seen: Objects, others: nat -> seq<Step>) {
    (s.sub == sub && (HasCopy(s) ==> s.name in seen && s.seen == seen[s.name])) || exists i: nat :: s in others(i)
  }

  /** What a release should make of one object: only an object with further owners is written. */
  ghost predicate ReleasedIn(start: Objects, objs: Objects, sub: string, name: string) {
    name in start && name in objs &&
    if sub !in start[name].labels || |start[name].owners| == 1 then objs[name] == start[name]
    else Unreferred(start[name], objs[name], sub)
  }

  /** After the first n objects of the list: those are released, all else is untouched. */
  ghost predicate ReleasedUpTo(start: Objects, objs: Objects, sub: string, listed: seq<string>, n: nat)
    requires n <= |listed|
  {
    (forall k | 0 <= k < n :: ReleasedIn(start, objs, sub, listed[k])) &&
    (forall k | n <= k < |listed| :: listed[k] in objs) && objs.Keys == start.Keys &&
    forall name | name in objs && name !in listed[..n] :: objs[name] == start[name]
  }

  lemma {:induction false} ReleaseStep(start: Objects, objs: Objects, sub: string, listed: seq<string>, i: nat)
    requires Distinct(listed) && i < |listed| && ReleasedUpTo(start, objs, sub, listed, i)
    ensures var seen := start[listed[i]];
            objs[listed[i]] == seen &&
            ReleasedUpTo(start, After(objs, Release(sub, listed[i], seen)), sub, listed, i + 1)
  {
    assert listed[i] !in listed[..i];
    var seen := start[listed[i]];
    var after := After(objs, Release(sub, listed[i], seen));
    assert listed[..i + 1] == listed[..i] + [listed[i]];
    assert ReleasedIn(start, after, sub, listed[i]);
    forall k | 0 <= k < i ensures ReleasedIn(start, after, sub, listed[k]) {
      assert ReleasedIn(start, objs, sub, listed[k]);
    }
  }

  /** Nobody else writes, from the list to the end of the pass. */
  ghost predicate Alone(seen: Objects, objs: Objects, others: nat -> seq<Step>) {
    seen == objs && forall i: nat :: others(i) == []
  }

  /** A deployment after the first n objects of its list. */
  ghost predicate PassUpTo(start: Objects, objs: Objects, steps: seq<Step>, sub: string, ref: string, data: string,
                           listed: seq<string>, seen: Objects, others: nat -> seq<Step>, n: nat)
    requires Lists(listed, seen) && n <= |listed|
  {
    objs == Run(start, steps) && (forall s | s in steps :: OfPass(s, sub, seen, others)) &&
    (forall k | 0 <= k < n :: Deploy(sub, ref, data, listed[k], seen[listed[k]]) in steps) &&
    (Alone(seen, start, others) ==>
      FreshRun(start, steps) && DoneUpTo(start, objs, sub, ref, data, listed, n) &&
        forall s | s in steps :: s.sub == sub)
  }

  lemma {:induction false} OthersKeepPass(start: Objects, after: Objects, steps: seq<Step>, sub: string,
      ref: string, data: string, listed: seq<string>, seen: Objects, others: nat -> seq<Step>, n: nat)
    requires Lists(listed, seen) && n <= |listed|
    requires PassUpTo(start, Run(start, steps), steps, sub, ref, data, listed, seen, others, n)
    requires after == Run(start, steps + others(n))
    ensures PassUpTo(start, after, steps + others(n), sub, ref, data, listed, seen, others, n)
  {
    if Alone(seen, start, others) {
      assert steps + others(n) == steps;
    }
  }

  lemma {:induction false} OwnKeepsPass(start: Objects, objs: Objects, steps: seq<Step>, sub: string, ref: string,
      data: string, listed: seq<string>, seen: Objects, others: nat -> seq<Step>, i: nat)
    requires Lists(listed, seen) && i < |listed| && listed[i] in seen
    requires PassUpTo(start, objs, steps, sub, ref, data, listed, seen, others, i)
    ensures PassUpTo(start, DeployOne(objs, sub, ref, data, listed[i], seen[listed[i]]),
                     steps + [Deploy(sub, ref, data, listed[i], seen[listed[i]])],
                     sub, ref, data, listed, seen, others, i + 1)
  {
    var own := Deploy(sub, ref, data, listed[i], seen[listed[i]]);
    RunOfMore(start, steps, own);
    if Alone(seen, start, others) {
      DeployStep(start, objs, sub, ref, data, listed, i);
      FreshRunOfMore(start, steps, own);
    }
  }

  class ReferenceStore {
    var objects: Objects

    constructor (objects: Objects)
      ensures this.objects == objects
    {
      this.objects := objects;
    }

    /**
     ListAndDeployReferredObject on the list `seen`; `others(i)` are the writes of other
     passes before the i-th object of the list, `fails` the own writes that return an
     error.  A pass that is alone and meets none leaves exactly one object labelled for
     the subscription.
     */
    method ListAndDeployReferredObject(sub: string, ref: string, data: string, listed: seq<string>, seen: Objects,
                                       others: nat -> seq<Step>, fails: nat -> bool, createFails: bool)
      returns (ok: bool, ghost steps: seq<Step>)
      requires Lists(listed, seen)
      modifies this
      ensures objects == Run(old(objects), steps) && forall s | s in steps :: OfPass(s, sub, seen, others)
      ensures Alone(seen, old(objects), others) ==> FreshRun(old(objects), steps)
      ensures Alone(seen, old(objects), others) ==> forall s | s in steps :: s.sub == sub
      ensures Alone(seen, old(objects), others) && ok && !createFails ==>
                DeployedAll(old(objects), objects, sub, ref, data) && RefersOnlyTo(objects, sub, ref)
      ensures ok ==> forall name | name in listed :: Deploy(sub, ref, data, name, seen[name]) in steps
      ensures ok && ref !in listed && !createFails ==> Create(sub, ref, data) in steps
    {
      var found;
      ok, found, steps := DeployListed(sub, ref, data, listed, seen, others, fails);
      if !ok {
        return;
      }
      ghost var earlier := steps;
      steps := OthersWrite(others(|listed|), old(objects), steps);
      OthersKeepPass(old(objects), objects, earlier, sub, ref, data, listed, seen, others, |listed|);
      if Alone(seen, old(objects), others) {
        AllDone(old(objects), objects, sub, ref, data, listed);
      }
      forall name | name in listed ensures Deploy(sub, ref, data, name, seen[name]) in steps {
        var k :| 0 <= k < |listed| && listed[k] == name;
      }
      if !found && !createFails {
        ghost var own := Create(sub, ref, data);
        RunOfMore(old(objects), steps, own);
        if Alone(seen, old(objects), others) {
          FreshRunOfMore(old(objects), steps, own);
        }
        steps := steps + [own];
        if ref !in objects {
          objects := objects[ref := Referred({sub}, [sub], data)];
        }
      }
    }

    /** The loop over the list; an error ends the pass. */
    method DeployListed(sub: string, ref: string, data: string, listed: seq<string>, seen: Objects,
                        others: nat -> seq<Step>, fails: nat -> bool)
      returns (ok: bool, found: bool, ghost steps: seq<Step>)
      requires Lists(listed, seen)
      modifies this
      ensures exists n | 0 <= n <= |listed| :: PassUpTo(old(objects), objects, steps, sub, ref, data, listed, seen,
              others, n)
      ensures ok ==> PassUpTo(old(objects), objects, steps, sub, ref, data, listed, seen, others, |listed|)
      ensures ok ==> (found <==> ref in listed)
    {
      ghost var start := objects;
      steps := [];
      ok, found := false, false;
      for i := 0 to |listed|
        invariant PassUpTo(start, objects, steps, sub, ref, data, listed, seen, others, i)
        invariant found <==> ref in listed[..i]
      {
        ghost var earlier := steps;
        steps := OthersWrite(others(i), start, steps);
        OthersKeepPass(start, objects, earlier, sub, ref, data, listed, seen, others, i);
        var name := listed[i];
        assert name in listed && name in seen;
        ghost var before := objects;
        if name == ref {
          found := true;
        }
        var written := WriteListed(sub, ref, data, name, seen[name], fails(i));
        if !written {
          return;
        }
        OwnKeepsPass(start, before, steps, sub, ref, data, listed, seen, others, i);
        steps := steps + [Deploy(sub, ref, data, name, seen[name])];
      }
      assert listed[..|listed|] == listed;
      ok := true;
    }

    /** The writes of other passes in between. */
    method OthersWrite(writes: seq<Step>, ghost start: Objects, ghost steps: seq<Step>) returns (ghost more: seq<Step>)
      requires objects == Run(start, steps)
      modifies this
      ensures objects == Run(start, more) && more == steps + writes
      ensures writes == [] ==> more == steps && objects == old(objects)
    {
      more := steps;
      for i := 0 to |writes|
        invariant objects == Run(start, more) && more == steps + writes[..i]
        invariant i == 0 ==> more == steps && objects == old(objects)
      {
        RunOfMore(start, more, writes[i]);
        objects := After(objects, writes[i]);
        more := more + [writes[i]];
      }
    }

    /** DeleteReferredObjects on the list `seen`; an error ends the pass. */
    method DeleteReferredObjects(sub: string, listed: seq<string>, seen: Objects, others: nat -> seq<Step>,
        fails: nat -> bool)
      returns (ghost steps: seq<Step>)
      requires forall name | name in listed :: name in seen
      modifies this
      ensures objects == Run(old(objects), steps) && forall s | s in steps :: OfPass(s, sub, seen, others)
      ensures Alone(seen, old(objects), others) && Distinct(listed) ==> FreshRun(old(objects), steps)
      ensures Alone(seen, old(objects), others) && Distinct(listed) && (forall i: nat :: !fails(i)) ==>
                ReleasedUpTo(old(objects), objects, sub, listed, |listed|) &&
                forall name | name in listed && Refers(objects, sub, name) :: |objects[name].owners| == 1
    {
      steps := [];
      ghost var alone := Alone(seen, objects, others) && Distinct(listed);
      for i := 0 to |listed|
        invariant objects == Run(old(objects), steps) && forall s | s in steps :: OfPass(s, sub, seen, others)
        invariant alone ==> FreshRun(old(objects), steps) && ReleasedUpTo(old(objects), objects, sub, listed, i)
      {
        steps := OthersWrite(others(i), old(objects), steps);
        var name := listed[i];
        assert name in listed;
        if alone {
          ReleaseStep(old(objects), objects, sub, listed, i);
        }
        if sub !in seen[name].labels || |seen[name].owners| == 1 {
          continue;
        }
        if fails(i) || name !in objects || objects[name] != seen[name] {
          return;
        }
        ghost var own := Release(sub, name, seen[name]);
        RunOfMore(old(objects), steps, own);
        if alone {
          FreshRunOfMore(old(objects), steps, own);
        }
        steps := steps + [own];
        DropOwner(sub, name, seen[name]);
      }
    }

    /** What a deployment does to one object of the list; false: the write returns an error and changes nothing. */
    method WriteListed(sub: string, ref: string, data: string, name: string, seen: Referred,
        fails: bool) returns (ok: bool)
      modifies this
      ensures objects == if ok then DeployOne(old(objects), sub, ref, data, name, seen) else old(objects)
      ensures !ok ==> fails || name !in objects || objects[name] != seen
    {
      ok := true;
      if name == ref {
        var urerf := Written(seen, sub, data);
        if urerf != seen {
          if fails || name !in objects {
            return false;
          }
          objects := objects[name := urerf];
        }
      } else if sub in seen.labels {
        if |seen.owners| > 1 {
          if fails || name !in objects || objects[name] != seen {
            return false;
          }
          DropOwner(sub, name, seen);
        } else {
          if fails || name !in objects {
            return false;
          }
          objects := objects - {name};
        }
      }
    }

    /** Writes the copy without the subscription's label and owner reference. */
    method DropOwner(sub: string, name: string, seen: Referred)
      modifies this
      ensures objects == old(objects)[name := Released(seen, sub)]
    {
      var owners := DeleteOwner(seen.owners, sub);
      objects := objects[name := seen.(labels := seen.labels - {sub}, owners := owners)];
    }
  }
}
