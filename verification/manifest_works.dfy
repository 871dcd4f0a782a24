/**
 Propagation of a subscription to its placed clusters as ManifestWorks
 (pkg/controller/mcmhub/propagate_manifestwork.go).
 */
module ManifestWorks {
  import opened Text
  import opened Sorting

  type Sub = NamespacedName

  /** A work lives in the namespace of its cluster. */
  datatype WorkKey = WorkKey(cluster: string, name: string)

  datatype Work = Work(hosting: string, content: string)

  type Works = map<WorkKey, Work>

  /** %.63s */
  function Cut(s: string): string {
    if |s| <= 63 then s else s[..63]
  }

  function LabelOf(s: Sub): string {
    Cut(s.ns + "." + s.name)
  }

  function NameOf(s: Sub): string {
    s.ns + "-" + s.name
  }

  function KeyFor(s: Sub, cluster: string): WorkKey {
    WorkKey(cluster, NameOf(s))
  }

  /** The string that the family map is keyed by. */
  function TrueKey(k: WorkKey): string {
    k.cluster + "-" + k.name
  }

  /** Works of one subscription differ in their keys exactly as in their clusters, so the map acts as a set. */
  lemma {:induction false} TrueKeyIsFaithful(s: Sub, a: WorkKey, b: WorkKey)
    requires a.name == NameOf(s) && b.name == NameOf(s)
    ensures TrueKey(a) == TrueKey(b) <==> a == b
  {
    var ta, tb := TrueKey(a), TrueKey(b);
    if ta == tb {
      assert |a.cluster| == |b.cluster|;
      assert a.cluster == ta[..|a.cluster|] && b.cluster == tb[..|b.cluster|];
    }
  }

  /** Belongs to the subscription: its (cut) label, and its name in full. */
  predicate IsMine(s: Sub, k: WorkKey, w: Work) {
    w.hosting == LabelOf(s) && k.name == NameOf(s)
  }

  /** Namespace names are at most 63 characters and have no dot. */
  predicate DotFree(s: Sub) {
    |s.ns| <= 63 && '.' !in s.ns
  }

  /** Cut labels and joined names together still tell any two subscriptions apart. */
  lemma {:induction false} FamiliesAreDisjoint(a: Sub, b: Sub, k: WorkKey, w: Work)
    requires DotFree(a) && DotFree(b) && IsMine(a, k, w) && IsMine(b, k, w)
    ensures a == b
  {
    if |a.ns| == |b.ns| {
      assert a.ns == NameOf(a)[..|a.ns|] && a.name == NameOf(a)[|a.ns| + 1..];
      assert b.ns == NameOf(b)[..|b.ns|] && b.name == NameOf(b)[|b.ns| + 1..];
    } else if |a.ns| < |b.ns| {
      DotPlaces(a, b);
    } else {
      DotPlaces(b, a);
    }
  }

  lemma {:induction false} DotPlaces(a: Sub, b: Sub)
    requires DotFree(a) && DotFree(b) && |a.ns| < |b.ns| && NameOf(a) == NameOf(b)
    ensures LabelOf(a) != LabelOf(b)
  {
    var i := |a.ns|;
    assert LabelOf(a)[i] == (a.ns + "." + a.name)[i] == '.';
    assert LabelOf(b)[i] == (b.ns + "." + b.name)[i] == b.ns[i];
    assert b.ns[i] in b.ns;
  }

  // ----- one pass

  /** How the client calls turn out; true means failure. */
  datatype Faults = Faults(list: bool, prepare: bool, apply: nat -> bool, delete: WorkKey -> bool)

  ghost function Family(s: Sub, works: Works): set<WorkKey> {
    set k | k in works && IsMine(s, k, works[k])
  }

  /** The works and what is left of the family map; None once a cluster has failed. */
  datatype Pass = Pass(works: Works, family: Option<set<WorkKey>>)

  /** createManifestWork for one cluster: update what is in the family, create otherwise. */
  function CreateOne(s: Sub, p: Pass, cluster: string, content: string, fails: bool): Pass {
    var key := KeyFor(s, cluster);
    var known := p.family.Some? && key in p.family.value;
    if fails || (!known && key in p.works) then p.(family := None)
    else Pass(p.works[key := Work(LabelOf(s), content)], if p.family.Some? then Some(p.family.value - {key}) else None)
  }

  function CreateAll(s: Sub, p: Pass, clusters: seq<string>, content: string -> string, fails: nat -> bool): Pass
    decreases |clusters|
  {
    if clusters == [] then p
    else
      var n := |clusters| - 1;
      CreateOne(s, CreateAll(s, p, clusters[..n], content, fails), clusters[n], content(clusters[n]), fails(n))
  }

  function DeleteExpired(works: Works, expired: set<WorkKey>, fails: WorkKey -> bool): Works {
    map k | k in works && (k !in expired || fails(k)) :: works[k]
  }

  /** PropagateAppSubManifestWork */
  function Propagated(s: Sub, works: Works, family: set<WorkKey>, clusters: seq<string>,
                      content: string -> string, faults: Faults): Works
  {
    if faults.prepare then works
    else
      var p := CreateAll(s, Pass(works, Some(if faults.list then {} else family)), clusters, content, faults.apply);
      if p.family.None? then p.works else DeleteExpired(p.works, p.family.value, faults.delete)
  }

  // ----- what a pass does

  /** After some clusters: only works of these were added or changed; a live family is the own works of the others. */
  ghost predicate Progress(s: Sub, works: Works, family: set<WorkKey>, clusters: seq<string>, p: Pass) {
    (forall k | k in works :: k in p.works && (p.works[k] == works[k] || (k in family && k.cluster in clusters))) &&
    (forall k | k in p.works && k !in works ::
      k.name == NameOf(s) && k.cluster in clusters && p.works[k].hosting == LabelOf(s)) &&
    (p.family.Some? ==> forall k :: k in p.family.value <==> k in family && k.cluster !in clusters)
  }

  lemma {:induction false} CreateProgress(s: Sub, works: Works, family: set<WorkKey>, clusters: seq<string>,
                                          content: string -> string, fails: nat -> bool)
    requires forall k | k in family :: k in works && k.name == NameOf(s)
    ensures Progress(s, works, family, clusters, CreateAll(s, Pass(works, Some(family)), clusters, content, fails))
    decreases |clusters|
  {
    if clusters != [] {
      var n := |clusters| - 1;
      CreateProgress(s, works, family, clusters[..n], content, fails);
      assert clusters == clusters[..n] + [clusters[n]];
    }
  }

  /** What may go or change: own works only, and none of a placed cluster goes. */
  ghost predicate PassEffect(s: Sub, clusters: seq<string>, before: Works, after: Works) {
    (forall k | k in before && k !in after :: IsMine(s, k, before[k]) && k.cluster !in clusters) &&
    (forall k | k in before && k in after && after[k] != before[k] ::
      IsMine(s, k, before[k]) && k.cluster in clusters) &&
    (forall k | k in after && k !in before ::
      k.name == NameOf(s) && k.cluster in clusters && after[k].hosting == LabelOf(s))
  }

  /** Under every pattern of failures. */
  lemma {:induction false} NeverDeletesAPlacedWork(s: Sub, works: Works, clusters: seq<string>,
      content: string -> string, faults: Faults)
    ensures PassEffect(s, clusters, works, Propagated(s, works, Family(s, works), clusters, content, faults))
  {
    var family := if faults.list then {} else Family(s, works);
    CreateProgress(s, works, family, clusters, content, faults.apply);
  }

  /** No foreign work occupies the name in a placed cluster. */
  ghost predicate NamesAreFree(s: Sub, works: Works, clusters: seq<string>) {
    forall c | c in clusters && KeyFor(s, c) in works :: IsMine(s, KeyFor(s, c), works[KeyFor(s, c)])
  }

  lemma {:induction false} CleanCreate(s: Sub, works: Works, clusters: seq<string>, content: string -> string,
      fails: nat -> bool)
    requires Distinct(clusters) && NamesAreFree(s, works, clusters) && forall i: nat :: !fails(i)
    ensures var p := CreateAll(s, Pass(works, Some(Family(s, works))), clusters, content, fails);
            p.family.Some? &&
            forall c | c in clusters :: KeyFor(s, c) in p.works && p.works[KeyFor(s, c)] == Work(LabelOf(s), content(c))
    decreases |clusters|
  {
    if clusters != [] {
      var n := |clusters| - 1;
      assert clusters == clusters[..n] + [clusters[n]];
      CleanCreate(s, works, clusters[..n], content, fails);
      CreateProgress(s, works, Family(s, works), clusters[..n], content, fails);
      var p := CreateAll(s, Pass(works, Some(Family(s, works))), clusters[..n], content, fails);
      var key := KeyFor(s, clusters[n]);
      assert clusters[n] !in clusters[..n];
      assert key in p.works ==> key in works && key in Family(s, works);
    }
  }

  /** One work per placed cluster with the wanted content, and no other one. */
  ghost predicate Exact(s: Sub, clusters: seq<string>, content: string -> string, after: Works) {
    (forall k :: k in Family(s, after) <==> k.name == NameOf(s) && k.cluster in clusters) &&
    (forall c | c in clusters :: KeyFor(s, c) in after && after[KeyFor(s, c)] == Work(LabelOf(s), content(c)))
  }

  /** No call fails of itself. */
  ghost predicate Clean(faults: Faults) {
    !faults.list && !faults.prepare && (forall i: nat :: !faults.apply(i)) && forall k :: !faults.delete(k)
  }

  /**
   A pass without failures over distinct clusters is exact if and only if no foreign
   work has the subscription's work name in a placed cluster.
   */
  lemma {:induction false} CleanPassIsExact(s: Sub, works: Works, clusters: seq<string>, content: string -> string,
      faults: Faults)
    requires Distinct(clusters) && Clean(faults)
    ensures Exact(s, clusters, content, Propagated(s, works, Family(s, works), clusters, content, faults)) <==>
            NamesAreFree(s, works, clusters)
  {
    var after := Propagated(s, works, Family(s, works), clusters, content, faults);
    if NamesAreFree(s, works, clusters) {
      CleanCreate(s, works, clusters, content, faults.apply);
      CreateProgress(s, works, Family(s, works), clusters, content, faults.apply);
      forall k ensures k in Family(s, after) <==> k.name == NameOf(s) && k.cluster in clusters {
        if k.name == NameOf(s) && k.cluster in clusters {
          assert k == KeyFor(s, k.cluster);
        }
      }
    } else {
      var c :| c in clusters && KeyFor(s, c) in works && !IsMine(s, KeyFor(s, c), works[KeyFor(s, c)]);
      NeverDeletesAPlacedWork(s, works, clusters, content, faults);
      assert KeyFor(s, c) !in Family(s, after);
    }
  }

  /** A foreign work under the name makes a creation fail, and the family to clean up is lost. */
  lemma {:induction false} ForeignNameLosesFamily(s: Sub, works: Works, clusters: seq<string>,
      content: string -> string, fails: nat -> bool, i: nat)
    requires i < |clusters| && KeyFor(s, clusters[i]) in works
    requires !IsMine(s, KeyFor(s, clusters[i]), works[KeyFor(s, clusters[i])])
    ensures CreateAll(s, Pass(works, Some(Family(s, works))), clusters, content, fails).family.None?
    decreases |clusters|
  {
    var n := |clusters| - 1;
    if i < n {
      ForeignNameLosesFamily(s, works, clusters[..n], content, fails, i);
    } else {
      CreateProgress(s, works, Family(s, works), clusters[..n], content, fails);
    }
  }

  /** Then no expired work of the subscription is deleted, in any pass. */
  lemma {:induction false} ForeignNameKeepsExpired(s: Sub, works: Works, clusters: seq<string>,
      content: string -> string, faults: Faults)
    requires !NamesAreFree(s, works, clusters)
    ensures forall k | k in works :: k in Propagated(s, works, Family(s, works), clusters, content, faults)
  {
    NeverDeletesAPlacedWork(s, works, clusters, content, faults);
    var c :| c in clusters && KeyFor(s, c) in works && !IsMine(s, KeyFor(s, c), works[KeyFor(s, c)]);
    var i :| 0 <= i < |clusters| && clusters[i] == c;
    if !faults.list {
      ForeignNameLosesFamily(s, works, clusters, content, faults.apply, i);
    }
    var family := if faults.list then {} else Family(s, works);
    CreateProgress(s, works, family, clusters, content, faults.apply);
  }

  /** Two subscriptions with one work name: the work of the first occupies the name of the second. */
  lemma {:induction false} JoinedNamesCollide(cluster: string, content: string)
    ensures var first, second := NamespacedName("a-b", "c"), NamespacedName("a", "b-c");
            KeyFor(first, cluster) == KeyFor(second, cluster) &&
            !NamesAreFree(second, map[KeyFor(first, cluster) := Work(LabelOf(first), content)], [cluster])
  {
    var first, second := NamespacedName("a-b", "c"), NamespacedName("a", "b-c");
    var works: Works := map[KeyFor(first, cluster) := Work(LabelOf(first), content)];
    assert NameOf(first) == "a-b-c" == NameOf(second);
    assert LabelOf(first) == "a-b.c" && LabelOf(second) == "a.b-c" && "a-b.c"[1] != "a.b-c"[1];
    assert cluster in [cluster] && KeyFor(second, cluster) in works;
  }

  // ----- each cluster of a pass

  /** The i-th cluster is in order: its call does not fail, and a work of its name is one of the family. */
  predicate InOrder(s: Sub, works: Works, family: set<WorkKey>, clusters: seq<string>, fails: nat -> bool, i: nat)
    requires i < |clusters|
  {
    !fails(i) && (KeyFor(s, clusters[i]) in works ==> KeyFor(s, clusters[i]) in family)
  }

  ghost predicate AllInOrder(s: Sub, works: Works, family: set<WorkKey>, clusters: seq<string>, fails: nat -> bool,
      n: nat)
    requires n <= |clusters|
  {
    forall i: nat | i < n :: InOrder(s, works, family, clusters, fails, i)
  }

  /**
   The i-th cluster is served: its call does not fail, and there is no work of the name
   yet, or it is in the family, which is lost with the first cluster that is not in order.
   */
  ghost predicate Served(s: Sub, works: Works, family: set<WorkKey>, clusters: seq<string>, fails: nat -> bool, i: nat)
    requires i < |clusters|
  {
    !fails(i) &&
    (KeyFor(s, clusters[i]) !in works ||
     (KeyFor(s, clusters[i]) in family && AllInOrder(s, works, family, clusters, fails, i)))
  }

  /** The work of one cluster, present or not, with this content. */
  function WorkAt(works: Works, k: WorkKey): Option<Work> {
    if k in works then Some(works[k]) else None
  }

  /** After the first n clusters. */
  ghost predicate ServedUpTo(s: Sub, works: Works, family: set<WorkKey>, clusters: seq<string>,
                             content: string -> string, fails: nat -> bool, n: nat, after: Works)
    requires n <= |clusters|
  {
    forall i: nat | i < |clusters| ::
      WorkAt(after, KeyFor(s, clusters[i])) ==
      if i < n && Served(s, works, family, clusters, fails, i) then Some(Work(LabelOf(s), content(clusters[i])))
      else WorkAt(works, KeyFor(s, clusters[i]))
  }

  lemma {:induction false} CreatesExactly(s: Sub, works: Works, family: set<WorkKey>, clusters: seq<string>,
                                          content: string -> string, fails: nat -> bool, n: nat)
    requires Distinct(clusters) && n <= |clusters| && forall k | k in family :: k in works && k.name == NameOf(s)
    ensures var p := CreateAll(s, Pass(works, Some(family)), clusters[..n], content, fails);
            (p.family.Some? <==> AllInOrder(s, works, family, clusters, fails, n)) &&
            ServedUpTo(s, works, family, clusters, content, fails, n, p.works)
    decreases n
  {
    if n > 0 {
      var m: nat := n - 1;
      assert clusters[..n][..m] == clusters[..m] && clusters[..n][m] == clusters[m];
      CreatesExactly(s, works, family, clusters, content, fails, m);
      var p := CreateAll(s, Pass(works, Some(family)), clusters[..m], content, fails);
      FamilyAhead(s, works, family, clusters, content, fails, m);
      CreatesOneMore(s, works, family, clusters, content, fails, m, p);
    }
  }

  /** While it lives, the family still holds what it held for a cluster that is ahead. */
  lemma {:induction false} FamilyAhead(s: Sub, works: Works, family: set<WorkKey>, clusters: seq<string>,
                    content: string -> string, fails: nat -> bool, m: nat)
    requires Distinct(clusters) && m < |clusters| && forall k | k in family :: k in works && k.name == NameOf(s)
    ensures var p := CreateAll(s, Pass(works, Some(family)), clusters[..m], content, fails);
            p.family.Some? ==> (KeyFor(s, clusters[m]) in p.family.value <==> KeyFor(s, clusters[m]) in family)
  {
    CreateProgress(s, works, family, clusters[..m], content, fails);
    assert clusters[m] !in clusters[..m];
  }

  lemma {:induction false} AllInOrderOneMore(s: Sub, works: Works, family: set<WorkKey>, clusters: seq<string>,
                                             fails: nat -> bool, m: nat)
    requires m < |clusters|
    ensures AllInOrder(s, works, family, clusters, fails, m + 1) <==>
            AllInOrder(s, works, family, clusters, fails, m) && InOrder(s, works, family, clusters, fails, m)
  {
    if AllInOrder(s, works, family, clusters, fails, m + 1) {
      forall i: nat | i < m ensures InOrder(s, works, family, clusters, fails, i) {
        assert i < m + 1;
      }
    }
  }

  lemma {:induction false} CreatesOneMore(s: Sub, works: Works, family: set<WorkKey>, clusters: seq<string>,
                       content: string -> string, fails: nat -> bool, m: nat, p: Pass)
    requires Distinct(clusters) && m < |clusters| && forall k | k in family :: k in works
    requires p.family.Some? <==> AllInOrder(s, works, family, clusters, fails, m)
    requires p.family.Some? ==> (KeyFor(s, clusters[m]) in p.family.value <==> KeyFor(s, clusters[m]) in family)
    requires ServedUpTo(s, works, family, clusters, content, fails, m, p.works)
    ensures var after := CreateOne(s, p, clusters[m], content(clusters[m]), fails(m));
            (after.family.Some? <==> AllInOrder(s, works, family, clusters, fails, m + 1)) &&
            ServedUpTo(s, works, family, clusters, content, fails, m + 1, after.works)
  {
    var key := KeyFor(s, clusters[m]);
    assert WorkAt(p.works, key) == WorkAt(works, key);
    AllInOrderOneMore(s, works, family, clusters, fails, m);
    forall i: nat | i < |clusters| && i != m ensures KeyFor(s, clusters[i]) != key {
    }
  }

  /** What a pass leaves in each placed cluster, under every pattern of failures: the new content where it is served. */
  lemma {:induction false} PassServesExactly(s: Sub, works: Works, clusters: seq<string>, content: string -> string,
      faults: Faults,
      i: nat)
    requires Distinct(clusters) && !faults.prepare && i < |clusters|
    ensures var family := if faults.list then {} else Family(s, works);
            WorkAt(Propagated(s, works, Family(s, works), clusters, content, faults), KeyFor(s, clusters[i])) ==
            if Served(s, works, family, clusters, faults.apply, i) then Some(Work(LabelOf(s), content(clusters[i])))
            else WorkAt(works, KeyFor(s, clusters[i]))
  {
    var family := if faults.list then {} else Family(s, works);
    assert clusters[..|clusters|] == clusters;
    CreatesExactly(s, works, family, clusters, content, faults.apply, |clusters|);
    CreateProgress(s, works, family, clusters, content, faults.apply);
  }

  /**
   An own work of a cluster no longer placed goes if and only if all clusters are
   in order and its deletion succeeds.
   */
  lemma {:induction false} ExpiredGoesExactly(s: Sub, works: Works, clusters: seq<string>, content: string -> string,
      faults: Faults,
      k: WorkKey)
    requires Distinct(clusters) && k in works && IsMine(s, k, works[k]) && k.cluster !in clusters
    ensures k !in Propagated(s, works, Family(s, works), clusters, content, faults) <==>
            !faults.prepare && !faults.list && !faults.delete(k) &&
            AllInOrder(s, works, Family(s, works), clusters, faults.apply, |clusters|)
  {
    var family := if faults.list then {} else Family(s, works);
    assert clusters[..|clusters|] == clusters;
    CreatesExactly(s, works, family, clusters, content, faults.apply, |clusters|);
    CreateProgress(s, works, family, clusters, content, faults.apply);
  }

  /** One failing cluster keeps every later one from being updated. */
  lemma {:induction false} OneFailureStopsUpdates(s: Sub, works: Works, clusters: seq<string>,
      content: string -> string, faults: Faults, i: nat, j: nat)
    requires Distinct(clusters) && !faults.prepare && i < j < |clusters| && faults.apply(i)
    requires KeyFor(s, clusters[j]) in works
    ensures WorkAt(Propagated(s, works, Family(s, works), clusters, content, faults), KeyFor(s, clusters[j])) ==
            Some(works[KeyFor(s, clusters[j])])
  {
    var family := if faults.list then {} else Family(s, works);
    PassServesExactly(s, works, clusters, content, faults, j);
    assert !InOrder(s, works, family, clusters, faults.apply, i);
  }

  /** The label is the dotted name, cut to what a label may hold. */
  lemma {:induction false} LabelsFit(s: Sub)
    ensures |LabelOf(s)| <= 63 && LabelOf(s) <= s.ns + "." + s.name
    ensures |LabelOf(s)| < 63 ==> LabelOf(s) == s.ns + "." + s.name
  {
  }

  /** Works of other subscriptions survive every pass unchanged. */
  lemma {:induction false} OthersAreUntouched(s: Sub, other: Sub, works: Works, clusters: seq<string>,
      content: string -> string,
      faults: Faults, k: WorkKey)
    requires DotFree(s) && DotFree(other) && s != other && k in works && IsMine(other, k, works[k])
    ensures var after := Propagated(s, works, Family(s, works), clusters, content, faults);
            k in after && after[k] == works[k]
  {
    NeverDeletesAPlacedWork(s, works, clusters, content, faults);
    if IsMine(s, k, works[k]) {
      FamiliesAreDisjoint(s, other, k, works[k]);
    }
  }

  // ----- the loops

  class Propagator {
    var works: Works

    constructor (works: Works)
      ensures this.works == works
    {
      this.works := works;
    }

    /** getManifestWorkFamily: the list is by label, the name decides. */
    method GetManifestWorkFamily(s: Sub, listed: seq<WorkKey>) returns (family: set<WorkKey>)
      requires forall k :: k in listed <==> k in works && works[k].hosting == LabelOf(s)
      ensures family == Family(s, works)
    {
      family := {};
      for i := 0 to |listed|
        invariant forall k :: k in family <==> k in listed[..i] && k.name == NameOf(s)
      {
        if listed[i].name == NameOf(s) {
          family := family + {listed[i]};
        }
      }
      assert listed[..|listed|] == listed;
      assert forall k :: k in family <==> k in Family(s, works);
    }

    method PropagateAppSubManifestWork(s: Sub, clusters: seq<string>, listed: seq<WorkKey>,
                                       content: string -> string, faults: Faults)
      requires forall k :: k in listed <==> k in works && works[k].hosting == LabelOf(s)
      modifies this
      ensures works == Propagated(s, old(works), Family(s, old(works)), clusters, content, faults)
    {
      var family := {};
      if !faults.list {
        family := GetManifestWorkFamily(s, listed);
      }
      if faults.prepare {
        return;
      }
      var p := Pass(works, Some(family));
      for i := 0 to |clusters|
        invariant works == old(works)
        invariant p == CreateAll(s, Pass(old(works), Some(family)), clusters[..i], content, faults.apply)
      {
        assert clusters[..i + 1][..i] == clusters[..i];
        p := CreateOne(s, p, clusters[i], content(clusters[i]), faults.apply(i));
      }
      assert clusters[..|clusters|] == clusters;
      works := p.works;
      if p.family.Some? {
        DeleteAll(p.family.value, faults.delete);
      }
    }

    method DeleteAll(expired: set<WorkKey>, fails: WorkKey -> bool)
      modifies this
      ensures works == DeleteExpired(old(works), expired, fails)
    {
      var left := expired;
      while left != {}
        invariant left <= expired
        invariant works == DeleteExpired(old(works), expired - left, fails)
        decreases |left|
      {
        var k :| k in left;
        left := left - {k};
        if !fails(k) {
          works := works - {k};
        }
      }
      assert expired - left == expired;
    }
  }
}
