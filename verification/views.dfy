/**
 ManagedClusterViews for failing applications: at most fifty, each on the
 application's first failing cluster (RefreshManagedClusterViews in
 pkg/controller/appsubsummary/appsubsummary_controller.go).
 */
module Views {
  import opened Text
  import opened Sorting
  import opened Reports

  const LIMIT := 50

  /** The alphabetical order of cluster names. */
  predicate LexLeq(a: string, b: string) {
    a == "" || (b != "" && (a[0] < b[0] || (a[0] == b[0] && LexLeq(a[1..], b[1..]))))
  }

  lemma {:induction false} LexTotal(a: string, b: string)
    ensures LexLeq(a, b) || LexLeq(b, a)
  {
    if a != "" && b != "" && a[0] == b[0] {
      LexTotal(a[1..], b[1..]);
    }
  }

  lemma {:induction false} LexTransitive(a: string, b: string, c: string)
    requires LexLeq(a, b) && LexLeq(b, c)
    ensures LexLeq(a, c)
  {
    if a != "" && a[0] == b[0] && b[0] == c[0] {
      LexTransitive(a[1..], b[1..], c[1..]);
    }
  }

  /** The order is alphabetical: a beginning of the other, or smaller where the two first differ. */
  lemma {:induction false} LexLeqIs(a: string, b: string)
    ensures LexLeq(a, b) <==> a <= b || exists n :: SmallerAt(a, b, n)
    decreases |a|
  {
    if a != "" && b != "" {
      if a[0] == b[0] {
        LexLeqIs(a[1..], b[1..]);
        assert a <= b <==> a[1..] <= b[1..];
        if n :| SmallerAt(a[1..], b[1..], n) {
          assert a[..n + 1] == [a[0]] + a[1..][..n] && b[..n + 1] == [b[0]] + b[1..][..n];
          assert SmallerAt(a, b, n + 1);
        }
        if n :| SmallerAt(a, b, n) {
          assert n > 0 && a[1..][..n - 1] == a[..n][1..] && b[1..][..n - 1] == b[..n][1..];
          assert SmallerAt(a[1..], b[1..], n - 1);
        }
      } else {
        assert a[0] < b[0] ==> SmallerAt(a, b, 0);
        NotSmallerLater(a, b);
      }
    }
  }

  /** Strings that differ at once are ordered by their first characters. */
  lemma {:induction false} NotSmallerLater(a: string, b: string)
    requires a != "" && b != "" && a[0] != b[0]
    ensures forall n :: SmallerAt(a, b, n) ==> n == 0
  {
    forall n | SmallerAt(a, b, n) ensures n == 0 {
      assert a[0] == (a[..n] + [a[n]])[0] && b[0] == (b[..n] + [b[n]])[0];
    }
  }

  ghost predicate SmallerAt(a: string, b: string, n: int) {
    0 <= n < |a| && n < |b| && a[..n] == b[..n] && a[n] < b[n]
  }

  type Statuses = seq<(string, Phase)>

  ghost predicate SortedByCluster(s: Statuses) {
    forall i, j | 0 <= i < j < |s| :: LexLeq(s[i].0, s[j].0)
  }

  /** sort.Sort by cluster name */
  function SortByCluster(s: Statuses): (out: Statuses)
    ensures SortedByCluster(out) && forall x :: x in out <==> x in s
  {
    if s == [] then [] else
    assert s == [s[0]] + s[1..];
    InsertByCluster(s[0], SortByCluster(s[1..]))
  }

  function InsertByCluster(x: (string, Phase), s: Statuses): (out: Statuses)
    requires SortedByCluster(s)
    ensures SortedByCluster(out) && forall y :: y in out <==> y == x || y in s
    ensures |out| > 0 && (out[0] == x || (s != [] && out[0] == s[0]))
  {
    if s == [] then [x]
    else if LexLeq(x.0, s[0].0) then
      BelowAll(x, s);
      [x] + s
    else
      LexTotal(x.0, s[0].0);
      assert s == [s[0]] + s[1..];
      var tail := InsertByCluster(x, s[1..]);
      BelowAll(s[0], tail);
      [s[0]] + tail
  }

  lemma {:induction false} BelowAll(x: (string, Phase), s: Statuses)
    requires SortedByCluster(s) && s != [] && LexLeq(x.0, s[0].0)
    ensures forall i | 0 <= i < |s| :: LexLeq(x.0, s[i].0)
  {
    forall i | 0 <= i < |s| ensures LexLeq(x.0, s[i].0) {
      if i > 0 {
        LexTransitive(x.0, s[0].0, s[i].0);
      }
    }
  }

  ghost predicate Fails(s: Statuses) {
    exists c :: (c, Failed) in s
  }

  ghost predicate IsFirstFailing(s: Statuses, c: string) {
    (c, Failed) in s && forall x | (x, Failed) in s :: LexLeq(c, x)
  }

  method FirstFailingCluster(s: Statuses) returns (first: Option<string>)
    ensures first.None? <==> !Fails(s)
    ensures first.Some? ==> IsFirstFailing(s, first.value)
  {
    var sorted := SortByCluster(s);
    for i := 0 to |sorted|
      invariant forall k | 0 <= k < i :: sorted[k].1 != Failed
    {
      if sorted[i].1 == Failed {
        FirstInOrder(s, sorted, i);
        return Some(sorted[i].0);
      }
    }
    assert forall c :: (c, Failed) !in sorted;
    return None;
  }

  lemma {:induction false} FirstInOrder(s: Statuses, sorted: Statuses, i: nat)
    requires SortedByCluster(sorted) && (forall x :: x in sorted <==> x in s)
    requires i < |sorted| && sorted[i].1 == Failed && forall k | 0 <= k < i :: sorted[k].1 != Failed
    ensures IsFirstFailing(s, sorted[i].0)
  {
    assert sorted[i] == (sorted[i].0, Failed) && sorted[i] in s;
    forall x | (x, Failed) in s ensures LexLeq(sorted[i].0, x) {
      assert (x, Failed) in sorted;
      var k :| 0 <= k < |sorted| && sorted[k] == (x, Failed);
      if k == i {
        LexTotal(x, x);
      }
    }
  }

  // ----- one refresh

  ghost predicate Counts(m: map<string, Totals>, app: string)
    requires app in m
  {
    Parses(app) && Fails(m[app].clusters)
  }

  /** How many of the applications fail somewhere; a key that does not parse is passed over. */
  ghost function Failing(m: map<string, Totals>, apps: seq<string>): nat
    requires forall a | a in apps :: a in m
    decreases |apps|
  {
    if apps == [] then 0
    else
      assert forall a | a in apps[..|apps| - 1] :: a in apps;
      Failing(m, apps[..|apps| - 1]) + One(Counts(m, apps[|apps| - 1]))
  }

  ghost function WithView(views: map<string, set<string>>, apps: seq<string>): nat
    decreases |apps|
  {
    if apps == [] then 0
    else WithView(views, apps[..|apps| - 1]) + One(Parses(apps[|apps| - 1]) && ViewsOf(views, apps[|apps| - 1]) != {})
  }

  function ViewsOf(views: map<string, set<string>>, app: string): set<string> {
    if app in views then views[app] else {}
  }

  /** The application has no view, or just the one on its first failing cluster. */
  ghost predicate RightView(m: map<string, Totals>, views: map<string, set<string>>, app: string)
    requires app in m
  {
    ViewsOf(views, app) == {} ||
    exists c :: IsFirstFailing(m[app].clusters, c) && ViewsOf(views, app) == {c}
  }

  ghost function Min(a: nat, b: nat): nat {
    if a < b then a else b
  }

  /** No application but this one got or lost a view. */
  ghost predicate OnlyChanges(before: map<string, set<string>>, after: map<string, set<string>>, app: string) {
    forall a | a != app :: ViewsOf(after, a) == ViewsOf(before, a)
  }

  lemma {:induction false} UntouchedCount(before: map<string, set<string>>, after: map<string, set<string>>,
                                          app: string, apps: seq<string>)
    requires OnlyChanges(before, after, app) && app !in apps
    ensures WithView(after, apps) == WithView(before, apps)
    decreases |apps|
  {
    if apps != [] {
      assert forall a | a in apps[..|apps| - 1] :: a in apps;
      UntouchedCount(before, after, app, apps[..|apps| - 1]);
      assert apps[|apps| - 1] in apps;
    }
  }

  /** What a refresh has established once it went through the first i applications. */
  ghost predicate Refreshed(m: map<string, Totals>, start: map<string, set<string>>, views: map<string, set<string>>,
      apps: seq<string>, i: nat, total: nat)
    requires i <= |apps| && forall a | a in apps :: a in m
  {
    total == Failing(m, apps[..i]) &&
    WithView(views, apps[..i]) == Min(LIMIT, total) &&
    (forall j | 0 <= j < i && Parses(apps[j]) :: RightView(m, views, apps[j])) &&
    forall a | a !in m || !Parses(a) :: ViewsOf(views, a) == ViewsOf(start, a)
  }

  lemma {:induction false} RefreshStep(m: map<string, Totals>, start: map<string, set<string>>,
      before: map<string, set<string>>, after: map<string, set<string>>, apps: seq<string>, i: nat, total: nat)
    requires i < |apps| && Distinct(apps) && forall a | a in apps :: a in m
    requires Refreshed(m, start, before, apps, i, total)
    requires OnlyChanges(before, after, apps[i])
    requires !Parses(apps[i]) ==> ViewsOf(after, apps[i]) == ViewsOf(before, apps[i])
    requires Parses(apps[i]) ==> RightView(m, after, apps[i])
    requires Parses(apps[i]) ==> (ViewsOf(after, apps[i]) != {} <==> Counts(m, apps[i]) && total < LIMIT)
    ensures Refreshed(m, start, after, apps, i + 1, total + One(Counts(m, apps[i])))
  {
    assert apps[..i + 1][..i] == apps[..i];
    assert apps[i] !in apps[..i];
    UntouchedCount(before, after, apps[i], apps[..i]);
    forall j | 0 <= j < i && Parses(apps[j]) ensures RightView(m, after, apps[j]) {
      assert RightView(m, before, apps[j]);
    }
  }

  class ViewRefresher {
    /** The clusters on which each application has a view. */
    var views: map<string, set<string>>

    constructor (views: map<string, set<string>>)
      ensures this.views == views
    {
      this.views := views;
    }

    /** A view on the cluster, unless it is there already. */
    method CreateManagedClusterView(app: string, cluster: string)
      modifies this
      ensures OnlyChanges(old(views), views, app)
      ensures ViewsOf(views, app) == ViewsOf(old(views), app) + {cluster}
    {
      views := views[app := ViewsOf(views, app) + {cluster}];
    }

    /** Deletes the application's views elsewhere. */
    method CleanManagedClusterViews(app: string, keep: Option<string>)
      modifies this
      ensures OnlyChanges(old(views), views, app)
      ensures ViewsOf(views, app) == set c | c in ViewsOf(old(views), app) && keep == Some(c)
    {
      views := views[app := set c | c in ViewsOf(views, app) && keep == Some(c)];
    }

    /** One application: its new view, if it fails and the limit is not reached, replaces all others. */
    method RefreshOne(s: Statuses, app: string, total: nat) returns (count: nat)
      modifies this
      ensures count == total + One(Fails(s))
      ensures OnlyChanges(old(views), views, app)
      ensures Fails(s) && count <= LIMIT ==> exists c :: IsFirstFailing(s, c) && ViewsOf(views, app) == {c}
      ensures !Fails(s) || count > LIMIT ==> ViewsOf(views, app) == {}
    {
      count := total;
      var first := FirstFailingCluster(s);
      if first.Some? {
        count := count + 1;
        if count <= LIMIT {
          CreateManagedClusterView(app, first.value);
        }
      }
      if count > LIMIT {
        first := None;
      }
      CleanManagedClusterViews(app, first);
    }

    /** In whatever order the applications come: exactly as many have a view as fail, up to fifty, each in its place. */
    method RefreshManagedClusterViews(m: map<string, Totals>, apps: seq<string>)
      requires Distinct(apps) && forall a :: a in apps <==> a in m
      modifies this
      ensures WithView(views, apps) == Min(LIMIT, Failing(m, apps))
      ensures forall a | a in m && Parses(a) :: RightView(m, views, a)
      ensures forall a | a !in m || !Parses(a) :: ViewsOf(views, a) == ViewsOf(old(views), a)
    {
      var total := 0;
      for i := 0 to |apps|
        invariant Refreshed(m, old(views), views, apps, i, total)
      {
        ghost var before, seen := views, total;
        assert apps[i] in apps;
        if Parses(apps[i]) {
          total := RefreshOne(m[apps[i]].clusters, apps[i], total);
        }
        RefreshStep(m, old(views), before, views, apps, i, seen);
      }
      assert apps[..|apps|] == apps;
    }
  }
}
