/**
 Cluster reports and their aggregation (pkg/synchronizer/kubernetes/sync_appsubstatus.go,
 pkg/utils/policyreport.go, pkg/controller/appsubsummary/appsubsummary_controller.go).
 */
module Reports {
  import opened Text

  datatype Phase = Deployed | Failed | PropagationFailed | OtherPhase

  datatype Result = Result(source: string, phase: Phase)

  type Report = seq<Result>

  /** At most one result per source. */
  ghost predicate OnePerSource(r: Report) {
    forall i, j | 0 <= i < j < |r| :: r[i].source != r[j].source
  }

  // ----- one cluster's report

  /** Index of the first result of the source, or -1. */
  function IndexOfSource(r: Report, source: string): (i: int)
    ensures -1 <= i < |r| && (i >= 0 ==> r[i].source == source)
    ensures forall k | 0 <= k < (if i < 0 then |r| else i) :: r[k].source != source
  {
    if r == [] then -1
    else if r[0].source == source then 0
    else
      var i := IndexOfSource(r[1..], source);
      if i < 0 then -1 else i + 1
  }

  datatype Change = Update(source: string, failed: bool) | Delete(source: string) | PropagationFailure(source: string)

  function Changed(r: Report, c: Change): Report {
    var i := IndexOfSource(r, c.source);
    match c
    case Update(source, failed) =>
      var phase := if failed then Failed else Deployed;
      if i < 0 then r + [Result(source, phase)] else r[i := Result(source, phase)]
    case Delete(source) => if i < 0 then r else r[..i] + r[i + 1..]
    case PropagationFailure(source) => if i < 0 then r + [Result(source, PropagationFailed)] else r
  }

  method FindSource(r: Report, source: string) returns (i: int)
    ensures i == IndexOfSource(r, source)
  {
    for k := 0 to |r|
      invariant forall j | 0 <= j < k :: r[j].source != source
    {
      if r[k].source == source {
        return k;
      }
    }
    return -1;
  }

  ghost predicate Has(r: Report, source: string, phase: Phase) {
    exists i :: 0 <= i < |r| && r[i] == Result(source, phase)
  }

  ghost predicate SameForOthers(r: Report, after: Report, source: string) {
    forall s, phase | s != source :: Has(after, s, phase) <==> Has(r, s, phase)
  }

  lemma {:induction false} AppendIsLocal(r: Report, x: Result)
    requires OnePerSource(r) && forall i | 0 <= i < |r| :: r[i].source != x.source
    ensures OnePerSource(r + [x]) && SameForOthers(r, r + [x], x.source) && Has(r + [x], x.source, x.phase)
  {
    var after := r + [x];
    assert after[|r|] == x && forall i | 0 <= i < |r| :: after[i] == r[i];
  }

  lemma {:induction false} SetIsLocal(r: Report, i: nat, x: Result)
    requires OnePerSource(r) && i < |r| && r[i].source == x.source
    ensures OnePerSource(r[i := x]) && SameForOthers(r, r[i := x], x.source) && Has(r[i := x], x.source, x.phase)
  {
    var after := r[i := x];
    assert after[i] == x && forall k | 0 <= k < |r| && k != i :: after[k] == r[k];
  }

  lemma {:induction false} CutIsLocal(r: Report, i: nat)
    requires OnePerSource(r) && i < |r|
    ensures var after := r[..i] + r[i + 1..];
            OnePerSource(after) && SameForOthers(r, after, r[i].source) &&
              forall phase :: !Has(after, r[i].source, phase)
  {
    var after := r[..i] + r[i + 1..];
    assert forall k | 0 <= k < |after| :: after[k] == r[if k < i then k else k + 1];
    forall s, phase | s != r[i].source && Has(r, s, phase) ensures Has(after, s, phase) {
      var k :| 0 <= k < |r| && r[k] == Result(s, phase);
      assert after[if k < i then k else k - 1] == r[k];
    }
  }

  /** Every change keeps one result per source, sets or removes its own and leaves the others. */
  lemma {:induction false} ChangeIsLocal(r: Report, c: Change)
    requires OnePerSource(r)
    ensures OnePerSource(Changed(r, c)) && SameForOthers(r, Changed(r, c), c.source)
    ensures c.Update? ==> Has(Changed(r, c), c.source, if c.failed then Failed else Deployed)
    ensures c.Delete? ==> forall phase :: !Has(Changed(r, c), c.source, phase)
    ensures c.PropagationFailure? ==> exists phase :: Has(Changed(r, c), c.source, phase)
  {
    var i := IndexOfSource(r, c.source);
    match c
    case Update(source, failed) =>
      var x := Result(source, if failed then Failed else Deployed);
      if i < 0 {
        AppendIsLocal(r, x);
      } else {
        SetIsLocal(r, i, x);
      }
    case Delete(source) =>
      if i >= 0 {
        CutIsLocal(r, i);
      } else {
        NoneOfSource(r, source);
      }
    case PropagationFailure(source) =>
      if i < 0 {
        AppendIsLocal(r, Result(source, PropagationFailed));
      } else {
        assert Has(r, source, r[i].phase);
      }
  }

  lemma {:induction false} NoneOfSource(r: Report, source: string)
    requires IndexOfSource(r, source) < 0
    ensures forall phase :: !Has(r, source, phase)
  {
  }

  function Changes(r: Report, cs: seq<Change>): Report
    decreases |cs|
  {
    if cs == [] then r else Changes(Changed(r, cs[0]), cs[1..])
  }

  lemma {:induction false} ReportStaysUnique(r: Report, cs: seq<Change>)
    requires OnePerSource(r)
    ensures OnePerSource(Changes(r, cs))
    decreases |cs|
  {
    if cs != [] {
      ChangeIsLocal(r, cs[0]);
      ReportStaysUnique(Changed(r, cs[0]), cs[1..]);
    }
  }

  /** The report of one cluster, rewritten in place. */
  class ReportStore {
    var results: Report

    constructor ()
      ensures results == [] && OnePerSource(results)
    {
      results := [];
    }

    method UpdateResult(source: string, failed: bool)
      modifies this
      ensures results == Changed(old(results), Update(source, failed))
    {
      var i := FindSource(results, source);
      var result := Result(source, if failed then Failed else Deployed);
      results := if i < 0 then results + [result] else results[i := result];
    }

    method DeleteResult(source: string)
      modifies this
      ensures results == Changed(old(results), Delete(source))
    {
      var i := FindSource(results, source);
      if i >= 0 {
        results := results[..i] + results[i + 1..];
      }
    }

    /** CreateFailedAppsubReportResult: an existing result is left alone. */
    method CreateFailedResult(source: string)
      modifies this
      ensures results == Changed(old(results), PropagationFailure(source))
    {
      var i := FindSource(results, source);
      if i < 0 {
        results := results + [Result(source, PropagationFailed)];
      }
    }
  }

  // ----- aggregation over the clusters

  datatype ClusterReport = ClusterReport(cluster: string, results: Report)

  datatype Totals = Totals(clusters: seq<(string, Phase)>, deployed: nat, failed: nat, propagationFailed: nat)

  const NONE := Totals([], 0, 0, 0)

  /** ParseNamespacedName gives something: exactly one slash, with a character beside it. */
  predicate Parses(source: string) {
    var i := IndexOf(source, '/');
    i < |source| && '/' !in source[i + 1..] && |source| > 1
  }

  /** Exactly one slash, and not alone. */
  lemma {:induction false} ParsesIs(source: string)
    ensures Parses(source) <==> Count(source, '/') == 1 && source != "/"
  {
    CountBehindFirst(source, '/');
    var i := IndexOf(source, '/');
    if i < |source| {
      CountIsZero(source[i + 1..], '/');
      assert |source| == 1 ==> source == "/";
    }
  }

  function One(b: bool): nat {
    if b then 1 else 0
  }

  function TotalsOf(m: map<string, Totals>, source: string): Totals {
    if source in m then m[source] else NONE
  }

  function AddResult(m: map<string, Totals>, cluster: string, r: Result): map<string, Totals> {
    if !Parses(r.source) then m
    else
      var t := TotalsOf(m, r.source);
      m[r.source := Totals(t.clusters + [(cluster, r.phase)], t.deployed + One(r.phase == Deployed),
                           t.failed + One(r.phase == Failed), t.propagationFailed + One(r.phase == PropagationFailed))]
  }

  function AddResults(m: map<string, Totals>, cluster: string, rs: Report): map<string, Totals>
    decreases |rs|
  {
    if rs == [] then m else AddResult(AddResults(m, cluster, rs[..|rs| - 1]), cluster, rs[|rs| - 1])
  }

  function Aggregate(reports: seq<ClusterReport>): map<string, Totals>
    decreases |reports|
  {
    if reports == [] then map[]
    else
      var last := reports[|reports| - 1];
      AddResults(Aggregate(reports[..|reports| - 1]), last.cluster, last.results)
  }

  /** In how many reports the source has this phase. */
  ghost function Reporting(reports: seq<ClusterReport>, source: string, phase: Phase): nat
    decreases |reports|
  {
    if reports == [] then 0
    else Reporting(reports[..|reports| - 1], source, phase) + One(Has(reports[|reports| - 1].results, source, phase))
  }

  ghost predicate Added(before: Totals, after: Totals, r: Report, source: string) {
    after.deployed == before.deployed + One(Has(r, source, Deployed)) &&
    after.failed == before.failed + One(Has(r, source, Failed)) &&
    after.propagationFailed == before.propagationFailed + One(Has(r, source, PropagationFailed))
  }

  lemma {:induction false} ReportCountsOnce(m: map<string, Totals>, cluster: string, r: Report, source: string)
    requires OnePerSource(r) && Parses(source)
    ensures Added(TotalsOf(m, source), TotalsOf(AddResults(m, cluster, r), source), r, source)
    decreases |r|
  {
    if r != [] {
      var n := |r| - 1;
      ReportCountsOnce(m, cluster, r[..n], source);
      forall phase ensures Has(r, source, phase) <==> Has(r[..n], source, phase) || r[n] == Result(source, phase) {
        HasOfMore(r, source, phase);
      }
      if r[n].source == source {
        NoEarlierResult(r, r[..n], source);
      }
    }
  }

  lemma {:induction false} HasOfMore(r: Report, source: string, phase: Phase)
    requires r != []
    ensures Has(r, source, phase) <==> Has(r[..|r| - 1], source, phase) || r[|r| - 1] == Result(source, phase)
  {
    var less := r[..|r| - 1];
    if i :| 0 <= i < |less| && less[i] == Result(source, phase) {
      assert r[i] == Result(source, phase);
    }
    if i :| 0 <= i < |r| && r[i] == Result(source, phase) {
      assert i < |less| ==> less[i] == Result(source, phase);
    }
  }

  lemma {:induction false} NoEarlierResult(r: Report, less: Report, source: string)
    requires OnePerSource(r) && r != [] && less == r[..|r| - 1] && r[|r| - 1].source == source
    ensures forall phase :: !Has(less, source, phase)
  {
    assert forall i | 0 <= i < |less| :: less[i].source != r[|r| - 1].source;
  }

  /** The counts of a subscription are the numbers of cluster reports that say so. */
  lemma {:induction false} CountsAreReports(reports: seq<ClusterReport>, source: string)
    requires (forall i | 0 <= i < |reports| :: OnePerSource(reports[i].results)) && Parses(source)
    ensures var t := TotalsOf(Aggregate(reports), source);
            t.deployed == Reporting(reports, source, Deployed) && t.failed == Reporting(reports, source, Failed) &&
            t.propagationFailed == Reporting(reports, source, PropagationFailed)
    decreases |reports|
  {
    if reports != [] {
      var n := |reports| - 1;
      CountsAreReports(reports[..n], source);
      ReportCountsOnce(Aggregate(reports[..n]), reports[n].cluster, reports[n].results, source);
    }
  }

  lemma {:induction false} AtMostOnePerReport(reports: seq<ClusterReport>, source: string)
    requires forall i | 0 <= i < |reports| :: OnePerSource(reports[i].results)
    ensures Reporting(reports, source, Deployed) + Reporting(reports, source, Failed) +
            Reporting(reports, source, PropagationFailed) <= |reports|
    decreases |reports|
  {
    if reports != [] {
      AtMostOnePerReport(reports[..|reports| - 1], source);
      assert OnePerSource(reports[|reports| - 1].results);
    }
  }

  lemma {:induction false} ReportingSplit(a: seq<ClusterReport>, b: seq<ClusterReport>, source: string, phase: Phase)
    ensures Reporting(a + b, source, phase) == Reporting(a, source, phase) + Reporting(b, source, phase)
    decreases |b|
  {
    if b == [] {
      assert a + b == a;
    } else {
      ReportingSplit(a, b[..|b| - 1], source, phase);
      assert (a + b)[..|a + b| - 1] == a + b[..|b| - 1];
    }
  }

  lemma {:induction false} ReportingWithout(b: seq<ClusterReport>, i: nat, source: string, phase: Phase)
    requires i < |b|
    ensures Reporting(b, source, phase) ==
            Reporting(b[..i] + b[i + 1..], source, phase) + One(Has(b[i].results, source, phase))
  {
    var x := b[i];
    assert b == b[..i] + [x] + b[i + 1..];
    ReportingSplit(b[..i] + [x], b[i + 1..], source, phase);
    ReportingSplit(b[..i], [x], source, phase);
    ReportingSplit(b[..i], b[i + 1..], source, phase);
    assert [x][..0] == [];
    assert Reporting([x], source, phase) == One(Has(x.results, source, phase));
  }

  lemma {:induction false} WithoutOne(a: seq<ClusterReport>, b: seq<ClusterReport>) returns (i: nat)
    requires a != [] && multiset(a) == multiset(b)
    ensures i < |b| && b[i] == a[|a| - 1] && multiset(a[..|a| - 1]) == multiset(b[..i] + b[i + 1..])
  {
    var n, x := |a| - 1, a[|a| - 1];
    assert a == a[..n] + [x];
    assert x in multiset(b);
    i :| 0 <= i < |b| && b[i] == x;
    assert b == b[..i] + [x] + b[i + 1..];
    assert multiset(b[..i] + b[i + 1..]) == multiset(b) - multiset{x};
    assert multiset(a[..n]) == multiset(a) - multiset{x};
  }

  /** The counts do not depend on the order in which the reports are listed. */
  lemma {:induction false} OrderDoesNotMatter(a: seq<ClusterReport>, b: seq<ClusterReport>, source: string,
      phase: Phase)
    requires multiset(a) == multiset(b)
    ensures Reporting(a, source, phase) == Reporting(b, source, phase)
    decreases |a|
  {
    if a == [] {
      assert |b| == |multiset(b)| == 0;
    } else {
      var i := WithoutOne(a, b);
      OrderDoesNotMatter(a[..|a| - 1], b[..i] + b[i + 1..], source, phase);
      ReportingWithout(b, i, source, phase);
    }
  }

  // ----- the application report

  datatype Summary = Summary(deployed: int, failed: int, propagationFailed: int, inProgress: int, clusters: int)

  /** The counts of newAppSubReport; `clusters` is taken over from the old summary. */
  function NewSummary(t: Totals, clusters: int): Summary {
    var inProgress := clusters - t.propagationFailed - t.deployed - t.failed;
    Summary(t.deployed, t.failed, t.propagationFailed, if inProgress < 0 then 0 else inProgress, clusters)
  }

  /** Nothing is counted twice or lost: the numbers add up to the clusters, exactly when there are that many. */
  lemma {:induction false} SummaryConserves(reports: seq<ClusterReport>, source: string, clusters: int)
    requires (forall i | 0 <= i < |reports| :: OnePerSource(reports[i].results)) && Parses(source)
    ensures var s := NewSummary(TotalsOf(Aggregate(reports), source), clusters);
            s.deployed == Reporting(reports, source, Deployed) && s.failed == Reporting(reports, source, Failed) &&
            s.propagationFailed == Reporting(reports, source, PropagationFailed) && s.clusters == clusters &&
            s.deployed + s.failed + s.propagationFailed <= |reports| && s.inProgress >= 0 &&
            (s.inProgress > 0 ==> s.inProgress == clusters - (s.deployed + s.failed + s.propagationFailed)) &&
            (s.deployed + s.failed + s.propagationFailed + s.inProgress == clusters <==>
             s.deployed + s.failed + s.propagationFailed <= clusters)
  {
    CountsAreReports(reports, source);
    AtMostOnePerReport(reports, source);
  }

  /** A key that does not parse is not aggregated; any other one is, exactly when a report has it. */
  ghost predicate Reports(reports: seq<ClusterReport>, source: string, cluster: string, phase: Phase) {
    exists i :: 0 <= i < |reports| && reports[i].cluster == cluster && Has(reports[i].results, source, phase)
  }

  lemma {:induction false} ResultListed(m: map<string, Totals>, cluster: string, rs: Report, source: string,
      x: (string, Phase))
    ensures x in TotalsOf(AddResults(m, cluster, rs), source).clusters <==>
            x in TotalsOf(m, source).clusters || (Parses(source) && x.0 == cluster && Has(rs, source, x.1))
    ensures source in AddResults(m, cluster, rs) <==>
            source in m || (Parses(source) && exists phase :: Has(rs, source, phase))
    decreases |rs|
  {
    if rs != [] {
      var less, r := rs[..|rs| - 1], rs[|rs| - 1];
      ResultListed(m, cluster, less, source, x);
      forall phase ensures Has(rs, source, phase) <==> Has(less, source, phase) || r == Result(source, phase) {
        HasOfMore(rs, source, phase);
      }
      assert r.source == source ==> r == Result(source, r.phase);
    }
  }

  /** The clusters listed for a subscription, each with the phase that its report gives. */
  lemma {:induction false} ClustersAreListed(reports: seq<ClusterReport>, source: string, x: (string, Phase))
    ensures x in TotalsOf(Aggregate(reports), source).clusters <==> Parses(source) && Reports(reports, source, x.0, x.1)
    ensures source in Aggregate(reports) <==> Parses(source) && exists cluster, phase ::
            Reports(reports, source, cluster, phase)
    decreases |reports|
  {
    if reports != [] {
      var less, last := reports[..|reports| - 1], reports[|reports| - 1];
      ClustersAreListed(less, source, x);
      ResultListed(Aggregate(less), last.cluster, last.results, source, x);
      forall cluster, phase
        ensures Reports(reports, source, cluster, phase) <==>
                Reports(less, source, cluster, phase) || (last.cluster == cluster && Has(last.results, source, phase))
      {
        ReportsOfMore(reports, source, cluster, phase);
      }
      if phase :| Has(last.results, source, phase) {
        assert Reports(reports, source, last.cluster, phase);
      }
    }
  }

  lemma {:induction false} ReportsOfMore(reports: seq<ClusterReport>, source: string, cluster: string, phase: Phase)
    requires reports != []
    ensures var less, last := reports[..|reports| - 1], reports[|reports| - 1];
            Reports(reports, source, cluster, phase) <==>
            Reports(less, source, cluster, phase) || (last.cluster == cluster && Has(last.results, source, phase))
  {
    var less, last := reports[..|reports| - 1], reports[|reports| - 1];
    if i :| 0 <= i < |reports| && reports[i].cluster == cluster && Has(reports[i].results, source, phase) {
      assert i < |less| ==> less[i] == reports[i];
    }
    if i :| 0 <= i < |less| && less[i].cluster == cluster && Has(less[i].results, source, phase) {
      assert reports[i] == less[i];
    }
  }

  class Aggregator {
    var statuses: map<string, Totals>

    constructor ()
      ensures statuses == map[]
    {
      statuses := map[];
    }

    method UpdateAppSubMapsPerCluster(report: ClusterReport)
      modifies this
      ensures statuses == AddResults(old(statuses), report.cluster, report.results)
    {
      for i := 0 to |report.results|
        invariant statuses == AddResults(old(statuses), report.cluster, report.results[..i])
      {
        assert report.results[..i + 1][..i] == report.results[..i];
        CountResult(report.cluster, report.results[i]);
      }
      assert report.results[..|report.results|] == report.results;
    }

    method CountResult(cluster: string, r: Result)
      modifies this
      ensures statuses == AddResult(old(statuses), cluster, r)
    {
      if !Parses(r.source) {
        return;
      }
      var t := if r.source in statuses then statuses[r.source] else NONE;
      if r.phase == Failed {
        t := t.(failed := t.failed + 1);
      } else if r.phase == Deployed {
        t := t.(deployed := t.deployed + 1);
      } else if r.phase == PropagationFailed {
        t := t.(propagationFailed := t.propagationFailed + 1);
      }
      statuses := statuses[r.source := t.(clusters := t.clusters + [(cluster, r.phase)])];
    }

    method GenerateAppSubSummary(reports: seq<ClusterReport>)
      requires statuses == map[]
      modifies this
      ensures statuses == Aggregate(reports)
    {
      for i := 0 to |reports|
        invariant statuses == Aggregate(reports[..i])
      {
        assert reports[..i + 1][..i] == reports[..i];
        UpdateAppSubMapsPerCluster(reports[i]);
      }
      assert reports[..|reports|] == reports;
    }
  }
}
