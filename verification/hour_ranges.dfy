/**
 Hour ranges of a time window: validation, merging and complement
 (pkg/utils/timewindow.go).  Times of day are whole minutes 0..1439; a range
 that ends at 12:00AM is stored with end 0 and means "until the end of the day".
 */
module HourRanges {
  import opened Sorting

  const DAY := 1440

  datatype Range = Range(start: int, end: int)

  predicate IsMidnight(t: int) {
    t == 0 || t == DAY
  }

  /** What the end of a stored range means on the day's own clock. */
  function Stop(r: Range): int {
    if IsMidnight(r.end) then DAY else r.end
  }

  predicate OnClock(r: Range) {
    0 <= r.start < DAY && 0 <= r.end < DAY
  }

  predicate Proper(r: Range) {
    OnClock(r) && r.start <= Stop(r)
  }

  /** Minute m lies in the closed range or, with `after`, the open minute between m and m+1 does. */
  predicate Within(r: Range, m: int, after: bool) {
    r.start <= m && (if after then m < Stop(r) else m <= Stop(r))
  }

  ghost predicate Covers(rs: seq<Range>, m: int, after: bool) {
    exists i :: 0 <= i < |rs| && Within(rs[i], m, after)
  }

  /** The two lists of ranges are the same set of times. */
  ghost predicate SameCoverage(a: seq<Range>, b: seq<Range>) {
    forall m, after :: Covers(a, m, after) <==> Covers(b, m, after)
  }

  /** Sorted and strictly separated. */
  ghost predicate Separated(rs: seq<Range>) {
    forall i, j :: 0 <= i < j < |rs| ==> Stop(rs[i]) < rs[j].start
  }

  /**
   At most one range runs until midnight, and every other range is over strictly
   before it starts.  Windows with no range ending at 12:00AM qualify.
   */
  ghost predicate MidnightLast(rs: seq<Range>) {
    forall i, j :: 0 <= i < |rs| && 0 <= j < |rs| && i != j && rs[i].end == 0 ==> Stop(rs[j]) < rs[i].start
  }

  /** The hour lists whose merging is exact. */
  ghost predicate MidnightKept(rs: seq<Range>) {
    MidnightLast(rs) || forall r | r in rs :: r == Range(0, 0)
  }

  function StartOf(r: Range): int {
    r.start
  }

  function MaxHour(a: int, b: int): int {
    if a < b then b else a
  }

  /** Sorted first range, then each next range joins the last one kept or starts a new one. */
  method MergeHourRanges(ranges: seq<Range>) returns (out: seq<Range>)
    requires forall r | r in ranges :: Proper(r)
    ensures |out| == 0 <==> |ranges| == 0
    ensures forall r | r in out :: Proper(r)
    ensures forall r | r in out && r.end == 0 :: r in ranges
    ensures Separated(out) && SameCoverage(out, ranges) <==> MidnightKept(ranges)
  {
    if |ranges| < 2 {
      MergeOfOne(ranges);
      return ranges;
    }
    var sorted := SortBy(ranges, StartOf);
    SortKeeps(ranges, sorted);
    out := MergeSorted(sorted);
    MergeDone(ranges, sorted, out);
  }

  method MergeSorted(sorted: seq<Range>) returns (out: seq<Range>)
    requires |sorted| > 1 && (forall r | r in sorted :: Proper(r)) && SortedBy(sorted, StartOf)
    ensures MergeInvariant(sorted, |sorted|, out) && Traced(sorted, out)
  {
    out := FoldRanges(sorted);
    MergedIsRight(sorted, |sorted|);
    assert sorted[..|sorted|] == sorted;
  }

  method FoldRanges(sorted: seq<Range>) returns (out: seq<Range>)
    requires |sorted| > 1
    ensures out == MergedUpTo(sorted, |sorted|)
  {
    out := [sorted[0]];
    var i := 1;
    while i < |sorted|
      invariant 1 <= i <= |sorted| && out == MergedUpTo(sorted, i)
    {
      var l := |out| - 1;
      var ed, s := out[l].end, sorted[i].start;
      if s <= ed {
        out := out[l := Range(out[l].start, MaxHour(ed, sorted[i].end))];
      } else {
        out := out + [sorted[i]];
      }
      i := i + 1;
    }
  }

  /** The ranges kept after the first i. */
  function MergedUpTo(sorted: seq<Range>, i: int): (out: seq<Range>)
    requires 0 < i <= |sorted|
    ensures out != []
    decreases i
  {
    if i == 1 then [sorted[0]] else MergeNext(MergedUpTo(sorted, i - 1), sorted[i - 1])
  }

  function MergeNext(out: seq<Range>, r: Range): seq<Range>
    requires out != []
  {
    if r.start <= out[|out| - 1].end then Joined(out, r) else out + [r]
  }

  lemma {:induction false} MergedIsRight(sorted: seq<Range>, i: int)
    requires 0 < i <= |sorted| && |sorted| > 1 && (forall r | r in sorted :: Proper(r)) && SortedBy(sorted, StartOf)
    ensures MergeInvariant(sorted, i, MergedUpTo(sorted, i)) && Traced(sorted[..i], MergedUpTo(sorted, i))
    decreases i
  {
    if i == 1 {
      MergeStart(sorted);
    } else {
      MergedIsRight(sorted, i - 1);
      MergeStep(sorted, i - 1, MergedUpTo(sorted, i - 1));
    }
  }

  lemma {:induction false} MergeStep(sorted: seq<Range>, i: int, out: seq<Range>)
    requires i < |sorted| && MergeInvariant(sorted, i, out) && Traced(sorted[..i], out)
    ensures MergeInvariant(sorted, i + 1, MergeNext(out, sorted[i]))
    ensures Traced(sorted[..i + 1], MergeNext(out, sorted[i]))
  {
    assert sorted[..i + 1] == sorted[..i] + [sorted[i]] && Proper(sorted[i]);
    if sorted[i].start <= out[|out| - 1].end {
      JoinStep(sorted, i, out);
      JoinTraced(sorted[..i], sorted[i], out);
    } else {
      AppendStep(sorted, i, out);
      AppendTraced(sorted[..i], sorted[i], out);
    }
  }

  ghost predicate MergeInvariant(sorted: seq<Range>, i: int, out: seq<Range>) {
    0 < i <= |sorted| && (forall r | r in sorted :: Proper(r)) && SortedBy(sorted, StartOf) &&
    |out| > 0 && (forall r | r in out :: Proper(r)) && out[|out| - 1].start <= sorted[i - 1].start &&
    (MidnightLast(sorted) ==> Separated(out) && SameCoverage(out, sorted[..i]))
  }

  ghost predicate Held(out: seq<Range>, r: Range) {
    exists k :: 0 <= k < |out| && out[k].start <= r.start && r.end <= out[k].end
  }

  ghost predicate Swallowed(out: seq<Range>, start: int) {
    exists k :: 0 <= k < |out| && start <= out[k].end
  }

  ghost predicate Repeated(out: seq<Range>, r: Range) {
    exists j, k :: 0 <= j < k < |out| && out[j] == r && out[k] == r
  }

  predicate LateMidnight(r: Range) {
    r.end == 0 && r.start > 0
  }

  /**
   Where the ranges merged so far went, midnight or not: each lies in a kept range by
   its stored times, no midnight end is made up, and a range until midnight is either
   kept, as often as it came, or was swallowed by one that ends after its start.
   */
  ghost predicate Traced(done: seq<Range>, out: seq<Range>) {
    (forall r | r in done :: Held(out, r)) &&
    (forall o | o in out && o.end == 0 :: o in done) &&
    (forall r | r in done && LateMidnight(r) :: r in out || Swallowed(out, r.start)) &&
    (forall r | LateMidnight(r) && Repeated(done, r) :: Repeated(out, r) || Swallowed(out, r.start)) &&
    ((forall r | r in done :: r == Range(0, 0)) ==> out == [Range(0, 0)])
  }

  lemma {:induction false} MergeOfOne(ranges: seq<Range>)
    requires |ranges| < 2
    ensures Separated(ranges) && SameCoverage(ranges, ranges) && MidnightKept(ranges)
  {
  }

  lemma {:induction false} MergeStart(sorted: seq<Range>)
    requires |sorted| > 1 && (forall r | r in sorted :: Proper(r)) && SortedBy(sorted, StartOf)
    ensures MergeInvariant(sorted, 1, [sorted[0]]) && Traced(sorted[..1], [sorted[0]])
  {
    var out := [sorted[0]];
    assert sorted[..1] == out && sorted[0] in sorted;
    assert out[0].start <= sorted[0].start && sorted[0].end <= out[0].end;
    assert Held(out, sorted[0]);
  }

  lemma {:induction false} MergeDone(ranges: seq<Range>, sorted: seq<Range>, out: seq<Range>)
    requires multiset(sorted) == multiset(ranges)
    requires MergeInvariant(sorted, |sorted|, out) && Traced(sorted, out)
    ensures |ranges| > 0
    ensures forall r | r in out && r.end == 0 :: r in ranges
    ensures Separated(out) && SameCoverage(out, ranges) <==> MidnightKept(ranges)
  {
    SortKeeps(ranges, sorted);
    if Separated(out) && SameCoverage(out, ranges) {
      SameThroughout(out, ranges, sorted);
      ExactOnlyIfKept(sorted, out);
    }
    if MidnightKept(sorted) {
      ExactIfKept(sorted, out);
      SameThroughout(out, sorted, ranges);
    }
  }

  lemma {:induction false} SameThroughout(a: seq<Range>, b: seq<Range>, d: seq<Range>)
    requires SameCoverage(a, b) && (SameCoverage(b, d) || SameCoverage(d, b))
    ensures SameCoverage(a, d)
  {
  }

  lemma {:induction false} ExactIfKept(sorted: seq<Range>, out: seq<Range>)
    requires MergeInvariant(sorted, |sorted|, out) && Traced(sorted, out) && MidnightKept(sorted)
    ensures Separated(out) && SameCoverage(out, sorted)
  {
    assert sorted[..|sorted|] == sorted;
    if forall r | r in sorted :: r == Range(0, 0) {
      CoverageIsOfMembers(out, sorted);
      CoverageIsOfMembers(sorted, out);
    }
  }

  /** If no coverage was lost and the result is separated, no range ran past the midnight one. */
  lemma {:induction false} ExactOnlyIfKept(sorted: seq<Range>, out: seq<Range>)
    requires (forall r | r in sorted :: Proper(r)) && (forall r | r in out :: Proper(r))
    requires Traced(sorted, out) && Separated(out) && SameCoverage(out, sorted)
    ensures MidnightKept(sorted)
  {
    if a, b :|
      0 <= a < |sorted| && 0 <= b < |sorted| && a != b && sorted[a].end == 0 && Stop(sorted[b]) >= sorted[a].start
    {
      var l := LastIsMidnight(sorted, out, a);
      if out[l].start == 0 {
        OnlyWholeDays(sorted, out);
      } else {
        StartsLast(sorted, out, l, a);
        if sorted[b].end == 0 {
          StartsLast(sorted, out, l, b);
        }
        KeptOnce(sorted, out, l, a, b);
      }
    }
  }

  lemma {:induction false} LastIsMidnight(sorted: seq<Range>, out: seq<Range>, a: nat) returns (l: nat)
    requires (forall r | r in sorted :: Proper(r)) && (forall r | r in out :: Proper(r))
    requires Separated(out) && SameCoverage(out, sorted) && a < |sorted| && sorted[a].end == 0
    ensures l == |out| - 1 && out[l].end == 0
  {
    assert sorted[a] in sorted;
    assert Within(sorted[a], DAY - 1, true) && Covers(sorted, DAY - 1, true);
    assert Covers(out, DAY - 1, true);
    l :| 0 <= l < |out| && Within(out[l], DAY - 1, true);
    AllInBounds(out);
    var found, last := out[l], out[|out| - 1];
    assert Stop(found) == DAY && found in out && last in out;
    assert l < |out| - 1 ==> Stop(found) < last.start;
  }

  lemma {:induction false} StartsLast(sorted: seq<Range>, out: seq<Range>, l: nat, a: nat)
    requires (forall r | r in sorted :: Proper(r)) && (forall r | r in out :: Proper(r))
    requires Separated(out) && SameCoverage(out, sorted) && l == |out| - 1 && out[l].start > 0
    requires a < |sorted| && sorted[a].end == 0
    ensures out[l].start <= sorted[a].start
  {
    var m := out[l].start - 1;
    assert sorted[a] in sorted && out[l] in out;
    assert Within(sorted[a], m, true) ==> Covers(sorted, m, true);
    assert !Covers(out, m, true);
  }

  lemma {:induction false} OnlyWholeDays(sorted: seq<Range>, out: seq<Range>)
    requires (forall r | r in sorted :: Proper(r)) && (forall r | r in out :: Proper(r))
    requires Traced(sorted, out) && Separated(out) && out != [] && out[|out| - 1] == Range(0, 0)
    ensures forall r | r in sorted :: r == Range(0, 0)
  {
    AllInBounds(out);
    assert out == [Range(0, 0)];
    forall r | r in sorted ensures r == Range(0, 0) {
      assert Held(out, r) && !Swallowed(out, if r.start > 0 then r.start else 1);
    }
  }

  lemma {:induction false} AllInBounds(rs: seq<Range>)
    requires forall r | r in rs :: Proper(r)
    ensures forall k | 0 <= k < |rs| ::
              0 <= rs[k].start < DAY && rs[k].start <= Stop(rs[k]) <= DAY && 0 <= rs[k].end < DAY
  {
    assert forall k | 0 <= k < |rs| :: rs[k] in rs;
  }

  lemma {:induction false} KeptOnce(sorted: seq<Range>, out: seq<Range>, l: nat, a: nat, b: nat)
    requires (forall r | r in sorted :: Proper(r)) && (forall r | r in out :: Proper(r))
    requires Traced(sorted, out) && Separated(out) && l == |out| - 1 && out[l].end == 0 && out[l].start > 0
    requires a < |sorted| && b < |sorted| && a != b && sorted[a].end == 0 && out[l].start <= sorted[a].start
    requires sorted[b].end == 0 ==> out[l].start <= sorted[b].start
    ensures Stop(sorted[b]) < sorted[a].start
  {
    AllInBounds(out);
    EndsBefore(out, l);
    assert sorted[a] in sorted && sorted[b] in sorted;
    assert sorted[a] == out[l] && !Repeated(out, out[l]);
    var ra, rb := sorted[a], sorted[b];
    assert rb == ra ==> Repeated(sorted, ra);
    assert Held(out, rb);
  }

  lemma {:induction false} EndsBefore(out: seq<Range>, l: nat)
    requires Separated(out) && l == |out| - 1 && out[l].end == 0 && 0 < out[l].start <= DAY
    ensures forall s | out[l].start <= s :: !Swallowed(out, s)
    ensures forall o | o in out && o.end == 0 :: o == out[l]
  {
    forall k | 0 <= k < |out| ensures out[k].end < out[l].start && (out[k].end == 0 ==> out[k] == out[l]) {
      assert k < l ==> Stop(out[k]) < out[l].start;
    }
  }

  lemma {:induction false} SortKeeps(ranges: seq<Range>, sorted: seq<Range>)
    requires multiset(sorted) == multiset(ranges)
    ensures |sorted| == |ranges|
    ensures forall r :: r in sorted <==> r in ranges
    ensures MidnightLast(sorted) <==> MidnightLast(ranges)
    ensures SameCoverage(sorted, ranges)
  {
    SameElements(sorted, ranges);
    CoverageIsOfMembers(sorted, ranges);
    CoverageIsOfMembers(ranges, sorted);
    if MidnightLast(ranges) {
      MidnightLastPermuted(ranges, sorted);
    }
    if MidnightLast(sorted) {
      MidnightLastPermuted(sorted, ranges);
    }
  }

  lemma {:induction false} MidnightLastPermuted(a: seq<Range>, b: seq<Range>)
    requires multiset(a) == multiset(b) && MidnightLast(a)
    ensures MidnightLast(b)
  {
    forall i, j | 0 <= i < |b| && 0 <= j < |b| && i != j && b[i].end == 0
      ensures Stop(b[j]) < b[i].start
    {
      assert b[i] in multiset(b) && b[j] in multiset(b);
      if b[i] == b[j] {
        var lo, hi := if i < j then i else j, if i < j then j else i;
        assert b == b[..hi] + [b[hi]] + b[hi + 1..] && b[lo] in b[..hi];
        var k, l := TwoPlaces(a, b[i]);
      }
    }
  }

  lemma {:induction false} TwoPlaces(s: seq<Range>, x: Range) returns (j: nat, k: nat)
    requires multiset(s)[x] >= 2
    ensures j < k < |s| && s[j] == s[k] == x
  {
    assert s == [s[0]] + s[1..];
    if s[0] == x {
      assert x in multiset(s[1..]);
      k :| 0 < k < |s| && s[k] == x;
      j := 0;
    } else {
      j, k := TwoPlaces(s[1..], x);
      j, k := j + 1, k + 1;
    }
  }

  lemma {:induction false} CoverageIsOfMembers(a: seq<Range>, b: seq<Range>)
    requires forall r | r in a :: r in b
    ensures forall m, after :: Covers(a, m, after) ==> Covers(b, m, after)
  {
    forall m, after | Covers(a, m, after)
      ensures Covers(b, m, after)
    {
      var i :| 0 <= i < |a| && Within(a[i], m, after);
      assert a[i] in b;
    }
  }

  ghost predicate AtMergeStep(sorted: seq<Range>, i: int, before: seq<Range>) {
    i < |sorted| && MidnightLast(sorted) && MergeInvariant(sorted, i, before) && Traced(sorted[..i], before)
  }

  /** The range being merged and the last kept one never both matter until midnight. */
  lemma {:induction false} NoMidnightBefore(sorted: seq<Range>, i: int, before: seq<Range>)
    requires AtMergeStep(sorted, i, before)
    ensures before[|before| - 1].end != 0
  {
    assert sorted[i] in sorted && Proper(sorted[i]);
    assert StartOf(sorted[i - 1]) <= StartOf(sorted[i]);
    assert forall k | 0 <= k < i :: sorted[k].end == 0 ==> sorted[i].start < sorted[k].start;
    assert before[|before| - 1] in before;
  }

  lemma {:induction false} CoverageOfOneMore(rs: seq<Range>, r: Range, m: int, after: bool)
    ensures Covers(rs + [r], m, after) <==> Covers(rs, m, after) || Within(r, m, after)
  {
    var more := rs + [r];
    assert more[|rs|] == r && forall k | 0 <= k < |rs| :: more[k] == rs[k];
  }

  lemma {:induction false} AppendStep(sorted: seq<Range>, i: int, before: seq<Range>)
    requires i < |sorted| && MergeInvariant(sorted, i, before) && Traced(sorted[..i], before)
    requires before[|before| - 1].end < sorted[i].start
    ensures MergeInvariant(sorted, i + 1, before + [sorted[i]])
  {
    assert sorted[i] in sorted;
    if MidnightLast(sorted) {
      NoMidnightBefore(sorted, i, before);
      assert sorted[..i + 1] == sorted[..i] + [sorted[i]];
      forall m, after ensures Covers(before + [sorted[i]], m, after) <==> Covers(sorted[..i + 1], m, after) {
        CoverageOfOneMore(sorted[..i], sorted[i], m, after);
        CoverageOfOneMore(before, sorted[i], m, after);
      }
    }
  }

  lemma {:induction false} AppendTraced(done: seq<Range>, r: Range, before: seq<Range>)
    requires Traced(done, before) && before != [] && done != []
    requires before[|before| - 1].end < r.start
    ensures Traced(done + [r], before + [r])
  {
    var more, out := done + [r], before + [r];
    assert out[|before|] == r && out[|before| - 1] == before[|before| - 1] && r in more;
    assert forall k | 0 <= k < |before| :: out[k] == before[k];
    assert forall x | Held(before, x) :: Held(out, x);
    assert forall s | Swallowed(before, s) :: Swallowed(out, s);
    assert forall x | Repeated(before, x) :: Repeated(out, x);
    forall x | LateMidnight(x) && Repeated(more, x) ensures Repeated(out, x) || Swallowed(out, x.start) {
      RepeatedMore(done, r, x);
      if x == r && x in before {
        var k :| 0 <= k < |before| && before[k] == x;
        assert out[k] == x && out[|before|] == x;
      }
    }
    assert forall x | x in done :: x in more;
  }

  lemma {:induction false} RepeatedMore(done: seq<Range>, r: Range, x: Range)
    ensures Repeated(done + [r], x) ==> Repeated(done, x) || (x == r && x in done)
  {
    var more := done + [r];
    if Repeated(more, x) {
      var j, k :| 0 <= j < k < |more| && more[j] == x && more[k] == x;
      assert done[j] == x;
      assert k < |done| ==> done[k] == x;
    }
  }

  function Joined(before: seq<Range>, r: Range): seq<Range>
    requires |before| > 0
  {
    var l := |before| - 1;
    before[l := Range(before[l].start, MaxHour(before[l].end, r.end))]
  }

  lemma {:induction false} JoinKeepsShape(before: seq<Range>, r: Range)
    requires before != [] && (forall x | x in before :: Proper(x)) && Proper(r)
    requires before[|before| - 1].start <= r.start <= before[|before| - 1].end
    ensures forall x | x in Joined(before, r) :: Proper(x)
    ensures Separated(before) ==> Separated(Joined(before, r))
  {
    var l, out := |before| - 1, Joined(before, r);
    assert before[l] in before;
    forall x | x in out ensures Proper(x) {
      var k :| 0 <= k < |out| && out[k] == x;
      assert k < l ==> x == before[k];
    }
  }

  lemma {:induction false} JoinStep(sorted: seq<Range>, i: int, before: seq<Range>)
    requires i < |sorted| && MergeInvariant(sorted, i, before) && Traced(sorted[..i], before)
    requires sorted[i].start <= before[|before| - 1].end
    ensures MergeInvariant(sorted, i + 1, Joined(before, sorted[i]))
  {
    var l := |before| - 1;
    assert Proper(before[l]) && Proper(sorted[i]);
    assert StartOf(sorted[i - 1]) <= StartOf(sorted[i]);
    assert sorted[..i + 1] == sorted[..i] + [sorted[i]];
    JoinKeepsShape(before, sorted[i]);
    if MidnightLast(sorted) {
      NoMidnightBefore(sorted, i, before);
      JoinedEndsToday(sorted, i, before);
      JoinCoverage(sorted[..i], sorted[i], before);
    }
  }

  /** Joining leaves every kept range in its place, the last one grown. */
  lemma {:induction false} JoinGrows(before: seq<Range>, r: Range)
    requires before != [] && 0 <= r.end && 0 <= r.start
    requires before[|before| - 1].start <= r.start <= before[|before| - 1].end
    ensures forall x | Held(before, x) :: Held(Joined(before, r), x)
    ensures forall s | Swallowed(before, s) :: Swallowed(Joined(before, r), s)
    ensures forall x | LateMidnight(x) && x in before :: x in Joined(before, r)
    ensures forall x | LateMidnight(x) && Repeated(before, x) :: Repeated(Joined(before, r), x)
    ensures Held(Joined(before, r), r) && Swallowed(Joined(before, r), r.start)
    ensures forall o | o in Joined(before, r) && o.end == 0 :: o in before
  {
    var out, l := Joined(before, r), |before| - 1;
    assert forall k | 0 <= k < l :: out[k] == before[k];
    assert before[l].start == out[l].start && before[l].end <= out[l].end && !LateMidnight(before[l]);
    forall x | LateMidnight(x) && x in before ensures x in out {
      var k :| 0 <= k < |before| && before[k] == x;
      assert out[k] == x;
    }
    forall x | LateMidnight(x) && Repeated(before, x) ensures Repeated(out, x) {
      var j, k :| 0 <= j < k < |before| && before[j] == x && before[k] == x;
      assert out[j] == x && out[k] == x;
    }
    forall o | o in out && o.end == 0 ensures o in before {
      var k :| 0 <= k < |out| && out[k] == o;
      assert before[k] == o;
    }
  }

  lemma {:induction false} JoinTraced(done: seq<Range>, r: Range, before: seq<Range>)
    requires Traced(done, before) && before != [] && done != [] && 0 <= r.end && 0 <= r.start
    requires before[|before| - 1].start <= r.start <= before[|before| - 1].end
    ensures Traced(done + [r], Joined(before, r))
  {
    var more := done + [r];
    JoinGrows(before, r);
    assert r in more && forall x | x in done :: x in more;
    forall x | LateMidnight(x) && Repeated(more, x)
      ensures Repeated(Joined(before, r), x) || Swallowed(Joined(before, r), x.start)
    {
      RepeatedMore(done, r, x);
    }
  }

  lemma {:induction false} JoinCoverage(done: seq<Range>, r: Range, before: seq<Range>)
    requires |before| > 0 && SameCoverage(before, done)
    requires before[|before| - 1].start <= r.start <= before[|before| - 1].end
    requires before[|before| - 1].end != 0 && r.end != 0
    requires Proper(before[|before| - 1]) && Proper(r)
    ensures SameCoverage(Joined(before, r), done + [r])
  {
    var l, out := |before| - 1, Joined(before, r);
    assert before == before[..l] + [before[l]] && out == before[..l] + [out[l]];
    forall m, after ensures Covers(out, m, after) <==> Covers(done + [r], m, after) {
      CoverageOfOneMore(done, r, m, after);
      CoverageOfOneMore(before[..l], before[l], m, after);
      CoverageOfOneMore(before[..l], out[l], m, after);
    }
  }

  lemma {:induction false} JoinedEndsToday(sorted: seq<Range>, i: int, before: seq<Range>)
    requires AtMergeStep(sorted, i, before)
    requires sorted[i].start <= before[|before| - 1].end
    ensures sorted[i].end != 0
  {
    var s := sorted[i].start;
    assert Within(before[|before| - 1], s, false) && Covers(before, s, false);
    assert Covers(sorted[..i], s, false);
    var k :| 0 <= k < i && Within(sorted[..i][k], s, false);
    assert Within(sorted[k], s, false);
  }

  /** A range may be written backwards, unless it ends at 12:00AM. */
  function Orient(r: Range): (o: Range)
    requires OnClock(r)
    ensures Proper(o)
  {
    if r.start < r.end || IsMidnight(r.end) then r else Range(r.end, r.start)
  }

  function OrientAll(rs: seq<Range>): (os: seq<Range>)
    requires forall r | r in rs :: OnClock(r)
    ensures |os| == |rs| && forall i | 0 <= i < |rs| :: os[i] == Orient(rs[i])
  {
    seq(|rs|, i requires 0 <= i < |rs| => Orient(rs[i]))
  }

  /**
   A range as the user wrote it: from its start until midnight if it ends at 12:00AM,
   otherwise between its two times, whichever is the smaller one.
   */
  ghost predicate WrittenWithin(r: Range, m: int, after: bool) {
    if r.end == 0 then r.start <= m && (if after then m < DAY else m <= DAY)
    else (r.start <= m || r.end <= m) && (if after then m < r.start || m < r.end else m <= r.start || m <= r.end)
  }

  ghost predicate WrittenCover(hours: seq<Range>, m: int, after: bool) {
    exists i :: 0 <= i < |hours| && WrittenWithin(hours[i], m, after)
  }

  /** Turning ranges round keeps what the user wrote. */
  lemma {:induction false} OrientKeepsHours(hours: seq<Range>)
    requires forall r | r in hours :: OnClock(r)
    ensures forall m, after :: Covers(OrientAll(hours), m, after) <==> WrittenCover(hours, m, after)
    ensures forall i | 0 <= i < |hours| :: OrientAll(hours)[i].end == 0 <==> hours[i].end == 0
  {
    var all := OrientAll(hours);
    forall i, m, after | 0 <= i < |hours| ensures Within(all[i], m, after) <==> WrittenWithin(hours[i], m, after) {
      assert hours[i] in hours && all[i] == Orient(hours[i]);
    }
    forall m, after ensures Covers(all, m, after) <==> WrittenCover(hours, m, after) {
      if i :| 0 <= i < |all| && Within(all[i], m, after) {
        assert WrittenWithin(hours[i], m, after);
      }
      if i :| 0 <= i < |hours| && WrittenWithin(hours[i], m, after) {
        assert Within(all[i], m, after);
      }
    }
  }

  method ValidateHourRange(rs: seq<Range>) returns (out: seq<Range>)
    requires forall r | r in rs :: OnClock(r)
    ensures |out| == 0 <==> |rs| == 0
    ensures forall r | r in out :: Proper(r)
    ensures forall r | r in out && r.end == 0 :: r in OrientAll(rs)
    ensures Separated(out) && SameCoverage(out, OrientAll(rs)) <==> MidnightKept(OrientAll(rs))
  {
    if |rs| == 0 {
      MergeOfOne([]);
      return [];
    }
    var h := [];
    for i := 0 to |rs|
      invariant h == OrientAll(rs[..i])
    {
      h := h + [Orient(rs[i])];
    }
    assert rs[..|rs|] == rs;
    out := MergeHourRanges(h);
  }

  /**
   Minute m of the day [0, 1440] has covered time on both of its sides
   (on the one side it has, at the ends of the day).
   */
  ghost predicate Interior(rs: seq<Range>, m: int) {
    (m == DAY || Covers(rs, m, true)) && (m == 0 || Covers(rs, m - 1, true))
  }

  /** Ranges of one day, in order; neighbours may share an end point. */
  ghost predicate Chained(rs: seq<Range>) {
    (forall i :: 0 <= i < |rs| ==> 0 <= rs[i].start < rs[i].end <= DAY) &&
    (forall i, j :: 0 <= i < j < |rs| ==> rs[i].end <= rs[j].start)
  }

  predicate IsThereGap(st: int, ed: int) {
    ed - st != 0
  }

  /** The complement of the ranges' interior: the gaps, with their end points. */
  method ReverseRange(ranges: seq<Range>) returns (out: seq<Range>)
    requires forall r | r in ranges :: Proper(r)
    ensures ranges == [] ==> out == []
    ensures Separated(ranges) ==> Complement(ranges, out)
  {
    if |ranges| == 0 {
      return ranges;
    }
    out := [];
    var sp := 0;
    for k := 0 to |ranges|
      invariant sp == if k == 0 then 0 else ranges[k - 1].end
      invariant Separated(ranges) ==> ComplementSoFar(ranges, k, out)
    {
      ghost var before := out;
      if IsThereGap(sp, ranges[k].start) {
        out := out + [Range(sp, ranges[k].start)];
      }
      if Separated(ranges) {
        GapStep(ranges, k, before, out);
      }
      sp := ranges[k].end;
    }
    assert ranges[|ranges| - 1] in ranges;
    if IsMidnight(sp) {
      sp := sp + DAY;
    }
    ghost var before := out;
    if IsThereGap(sp, DAY) {
      out := out + [Range(sp, DAY)];
    }
    if Separated(ranges) {
      LastGap(ranges, before, out);
    }
  }

  /** The slots are, in order, exactly the times of [0, 1440] not interior to the ranges. */
  ghost predicate Complement(ranges: seq<Range>, slots: seq<Range>) {
    Chained(slots) &&
    (ranges != [] ==> forall m | 0 <= m <= DAY :: Covers(slots, m, false) <==> !Interior(ranges, m))
  }

  ghost predicate ComplementSoFar(ranges: seq<Range>, k: nat, out: seq<Range>)
    requires k <= |ranges|
  {
    Chained(out) && (forall g | g in out :: g.end <= LastStart(ranges, k)) &&
    forall m | 0 <= m < Reached(ranges, k) :: Covers(out, m, false) <==> !Interior(ranges, m)
  }

  /** How far into the day the first k ranges reach. */
  function Reached(ranges: seq<Range>, k: nat): int
    requires k <= |ranges|
  {
    if k == 0 then 0 else Stop(ranges[k - 1])
  }

  function LastStart(ranges: seq<Range>, k: nat): int
    requires k <= |ranges|
  {
    if k == 0 then 0 else ranges[k - 1].start
  }

  lemma {:induction false} NotYetMidnight(ranges: seq<Range>, k: nat)
    requires Separated(ranges) && (forall r | r in ranges :: Proper(r)) && k < |ranges|
    ensures k > 0 ==> ranges[k - 1].end == Stop(ranges[k - 1]) < ranges[k].start
    ensures 0 <= LastStart(ranges, k) <= Reached(ranges, k) <= ranges[k].start <= Stop(ranges[k]) <= DAY
  {
    assert ranges[k] in ranges && (k > 0 ==> ranges[k - 1] in ranges);
    assert k > 0 ==> Stop(ranges[k - 1]) < ranges[k].start;
  }

  lemma {:induction false} GapHasNone(ranges: seq<Range>, k: nat, m: int)
    requires Separated(ranges) && (forall r | r in ranges :: Proper(r)) && k <= |ranges|
    requires Reached(ranges, k) <= m < (if k < |ranges| then ranges[k].start else DAY)
    ensures !Covers(ranges, m, true)
  {
    forall i | 0 <= i < |ranges| ensures !Within(ranges[i], m, true) {
      assert ranges[i] in ranges;
      if i + 1 < k {
        assert Stop(ranges[i]) < ranges[k - 1].start;
        assert ranges[k - 1] in ranges;
      } else if i > k {
        assert Stop(ranges[k]) < ranges[i].start;
        assert ranges[k] in ranges;
      }
    }
  }

  lemma {:induction false} CoveredByGaps(before: seq<Range>, limit: int, g: Range, m: int)
    requires Chained(before) && forall h | h in before :: h.end <= limit
    ensures Covers(before + [g], m, false) <==> Covers(before, m, false) || Within(g, m, false)
    ensures m > limit || limit == 0 ==> !Covers(before, m, false)
  {
    CoverageOfOneMore(before, g, m, false);
    assert forall i | 0 <= i < |before| :: before[i] in before && Stop(before[i]) == before[i].end;
  }

  lemma {:induction false} GapStep(ranges: seq<Range>, k: nat, before: seq<Range>, out: seq<Range>)
    requires Separated(ranges) && (forall r | r in ranges :: Proper(r)) && k < |ranges|
    requires ComplementSoFar(ranges, k, before)
    requires var sp := if k == 0 then 0 else ranges[k - 1].end;
             out == before + (if sp == ranges[k].start then [] else [Range(sp, ranges[k].start)])
    ensures ComplementSoFar(ranges, k + 1, out)
  {
    NotYetMidnight(ranges, k);
    var from, to := Reached(ranges, k), ranges[k].start;
    forall m | 0 <= m < Reached(ranges, k + 1)
      ensures Covers(out, m, false) <==> !Interior(ranges, m)
    {
      CoveredByGaps(before, LastStart(ranges, k), Range(from, to), m);
      if from <= m < to {
        GapHasNone(ranges, k, m);
      } else if m >= to {
        assert Within(ranges[k], m, true);
        if m == to && m > 0 && from < to {
          GapHasNone(ranges, k, m - 1);
        } else if m > to {
          assert Within(ranges[k], m - 1, true);
        }
      }
    }
  }

  lemma {:induction false} LastGap(ranges: seq<Range>, before: seq<Range>, out: seq<Range>)
    requires |ranges| > 0 && Separated(ranges) && (forall r | r in ranges :: Proper(r))
    requires ComplementSoFar(ranges, |ranges|, before)
    requires out == before + (if Reached(ranges, |ranges|) == DAY then [] else [Range(Reached(ranges, |ranges|), DAY)])
    ensures Complement(ranges, out)
  {
    var last := |ranges| - 1;
    assert ranges[last] in ranges;
    NotYetMidnight(ranges, last);
    var from := Reached(ranges, |ranges|);
    assert from == DAY ==> out == before;
    forall m | 0 <= m <= DAY
      ensures Covers(out, m, false) <==> !Interior(ranges, m)
    {
      CoveredByGaps(before, LastStart(ranges, |ranges|), Range(from, DAY), m);
      if from <= m < DAY {
        GapHasNone(ranges, |ranges|, m);
      } else if m == DAY {
        if from < DAY {
          GapHasNone(ranges, |ranges|, DAY - 1);
        } else {
          assert Within(ranges[last], DAY - 1, true) && Covers(ranges, DAY - 1, true);
        }
      }
    }
  }
}
