/**
 The tracking invariant: every object that a subscription hosts is in its stored
 unit list, so that it will be found when it has to go.
 */
module Tracking {
  import opened Text
  import opened Cluster
  import opened Ownership
  import opened Synchronizer

  /** Hosted by the subscription, neither do-not-delete nor a namespace created on the way. */
  ghost predicate NeedsTracking(o: Obj, sub: SubKey) {
    Host(o) == HostString(sub) && !Kept(o) && !IsAutoNamespace(o)
  }

  ghost predicate Tracks(c: Config, units: seq<Unit>, k: Key) {
    exists i :: 0 <= i < |units| && KeyOf(c.rest, units[i]) == Some(k)
  }

  ghost predicate Tracked(c: Config, st: State, sub: SubKey) {
    forall k | k in st.objects && NeedsTracking(st.objects[k], sub) ::
      StatusKey(c, sub) in st.statuses && Tracks(c, st.statuses[StatusKey(c, sub)], k)
  }

  /** The REST mapper knows well-formed apiVersions only. */
  ghost predicate GoodRest(c: Config) {
    forall p | p in c.rest :: !BadApiVersion(p.0)
  }

  // ----- the apply phase

  /** Applying a template touches its own key and at most one namespace on the way. */
  lemma {:induction false} ApplyTouches(objs: Objects, m: Mapping, t: Template, isAdmin: bool, f: ApplyFaults)
    requires Anno(t.annotations, Hosting) != ""
    ensures var after := ApplyTemplate(objs, m, t, isAdmin, f).0;
            objs.Keys <= after.Keys &&
            forall k | k in after ::
              (k in objs && after[k] == objs[k]) || k == TemplateKey(m, t) || IsAutoNamespace(after[k])
  {
    assert IsAutoNamespace(AutoNamespace(t));
  }

  lemma {:induction false} StepTracks(c: Config, objs: Objects, sub: SubKey, isAdmin: bool, r: Resource)
    requires GoodRest(c) && ValidSub(sub)
    ensures var (after, unit) := ApplyResource(c.rest, objs, sub, isAdmin, r.template, r.faults);
            objs.Keys <= after.Keys &&
            forall k | k in after ::
              (k in objs && after[k] == objs[k]) || KeyOf(c.rest, unit) == Some(k) || IsAutoNamespace(after[k])
  {
    var t := Override(sub, r.template);
    assert Anno(t.annotations, Hosting) != "";
    if (t.apiVersion, t.kind) in c.rest {
      ApplyTouches(objs, c.rest[(t.apiVersion, t.kind)], t, isAdmin, r.faults);
    }
  }

  lemma {:induction false} ApplyTracks(c: Config, objs: Objects, sub: SubKey, isAdmin: bool, rs: seq<Resource>)
    requires GoodRest(c) && ValidSub(sub)
    ensures var (after, units) := ApplyAll(c, objs, sub, isAdmin, rs);
            |units| == |rs| && objs.Keys <= after.Keys &&
            forall k | k in after ::
              (k in objs && after[k] == objs[k]) || Tracks(c, units, k) || IsAutoNamespace(after[k])
    decreases |rs|
  {
    if rs != [] {
      var less, r := rs[..|rs| - 1], rs[|rs| - 1];
      ApplyTracks(c, objs, sub, isAdmin, less);
      var (before, units) := ApplyAll(c, objs, sub, isAdmin, less);
      StepTracks(c, before, sub, isAdmin, r);
      var (after, unit) := ApplyResource(c.rest, before, sub, isAdmin, r.template, r.faults);
      forall k | k in after && k in before && after[k] == before[k] && Tracks(c, units, k)
        ensures Tracks(c, units + [unit], k)
      {
        var i :| 0 <= i < |units| && KeyOf(c.rest, units[i]) == Some(k);
        assert (units + [unit])[i] == units[i];
      }
      assert (units + [unit])[|units|] == unit;
    }
  }

  // ----- the delete phase

  /** The unit was processed and its object is still there for a reason. */
  ghost predicate Spared(c: Config, after: Objects, host: SubKey, u: Unit, lookup: bool, failed: seq<Unit>) {
    KeyOf(c.rest, u).Some? && KeyOf(c.rest, u).value in after ==>
      var o := after[KeyOf(c.rest, u).value];
      lookup || Kept(o) || !HostedByGroup(o, host) || Listed(u, failed)
  }

  ghost predicate Shrunk(c: Config, objs: Objects, after: Objects, host: SubKey, units: seq<Unit>) {
    (forall k | k in after :: k in objs && after[k] == objs[k]) &&
    (forall k | k in objs && k !in after :: Tracks(c, units, k) && HostedByGroup(objs[k], host) && !Kept(objs[k]))
  }

  lemma {:induction false} DeleteSpares(c: Config, objs: Objects, host: SubKey, units: seq<Unit>,
      faults: nat -> DeleteFaults)
    ensures var (after, failed) := DeleteAll(c, objs, host, units, faults);
            Shrunk(c, objs, after, host, units) &&
            forall i | 0 <= i < |units| :: Spared(c, after, host, units[i], faults(i).lookup, failed)
  {
    DeleteShrinks(c, objs, host, units, faults);
    var (after, failed) := DeleteAll(c, objs, host, units, faults);
    forall i | 0 <= i < |units| ensures Spared(c, after, host, units[i], faults(i).lookup, failed) {
      UnitIsSpared(c, objs, host, units, faults, i);
    }
  }

  lemma {:induction false} DeleteShrinks(c: Config, objs: Objects, host: SubKey, units: seq<Unit>,
      faults: nat -> DeleteFaults)
    ensures Shrunk(c, objs, DeleteAll(c, objs, host, units, faults).0, host, units)
    decreases |units|
  {
    if units != [] {
      var n := |units| - 1;
      DeleteShrinks(c, objs, host, units[..n], faults);
      ShrinkMore(c, objs, DeleteAll(c, objs, host, units[..n], faults).0,
                 DeleteAll(c, objs, host, units, faults).0, host, units, faults(n));
    }
  }

  lemma {:induction false} UnitIsSpared(c: Config, objs: Objects, host: SubKey, units: seq<Unit>,
                                        faults: nat -> DeleteFaults, i: nat)
    requires i < |units|
    ensures var (after, failed) := DeleteAll(c, objs, host, units, faults);
            Spared(c, after, host, units[i], faults(i).lookup, failed)
    decreases |units|
  {
    var n := |units| - 1;
    var (before, failed) := DeleteAll(c, objs, host, units[..n], faults);
    var (after, more) := DeleteAll(c, objs, host, units, faults);
    LastIsSpared(c, before, host, units[n], faults(n), failed);
    if i < n {
      UnitIsSpared(c, objs, host, units[..n], faults, i);
      StaysSpared(c, before, after, host, units[i], faults(i).lookup, failed, more);
    }
  }

  lemma {:induction false} StaysSpared(c: Config, before: Objects, after: Objects, host: SubKey, u: Unit, lookup: bool,
                    failed: seq<Unit>, more: seq<Unit>)
    requires Spared(c, before, host, u, lookup, failed) && failed <= more
    requires forall k | k in after :: k in before && after[k] == before[k]
    ensures Spared(c, after, host, u, lookup, more)
  {
    ListedMore(u, failed, more);
  }

  lemma {:induction false} LastIsSpared(c: Config, before: Objects, host: SubKey, u: Unit, f: DeleteFaults,
      failed: seq<Unit>)
    ensures var (after, ok) := DeleteUnit(c.rest, before, host, u, f);
            Spared(c, after, host, u, f.lookup, if ok then failed else failed + [u.(phase := DeployFailed)])
  {
    assert SameUnit(u, (failed + [u.(phase := DeployFailed)])[|failed|]);
  }

  lemma {:induction false} ListedMore(u: Unit, less: seq<Unit>, more: seq<Unit>)
    requires less <= more
    ensures Listed(u, less) ==> Listed(u, more)
  {
    if Listed(u, less) {
      var i :| 0 <= i < |less| && SameUnit(u, less[i]);
      assert more[i] == less[i];
    }
  }

  lemma {:induction false} ShrinkMore(c: Config, objs: Objects, before: Objects, after: Objects, host: SubKey,
      units: seq<Unit>,
      f: DeleteFaults)
    requires units != [] && Shrunk(c, objs, before, host, units[..|units| - 1])
    requires after == DeleteUnit(c.rest, before, host, units[|units| - 1], f).0
    ensures Shrunk(c, objs, after, host, units)
  {
    var n := |units| - 1;
    forall k | k in objs && k !in after
      ensures Tracks(c, units, k) && HostedByGroup(objs[k], host) && !Kept(objs[k])
    {
      if k in before {
        assert KeyOf(c.rest, units[n]) == Some(k);
      } else {
        var i :| 0 <= i < n && KeyOf(c.rest, units[..n][i]) == Some(k);
        assert units[i] == units[..n][i];
      }
    }
  }

  lemma {:induction false} OrphansAreTheUnlisted(stored: seq<Unit>, units: seq<Unit>)
    ensures forall u :: u in Orphans(stored, units) <==> u in stored && !Listed(u, units)
    decreases |stored|
  {
    if stored != [] {
      OrphansAreTheUnlisted(stored[..|stored| - 1], units);
      assert stored == stored[..|stored| - 1] + [stored[|stored| - 1]];
    }
  }

  // ----- one APPLY round

  lemma {:induction false} TrimIsGroup(c: Config, sub: SubKey)
    ensures StatusKey(c, sub) == sub || Twin(StatusKey(c, sub)) == sub
  {
    var n := sub.name;
    if SharesStatus(c) && TrimLocal(n) != n {
      assert n == n[..|n| - 6] + n[|n| - 6..];
    }
  }

  /** All lookups fail with "not found" only. */
  ghost predicate Reliable(faults: nat -> DeleteFaults) {
    forall i: nat :: !faults(i).lookup
  }

  /** Tracking survives an APPLY round, for the subscription and for a twin that shares its status. */
  lemma {:induction false} ApplyKeepsTracking(c: Config, st: State, sub: SubKey, isAdmin: bool, rs: seq<Resource>,
                           faults: nat -> DeleteFaults, other: SubKey)
    requires GoodRest(c) && ValidSub(sub) && Reliable(faults)
    requires StatusKey(c, other) == StatusKey(c, sub) && Tracked(c, st, other)
    ensures Tracked(c, ApplyRound(c, st, sub, isAdmin, rs, faults, false, false), other)
  {
    var after, key := ApplyRound(c, st, sub, isAdmin, rs, faults, false, false), StatusKey(c, sub);
    var (applied, units) := ApplyAll(c, st.objects, sub, isAdmin, rs);
    ApplyTracks(c, st.objects, sub, isAdmin, rs);
    TrimIsGroup(c, other);
    if key in st.statuses {
      var orphans := Orphans(st.statuses[key], units);
      var (deleted, failed) := DeleteAll(c, applied, key, orphans, faults);
      DeleteSpares(c, applied, key, orphans, faults);
      OrphansAreTheUnlisted(st.statuses[key], units);
      forall k | k in deleted && NeedsTracking(deleted[k], other) ensures Tracks(c, units + failed, k) {
        TracksOfMore(c, units, failed, k);
        if !Tracks(c, units, k) {
          StillListed(c, st.statuses[key], units, orphans, failed, deleted, key, faults, k);
        }
      }
    }
  }

  lemma {:induction false} StillListed(c: Config, stored: seq<Unit>, units: seq<Unit>, orphans: seq<Unit>,
      failed: seq<Unit>, deleted: Objects, key: SubKey, faults: nat -> DeleteFaults, k: Key)
    requires k in deleted && HostedByGroup(deleted[k], key) && !Kept(deleted[k]) && Tracks(c, stored, k)
    requires forall u :: u in orphans <==> u in stored && !Listed(u, units)
    requires forall i: nat :: !faults(i).lookup
    requires forall i | 0 <= i < |orphans| :: Spared(c, deleted, key, orphans[i], faults(i).lookup, failed)
    ensures Tracks(c, units + failed, k)
  {
    var i :| 0 <= i < |stored| && KeyOf(c.rest, stored[i]) == Some(k);
    var u := stored[i];
    assert u in stored;
    if Listed(u, units) {
      var j :| 0 <= j < |units| && SameUnit(u, units[j]);
      assert (units + failed)[j] == units[j] && KeyOf(c.rest, units[j]) == Some(k);
    } else {
      assert u in orphans;
      var l :| 0 <= l < |orphans| && orphans[l] == u;
      assert Spared(c, deleted, key, orphans[l], faults(l).lookup, failed);
      var j :| 0 <= j < |failed| && SameUnit(u, failed[j]);
      assert (units + failed)[|units| + j] == failed[j] && KeyOf(c.rest, failed[j]) == Some(k);
    }
  }

  /** What happens to a unit of the old list: listed again, its object gone or deliberately kept, or it named none. */
  ghost predicate AccountedFor(c: Config, st: State, key: SubKey, u: Unit)
    requires key in st.statuses
  {
    Listed(u, st.statuses[key]) || BadApiVersion(u.apiVersion) ||
    (KeyOf(c.rest, u).Some? &&
     var k := KeyOf(c.rest, u).value;
     k !in st.objects || Kept(st.objects[k]) || !HostedByGroup(st.objects[k], key))
  }

  /** The unit is dropped, and looking its object up fails with another error than "not found". */
  ghost predicate LookupFails(orphans: seq<Unit>, faults: nat -> DeleteFaults, u: Unit) {
    exists i: nat :: i < |orphans| && orphans[i] == u && faults(i).lookup
  }

  lemma {:induction false} DroppedUnitsAreAccountedFor(c: Config, st: State, sub: SubKey, isAdmin: bool,
      rs: seq<Resource>, faults: nat -> DeleteFaults, u: Unit)
    requires StatusKey(c, sub) in st.statuses && u in st.statuses[StatusKey(c, sub)]
    ensures AccountedFor(c, ApplyRound(c, st, sub, isAdmin, rs, faults, false, false), StatusKey(c, sub), u) ||
            LookupFails(Orphans(st.statuses[StatusKey(c, sub)], ApplyAll(c, st.objects, sub, isAdmin, rs).1), faults, u)
  {
    var key := StatusKey(c, sub);
    var (applied, units) := ApplyAll(c, st.objects, sub, isAdmin, rs);
    var orphans := Orphans(st.statuses[key], units);
    var (deleted, failed) := DeleteAll(c, applied, key, orphans, faults);
    DeleteSpares(c, applied, key, orphans, faults);
    OrphansAreTheUnlisted(st.statuses[key], units);
    ListedMore(u, units, units + failed);
    if !Listed(u, units) {
      assert u in orphans;
      var l :| 0 <= l < |orphans| && orphans[l] == u;
      assert Spared(c, deleted, key, orphans[l], faults(l).lookup, failed);
      if KeyOf(c.rest, u).None? && !BadApiVersion(u.apiVersion) {
        UnknownIsRelisted(c, applied, key, orphans, faults, l);
      }
      ListedAfter(u, units, failed);
    }
  }

  lemma {:induction false} ListedAfter(u: Unit, units: seq<Unit>, failed: seq<Unit>)
    ensures Listed(u, failed) ==> Listed(u, units + failed)
  {
    if Listed(u, failed) {
      var j :| 0 <= j < |failed| && SameUnit(u, failed[j]);
      assert (units + failed)[|units| + j] == failed[j];
    }
  }

  /** A unit of a kind that the mapper no longer knows stays listed as failed. */
  lemma {:induction false} UnknownIsRelisted(c: Config, objs: Objects, host: SubKey, units: seq<Unit>,
                                             faults: nat -> DeleteFaults, i: nat)
    requires i < |units| && KeyOf(c.rest, units[i]).None? && !BadApiVersion(units[i].apiVersion)
    ensures Listed(units[i], DeleteAll(c, objs, host, units, faults).1)
    decreases |units|
  {
    var n := |units| - 1;
    var failed, more := DeleteAll(c, objs, host, units[..n], faults).1, DeleteAll(c, objs, host, units, faults).1;
    if i < n {
      UnknownIsRelisted(c, objs, host, units[..n], faults, i);
      ListedMore(units[i], failed, more);
    } else {
      assert SameUnit(units[n], more[|failed|]);
    }
  }

  /** A dropped unit names this object. */
  ghost predicate Dropped(c: Config, stored: seq<Unit>, units: seq<Unit>, k: Key) {
    exists i :: 0 <= i < |stored| && KeyOf(c.rest, stored[i]) == Some(k) && !Listed(stored[i], units)
  }

  /**
   What the orphan pass removes, exactly.  In particular an object of the new list
   goes if and only if a dropped unit, under another apiVersion, names it too.
   */
  lemma {:induction false} OrphansGoExactly(c: Config, st: State, sub: SubKey, isAdmin: bool, rs: seq<Resource>,
                         faults: nat -> DeleteFaults, k: Key)
    requires Reliable(faults) && (forall i: nat :: !faults(i).delete)
    requires StatusKey(c, sub) in st.statuses
    ensures var (applied, units) := ApplyAll(c, st.objects, sub, isAdmin, rs);
            k in applied ==>
              (k !in ApplyRound(c, st, sub, isAdmin, rs, faults, false, false).objects <==>
               Dropped(c, st.statuses[StatusKey(c, sub)], units, k) && !Kept(applied[k]) &&
               HostedByGroup(applied[k], StatusKey(c, sub)))
  {
    var key := StatusKey(c, sub);
    var stored := st.statuses[key];
    var (applied, units) := ApplyAll(c, st.objects, sub, isAdmin, rs);
    var orphans := Orphans(stored, units);
    OrphansAreTheUnlisted(stored, units);
    DroppedIsHit(c, stored, units, orphans, faults, k);
    if k in applied {
      GoneExactly(c, applied, key, orphans, faults, k);
    }
  }

  lemma {:induction false} DroppedIsHit(c: Config, stored: seq<Unit>, units: seq<Unit>, orphans: seq<Unit>,
                     faults: nat -> DeleteFaults, k: Key)
    requires forall i: nat :: !faults(i).lookup && !faults(i).delete
    requires forall u :: u in orphans <==> u in stored && !Listed(u, units)
    ensures (exists i: nat :: Hits(c, orphans, faults, k, i)) <==> Dropped(c, stored, units, k)
  {
    if i: nat :| Hits(c, orphans, faults, k, i) {
      var u := orphans[i];
      assert u in orphans;
      var j :| 0 <= j < |stored| && stored[j] == u;
    }
    if Dropped(c, stored, units, k) {
      var j :| 0 <= j < |stored| && KeyOf(c.rest, stored[j]) == Some(k) && !Listed(stored[j], units);
      var u := stored[j];
      assert u in stored && u in orphans;
      var l :| 0 <= l < |orphans| && orphans[l] == u;
      assert Hits(c, orphans, faults, k, l);
    }
  }

  /** The batch holds one manifest, deployed before under another apiVersion of the same kind. */
  ghost predicate MovesApiVersion(c: Config, st: State, sub: SubKey, t: Template, v: string) {
    StatusKey(c, sub) == sub && ValidSub(sub) && GoodRest(c) && v != t.apiVersion && t.kind != "" &&
    (v, t.kind) in c.rest && (t.apiVersion, t.kind) in c.rest &&
    c.rest[(v, t.kind)] == c.rest[(t.apiVersion, t.kind)] && c.rest[(v, t.kind)].namespaced &&
    Anno(t.annotations, Hosting) == "" && Anno(t.annotations, DoNotDelete) == "" &&
    var o := Override(sub, t);
    var key := TemplateKey(c.rest[(v, t.kind)], o);
    key in st.objects && IsObjectOwnedByHost(st.objects[key], sub) && !Kept(st.objects[key]) &&
    sub in st.statuses && st.statuses[sub] == [Unit(v, t.kind, o.ns, o.name, Deployed)]
  }

  /**
   A manifest that only moves from one apiVersion of a kind to another makes the round
   delete the object that it has just updated and that it reports as deployed.
   */
  lemma {:induction false} NewApiVersionDeletesTheObject(c: Config, st: State, sub: SubKey, t: Template, v: string,
      faults: nat -> DeleteFaults)
    requires MovesApiVersion(c, st, sub, t, v)
    requires forall i: nat :: !faults(i).lookup && !faults(i).delete
    ensures var r := Resource(t, ApplyFaults(false, false, false, false, false, false, false, Written));
            var after := ApplyRound(c, st, sub, false, [r], faults, false, false);
            var o := Override(sub, t);
            TemplateKey(c.rest[(v, t.kind)], o) !in after.objects && sub in after.statuses &&
            Unit(t.apiVersion, t.kind, o.ns, o.name, Deployed) in after.statuses[sub]
  {
    var r := Resource(t, ApplyFaults(false, false, false, false, false, false, false, Written));
    var o, m := Override(sub, t), c.rest[(v, t.kind)];
    var key, orig := TemplateKey(m, o), st.objects[TemplateKey(m, o)];
    HostRoundTrip(o.annotations, sub);
    var stored := st.statuses[sub];
    assert [r][..0] == [] && ApplyAll(c, st.objects, sub, false, [r][..0]) == (st.objects, []);
    var (applied, units) := ApplyAll(c, st.objects, sub, false, [r]);
    UpdatedIsDeletable(orig, m, o, sub);
    assert units == [Unit(t.apiVersion, t.kind, o.ns, o.name, Deployed)];
    assert KeyOf(c.rest, stored[0]) == Some(key) && !SameUnit(stored[0], units[0]);
    assert Dropped(c, stored, units, key);
    OrphansGoExactly(c, st, sub, false, [r], faults, key);
    assert units[0] in units;
  }

  lemma {:induction false} UpdatedIsDeletable(orig: Obj, m: Mapping, o: Template, sub: SubKey)
    requires IsObjectOwnedByHost(orig, sub) && !Kept(orig) && HostOf(o.annotations) == Some(sub)
    requires Anno(o.annotations, Hosting) == HostString(sub) && Anno(o.annotations, DoNotDelete) == ""
    ensures var (obj, ok) := UpdateExisting(orig, m, o, Written);
            ok && Host(obj) == HostString(sub) && !Kept(obj)
  {
  }

  /** The unit names the object, and no call for it fails. */
  ghost predicate Hits(c: Config, units: seq<Unit>, faults: nat -> DeleteFaults, k: Key, i: nat) {
    i < |units| && KeyOf(c.rest, units[i]) == Some(k) && !faults(i).lookup && !faults(i).delete
  }

  /** Deleting the units with this host takes the object away. */
  ghost predicate Removes(c: Config, objs: Objects, host: SubKey, units: seq<Unit>, faults: nat -> DeleteFaults, k: Key)
    requires k in objs
  {
    HostedByGroup(objs[k], host) && !Kept(objs[k]) && exists i: nat :: Hits(c, units, faults, k, i)
  }

  /** An object goes if and only if its host and annotations allow it and some unit naming it meets no error. */
  lemma {:induction false} GoneExactly(c: Config, objs: Objects, host: SubKey, units: seq<Unit>,
                                       faults: nat -> DeleteFaults, k: Key)
    requires k in objs
    ensures k !in DeleteAll(c, objs, host, units, faults).0 <==> Removes(c, objs, host, units, faults, k)
    decreases |units|
  {
    if units != [] {
      var n := |units| - 1;
      var less := units[..n];
      GoneExactly(c, objs, host, less, faults, k);
      DeleteShrinks(c, objs, host, less, faults);
      HitsOfMore(c, less, units, faults, k);
      var before := DeleteAll(c, objs, host, less, faults).0;
      LastGone(c, before, host, units[n], faults(n), k);
      assert Hits(c, units, faults, k, n) <==>
             KeyOf(c.rest, units[n]) == Some(k) && !faults(n).lookup && !faults(n).delete;
    }
  }

  lemma {:induction false} LastGone(c: Config, before: Objects, host: SubKey, u: Unit, f: DeleteFaults, k: Key)
    ensures k !in DeleteUnit(c.rest, before, host, u, f).0 <==>
            k !in before ||
            (KeyOf(c.rest, u) == Some(k) && !f.lookup && !f.delete && HostedByGroup(before[k], host) &&
              !Kept(before[k]))
  {
  }

  lemma {:induction false} HitsOfMore(c: Config, less: seq<Unit>, units: seq<Unit>, faults: nat -> DeleteFaults, k: Key)
    requires units != [] && less == units[..|units| - 1]
    ensures (exists i: nat :: Hits(c, units, faults, k, i)) <==>
            (exists i: nat :: Hits(c, less, faults, k, i)) || Hits(c, units, faults, k, |units| - 1)
  {
    assert forall i: nat | i < |less| :: less[i] == units[i];
    if i: nat :| Hits(c, units, faults, k, i) && i < |less| {
      assert Hits(c, less, faults, k, i);
    }
    if i: nat :| Hits(c, less, faults, k, i) {
      assert Hits(c, units, faults, k, i);
    }
  }

  // ----- what a delete phase lists as failed

  /** The unit names the object, and its lookup goes through. */
  ghost predicate LooksUp(c: Config, units: seq<Unit>, faults: nat -> DeleteFaults, k: Key, i: nat) {
    i < |units| && KeyOf(c.rest, units[i]) == Some(k) && !faults(i).lookup
  }

  lemma {:induction false} LooksUpOfMore(c: Config, less: seq<Unit>, units: seq<Unit>, faults: nat -> DeleteFaults,
      k: Key)
    requires units != [] && less == units[..|units| - 1]
    ensures (exists i: nat :: LooksUp(c, units, faults, k, i)) <==>
            (exists i: nat :: LooksUp(c, less, faults, k, i)) || LooksUp(c, units, faults, k, |units| - 1)
  {
    assert forall i: nat | i < |less| :: less[i] == units[i];
    if i: nat :| LooksUp(c, units, faults, k, i) && i < |less| {
      assert LooksUp(c, less, faults, k, i);
    }
    if i: nat :| LooksUp(c, less, faults, k, i) {
      assert LooksUp(c, units, faults, k, i);
    }
  }

  lemma {:induction false} TracksOfMore(c: Config, units: seq<Unit>, more: seq<Unit>, k: Key)
    ensures Tracks(c, units + more, k) <==> Tracks(c, units, k) || Tracks(c, more, k)
  {
    var both := units + more;
    if i :| 0 <= i < |both| && KeyOf(c.rest, both[i]) == Some(k) {
      assert i < |units| ==> both[i] == units[i];
      assert i >= |units| ==> both[i] == more[i - |units|];
    }
    if i :| 0 <= i < |units| && KeyOf(c.rest, units[i]) == Some(k) {
      assert both[i] == units[i];
    }
    if i :| 0 <= i < |more| && KeyOf(c.rest, more[i]) == Some(k) {
      assert both[|units| + i] == more[i];
    }
  }

  /** A deletable object that stays is listed as failed if and only if some unit naming it was looked up. */
  lemma {:induction false} RelistedExactly(c: Config, objs: Objects, host: SubKey, units: seq<Unit>,
                                           faults: nat -> DeleteFaults, k: Key)
    requires k in DeleteAll(c, objs, host, units, faults).0
    requires k in objs && HostedByGroup(objs[k], host) && !Kept(objs[k])
    ensures Tracks(c, DeleteAll(c, objs, host, units, faults).1, k) <==>
            exists i: nat :: LooksUp(c, units, faults, k, i)
    decreases |units|
  {
    if units != [] {
      var n := |units| - 1;
      var less, u := units[..n], units[n];
      var (before, failed) := DeleteAll(c, objs, host, less, faults);
      DeleteShrinks(c, objs, host, less, faults);
      RelistedExactly(c, objs, host, less, faults, k);
      LooksUpOfMore(c, less, units, faults, k);
      var ok := DeleteUnit(c.rest, before, host, u, faults(n)).1;
      var relisted := if ok then [] else [u.(phase := DeployFailed)];
      TracksOfMore(c, failed, relisted, k);
      assert DeleteAll(c, objs, host, units, faults).1 == failed + relisted;
      LastRelisted(c, before, host, u, faults(n), k);
    }
  }

  lemma {:induction false} LastRelisted(c: Config, before: Objects, host: SubKey, u: Unit, f: DeleteFaults, k: Key)
    requires k in before && HostedByGroup(before[k], host) && !Kept(before[k])
    requires k in DeleteUnit(c.rest, before, host, u, f).0
    ensures var relisted := if DeleteUnit(c.rest, before, host, u, f).1 then [] else [u.(phase := DeployFailed)];
            Tracks(c, relisted, k) <==> KeyOf(c.rest, u) == Some(k) && !f.lookup
  {
    var relisted := if DeleteUnit(c.rest, before, host, u, f).1 then [] else [u.(phase := DeployFailed)];
    assert KeyOf(c.rest, u.(phase := DeployFailed)) == KeyOf(c.rest, u);
    if KeyOf(c.rest, u) == Some(k) && !f.lookup {
      assert KeyOf(c.rest, relisted[0]) == Some(k);
    }
  }

  /**
   Deleting the unit reports an error: its apiVersion or kind cannot be resolved (a
   unit that failed to deploy is excused the former), or the deletion of its object,
   still there after the units before, fails.
   */
  ghost predicate Errs(c: Config, objs: Objects, host: SubKey, units: seq<Unit>, faults: nat -> DeleteFaults, i: nat) {
    i < |units| &&
    var u := units[i];
    if BadApiVersion(u.apiVersion) then !u.phase.DeployFailed?
    else if KeyOf(c.rest, u).None? then true
    else
      var k := KeyOf(c.rest, u).value;
      !faults(i).lookup && faults(i).delete && k in objs && HostedByGroup(objs[k], host) && !Kept(objs[k]) &&
      forall j: nat | j < i :: !Hits(c, units, faults, k, j)
  }

  /** Some deletion fails if and only if a unit errs. */
  lemma {:induction false} FailsExactly(c: Config, objs: Objects, host: SubKey, units: seq<Unit>,
      faults: nat -> DeleteFaults)
    ensures DeleteAll(c, objs, host, units, faults).1 != [] <==> exists i: nat :: Errs(c, objs, host, units, faults, i)
    decreases |units|
  {
    if units != [] {
      var n := |units| - 1;
      var less := units[..n];
      FailsExactly(c, objs, host, less, faults);
      forall i: nat | i < n
        ensures Errs(c, objs, host, less, faults, i) <==> Errs(c, objs, host, units, faults, i)
      {
        assert less[i] == units[i];
        assert forall j: nat, k | j < i :: Hits(c, less, faults, k, j) <==> Hits(c, units, faults, k, j);
      }
      LastErrs(c, objs, host, units, faults);
    }
  }

  lemma {:induction false} LastErrs(c: Config, objs: Objects, host: SubKey, units: seq<Unit>,
      faults: nat -> DeleteFaults)
    requires units != []
    ensures var n: nat := |units| - 1;
            var before := DeleteAll(c, objs, host, units[..n], faults).0;
            !DeleteUnit(c.rest, before, host, units[n], faults(n)).1 <==> Errs(c, objs, host, units, faults, n)
  {
    var n: nat := |units| - 1;
    var less, u := units[..n], units[n];
    DeleteShrinks(c, objs, host, less, faults);
    if !BadApiVersion(u.apiVersion) && KeyOf(c.rest, u).Some? {
      var k := KeyOf(c.rest, u).value;
      assert forall j: nat | j < n :: Hits(c, less, faults, k, j) <==> Hits(c, units, faults, k, j);
      if k in objs {
        GoneExactly(c, objs, host, less, faults, k);
      }
    }
  }
}
