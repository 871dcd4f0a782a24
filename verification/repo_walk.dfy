/**
 Sorting the files of a cloned repository (SortResources, pkg/utils/gitrepo.go).  A
 walk in preorder remembers one current chart directory and one current kustomize
 directory; that is enough to record exactly the topmost ones.
 */
module RepoWalk {
  import opened Text

  /** What sortKubeResource makes of a file; Nothing: no YAML, or no Kubernetes resource in it. */
  datatype Content = Unreadable | Nothing | CrdOrNamespace | Rbac | Plain

  datatype Node = File(content: Content) | Dir(entries: seq<Entry>)
  datatype Entry = Entry(name: string, node: Node)

  /** Names within a directory are distinct, not empty and without a slash. */
  ghost predicate WellFormed(n: Node) {
    n.Dir? ==>
      (forall i | 0 <= i < |n.entries| :: ValidName(n.entries[i].name) && WellFormed(n.entries[i].node)) &&
      (forall i, j | 0 <= i < j < |n.entries| :: n.entries[i].name != n.entries[j].name)
  }

  predicate ValidName(s: string) {
    s != "" && '/' !in s
  }

  predicate HasEntry(n: Node, name: string) {
    n.Dir? && exists i :: 0 <= i < |n.entries| && n.entries[i].name == name
  }

  /** One call of the walk's callback. */
  datatype Visit = Visit(path: string, node: Node)

  function Visits(n: Node, path: string): seq<Visit>
    decreases n
  {
    [Visit(path, n)] + if n.Dir? then VisitsOf(n.entries, path) else []
  }

  function VisitsOf(entries: seq<Entry>, path: string): seq<Visit>
    decreases entries
  {
    if entries == [] then []
    else
      var last := entries[|entries| - 1];
      VisitsOf(entries[..|entries| - 1], path) + Visits(last.node, path + "/" + last.name)
  }

  predicate HasPrefix(s: string, prefix: string) {
    prefix <= s
  }

  /** v lies beneath the directory u. */
  predicate Under(v: Visit, u: Visit) {
    HasPrefix(v.path, u.path + "/")
  }

  datatype Kind = Chart | Kustomize

  /** The settings of a walk: which paths are ignored, and the repository root. */
  datatype Setting = Setting(ignored: string -> bool, repoRoot: string)

  /** A directory that counts as a chart, or else as a kustomization. */
  predicate IsMark(w: Setting, kind: Kind, v: Visit) {
    v.node.Dir? && !w.ignored(v.path) &&
    if kind.Chart? then HasEntry(v.node, "Chart.yaml")
    else
      !HasEntry(v.node, "Chart.yaml") &&
      (HasEntry(v.node, "kustomization.yaml") || HasEntry(v.node, "kustomization.yml"))
  }

  // ----- the callback

  datatype Sorted = Sorted(chartDirs: set<string>, kustomizeDirs: set<string>,
                           currentChartDir: string, currentKustomizeDir: string,
                           crds: seq<string>, rbac: seq<string>, others: seq<string>, failed: bool)

  const START := Sorted({}, {}, "NONE", "NONE", [], [], [], false)

  function Dirs(s: Sorted, kind: Kind): set<string> {
    if kind.Chart? then s.chartDirs else s.kustomizeDirs
  }

  function Current(s: Sorted, kind: Kind): string {
    if kind.Chart? then s.currentChartDir else s.currentKustomizeDir
  }

  function Record(s: Sorted, kind: Kind, path: string): Sorted {
    if HasPrefix(path, Current(s, kind)) then s
    else if kind.Chart? then s.(chartDirs := s.chartDirs + {path + "/"}, currentChartDir := path + "/")
    else s.(kustomizeDirs := s.kustomizeDirs + {path + "/"}, currentKustomizeDir := path + "/")
  }

  function SortKubeResource(s: Sorted, path: string, content: Content): Sorted {
    match content
    case Unreadable => s.(failed := true)
    case Nothing => s
    case CrdOrNamespace => s.(crds := s.crds + [path])
    case Rbac => s.(rbac := s.rbac + [path])
    case Plain => s.(others := s.others + [path])
  }

  function Callback(w: Setting, s: Sorted, v: Visit): Sorted {
    if s.failed || w.ignored(v.path) then s
    else if v.node.Dir? then
      if IsMark(w, Chart, v) then Record(s, Chart, v.path)
      else if IsMark(w, Kustomize, v) then Record(s, Kustomize, v.path)
      else s
    else if !HasPrefix(v.path, s.currentChartDir) && !HasPrefix(v.path, w.repoRoot + "/.git") &&
            !HasPrefix(v.path, s.currentKustomizeDir)
    then SortKubeResource(s, v.path, v.node.content)
    else s
  }

  function Fold(w: Setting, s: Sorted, vs: seq<Visit>): Sorted
    decreases |vs|
  {
    if vs == [] then s else Callback(w, Fold(w, s, vs[..|vs| - 1]), vs[|vs| - 1])
  }

  // ----- what the result should be

  /** A mark with no mark of its kind above it. */
  ghost predicate Topmost(w: Setting, kind: Kind, vs: seq<Visit>, v: Visit) {
    IsMark(w, kind, v) && forall u | u in vs && IsMark(w, kind, u) :: !Under(v, u)
  }

  /** A file that is neither ignored, nor under .git, nor beneath a chart or a kustomization. */
  ghost predicate Handed(w: Setting, vs: seq<Visit>, v: Visit) {
    v.node.File? && !w.ignored(v.path) && !HasPrefix(v.path, w.repoRoot + "/.git") &&
    forall u, kind | u in vs && IsMark(w, kind, u) :: !Under(v, u)
  }

  ghost function HandedPaths(w: Setting, vs: seq<Visit>, done: seq<Visit>, content: Content): seq<string>
    decreases |done|
  {
    if done == [] then []
    else
      var v := done[|done| - 1];
      HandedPaths(w, vs, done[..|done| - 1], content) +
      if Handed(w, vs, v) && v.node.content == content then [v.path] else []
  }

  /** Every directory's subtree follows it directly, and nothing lies beneath what comes later. */
  ghost predicate Preorder(vs: seq<Visit>) {
    (forall i, j | 0 <= i < |vs| && 0 <= j < |vs| && Under(vs[j], vs[i]) :: i < j) &&
    (forall i, j, k | 0 <= i < j < k < |vs| && Under(vs[k], vs[i]) :: Under(vs[j], vs[i]))
  }

  lemma {:induction false} UnderTrans(a: Visit, b: Visit, c: Visit)
    requires Under(a, b) && Under(b, c)
    ensures Under(a, c)
  {
  }

  /** Below some mark means below a topmost mark. */
  lemma {:induction false} TopmostAbove(w: Setting, kind: Kind, vs: seq<Visit>, v: Visit, i: nat) returns (t: nat)
    requires Preorder(vs) && i < |vs| && IsMark(w, kind, vs[i]) && Under(v, vs[i])
    ensures t <= i && Topmost(w, kind, vs, vs[t]) && Under(v, vs[t])
    decreases i
  {
    if u :| u in vs && IsMark(w, kind, u) && Under(vs[i], u) {
      var j :| 0 <= j < |vs| && vs[j] == u;
      UnderTrans(v, vs[i], u);
      t := TopmostAbove(w, kind, vs, v, j);
    } else {
      t := i;
    }
  }

  /** Up to visit n the directories recorded of one kind are the topmost ones. */
  ghost predicate DirsUpTo(w: Setting, kind: Kind, vs: seq<Visit>, n: nat, s: Sorted)
    requires n <= |vs|
  {
    forall d :: d in Dirs(s, kind) <==> IsTopDir(w, kind, vs, n, d)
  }

  ghost predicate IsTopDir(w: Setting, kind: Kind, vs: seq<Visit>, n: nat, d: string)
    requires n <= |vs|
  {
    exists i :: 0 <= i < n && Topmost(w, kind, vs, vs[i]) && d == vs[i].path + "/"
  }

  /** The current directory of one kind is the last recorded one. */
  ghost predicate CurrentUpTo(w: Setting, kind: Kind, vs: seq<Visit>, n: nat, s: Sorted)
    requires n <= |vs|
  {
    (Current(s, kind) == "NONE" && forall i | 0 <= i < n :: !Topmost(w, kind, vs, vs[i])) ||
    exists c :: IsLast(w, kind, vs, n, c) && Current(s, kind) == vs[c].path + "/"
  }

  ghost predicate IsLast(w: Setting, kind: Kind, vs: seq<Visit>, n: nat, c: int)
    requires n <= |vs|
  {
    0 <= c < n && Topmost(w, kind, vs, vs[c]) && forall i | c < i < n :: !Topmost(w, kind, vs, vs[i])
  }

  /** No visited path starts like the initial value. */
  ghost predicate Rooted(vs: seq<Visit>) {
    forall i | 0 <= i < |vs| :: |vs[i].path| > 0 && vs[i].path[0] == '/'
  }

  ghost predicate BelowMark(w: Setting, kind: Kind, vs: seq<Visit>, v: Visit) {
    exists u :: u in vs && IsMark(w, kind, u) && Under(v, u)
  }

  /** The one remembered directory answers the question about all marks. */
  lemma {:induction false} CurrentSuffices(w: Setting, kind: Kind, vs: seq<Visit>, n: nat, s: Sorted)
    requires Preorder(vs) && Rooted(vs) && n < |vs| && CurrentUpTo(w, kind, vs, n, s)
    ensures HasPrefix(vs[n].path, Current(s, kind)) <==> BelowMark(w, kind, vs, vs[n])
  {
    if BelowMark(w, kind, vs, vs[n]) {
      BelowTheLast(w, kind, vs, n, s);
    } else if Current(s, kind) == "NONE" {
      assert vs[n].path[0] == '/' && "NONE"[0] == 'N';
    } else {
      var c :| IsLast(w, kind, vs, n, c) && Current(s, kind) == vs[c].path + "/";
      assert vs[c] in vs;
    }
  }

  lemma {:induction false} BelowTheLast(w: Setting, kind: Kind, vs: seq<Visit>, n: nat, s: Sorted)
    requires Preorder(vs) && n < |vs| && CurrentUpTo(w, kind, vs, n, s) && BelowMark(w, kind, vs, vs[n])
    ensures HasPrefix(vs[n].path, Current(s, kind))
  {
    var u :| u in vs && IsMark(w, kind, u) && Under(vs[n], u);
    var i :| 0 <= i < |vs| && vs[i] == u;
    var t := TopmostAbove(w, kind, vs, vs[n], i);
    VisitedBefore(vs, t, n);
    var c := CurrentIsLast(w, kind, vs, n, s, t);
    TopmostAreApart(w, kind, vs, t, c, n);
  }

  lemma {:induction false} VisitedBefore(vs: seq<Visit>, t: nat, n: nat)
    requires Preorder(vs) && t < |vs| && n < |vs| && Under(vs[n], vs[t])
    ensures t < n
  {
  }

  lemma {:induction false} CurrentIsLast(w: Setting, kind: Kind, vs: seq<Visit>, n: nat, s: Sorted,
      t: nat)
    returns (c: int)
    requires t < n <= |vs| && CurrentUpTo(w, kind, vs, n, s) && Topmost(w, kind, vs, vs[t])
    ensures IsLast(w, kind, vs, n, c) && Current(s, kind) == vs[c].path + "/"
  {
    c :| IsLast(w, kind, vs, n, c) && Current(s, kind) == vs[c].path + "/";
  }

  lemma {:induction false} TopmostAreApart(w: Setting, kind: Kind, vs: seq<Visit>, t: nat, c: nat, n: nat)
    requires Preorder(vs) && t < n < |vs| && IsLast(w, kind, vs, n, c)
    requires Topmost(w, kind, vs, vs[t]) && Under(vs[n], vs[t])
    ensures t == c
  {
    assert t <= c;
    assert vs[t] in vs && !Under(vs[c], vs[t]);
  }

  // ----- the fold over the visits

  ghost predicate SomeUnreadable(w: Setting, vs: seq<Visit>, n: nat)
    requires n <= |vs|
  {
    exists i :: 0 <= i < n && Handed(w, vs, vs[i]) && vs[i].node.content.Unreadable?
  }

  ghost predicate ListsUpTo(w: Setting, vs: seq<Visit>, n: nat, s: Sorted)
    requires n <= |vs|
  {
    s.crds == HandedPaths(w, vs, vs[..n], CrdOrNamespace) &&
    s.rbac == HandedPaths(w, vs, vs[..n], Rbac) &&
    s.others == HandedPaths(w, vs, vs[..n], Plain)
  }

  ghost predicate RightUpTo(w: Setting, vs: seq<Visit>, n: nat, s: Sorted)
    requires n <= |vs|
  {
    (s.failed <==> SomeUnreadable(w, vs, n)) &&
    (!s.failed ==> DirsUpTo(w, Chart, vs, n, s) && DirsUpTo(w, Kustomize, vs, n, s) &&
                   CurrentUpTo(w, Chart, vs, n, s) && CurrentUpTo(w, Kustomize, vs, n, s) && ListsUpTo(w, vs, n, s))
  }

  lemma {:induction false} TopmostIfNotBelow(w: Setting, kind: Kind, vs: seq<Visit>, v: Visit)
    ensures Topmost(w, kind, vs, v) <==> IsMark(w, kind, v) && !BelowMark(w, kind, vs, v)
  {
  }

  lemma {:induction false} HandedIfNotBelow(w: Setting, vs: seq<Visit>, v: Visit)
    ensures Handed(w, vs, v) <==>
            v.node.File? && !w.ignored(v.path) && !HasPrefix(v.path, w.repoRoot + "/.git") &&
            !BelowMark(w, Chart, vs, v) && !BelowMark(w, Kustomize, vs, v)
  {
    if !Handed(w, vs, v) && v.node.File? && !w.ignored(v.path) && !HasPrefix(v.path, w.repoRoot + "/.git") {
      var u, kind :| u in vs && IsMark(w, kind, u) && Under(v, u);
      assert BelowMark(w, kind, vs, v);
    }
  }

  /** What one visit does to the record of one kind. */
  ghost predicate Records(w: Setting, kind: Kind, vs: seq<Visit>, n: nat, s: Sorted, after: Sorted)
    requires n < |vs|
  {
    if Topmost(w, kind, vs, vs[n])
    then Dirs(after, kind) == Dirs(s, kind) + {vs[n].path + "/"} && Current(after, kind) == vs[n].path + "/"
    else Dirs(after, kind) == Dirs(s, kind) && Current(after, kind) == Current(s, kind)
  }

  lemma {:induction false} DirsStep(w: Setting, kind: Kind, vs: seq<Visit>, n: nat, s: Sorted, after: Sorted)
    requires n < |vs| && DirsUpTo(w, kind, vs, n, s) && Records(w, kind, vs, n, s, after)
    ensures DirsUpTo(w, kind, vs, n + 1, after)
  {
    forall d ensures d in Dirs(after, kind) <==> IsTopDir(w, kind, vs, n + 1, d) {
      if IsTopDir(w, kind, vs, n + 1, d) {
        var i :| 0 <= i < n + 1 && Topmost(w, kind, vs, vs[i]) && d == vs[i].path + "/";
        assert i < n ==> IsTopDir(w, kind, vs, n, d);
      }
    }
  }

  lemma {:induction false} CurrentStep(w: Setting, kind: Kind, vs: seq<Visit>, n: nat, s: Sorted, after: Sorted)
    requires n < |vs| && CurrentUpTo(w, kind, vs, n, s) && Records(w, kind, vs, n, s, after)
    ensures CurrentUpTo(w, kind, vs, n + 1, after)
  {
    if Topmost(w, kind, vs, vs[n]) {
      assert IsLast(w, kind, vs, n + 1, n);
    } else if i :| 0 <= i < n && Topmost(w, kind, vs, vs[i]) {
      var c := CurrentIsLast(w, kind, vs, n, s, i);
      assert IsLast(w, kind, vs, n + 1, c);
    }
  }

  /** The callback in terms of the two questions it asks about the current directories. */
  lemma {:induction false} CallbackEffect(w: Setting, s: Sorted, v: Visit)
    requires !s.failed
    ensures var after := Callback(w, s, v);
            (forall kind | kind in {Chart, Kustomize} ::
              if IsMark(w, kind, v) && !HasPrefix(v.path, Current(s, kind))
              then Dirs(after, kind) == Dirs(s, kind) + {v.path + "/"} && Current(after, kind) == v.path + "/"
              else Dirs(after, kind) == Dirs(s, kind) && Current(after, kind) == Current(s, kind)) &&
            if v.node.File? && !w.ignored(v.path) && !HasPrefix(v.path, w.repoRoot + "/.git") &&
               !HasPrefix(v.path, Current(s, Chart)) && !HasPrefix(v.path, Current(s, Kustomize))
            then after == SortKubeResource(s, v.path, v.node.content)
            else after.crds == s.crds && after.rbac == s.rbac && after.others == s.others && !after.failed
  {
  }

  lemma {:induction false} CallbackStep(w: Setting, vs: seq<Visit>, n: nat, s: Sorted)
    requires Preorder(vs) && Rooted(vs) && n < |vs| && RightUpTo(w, vs, n, s)
    ensures RightUpTo(w, vs, n + 1, Callback(w, s, vs[n]))
  {
    var v, after := vs[n], Callback(w, s, vs[n]);
    if s.failed {
      assert SomeUnreadable(w, vs, n + 1);
    } else {
      CallbackEffect(w, s, v);
      KindStep(w, Chart, vs, n, s);
      KindStep(w, Kustomize, vs, n, s);
      HandedIfNotBelow(w, vs, v);
      ListsStep(w, vs, n, s, after);
    }
  }

  lemma {:induction false} KindStep(w: Setting, kind: Kind, vs: seq<Visit>, n: nat, s: Sorted)
    requires Preorder(vs) && Rooted(vs) && n < |vs| && !s.failed
    requires DirsUpTo(w, kind, vs, n, s) && CurrentUpTo(w, kind, vs, n, s)
    ensures HasPrefix(vs[n].path, Current(s, kind)) <==> BelowMark(w, kind, vs, vs[n])
    ensures DirsUpTo(w, kind, vs, n + 1, Callback(w, s, vs[n])) &&
            CurrentUpTo(w, kind, vs, n + 1, Callback(w, s, vs[n]))
  {
    CallbackEffect(w, s, vs[n]);
    CurrentSuffices(w, kind, vs, n, s);
    TopmostIfNotBelow(w, kind, vs, vs[n]);
    assert kind in {Chart, Kustomize};
    DirsStep(w, kind, vs, n, s, Callback(w, s, vs[n]));
    CurrentStep(w, kind, vs, n, s, Callback(w, s, vs[n]));
  }

  lemma {:induction false} ListsStep(w: Setting, vs: seq<Visit>, n: nat, s: Sorted, after: Sorted)
    requires n < |vs| && ListsUpTo(w, vs, n, s) && !s.failed && !SomeUnreadable(w, vs, n)
    requires if Handed(w, vs, vs[n]) then after == SortKubeResource(s, vs[n].path, vs[n].node.content)
             else after.crds == s.crds && after.rbac == s.rbac && after.others == s.others && !after.failed
    ensures after.failed <==> SomeUnreadable(w, vs, n + 1)
    ensures !after.failed ==> ListsUpTo(w, vs, n + 1, after)
  {
    assert vs[..n + 1][..n] == vs[..n] && vs[..n + 1][n] == vs[n];
  }

  lemma {:induction false} FoldIsRight(w: Setting, vs: seq<Visit>, n: nat)
    requires Preorder(vs) && Rooted(vs) && n <= |vs|
    ensures RightUpTo(w, vs, n, Fold(w, START, vs[..n]))
    decreases n
  {
    if n == 0 {
      StartIsRight(w, vs);
    } else {
      FoldIsRight(w, vs, n - 1);
      FoldOneMore(w, vs, n - 1);
      CallbackStep(w, vs, n - 1, Fold(w, START, vs[..n - 1]));
    }
  }

  lemma {:induction false} StartIsRight(w: Setting, vs: seq<Visit>)
    ensures RightUpTo(w, vs, 0, Fold(w, START, vs[..0]))
  {
    assert vs[..0] == [] && Fold(w, START, []) == START;
  }

  lemma {:induction false} FoldOneMore(w: Setting, vs: seq<Visit>, n: nat)
    requires n < |vs|
    ensures Fold(w, START, vs[..n + 1]) == Callback(w, Fold(w, START, vs[..n]), vs[n])
  {
    assert vs[..n + 1][..n] == vs[..n] && vs[..n + 1][n] == vs[n];
  }

  // ----- a tree is walked in preorder

  predicate AtOrBelow(path: string, base: string) {
    path == base || HasPrefix(path, base + "/")
  }

  /** The name that follows the directory p in a path. */
  function ComponentAfter(p: string, x: string): string {
    if |x| <= |p| then "" else x[|p| + 1..][..IndexOf(x[|p| + 1..], '/')]
  }

  lemma {:induction false} NextComponent(p: string, a: string, x: string)
    requires ValidName(a) && AtOrBelow(x, p + "/" + a)
    ensures ComponentAfter(p, x) == a
  {
    var t := x[|p| + 1..];
    if x == p + "/" + a {
      assert t == a;
    } else {
      var rest := x[|p + "/" + a + "/"|..];
      assert t == a + ['/'] + rest;
      IndexOfFirst(a, '/', rest);
    }
  }

  lemma {:induction false} SiblingsApart(p: string, a: string, b: string, x: string)
    requires ValidName(a) && ValidName(b) && a != b && AtOrBelow(x, p + "/" + a)
    ensures !AtOrBelow(x, p + "/" + b)
  {
    NextComponent(p, a, x);
    if AtOrBelow(x, p + "/" + b) {
      NextComponent(p, b, x);
    }
  }

  lemma {:induction false} BelowIsBelow(x: Visit, y: Visit, base: string)
    requires Under(x, y) && AtOrBelow(y.path, base)
    ensures AtOrBelow(x.path, base)
  {
  }

  lemma {:induction false} PreorderConcat(a: seq<Visit>, b: seq<Visit>)
    requires Preorder(a) && Preorder(b)
    requires forall x, y | x in a && y in b :: !Under(x, y) && !Under(y, x)
    ensures Preorder(a + b)
  {
    var vs := a + b;
    forall i, j | 0 <= i < |vs| && 0 <= j < |vs| && Under(vs[j], vs[i]) ensures i < j {
      assert vs[i] in a || vs[i] in b;
      assert i < |a| <==> j < |a|;
    }
    forall i, j, k | 0 <= i < j < k < |vs| && Under(vs[k], vs[i]) ensures Under(vs[j], vs[i]) {
      assert i < |a| <==> k < |a|;
      if i >= |a| {
        assert Under(b[k - |a|], b[i - |a|]);
      }
    }
  }

  lemma {:induction false} PreorderCons(d: Visit, vs: seq<Visit>)
    requires Preorder(vs) && forall v | v in vs :: Under(v, d)
    ensures Preorder([d] + vs)
  {
    var all := [d] + vs;
    forall i, j | 0 <= i < |all| && 0 <= j < |all| && Under(all[j], all[i]) ensures i < j {
      LongerBelow(all[j], all[i]);
      if i > 0 {
        assert all[i] == vs[i - 1] && vs[i - 1] in vs;
        LongerBelow(all[i], d);
        assert j > 0 ==> all[j] == vs[j - 1];
      }
    }
    forall i, j, k | 0 <= i < j < k < |all| && Under(all[k], all[i]) ensures Under(all[j], all[i]) {
      assert all[j] == vs[j - 1] && all[k] == vs[k - 1] && vs[j - 1] in vs;
      if i > 0 {
        assert all[i] == vs[i - 1];
        assert Under(vs[k - 1], vs[i - 1]);
      }
    }
  }

  lemma {:induction false} LongerBelow(v: Visit, u: Visit)
    requires Under(v, u)
    ensures |v.path| > |u.path|
  {
  }

  lemma {:induction false} TreeIsPreorder(n: Node, path: string)
    requires WellFormed(n)
    ensures Preorder(Visits(n, path)) && forall v | v in Visits(n, path) :: AtOrBelow(v.path, path)
    decreases n
  {
    if n.Dir? {
      EntriesArePreorder(n.entries, path);
      PreorderCons(Visit(path, n), VisitsOf(n.entries, path));
    }
  }

  ghost predicate FromEntry(entries: seq<Entry>, path: string, v: Visit) {
    exists i :: 0 <= i < |entries| && AtOrBelow(v.path, path + "/" + entries[i].name)
  }

  lemma {:induction false} EntriesArePreorder(entries: seq<Entry>, path: string)
    requires forall i | 0 <= i < |entries| :: ValidName(entries[i].name) && WellFormed(entries[i].node)
    requires forall i, j | 0 <= i < j < |entries| :: entries[i].name != entries[j].name
    ensures Preorder(VisitsOf(entries, path))
    ensures forall v | v in VisitsOf(entries, path) :: FromEntry(entries, path, v) && HasPrefix(v.path, path + "/")
    decreases entries
  {
    if entries != [] {
      var n := |entries| - 1;
      var less, last := entries[..n], entries[n];
      var base := path + "/" + last.name;
      EntriesArePreorder(less, path);
      TreeIsPreorder(last.node, base);
      var a, b := VisitsOf(less, path), Visits(last.node, base);
      forall x, y | x in a && y in b ensures !Under(x, y) && !Under(y, x) {
        var i :| 0 <= i < n && AtOrBelow(x.path, path + "/" + less[i].name);
        SiblingsApart(path, less[i].name, last.name, x.path);
        SiblingsApart(path, last.name, less[i].name, y.path);
        if Under(x, y) {
          BelowIsBelow(x, y, base);
        }
        if Under(y, x) {
          BelowIsBelow(y, x, path + "/" + less[i].name);
        }
      }
      PreorderConcat(a, b);
      forall v | v in a ensures FromEntry(entries, path, v) {
        var i :| 0 <= i < n && AtOrBelow(v.path, path + "/" + less[i].name);
        assert entries[i] == less[i];
      }
    }
  }

  // ----- the result on every tree

  /**
   For every tree: the walk fails exactly when a file handed to classification cannot
   be read; otherwise the recorded directories are the topmost charts and
   kustomizations, and the lists hold the handed files, in order.
   */
  lemma {:induction false} WalkIsDeclarative(w: Setting, tree: Node, root: string)
    requires WellFormed(tree) && root != "" && root[0] == '/'
    ensures Declared(w, Visits(tree, root), Fold(w, START, Visits(tree, root)))
  {
    var vs := Visits(tree, root);
    TreeIsPreorder(tree, root);
    TreeIsRooted(vs, root);
    FoldIsRight(w, vs, |vs|);
    assert vs[..|vs|] == vs;
    RightIsDeclared(w, vs, Fold(w, START, vs));
  }

  ghost predicate Declared(w: Setting, vs: seq<Visit>, s: Sorted) {
    (s.failed <==> exists v | v in vs :: Handed(w, vs, v) && v.node.content.Unreadable?) &&
    (!s.failed ==>
      (forall kind, d :: d in Dirs(s, kind) <==> exists v | v in vs :: Topmost(w, kind, vs, v) && d == v.path + "/") &&
      s.crds == HandedPaths(w, vs, vs, CrdOrNamespace) && s.rbac == HandedPaths(w, vs, vs, Rbac) &&
      s.others == HandedPaths(w, vs, vs, Plain))
  }

  lemma {:induction false} RightIsDeclared(w: Setting, vs: seq<Visit>, s: Sorted)
    requires RightUpTo(w, vs, |vs|, s)
    ensures Declared(w, vs, s)
  {
    assert vs[..|vs|] == vs;
    UnreadableIsOf(w, vs);
    if !s.failed {
      forall kind, d
        ensures d in Dirs(s, kind) <==> exists v | v in vs :: Topmost(w, kind, vs, v) && d == v.path + "/"
      {
        TopDirsAreOf(w, kind, vs, d);
        assert kind == Chart || kind == Kustomize;
        assert DirsUpTo(w, kind, vs, |vs|, s);
      }
    }
  }

  lemma {:induction false} TreeIsRooted(vs: seq<Visit>, root: string)
    requires root != "" && root[0] == '/' && forall v | v in vs :: AtOrBelow(v.path, root)
    ensures Rooted(vs)
  {
    assert forall i | 0 <= i < |vs| :: vs[i] in vs;
  }

  lemma {:induction false} UnreadableIsOf(w: Setting, vs: seq<Visit>)
    ensures SomeUnreadable(w, vs, |vs|) <==> exists v | v in vs :: Handed(w, vs, v) && v.node.content.Unreadable?
  {
    if SomeUnreadable(w, vs, |vs|) {
      var i :| 0 <= i < |vs| && Handed(w, vs, vs[i]) && vs[i].node.content.Unreadable?;
      assert vs[i] in vs;
    }
  }

  lemma {:induction false} TopDirsAreOf(w: Setting, kind: Kind, vs: seq<Visit>, d: string)
    ensures IsTopDir(w, kind, vs, |vs|, d) <==> exists v | v in vs :: Topmost(w, kind, vs, v) && d == v.path + "/"
  {
    if IsTopDir(w, kind, vs, |vs|, d) {
      var i :| 0 <= i < |vs| && Topmost(w, kind, vs, vs[i]) && d == vs[i].path + "/";
      assert vs[i] in vs;
    }
  }

  // ----- the walk itself

  lemma {:induction false} FoldConcat(w: Setting, s: Sorted, a: seq<Visit>, b: seq<Visit>)
    ensures Fold(w, s, a + b) == Fold(w, Fold(w, s, a), b)
    decreases |b|
  {
    if b == [] {
      assert a + b == a;
    } else {
      FoldConcat(w, s, a, b[..|b| - 1]);
      assert (a + b)[..|a + b| - 1] == a + b[..|b| - 1];
    }
  }

  class Sorter {
    const setting: Setting
    var chartDirs: set<string>
    var kustomizeDirs: set<string>
    var currentChartDir: string
    var currentKustomizeDir: string
    var crdsAndNamespaceFiles: seq<string>
    var rbacFiles: seq<string>
    var otherFiles: seq<string>
    var failed: bool

    ghost function Result(): Sorted
      reads this
    {
      Sorted(chartDirs, kustomizeDirs, currentChartDir, currentKustomizeDir,
             crdsAndNamespaceFiles, rbacFiles, otherFiles, failed)
    }

    constructor (setting: Setting)
      ensures this.setting == setting && Result() == START
    {
      this.setting := setting;
      chartDirs, kustomizeDirs, currentChartDir, currentKustomizeDir := {}, {}, "NONE", "NONE";
      crdsAndNamespaceFiles, rbacFiles, otherFiles, failed := [], [], [], false;
    }

    method OnVisit(path: string, node: Node)
      modifies this
      ensures Result() == Callback(setting, old(Result()), Visit(path, node))
    {
      if failed || setting.ignored(path) {
        return;
      }
      if node.Dir? {
        if HasEntry(node, "Chart.yaml") {
          if !HasPrefix(path, currentChartDir) {
            chartDirs := chartDirs + {path + "/"};
            currentChartDir := path + "/";
          }
        } else if HasEntry(node, "kustomization.yaml") || HasEntry(node, "kustomization.yml") {
          if !HasPrefix(path, currentKustomizeDir) {
            currentKustomizeDir := path + "/";
            kustomizeDirs := kustomizeDirs + {path + "/"};
          }
        }
      } else if !HasPrefix(path, currentChartDir) && !HasPrefix(path, setting.repoRoot + "/.git") &&
                !HasPrefix(path, currentKustomizeDir) {
        match node.content
        case Unreadable => failed := true;
        case Nothing =>
        case CrdOrNamespace => crdsAndNamespaceFiles := crdsAndNamespaceFiles + [path];
        case Rbac => rbacFiles := rbacFiles + [path];
        case Plain => otherFiles := otherFiles + [path];
      }
    }

    method Walk(node: Node, path: string)
      modifies this
      ensures Result() == Fold(setting, old(Result()), Visits(node, path))
      decreases node
    {
      ghost var start := Result();
      OnVisit(path, node);
      if node.Dir? {
        VisitedNone(setting, start, node, path);
        for i := 0 to |node.entries|
          invariant Result() == Fold(setting, start, VisitedUpTo(node, path, i))
        {
          Walk(node.entries[i].node, path + "/" + node.entries[i].name);
          VisitedOneMore(setting, start, node, path, i);
        }
        VisitedAll(node, path);
      } else {
        FoldOne(setting, start, Visit(path, node));
      }
    }
  }

  /** The directory itself and what lies below its first i entries. */
  ghost function VisitedUpTo(node: Node, path: string, i: nat): seq<Visit>
    requires node.Dir? && i <= |node.entries|
  {
    [Visit(path, node)] + VisitsOf(node.entries[..i], path)
  }

  lemma {:induction false} VisitedNone(w: Setting, s: Sorted, node: Node, path: string)
    requires node.Dir?
    ensures Fold(w, s, VisitedUpTo(node, path, 0)) == Callback(w, s, Visit(path, node))
  {
    assert VisitsOf(node.entries[..0], path) == [];
    assert VisitedUpTo(node, path, 0) == [Visit(path, node)];
    FoldOne(w, s, Visit(path, node));
  }

  lemma {:induction false} VisitedOneMore(w: Setting, s: Sorted, node: Node, path: string, i: nat)
    requires node.Dir? && i < |node.entries|
    ensures Fold(w, s, VisitedUpTo(node, path, i + 1)) ==
            Fold(w, Fold(w, s, VisitedUpTo(node, path, i)), Visits(node.entries[i].node,
              path + "/" + node.entries[i].name))
  {
    var e, done := node.entries[i], VisitedUpTo(node, path, i);
    FoldConcat(w, s, done, Visits(e.node, path + "/" + e.name));
    assert node.entries[..i + 1][..i] == node.entries[..i];
    assert done + Visits(e.node, path + "/" + e.name) == VisitedUpTo(node, path, i + 1);
  }

  lemma {:induction false} VisitedAll(node: Node, path: string)
    requires node.Dir?
    ensures VisitedUpTo(node, path, |node.entries|) == Visits(node, path)
  {
    assert node.entries[..|node.entries|] == node.entries;
  }

  lemma {:induction false} FoldOne(w: Setting, s: Sorted, v: Visit)
    ensures Fold(w, s, [v]) == Callback(w, s, v)
  {
    assert [v][..0] == [];
  }
}
