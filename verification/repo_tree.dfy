/**
 The walk of a repository in terms of the tree alone: its nodes by the names that lead
 to them, in the order of the directories' entries (SortResources, pkg/utils/gitrepo.go).
 */
module RepoTree {
  import opened Text
  import opened RepoWalk
  import opened Sorting

  // ----- the nodes of a tree

  /** These names lead from the directory n to the node. */
  ghost predicate Has(n: Node, names: seq<string>, node: Node)
    decreases |names|
  {
    if names == [] then node == n
    else
      n.Dir? &&
      exists i :: 0 <= i < |n.entries| && n.entries[i].name == names[0] && Has(n.entries[i].node, names[1..], node)
  }

  function PathOf(root: string, names: seq<string>): string
    decreases |names|
  {
    if names == [] then root else PathOf(root + "/" + names[0], names[1..])
  }

  ghost predicate LeadsTo(tree: Node, root: string, names: seq<string>, v: Visit) {
    Has(tree, names, v.node) && PathOf(root, names) == v.path
  }

  ghost predicate InTree(tree: Node, root: string, v: Visit) {
    exists names :: LeadsTo(tree, root, names, v)
  }

  lemma {:induction false} LeadsThrough(n: Node, path: string, i: int, names: seq<string>,
      v: Visit)
    returns (all: seq<string>)
    requires n.Dir? && 0 <= i < |n.entries|
    requires LeadsTo(n.entries[i].node, path + "/" + n.entries[i].name, names, v)
    ensures LeadsTo(n, path, all, v) && all == [n.entries[i].name] + names
  {
    all := [n.entries[i].name] + names;
    assert all[1..] == names;
  }

  lemma {:induction false} VisitsOfEntries(entries: seq<Entry>, path: string, v: Visit)
    ensures v in VisitsOf(entries, path) <==>
            exists i :: 0 <= i < |entries| && v in Visits(entries[i].node, path + "/" + entries[i].name)
    decreases |entries|
  {
    if entries != [] {
      var n := |entries| - 1;
      var less := entries[..n];
      VisitsOfEntries(less, path, v);
      if i :| 0 <= i < |entries| && v in Visits(entries[i].node, path + "/" + entries[i].name) {
        assert i < n ==> less[i] == entries[i];
      }
      if i :| 0 <= i < n && v in Visits(less[i].node, path + "/" + less[i].name) {
        assert less[i] == entries[i];
      }
    }
  }

  /** The walk visits exactly the nodes of the tree, at their paths. */
  lemma {:induction false} VisitsAreTheNodes(n: Node, path: string, v: Visit)
    ensures v in Visits(n, path) <==> InTree(n, path, v)
    decreases n
  {
    if n.Dir? {
      VisitsOfEntries(n.entries, path, v);
      forall i | 0 <= i < |n.entries|
        ensures v in Visits(n.entries[i].node, path + "/" + n.entries[i].name) <==>
                InTree(n.entries[i].node, path + "/" + n.entries[i].name, v)
      {
        VisitsAreTheNodes(n.entries[i].node, path + "/" + n.entries[i].name, v);
      }
    }
    if v in Visits(n, path) {
      VisitIsNode(n, path, v);
    }
    if names :| LeadsTo(n, path, names, v) {
      NodeIsVisit(n, path, names, v);
    }
  }

  lemma {:induction false} VisitIsNode(n: Node, path: string, v: Visit)
    requires v in Visits(n, path)
    requires n.Dir? ==>
      (v in VisitsOf(n.entries, path) <==>
        exists i :: 0 <= i < |n.entries| && v in Visits(n.entries[i].node, path + "/" + n.entries[i].name))
    requires n.Dir? ==> forall i | 0 <= i < |n.entries| ::
      v in Visits(n.entries[i].node, path + "/" + n.entries[i].name) ==>
        InTree(n.entries[i].node, path + "/" + n.entries[i].name, v)
    ensures InTree(n, path, v)
  {
    if v == Visit(path, n) {
      assert LeadsTo(n, path, [], v);
    } else {
      var i :| 0 <= i < |n.entries| && v in Visits(n.entries[i].node, path + "/" + n.entries[i].name);
      var names :| LeadsTo(n.entries[i].node, path + "/" + n.entries[i].name, names, v);
      var all := LeadsThrough(n, path, i, names, v);
    }
  }

  lemma {:induction false} NodeIsVisit(n: Node, path: string, names: seq<string>, v: Visit)
    requires LeadsTo(n, path, names, v)
    requires n.Dir? ==>
      (v in VisitsOf(n.entries, path) <==>
        exists i :: 0 <= i < |n.entries| && v in Visits(n.entries[i].node, path + "/" + n.entries[i].name))
    requires n.Dir? ==> forall i | 0 <= i < |n.entries| ::
      InTree(n.entries[i].node, path + "/" + n.entries[i].name, v) ==>
        v in Visits(n.entries[i].node, path + "/" + n.entries[i].name)
    ensures v in Visits(n, path)
  {
    if names != [] {
      var i :| 0 <= i < |n.entries| && n.entries[i].name == names[0] && Has(n.entries[i].node, names[1..], v.node);
      assert LeadsTo(n.entries[i].node, path + "/" + n.entries[i].name, names[1..], v);
    }
  }

  // ----- in the order of the entries, each once

  /** A directory comes before what it holds, and the entries of a directory come in their order. */
  ghost predicate Before(n: Node, a: seq<string>, b: seq<string>)
    decreases |a|
  {
    b != [] &&
    (a == [] ||
     (n.Dir? &&
      exists i, j :: 0 <= i <= j < |n.entries| && n.entries[i].name == a[0] && n.entries[j].name == b[0] &&
                     (i < j || Before(n.entries[i].node, a[1..], b[1..]))))
  }

  lemma {:induction false} VisitedInOrder(n: Node, path: string, p: nat, q: nat) returns (a: seq<string>,
      b: seq<string>)
    requires p < q < |Visits(n, path)|
    ensures LeadsTo(n, path, a, Visits(n, path)[p]) && LeadsTo(n, path, b, Visits(n, path)[q]) && Before(n, a, b)
    decreases n, 1
  {
    var vs := Visits(n, path);
    if p == 0 {
      a := [];
      var i, names := EntryOf(n, n.entries, path, q - 1);
      b := LeadsThrough(n, path, i, names, vs[q]);
    } else {
      var i, j, x, y := EntriesInOrder(n, n.entries, path, p - 1, q - 1);
      a := LeadsThrough(n, path, i, x, vs[p]);
      b := LeadsThrough(n, path, j, y, vs[q]);
      assert a[1..] == x && b[1..] == y;
    }
  }

  lemma {:induction false} EntryOf(n: Node, entries: seq<Entry>, path: string, q: nat) returns (i: int,
      names: seq<string>)
    requires n.Dir? && entries <= n.entries && q < |VisitsOf(entries, path)|
    ensures 0 <= i < |entries|
    ensures LeadsTo(n.entries[i].node, path + "/" + n.entries[i].name, names, VisitsOf(entries, path)[q])
  {
    var v := VisitsOf(entries, path)[q];
    VisitsOfEntries(entries, path, v);
    i :| 0 <= i < |entries| && v in Visits(entries[i].node, path + "/" + entries[i].name);
    assert entries[i] == n.entries[i];
    VisitsAreTheNodes(entries[i].node, path + "/" + entries[i].name, v);
    names :| LeadsTo(entries[i].node, path + "/" + entries[i].name, names, v);
  }

  lemma {:induction false} EntriesInOrder(n: Node, entries: seq<Entry>, path: string, p: nat, q: nat)
    returns (i: int, j: int, a: seq<string>, b: seq<string>)
    requires n.Dir? && entries <= n.entries && p < q < |VisitsOf(entries, path)|
    ensures 0 <= i <= j < |entries|
    ensures LeadsTo(n.entries[i].node, path + "/" + n.entries[i].name, a, VisitsOf(entries, path)[p])
    ensures LeadsTo(n.entries[j].node, path + "/" + n.entries[j].name, b, VisitsOf(entries, path)[q])
    ensures i < j || Before(n.entries[i].node, a, b)
    decreases n, 0, |entries|
  {
    var m := |entries| - 1;
    var less, last, base := entries[..m], entries[m], path + "/" + entries[m].name;
    var done := VisitsOf(less, path);
    assert VisitsOf(entries, path) == done + Visits(last.node, base) && last == n.entries[m];
    if q < |done| {
      i, j, a, b := EntriesInOrder(n, less, path, p, q);
    } else if p >= |done| {
      i, j := m, m;
      a, b := VisitedInOrder(last.node, base, p - |done|, q - |done|);
    } else {
      i, a := EntryOf(n, less, path, p);
      j := m;
      var v := Visits(last.node, base)[q - |done|];
      VisitsAreTheNodes(last.node, base, v);
      b :| LeadsTo(last.node, base, b, v);
    }
  }

  ghost predicate Once(vs: seq<Visit>) {
    forall p, q | 0 <= p < q < |vs| :: vs[p].path != vs[q].path
  }

  lemma {:induction false} OnceConcat(a: seq<Visit>, b: seq<Visit>)
    requires Once(a) && Once(b) && forall x, y | x in a && y in b :: x.path != y.path
    ensures Once(a + b)
  {
    var all := a + b;
    forall p, q | 0 <= p < q < |all| ensures all[p].path != all[q].path {
      assert p < |a| ==> all[p] == a[p] && a[p] in a;
      assert p >= |a| ==> all[p] == b[p - |a|];
      assert q < |a| ==> all[q] == a[q];
      assert q >= |a| ==> all[q] == b[q - |a|] && b[q - |a|] in b;
    }
  }

  /** No path is visited twice. */
  lemma {:induction false} VisitedOnce(n: Node, path: string)
    requires WellFormed(n)
    ensures Once(Visits(n, path))
    decreases n
  {
    if n.Dir? {
      EntriesOnce(n.entries, path);
      EntriesArePreorder(n.entries, path);
      OnceConcat([Visit(path, n)], VisitsOf(n.entries, path));
    }
  }

  lemma {:induction false} EntriesOnce(entries: seq<Entry>, path: string)
    requires forall i | 0 <= i < |entries| :: ValidName(entries[i].name) && WellFormed(entries[i].node)
    requires forall i, j | 0 <= i < j < |entries| :: entries[i].name != entries[j].name
    ensures Once(VisitsOf(entries, path))
    decreases entries
  {
    if entries != [] {
      var m := |entries| - 1;
      var less, last, base := entries[..m], entries[m], path + "/" + entries[m].name;
      EntriesOnce(less, path);
      VisitedOnce(last.node, base);
      EntriesArePreorder(less, path);
      TreeIsPreorder(last.node, base);
      var a, b := VisitsOf(less, path), Visits(last.node, base);
      forall x, y | x in a && y in b ensures x.path != y.path {
        assert FromEntry(less, path, x);
        var i :| 0 <= i < m && AtOrBelow(x.path, path + "/" + less[i].name);
        SiblingsApart(path, less[i].name, last.name, x.path);
      }
      OnceConcat(a, b);
    }
  }

  // ----- beneath

  ghost predicate ValidNames(names: seq<string>) {
    forall i | 0 <= i < |names| :: ValidName(names[i])
  }

  lemma {:induction false} PathStartsWithRoot(root: string, names: seq<string>)
    ensures if names == [] then PathOf(root, names) == root else AtOrBelow(PathOf(root, names), root + "/" + names[0])
    decreases |names|
  {
    if names != [] {
      PathStartsWithRoot(root + "/" + names[0], names[1..]);
    }
  }

  /** One path lies beneath another exactly when the names of the other are the beginning of its own. */
  lemma {:induction false} BeneathIsLonger(root: string, a: seq<string>, b: seq<string>)
    requires ValidNames(a) && ValidNames(b)
    ensures HasPrefix(PathOf(root, a), PathOf(root, b) + "/") <==> b < a
    decreases |b|
  {
    PathStartsWithRoot(root, a);
    PathStartsWithRoot(root, b);
    if b != [] && a != [] {
      if a[0] == b[0] {
        BeneathIsLonger(root + "/" + a[0], a[1..], b[1..]);
        assert a == [a[0]] + a[1..] && b == [b[0]] + b[1..];
      } else if HasPrefix(PathOf(root, a), PathOf(root, b) + "/") {
        assert AtOrBelow(PathOf(root, a), root + "/" + b[0]);
        SiblingsApart(root, a[0], b[0], PathOf(root, a));
      }
    }
  }

  // ----- what the walk should find

  ghost predicate Holds(n: Node, name: string) {
    exists child :: Has(n, [name], child)
  }

  /** A directory, not ignored, with the file that makes it a chart, or else a kustomization. */
  ghost predicate Marked(w: Setting, kind: Kind, v: Visit) {
    v.node.Dir? && !w.ignored(v.path) &&
    if kind.Chart? then Holds(v.node, "Chart.yaml")
    else !Holds(v.node, "Chart.yaml") && (Holds(v.node, "kustomization.yaml") || Holds(v.node, "kustomization.yml"))
  }

  lemma {:induction false} HoldsIsHasEntry(n: Node, name: string)
    ensures n.Dir? ==> (Holds(n, name) <==> HasEntry(n, name))
  {
    if n.Dir? && HasEntry(n, name) {
      var i :| 0 <= i < |n.entries| && n.entries[i].name == name;
      assert Has(n.entries[i].node, [name][1..], n.entries[i].node);
      assert Has(n, [name], n.entries[i].node);
    }
  }

  lemma {:induction false} MarkedIsMark(w: Setting, kind: Kind, v: Visit)
    ensures Marked(w, kind, v) <==> IsMark(w, kind, v)
  {
    HoldsIsHasEntry(v.node, "Chart.yaml");
    HoldsIsHasEntry(v.node, "kustomization.yaml");
    HoldsIsHasEntry(v.node, "kustomization.yml");
  }

  /** A marked directory of the tree with no other of its kind above it. */
  ghost predicate TopmostMarked(w: Setting, kind: Kind, tree: Node, root: string, v: Visit) {
    InTree(tree, root, v) && Marked(w, kind, v) &&
    forall u | InTree(tree, root, u) && Marked(w, kind, u) :: !Under(v, u)
  }

  /** A file of the tree that is neither ignored, nor under .git, nor beneath a chart or a kustomization. */
  ghost predicate Loose(w: Setting, tree: Node, root: string, v: Visit) {
    InTree(tree, root, v) && v.node.File? && !w.ignored(v.path) && !HasPrefix(v.path, w.repoRoot + "/.git") &&
    forall u, kind | InTree(tree, root, u) && Marked(w, kind, u) :: !Under(v, u)
  }

  lemma {:induction false} InTermsOfTree(w: Setting, tree: Node, root: string, v: Visit)
    ensures v in Visits(tree, root) && Handed(w, Visits(tree, root), v) <==> Loose(w, tree, root, v)
    ensures forall kind :: v in Visits(tree, root) && Topmost(w, kind, Visits(tree, root), v) <==>
                           TopmostMarked(w, kind, tree, root, v)
  {
    VisitsAreTheNodes(tree, root, v);
    forall u ensures u in Visits(tree, root) <==> InTree(tree, root, u) {
      VisitsAreTheNodes(tree, root, u);
    }
    forall u, kind ensures Marked(w, kind, u) <==> IsMark(w, kind, u) {
      MarkedIsMark(w, kind, u);
    }
  }

  /** The list holds the loose files of this content, each once, in the order of the tree. */
  ghost predicate ListsLoose(w: Setting, tree: Node, root: string, content: Content, list: seq<string>) {
    (forall path :: path in list <==>
      exists v :: Loose(w, tree, root, v) && v.node.content == content && v.path == path) &&
    Distinct(list) &&
    forall i, j | 0 <= i < j < |list| :: InOrder(tree, root, list[i], list[j])
  }

  ghost predicate InOrder(tree: Node, root: string, x: string, y: string) {
    exists a, b :: PathOf(root, a) == x && PathOf(root, b) == y && Before(tree, a, b)
  }

  /** The paths of the handed visits, as positions among all visits. */
  lemma {:induction false} HandedPathsAre(w: Setting, vs: seq<Visit>, done: seq<Visit>,
      content: Content)
    returns (at: seq<nat>)
    ensures var list := HandedPaths(w, vs, done, content);
            |at| == |list| && (forall i, j | 0 <= i < j < |at| :: at[i] < at[j]) &&
            (forall i | 0 <= i < |at| :: at[i] < |done| && done[at[i]].path == list[i] &&
                                         Handed(w, vs, done[at[i]]) && done[at[i]].node.content == content) &&
            forall n | 0 <= n < |done| && Handed(w, vs, done[n]) && done[n].node.content == content :: n in at
    decreases |done|
  {
    at := [];
    if done != [] {
      var n: nat := |done| - 1;
      at := HandedPathsAre(w, vs, done[..n], content);
      if Handed(w, vs, done[n]) && done[n].node.content == content {
        at := at + [n];
      }
    }
  }

  lemma {:induction false} ListIsLoose(w: Setting, tree: Node, root: string, content: Content)
    requires WellFormed(tree)
    ensures ListsLoose(w, tree, root, content, HandedPaths(w, Visits(tree, root), Visits(tree, root), content))
  {
    var vs := Visits(tree, root);
    var list := HandedPaths(w, vs, vs, content);
    forall path
      ensures path in list <==> exists v :: Loose(w, tree, root, v) && v.node.content == content && v.path == path
    {
      if path in list {
        ListedIsLoose(w, tree, root, content, path);
      }
      if v :| Loose(w, tree, root, v) && v.node.content == content && v.path == path {
        LooseIsListed(w, tree, root, v);
      }
    }
    var at := HandedPathsAre(w, vs, vs, content);
    VisitedOnce(tree, root);
    forall i, j | 0 <= i < j < |list| ensures InOrder(tree, root, list[i], list[j]) && list[i] != list[j] {
      var a, b := VisitedInOrder(tree, root, at[i], at[j]);
    }
  }

  lemma {:induction false} ListedIsLoose(w: Setting, tree: Node, root: string, content: Content, path: string)
    requires WellFormed(tree) && path in HandedPaths(w, Visits(tree, root), Visits(tree, root), content)
    ensures exists v :: Loose(w, tree, root, v) && v.node.content == content && v.path == path
  {
    var vs := Visits(tree, root);
    var list := HandedPaths(w, vs, vs, content);
    var at := HandedPathsAre(w, vs, vs, content);
    var i :| 0 <= i < |list| && list[i] == path;
    assert vs[at[i]] in vs;
    InTermsOfTree(w, tree, root, vs[at[i]]);
  }

  lemma {:induction false} LooseIsListed(w: Setting, tree: Node, root: string, v: Visit)
    requires WellFormed(tree) && Loose(w, tree, root, v)
    ensures v.path in HandedPaths(w, Visits(tree, root), Visits(tree, root), v.node.content)
  {
    var vs := Visits(tree, root);
    var list := HandedPaths(w, vs, vs, v.node.content);
    var at := HandedPathsAre(w, vs, vs, v.node.content);
    InTermsOfTree(w, tree, root, v);
    var n: nat :| n < |vs| && vs[n] == v;
    assert n in at;
    var i :| 0 <= i < |at| && at[i] == n;
    assert list[i] == v.path;
  }

  /**
   For every tree: the walk fails exactly when a loose file cannot be read; otherwise
   the recorded directories are the topmost charts and kustomizations of the tree, and
   the lists hold its loose files, each once and in order.
   */
  lemma {:induction false} WalkSortsTheTree(w: Setting, tree: Node, root: string)
    requires WellFormed(tree) && root != "" && root[0] == '/'
    ensures var s := Fold(w, START, Visits(tree, root));
            (s.failed <==> exists v :: Loose(w, tree, root, v) && v.node.content.Unreadable?) &&
            (!s.failed ==>
              (forall kind, d :: d in Dirs(s, kind) <==>
                exists v :: TopmostMarked(w, kind, tree, root, v) && d == v.path + "/") &&
              ListsLoose(w, tree, root, CrdOrNamespace, s.crds) && ListsLoose(w, tree, root, Rbac, s.rbac) &&
              ListsLoose(w, tree, root, Plain, s.others))
  {
    var s := Fold(w, START, Visits(tree, root));
    WalkIsDeclarative(w, tree, root);
    FailsOnLoose(w, tree, root, s);
    if !s.failed {
      forall kind, d
        ensures d in Dirs(s, kind) <==> exists v :: TopmostMarked(w, kind, tree, root, v) && d == v.path + "/"
      {
        DirsAreTopmost(w, tree, root, s, kind, d);
      }
      ListIsLoose(w, tree, root, CrdOrNamespace);
      ListIsLoose(w, tree, root, Rbac);
      ListIsLoose(w, tree, root, Plain);
    }
  }

  lemma {:induction false} FailsOnLoose(w: Setting, tree: Node, root: string, s: Sorted)
    requires Declared(w, Visits(tree, root), s)
    ensures s.failed <==> exists v :: Loose(w, tree, root, v) && v.node.content.Unreadable?
  {
    var vs := Visits(tree, root);
    if s.failed {
      var v :| v in vs && Handed(w, vs, v) && v.node.content.Unreadable?;
      InTermsOfTree(w, tree, root, v);
    }
    if v :| Loose(w, tree, root, v) && v.node.content.Unreadable? {
      InTermsOfTree(w, tree, root, v);
    }
  }

  lemma {:induction false} DirsAreTopmost(w: Setting, tree: Node, root: string, s: Sorted, kind: Kind, d: string)
    requires Declared(w, Visits(tree, root), s) && !s.failed
    ensures d in Dirs(s, kind) <==> exists v :: TopmostMarked(w, kind, tree, root, v) && d == v.path + "/"
  {
    var vs := Visits(tree, root);
    if d in Dirs(s, kind) {
      var v :| v in vs && Topmost(w, kind, vs, v) && d == v.path + "/";
      InTermsOfTree(w, tree, root, v);
    }
    if v :| TopmostMarked(w, kind, tree, root, v) && d == v.path + "/" {
      InTermsOfTree(w, tree, root, v);
    }
  }
}
