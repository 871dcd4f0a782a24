/**
 The hub's registry of Git branches (RegisterBranch, DeregisterBranch and GitWatch in
 pkg/controller/mcmhub/hub_git.go).
 */
module GitRegistry {
  import opened Text

  type SubKey = NamespacedName

  datatype Branch = Branch(lastCommit: string, options: string, subs: set<SubKey>)

  datatype Repo = Repo(url: string, branches: map<string, Branch>)

  datatype Registry = Registry(subRecords: map<SubKey, string>, repoRecords: map<string, Repo>)

  /** genRepoName: two subscriptions may get the same name. */
  function RepoName(s: SubKey): string {
    s.name + s.ns
  }

  /** What a successful clone yields. */
  datatype Clone = Clone(url: string, options: string, commit: string)

  datatype Step =
    | Register(sub: SubKey, branch: string, clone: Option<Clone>)
    | Deregister(sub: SubKey)
    | Watch(repo: string, branch: string, commit: string)

  function Registered(r: Registry, sub: SubKey, branch: string, c: Clone): map<string, Repo> {
    var name := RepoName(sub);
    if name !in r.repoRecords then
      r.repoRecords[name := Repo(c.url, map[branch := Branch(c.commit, c.options, {sub})])]
    else
      var repo := r.repoRecords[name];
      var subs := if branch in repo.branches then repo.branches[branch].subs else {};
      r.repoRecords[name := repo.(branches := repo.branches[branch := Branch(c.commit, c.options, subs + {sub})])]
  }

  /** The branches without the subscription; a branch left without any goes. */
  function Left(branches: map<string, Branch>, sub: SubKey): map<string, Branch> {
    map b | b in branches && branches[b].subs - {sub} != {} :: branches[b].(subs := branches[b].subs - {sub})
  }

  function Deregistered(r: Registry, sub: SubKey): Registry {
    if sub !in r.subRecords then r
    else
      var name := r.subRecords[sub];
      var subs := r.subRecords - {sub};
      if name !in r.repoRecords || r.repoRecords[name].branches == map[] then Registry(subs, r.repoRecords)
      else
        var branches := Left(r.repoRecords[name].branches, sub);
        Registry(subs, if branches == map[] then r.repoRecords - {name}
                       else r.repoRecords[name := r.repoRecords[name].(branches := branches)])
  }

  function After(r: Registry, s: Step): Registry {
    match s
    case Register(sub, branch, clone) =>
      Registry(r.subRecords[sub := RepoName(sub)],
               if clone.None? then r.repoRecords else Registered(r, sub, branch, clone.value))
    case Deregister(sub) => Deregistered(r, sub)
    case Watch(repo, branch, commit) =>
      if commit == "" || repo !in r.repoRecords || branch !in r.repoRecords[repo].branches then r
      else
        var branches := r.repoRecords[repo].branches;
        var updated := branches[branch := branches[branch].(lastCommit := commit)];
        r.(repoRecords := r.repoRecords[repo := r.repoRecords[repo].(branches := updated)])
  }

  /** The subscriptions whose commit annotation a watch of the branch sets. */
  function Announced(r: Registry, repo: string, branch: string, commit: string): set<SubKey> {
    if commit == "" || repo !in r.repoRecords || branch !in r.repoRecords[repo].branches then {}
    else
      var info := r.repoRecords[repo].branches[branch];
      if info.lastCommit == commit then {} else info.subs
  }

  /**
   A new commit is announced to all subscriptions of the branch, once: the next watch
   announces it to none, even to those whose annotation could not be written.
   */
  lemma {:induction false} AnnouncedOnce(r: Registry, repo: string, branch: string, commit: string)
    ensures Announced(After(r, Watch(repo, branch, commit)), repo, branch, commit) == {}
    ensures forall s :: s in Announced(r, repo, branch, commit) <==>
              Holds(r, repo, branch, s) && commit != "" && commit != r.repoRecords[repo].branches[branch].lastCommit
  {
  }

  /** The subscription is registered on some branch of the repository. */
  ghost predicate Holds(r: Registry, repo: string, branch: string, sub: SubKey) {
    repo in r.repoRecords && branch in r.repoRecords[repo].branches && sub in r.repoRecords[repo].branches[branch].subs
  }

  ghost predicate Valid(r: Registry) {
    (forall repo, branch, sub | Holds(r, repo, branch, sub) :: sub in r.subRecords && r.subRecords[sub] == repo) &&
    (forall sub | sub in r.subRecords :: r.subRecords[sub] == RepoName(sub)) &&
    NothingEmpty(r.repoRecords)
  }

  /** No repository without branches, no branch without subscriptions. */
  ghost predicate NothingEmpty(repos: map<string, Repo>) {
    (forall repo | repo in repos :: repos[repo].branches != map[]) &&
    (forall repo, branch | repo in repos && branch in repos[repo].branches :: repos[repo].branches[branch].subs != {})
  }

  lemma {:induction false} StepKeepsValid(r: Registry, s: Step)
    requires Valid(r)
    ensures Valid(After(r, s))
    ensures s.Deregister? ==>
              s.sub !in After(r, s).subRecords && forall repo, branch :: !Holds(After(r, s), repo, branch, s.sub)
  {
    match s
    case Register(sub, branch, clone) =>
      RegisterKeepsValid(r, sub, branch, clone);
    case Deregister(sub) =>
      DeregisterKeepsValid(r, sub);
    case Watch(repo, branch, commit) =>
      WatchKeepsValid(r, repo, branch, commit);
  }

  lemma {:induction false} RegisterKeepsValid(r: Registry, sub: SubKey, branch: string, clone: Option<Clone>)
    requires Valid(r)
    ensures Valid(After(r, Register(sub, branch, clone)))
  {
    var after := After(r, Register(sub, branch, clone));
    forall repo, b, s | Holds(after, repo, b, s) ensures s in after.subRecords && after.subRecords[s] == repo {
      assert Holds(r, repo, b, s) || (s == sub && repo == RepoName(sub));
    }
    if clone.Some? {
      RegisterLeavesNothingEmpty(r, sub, branch, clone.value);
    }
  }

  lemma {:induction false} RegisterLeavesNothingEmpty(r: Registry, sub: SubKey, branch: string, c: Clone)
    requires NothingEmpty(r.repoRecords)
    ensures NothingEmpty(Registered(r, sub, branch, c))
  {
    var branches := Registered(r, sub, branch, c)[RepoName(sub)].branches;
    assert branch in branches && sub in branches[branch].subs;
  }

  lemma {:induction false} DeregisterKeepsValid(r: Registry, sub: SubKey)
    requires Valid(r)
    ensures Valid(Deregistered(r, sub))
    ensures sub !in Deregistered(r, sub).subRecords
    ensures forall repo, branch :: !Holds(Deregistered(r, sub), repo, branch, sub)
  {
    var after := Deregistered(r, sub);
    forall repo, b, s | Holds(after, repo, b, s) ensures s != sub && Holds(r, repo, b, s) {
      assert Holds(r, repo, b, s);
    }
  }

  lemma {:induction false} WatchKeepsValid(r: Registry, repo: string, branch: string, commit: string)
    requires Valid(r)
    ensures Valid(After(r, Watch(repo, branch, commit)))
  {
    var after := After(r, Watch(repo, branch, commit));
    forall x, b, s | Holds(after, x, b, s) ensures Holds(r, x, b, s) {
    }
    if after != r {
      assert branch in after.repoRecords[repo].branches;
    }
  }

  // ----- what each step records, exactly

  /** Who is registered where after a step. */
  lemma {:induction false} StepHoldsExactly(r: Registry, s: Step, repo: string, branch: string, t: SubKey)
    requires Valid(r)
    ensures Holds(After(r, s), repo, branch, t) <==>
            match s
            case Register(sub, b, clone) =>
              Holds(r, repo, branch, t) || (clone.Some? && t == sub && repo == sub.name + sub.ns && branch == b)
            case Deregister(sub) => Holds(r, repo, branch, t) && t != sub
            case Watch(_, _, _) => Holds(r, repo, branch, t)
    ensures t in After(r, s).subRecords <==> (t in r.subRecords && s != Deregister(t)) || (s.Register? && s.sub == t)
  {
    if s.Deregister? {
      DeregisterKeepsValid(r, s.sub);
      if t != s.sub && Holds(r, repo, branch, t) {
        SharedRepoSurvives(r, s.sub, t, repo, branch);
      }
      if Holds(After(r, s), repo, branch, t) {
        assert Holds(r, repo, branch, t);
      }
    }
  }

  predicate HasBranch(r: Registry, repo: string, branch: string) {
    repo in r.repoRecords && branch in r.repoRecords[repo].branches
  }

  /** The commit and the clone options of a branch after a step. */
  lemma {:induction false} StepRecordsExactly(r: Registry, s: Step, repo: string, branch: string)
    requires HasBranch(After(r, s), repo, branch)
    ensures var info := After(r, s).repoRecords[repo].branches[branch];
            if s.Register? && s.clone.Some? && repo == RepoName(s.sub) && branch == s.branch then
              info.lastCommit == s.clone.value.commit && info.options == s.clone.value.options
            else
              HasBranch(r, repo, branch) && info.options == r.repoRecords[repo].branches[branch].options &&
              info.lastCommit ==
                if s.Watch? && s.repo == repo && s.branch == branch && s.commit != "" then s.commit
                else r.repoRecords[repo].branches[branch].lastCommit
    ensures After(r, s).repoRecords[repo].url ==
            if repo in r.repoRecords then r.repoRecords[repo].url
            else if s.Register? && s.clone.Some? then s.clone.value.url else ""
  {
  }

  /** Two subscriptions may share a repository name. */
  lemma {:induction false} RepoNamesMayMeet()
    ensures RepoName(NamespacedName("c", "ab")) == "abc" == RepoName(NamespacedName("bc", "a"))
  {
  }

  function Run(r: Registry, steps: seq<Step>): Registry
    decreases |steps|
  {
    if steps == [] then r else Run(After(r, steps[0]), steps[1..])
  }

  /** In every run, clones failing or not, no registration is lost or left over. */
  lemma {:induction false} RegistryStaysValid(r: Registry, steps: seq<Step>)
    requires Valid(r)
    ensures Valid(Run(r, steps))
    decreases |steps|
  {
    if steps != [] {
      StepKeepsValid(r, steps[0]);
      RegistryStaysValid(After(r, steps[0]), steps[1..]);
    }
  }

  /** Deregistering one of two subscriptions that share a repository name keeps the other's registrations. */
  lemma {:induction false} SharedRepoSurvives(r: Registry, sub: SubKey, other: SubKey, repo: string, branch: string)
    requires Valid(r) && sub != other && Holds(r, repo, branch, other)
    ensures Holds(Deregistered(r, sub), repo, branch, other)
  {
    if sub in r.subRecords && r.subRecords[sub] == repo {
      var branches := r.repoRecords[repo].branches;
      assert other in branches[branch].subs - {sub};
      assert branch in Left(branches, sub);
    }
  }

  const FAKE_SUFFIX := "-new"

  /** The commit annotations after one was announced to some subscriptions, of which some could not be written. */
  ghost predicate CommitsAfter(before: map<SubKey, string>, after: map<SubKey, string>, told: set<SubKey>,
                               commit: string, fails: SubKey -> bool)
  {
    after.Keys == before.Keys &&
    forall s | s in before :: after[s] == if s in told && !fails(s) then commit + FAKE_SUFFIX else before[s]
  }

  class HubGitOps {
    var subRecords: map<SubKey, string>
    var repoRecords: map<string, Repo>

    /** The commit annotations of the subscriptions in the API server. */
    var commits: map<SubKey, string>

    ghost function Current(): Registry
      reads this
    {
      Registry(subRecords, repoRecords)
    }

    constructor (commits: map<SubKey, string>)
      ensures Current() == Registry(map[], map[]) && Valid(Current()) && this.commits == commits
    {
      subRecords, repoRecords, this.commits := map[], map[], commits;
    }

    method RegisterBranch(sub: SubKey, branch: string, clone: Option<Clone>)
      requires Valid(Current())
      modifies this
      ensures Current() == After(old(Current()), Register(sub, branch, clone)) && Valid(Current()) &&
              commits == old(commits)
    {
      RegisterKeepsValid(Current(), sub, branch, clone);
      var name := RepoName(sub);
      subRecords := subRecords[sub := name];
      if clone.None? {
        return;
      }
      var c := clone.value;
      if name !in repoRecords {
        repoRecords := repoRecords[name := Repo(c.url, map[branch := Branch(c.commit, c.options, {sub})])];
        return;
      }
      var repo := repoRecords[name];
      var info := Branch(c.commit, c.options, {sub});
      assert {} + {sub} == {sub};
      if branch in repo.branches {
        info := info.(subs := repo.branches[branch].subs + {sub});
      }
      repoRecords := repoRecords[name := repo.(branches := repo.branches[branch := info])];
    }

    method DeregisterBranch(sub: SubKey)
      requires Valid(Current())
      modifies this
      ensures Current() == Deregistered(old(Current()), sub) && Valid(Current()) && commits == old(commits)
      ensures sub !in subRecords && forall repo, branch :: !Holds(Current(), repo, branch, sub)
    {
      DeregisterKeepsValid(Current(), sub);
      if sub !in subRecords {
        return;
      }
      var name := subRecords[sub];
      subRecords := subRecords - {sub};
      if name !in repoRecords || |repoRecords[name].branches| == 0 {
        return;
      }
      PartlyDone(repoRecords, name, sub);
      RemoveFromBranches(name, sub);
    }

    /** The loop deletes from the maps it ranges over; every entry it reads is still there. */
    method RemoveFromBranches(name: string, sub: SubKey)
      requires name in repoRecords && repoRecords[name].branches != map[]
      modifies this`repoRecords
      ensures repoRecords == Partly(old(repoRecords), name, sub, {})
    {
      var ahead := repoRecords[name].branches.Keys;
      PartlyStart(repoRecords, name, sub);
      while ahead != {}
        invariant ahead <= old(repoRecords)[name].branches.Keys
        invariant repoRecords == Partly(old(repoRecords), name, sub, ahead)
        decreases |ahead|
      {
        var b :| b in ahead;
        PartlyStep(old(repoRecords), name, sub, ahead, b);
        var branches := repoRecords[name].branches;
        var info := branches[b].(subs := branches[b].subs - {sub});
        branches := if info.subs == {} then branches - {b} else branches[b := info];
        repoRecords := if branches == map[] then repoRecords - {name}
                       else repoRecords[name := repoRecords[name].(branches := branches)];
        ahead := ahead - {b};
      }
    }

    /** One branch of GitWatch; an empty commit is ignored. */
    method WatchBranch(repo: string, branch: string, newCommit: string, fails: SubKey -> bool)
      requires Valid(Current())
      modifies this
      ensures Current() == After(old(Current()), Watch(repo, branch, newCommit)) && Valid(Current())
      ensures CommitsAfter(old(commits), commits, Announced(old(Current()), repo, branch, newCommit), newCommit, fails)
    {
      WatchKeepsValid(Current(), repo, branch, newCommit);
      if newCommit == "" || repo !in repoRecords || branch !in repoRecords[repo].branches {
        return;
      }
      var branches := repoRecords[repo].branches;
      if newCommit == branches[branch].lastCommit {
        assert branches[branch := branches[branch].(lastCommit := newCommit)] == branches;
        assert repoRecords[repo := repoRecords[repo].(branches := branches)] == repoRecords;
        return;
      }
      var updated := branches[branch := branches[branch].(lastCommit := newCommit)];
      repoRecords := repoRecords[repo := repoRecords[repo].(branches := updated)];
      UpdateCommitAnnotations(branches[branch].subs, newCommit, fails);
    }

    /** updateCommitAnnotation for each subscription, in any order; a subscription that is gone has no annotation. */
    method UpdateCommitAnnotations(subs: set<SubKey>, newCommit: string, fails: SubKey -> bool)
      modifies this`commits
      ensures CommitsAfter(old(commits), commits, subs, newCommit, fails)
    {
      var left := subs;
      while left != {}
        invariant left <= subs && CommitsAfter(old(commits), commits, subs - left, newCommit, fails)
        decreases |left|
      {
        var s :| s in left;
        if s in commits && !fails(s) {
          commits := commits[s := newCommit + FAKE_SUFFIX];
        }
        left := left - {s};
      }
      assert subs - left == subs;
    }
  }

  /** The branches while some are still ahead of the loop. */
  ghost function PartlyLeft(branches: map<string, Branch>, sub: SubKey, ahead: set<string>): map<string, Branch> {
    map b | b in branches && (b in ahead || branches[b].subs - {sub} != {}) ::
      if b in ahead then branches[b] else branches[b].(subs := branches[b].subs - {sub})
  }

  ghost function Partly(start: map<string, Repo>, name: string, sub: SubKey, ahead: set<string>): map<string, Repo>
    requires name in start
  {
    var branches := PartlyLeft(start[name].branches, sub, ahead);
    if branches == map[] then start - {name} else start[name := start[name].(branches := branches)]
  }

  lemma {:induction false} PartlyStart(start: map<string, Repo>, name: string, sub: SubKey)
    requires name in start && start[name].branches != map[]
    ensures Partly(start, name, sub, start[name].branches.Keys) == start
  {
    assert PartlyLeft(start[name].branches, sub, start[name].branches.Keys) == start[name].branches;
  }

  /** One turn of the loop: the repository and the branch are still there to be read. */
  lemma {:induction false} PartlyStep(start: map<string, Repo>, name: string, sub: SubKey, ahead: set<string>,
      b: string)
    requires name in start && b in ahead && ahead <= start[name].branches.Keys
    ensures var now := Partly(start, name, sub, ahead);
            name in now && b in now[name].branches &&
            var info := now[name].branches[b].(subs := now[name].branches[b].subs - {sub});
            var branches := if info.subs == {} then now[name].branches - {b} else now[name].branches[b := info];
            Partly(start, name, sub, ahead - {b}) ==
            if branches == map[] then now - {name} else now[name := now[name].(branches := branches)]
  {
    var now, next := PartlyLeft(start[name].branches, sub, ahead), PartlyLeft(start[name].branches, sub, ahead - {b});
    assert b in now;
    assert next == if now[b].subs - {sub} == {} then now - {b} else now[b := now[b].(subs := now[b].subs - {sub})];
    assert start[name := start[name].(branches := now)] - {name} == start - {name};
  }

  lemma {:induction false} PartlyDone(start: map<string, Repo>, name: string, sub: SubKey)
    requires name in start
    ensures PartlyLeft(start[name].branches, sub, {}) == Left(start[name].branches, sub)
  {
  }
}
