/**
 The managed cluster as the synchronizer sees it: a map from keys to objects, and
 the single steps that apply one template or delete one tracked unit
 (pkg/synchronizer/kubernetes/synchronizer.go and extension.go).  Every outcome of
 a client call is an input, so the functions cover all patterns of failures.
 */
module Cluster {
  import opened Text
  import opened JsonMerge

  type SubKey = NamespacedName

  /** The annotations that the code reads or writes. */
  datatype AnnoKey =
    | Hosting | ClusterAdmin | SyncSource | HostingDeployable | ChannelType
    | ManagedCluster | ReconcileOption | DoNotDelete | Other(name: string)

  type Annotations = map<AnnoKey, string>

  type Doc = j: Json | j.Object? witness Object(map[])

  datatype Key = Key(resource: string, ns: string, name: string)

  datatype Obj = Obj(annotations: Annotations, body: Doc)

  type Objects = map<Key, Obj>

  datatype Template = Template(apiVersion: string, kind: string, ns: string, name: string,
                               annotations: Annotations, body: Doc)

  datatype Mapping = Mapping(resource: string, namespaced: bool)

  /** From apiVersion and kind; several apiVersions may name the same resource. */
  type RestMapper = map<(string, string), Mapping>

  datatype Phase = Deployed | DeployFailed

  datatype Unit = Unit(apiVersion: string, kind: string, ns: string, name: string, phase: Phase)

  datatype WriteOutcome = Written | Ignored | WriteFailed

  /** How the client calls for one template turn out; true means failure. */
  datatype ApplyFaults = ApplyFaults(
    override: bool, paused: bool, denied: bool, lookup: bool,
    create: bool, namespace: bool, retry: bool, update: WriteOutcome)

  datatype DeleteFaults = DeleteFaults(lookup: bool, delete: bool)

  function Anno(a: Annotations, k: AnnoKey): string {
    if k in a then a[k] else ""
  }

  // ----- hosts

  function HostString(k: SubKey): string {
    k.ns + "/" + k.name
  }

  predicate ValidSub(k: SubKey) {
    '/' !in k.ns && '/' !in k.name && k.ns != "" && k.name != ""
  }

  function Twin(k: SubKey): SubKey {
    NamespacedName(k.ns, k.name + "-local")
  }

  /** GetHostSubscriptionFromObject: the annotation must have exactly two parts. */
  function HostOf(a: Annotations): Option<SubKey> {
    var source := Anno(a, Hosting);
    var i := IndexOf(source, '/');
    if source == "" || i == |source| || '/' in source[i + 1..] then None
    else Some(NamespacedName(source[..i], source[i + 1..]))
  }

  lemma {:induction false} HostRoundTrip(a: Annotations, k: SubKey)
    requires ValidSub(k)
    ensures HostOf(a) == Some(k) <==> Anno(a, Hosting) == HostString(k)
  {
    var source, i := Anno(a, Hosting), IndexOf(Anno(a, Hosting), '/');
    if source == HostString(k) {
      IndexOfFirst(k.ns, '/', k.name);
      assert source[..i] == k.ns && source[i + 1..] == k.name;
    }
    if HostOf(a) == Some(k) {
      assert source == source[..i] + [source[i]] + source[i + 1..];
    }
  }

  /** An annotation names a host exactly when it has one slash: the host is what stands on its two sides. */
  lemma {:induction false} HostHasOneSlash(a: Annotations)
    ensures HostOf(a).Some? <==> Count(Anno(a, Hosting), '/') == 1
    ensures forall k :: HostOf(a) == Some(k) ==> k.ns + "/" + k.name == Anno(a, Hosting)
  {
    var source, i := Anno(a, Hosting), IndexOf(Anno(a, Hosting), '/');
    CountBehindFirst(source, '/');
    if i < |source| {
      CountIsZero(source[i + 1..], '/');
      assert source == source[..i] + "/" + source[i + 1..];
    }
  }

  /** The annotation is "namespace/name"; the twin's name ends in "-local". */
  lemma {:induction false} HostIsWritten(ns: string, name: string)
    ensures HostString(NamespacedName(ns, name)) == ns + "/" + name
    ensures HostString(Twin(NamespacedName(ns, name))) == ns + "/" + name + "-local"
  {
    assert ns + "/" + (name + "-local") == ns + "/" + name + "-local";
  }

  predicate IsObjectOwnedByHost(o: Obj, host: SubKey) {
    ManagedCluster !in o.annotations && HostOf(o.annotations) == Some(host)
  }

  // ----- applying a template

  /** OverrideResource: the host is set unless the source already names one. */
  function Override(sub: SubKey, t: Template): Template {
    var hosted := if Anno(t.annotations, Hosting) != "" then t.annotations
                  else t.annotations[Hosting := HostString(sub)];
    t.(name := if t.name == "" then sub.name else t.name, annotations := hosted - {ManagedCluster})
  }

  function TemplateKey(m: Mapping, t: Template): Key {
    Key(m.resource, if m.namespaced then t.ns else "", t.name)
  }

  const NAMESPACES := "namespaces"

  function NamespaceKey(ns: string): Key {
    Key(NAMESPACES, "", ns)
  }

  predicate IsSpecialResource(resource: string) {
    resource == "services" || resource == "serviceaccounts" || resource == NAMESPACES
  }

  function AutoNamespace(t: Template): Obj {
    var host, admin := Anno(t.annotations, Hosting), Anno(t.annotations, ClusterAdmin);
    var hosted: Annotations := if host == "" then map[] else map[Hosting := host, SyncSource := "subnsdpl-" + host];
    Obj(if admin == "" then hosted else hosted[ClusterAdmin := admin], Object(map[]))
  }

  predicate IsAutoNamespace(o: Obj) {
    Anno(o.annotations, SyncSource) == "subnsdpl-" + Anno(o.annotations, Hosting)
  }

  /** createNewResourceByTemplateUnit: a missing namespace is created first. */
  function CreateNew(objs: Objects, m: Mapping, t: Template, f: ApplyFaults): (Objects, bool) {
    var obj := Obj(t.annotations, t.body);
    if f.create then (objs, false)
    else if !m.namespaced || NamespaceKey(t.ns) in objs then (objs[TemplateKey(m, t) := obj], true)
    else if f.namespace then (objs, false)
    else
      var withNs := objs[NamespaceKey(t.ns) := AutoNamespace(t)];
      if f.retry then (withNs, false) else (withNs[TemplateKey(m, t) := obj], true)
  }

  predicate IsHelmRelease(t: Template) {
    EqualFold(t.apiVersion, "apps.open-cluster-management.io/v1") && EqualFold(t.kind, "helmrelease")
  }

  predicate IsSubscription(t: Template) {
    EqualFold(t.apiVersion, "apps.open-cluster-management.io/v1") && EqualFold(t.kind, "subscription")
  }

  predicate HasOption(t: Template, option: string) {
    EqualFold(Anno(t.annotations, ReconcileOption), option)
  }

  predicate MayTakeOver(t: Template) {
    EqualFold(Anno(t.annotations, ClusterAdmin), "true") &&
    (HasOption(t, "merge") || HasOption(t, "replace") || HasOption(t, "mergeandown"))
  }

  function RemoveSubAnnotations(a: Annotations): Annotations {
    a - {ClusterAdmin, Hosting, SyncSource, HostingDeployable, ChannelType}
  }

  /** updateResourceByTemplateUnit: the object stored afterwards, and whether it went well. */
  function UpdateExisting(orig: Obj, m: Mapping, t: Template, outcome: WriteOutcome): (Obj, bool) {
    var owner := HostOf(t.annotations);
    var foreign := owner.Some? && !IsObjectOwnedByHost(orig, owner.value);
    if foreign && !MayTakeOver(t) then (orig, false)
    else
      var merge := !HasOption(t, "replace") && !IsSubscription(t);
      var annotations := if foreign && merge && !HasOption(t, "mergeandown")
                         then RemoveSubAnnotations(t.annotations) else t.annotations;
      if (merge || IsSpecialResource(m.resource)) && !IsHelmRelease(t) then
        if outcome.Written? then (Obj(orig.annotations + annotations, Patched(orig.body, t.body)), true)
        else (orig, false)
      else
        match outcome
        case Written => (Obj(annotations, t.body), true)
        case Ignored => (orig, true)
        case WriteFailed => (orig, false)
  }

  function ApplyTemplate(objs: Objects, m: Mapping, t: Template, isAdmin: bool, f: ApplyFaults): (Objects, bool) {
    var key := TemplateKey(m, t);
    if f.paused then (objs, true)
    else if (!m.namespaced && !isAdmin) || f.denied || f.lookup then (objs, false)
    else if key !in objs then CreateNew(objs, m, t, f)
    else
      var (obj, ok) := UpdateExisting(objs[key], m, t, f.update);
      (objs[key := obj], ok)
  }

  /** One turn of the loop of ProcessSubResources: the cluster after it and the unit it reports. */
  function ApplyResource(rest: RestMapper, objs: Objects, sub: SubKey, isAdmin: bool, t: Template, f: ApplyFaults)
    : (Objects, Unit)
  {
    if f.override || t.kind == "" then (objs, Unit("", "", "", "", DeployFailed))
    else
      var o := Override(sub, t);
      if (o.apiVersion, o.kind) !in rest then (objs, Unit(o.apiVersion, o.kind, o.ns, o.name, DeployFailed))
      else
        var m := rest[(o.apiVersion, o.kind)];
        var (after, ok) := ApplyTemplate(objs, m, o, isAdmin, f);
        (after, Unit(o.apiVersion, o.kind, if m.namespaced then o.ns else "", o.name,
                     if ok then Deployed else DeployFailed))
  }

  // ----- deleting a unit

  /** ParseAPIVersion yields neither a group nor a version. */
  predicate BadApiVersion(v: string) {
    var i := IndexOf(v, '/');
    v == "" || v == "/" || (i < |v| && '/' in v[i + 1..])
  }

  /** Neither a version nor a group and a version: empty, a lone slash, or more than one. */
  lemma {:induction false} BadApiVersionIs(v: string)
    ensures BadApiVersion(v) <==> v == "" || v == "/" || Count(v, '/') > 1
  {
    CountBehindFirst(v, '/');
    var i := IndexOf(v, '/');
    if i < |v| {
      CountIsZero(v[i + 1..], '/');
    }
  }

  /** The object that a unit names, if its kind is known. */
  function KeyOf(rest: RestMapper, u: Unit): Option<Key> {
    if BadApiVersion(u.apiVersion) || (u.apiVersion, u.kind) !in rest then None
    else
      var m := rest[(u.apiVersion, u.kind)];
      Some(Key(m.resource, if m.namespaced then u.ns else "", u.name))
  }

  predicate Kept(o: Obj) {
    Anno(o.annotations, DoNotDelete) == "true"
  }

  predicate HostedByGroup(o: Obj, host: SubKey) {
    Anno(o.annotations, Hosting) == HostString(host) || Anno(o.annotations, Hosting) == HostString(Twin(host))
  }

  /** DeleteSingleSubscribedResource */
  function DeleteUnit(rest: RestMapper, objs: Objects, host: SubKey, u: Unit, f: DeleteFaults): (Objects, bool) {
    if BadApiVersion(u.apiVersion) then (objs, u.phase.DeployFailed?)
    else
      var key := KeyOf(rest, u);
      if key.None? then (objs, false)
      else if f.lookup || key.value !in objs then (objs, true)
      else if Kept(objs[key.value]) || !HostedByGroup(objs[key.value], host) then (objs, true)
      else if f.delete then (objs, false)
      else (objs - {key.value}, true)
  }
}
