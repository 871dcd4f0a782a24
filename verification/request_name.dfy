/**
 Reconcile requests fired by a placement decision carry the decision's
 resource version behind a flag in the request name
 (pkg/controller/mcmhub/mcmhub_controller.go).
 */
module RequestName {

  const FLAG := "--fired-by-placementdecision"

  /** What a request says: whether a placement decision fired it, whose subscription, which version. */
  datatype Request = Request(fired: bool, name: string, version: string)

  predicate OccursAt(s: string, a: string, k: nat) {
    k + |a| <= |s| && s[k..k + |a|] == a
  }

  ghost predicate Contains(s: string, a: string) {
    exists k: nat :: OccursAt(s, a, k)
  }

  /** The last occurrence of a starting below the bound, or -1. */
  function LastIndexBelow(s: string, a: string, bound: nat): (k: int)
    ensures -1 <= k < bound && (k >= 0 ==> OccursAt(s, a, k))
    ensures forall j: nat | k < j < bound :: !OccursAt(s, a, j)
  {
    if bound == 0 then -1
    else if OccursAt(s, a, bound - 1) then bound - 1
    else LastIndexBelow(s, a, bound - 1)
  }

  function LastIndex(s: string, a: string): (k: int)
    ensures k < 0 <==> !Contains(s, a)
    ensures k >= 0 ==> OccursAt(s, a, k) && forall j: nat | k < j :: !OccursAt(s, a, j)
  {
    LastIndexBelow(s, a, |s| + 1)
  }

  function TrimSuffix(s: string, suffix: string): (r: string)
    ensures r == s || r + suffix == s
  {
    if |suffix| <= |s| && s[|s| - |suffix|..] == suffix then s[..|s| - |suffix|] else s
  }

  /** The part of the value behind the last occurrence, "" when there is none. */
  function After(value: string, a: string): string {
    var k := LastIndex(value, a);
    if k < 0 || k + |a| >= |value| then "" else value[k + |a|..]
  }

  function Encode(name: string, version: string): string {
    name + FLAG + version
  }

  function Decode(request: string): Request {
    if LastIndex(request, FLAG) >= 0 then
      var version := After(request, FLAG);
      Request(true, TrimSuffix(TrimSuffix(request, version), FLAG), version)
    else
      Request(false, request, "")
  }

  /** Decoding splits a request at the last flag. */
  lemma {:induction false} DecodeSplits(request: string)
    requires Contains(request, FLAG)
    ensures var k := LastIndex(request, FLAG);
            Decode(request) == Request(true, request[..k], request[k + |FLAG|..])
  {
    var k := LastIndex(request, FLAG);
    var version := After(request, FLAG);
    assert version == request[k + |FLAG|..];
    assert request[|request| - |version|..] == version;
    var flagged := TrimSuffix(request, version);
    assert flagged == request[..k + |FLAG|];
    assert flagged[|flagged| - |FLAG|..] == FLAG;
    assert TrimSuffix(flagged, FLAG) == request[..k];
  }

  lemma {:induction false} CharOfOccurrence(s: string, a: string, k: nat, i: nat)
    requires OccursAt(s, a, k) && i < |a|
    ensures s[k + i] == a[i]
  {
    assert s[k..k + |a|][i] == a[i];
  }

  /** No proper prefix of the flag is one of its suffixes: two occurrences cannot overlap. */
  lemma {:induction false} FlagHasNoBorder(d: nat) returns (i: nat)
    requires 0 < d < |FLAG|
    ensures d + i < |FLAG| && FLAG[d + i] != FLAG[i]
  {
    i := if FLAG[d] == FLAG[0] then 1 else 0;
  }

  /** An occurrence behind the inserted flag lies wholly in the version. */
  lemma {:induction false} LaterFlagIsInVersion(name: string, version: string, k: nat)
    requires |name| < k && OccursAt(Encode(name, version), FLAG, k)
    ensures k >= |name| + |FLAG| && OccursAt(version, FLAG, k - |name| - |FLAG|)
  {
    var s := Encode(name, version);
    var d := k - |name|;
    if d < |FLAG| {
      var i := FlagHasNoBorder(d);
      CharOfOccurrence(s, FLAG, k, i);
    } else {
      assert version[d - |FLAG|..d] == s[k..k + |FLAG|];
    }
  }

  /** Whatever the subscription's name, a request decodes to what was encoded iff the version holds no flag. */
  lemma {:induction false} RequestRoundTrip(name: string, version: string)
    ensures Decode(Encode(name, version)) == Request(true, name, version) <==> !Contains(version, FLAG)
  {
    var s := Encode(name, version);
    var k := LastIndex(s, FLAG);
    assert OccursAt(s, FLAG, |name|);
    DecodeSplits(s);
    if k > |name| {
      LaterFlagIsInVersion(name, version, k);
      assert |Decode(s).version| < |version|;
    } else {
      forall j: nat ensures !OccursAt(version, FLAG, j) {
        var at := |name| + |FLAG| + j;
        assert j + |FLAG| <= |version| ==> s[at..at + |FLAG|] == version[j..j + |FLAG|];
        assert !OccursAt(s, FLAG, at);
      }
      assert s[..k] == name && s[k + |FLAG|..] == version;
    }
  }

  /** Conversely a fired request is always the encoding of what it decodes to. */
  lemma {:induction false} DecodedRequestEncodes(request: string)
    ensures var r := Decode(request);
            request == if r.fired then Encode(r.name, r.version) else r.name
    ensures Decode(request).fired ==> !Contains(Decode(request).version, FLAG)
  {
    if Contains(request, FLAG) {
      DecodeSplits(request);
      var k := LastIndex(request, FLAG);
      assert request == request[..k] + request[k..k + |FLAG|] + request[k + |FLAG|..];
      var r := Decode(request);
      RequestRoundTrip(r.name, r.version);
    }
  }

  /** Requests of different subscriptions or versions never coincide. */
  lemma {:induction false} RequestsAreDistinct(name: string, version: string, otherName: string, otherVersion: string)
    requires !Contains(version, FLAG) && !Contains(otherVersion, FLAG)
    requires Encode(name, version) == Encode(otherName, otherVersion)
    ensures name == otherName && version == otherVersion
  {
    RequestRoundTrip(name, version);
    RequestRoundTrip(otherName, otherVersion);
  }

  /** A request that no decision fired keeps its name iff the name holds no flag. */
  lemma {:induction false} PlainRequest(name: string)
    ensures Decode(name) == Request(false, name, "") <==> !Contains(name, FLAG)
    ensures Decode(name).name == name <==> !Contains(name, FLAG)
  {
    if Contains(name, FLAG) {
      DecodeSplits(name);
    }
  }
}
