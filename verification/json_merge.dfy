/**
 The merge patch that the synchronizer sends (jsonmergepatch with the template as
 both the original and the modified document) and its application by the API
 server, section 2 of RFC 7396.  Documents carry no nulls, so a patch never deletes.
 */
module JsonMerge {

  datatype Json = Scalar(text: string) | Array(items: seq<Json>) | Object(fields: map<string, Json>)

  const EMPTY := Object(map[])

  /** The additions and changes that lead from object `current` to object `wanted`. */
  function CreatePatch(current: Json, wanted: Json): (patch: Json)
    requires current.Object? && wanted.Object?
    ensures patch.Object?
    decreases wanted, 0
  {
    Object(map k | k in wanted.fields && Differs(current, k, wanted.fields[k]) ::
             if k in current.fields && current.fields[k].Object? && wanted.fields[k].Object?
             then CreatePatch(current.fields[k], wanted.fields[k])
             else wanted.fields[k])
  }

  predicate Differs(current: Json, k: string, want: Json)
    requires current.Object?
    decreases want, 1
  {
    if k !in current.fields then true
    else if current.fields[k].Object? && want.Object? then CreatePatch(current.fields[k], want) != EMPTY
    else current.fields[k] != want
  }

  function FieldsOf(j: Json): map<string, Json> {
    if j.Object? then j.fields else map[]
  }

  function FieldOf(j: Json, k: string): Json {
    if k in FieldsOf(j) then FieldsOf(j)[k] else EMPTY
  }

  /** MergePatch of RFC 7396: an absent or non-object target counts as the empty object. */
  function MergePatch(target: Json, patch: Json): (result: Json)
    ensures patch.Object? <==> result.Object?
    decreases patch
  {
    if !patch.Object? then patch else
    Object(map k | k in FieldsOf(target).Keys + patch.fields.Keys ::
             if k in patch.fields then MergePatch(FieldOf(target, k), patch.fields[k]) else FieldsOf(target)[k])
  }

  /** What the server stores after the synchronizer patched `current` towards `wanted`. */
  function Patched(current: Json, wanted: Json): Json
    requires current.Object? && wanted.Object?
  {
    MergePatch(current, CreatePatch(current, wanted))
  }

  /** Leaving out what is already right changes nothing: the patch acts as the whole template. */
  lemma {:induction false} PatchActsAsTemplate(current: Json, wanted: Json)
    requires current.Object? && wanted.Object?
    ensures Patched(current, wanted) == MergePatch(current, wanted)
    decreases wanted
  {
    var patch := CreatePatch(current, wanted);
    forall k | k in wanted.fields
      ensures (if k in patch.fields then MergePatch(FieldOf(current, k), patch.fields[k]) else FieldOf(current, k)) ==
              MergePatch(FieldOf(current, k), wanted.fields[k])
      ensures k !in patch.fields ==> k in current.fields
    {
      var want := wanted.fields[k];
      assert k in patch.fields <==> Differs(current, k, want);
      if k in current.fields && current.fields[k].Object? && want.Object? {
        assert k in patch.fields ==> patch.fields[k] == CreatePatch(current.fields[k], want);
        PatchActsAsTemplate(current.fields[k], wanted.fields[k]);
        MergeEmpty(current.fields[k]);
      }
    }
    assert Patched(current, wanted).fields == MergePatch(current, wanted).fields;
  }

  lemma {:induction false} MergeEmpty(target: Json)
    requires target.Object?
    ensures MergePatch(target, EMPTY) == target
  {
    assert MergePatch(target, EMPTY).fields == target.fields;
  }

  /** Applying a template to an object that it was already merged into changes nothing. */
  lemma {:induction false} MergeTwice(current: Json, wanted: Json)
    ensures MergePatch(MergePatch(current, wanted), wanted) == MergePatch(current, wanted)
    decreases wanted
  {
    if wanted.Object? {
      var once := MergePatch(current, wanted);
      forall k | k in wanted.fields
        ensures MergePatch(FieldOf(once, k), wanted.fields[k]) == once.fields[k]
      {
        MergeTwice(FieldOf(current, k), wanted.fields[k]);
      }
      assert MergePatch(once, wanted).fields == once.fields;
    }
  }

  /** Every field of the template is in the patched object, recursively. */
  ghost predicate Includes(j: Json, part: Json)
    decreases part
  {
    if part.Object? then
      j.Object? && forall k | k in part.fields :: k in j.fields && Includes(j.fields[k], part.fields[k])
    else j == part
  }

  lemma {:induction false} PatchedIncludes(current: Json, wanted: Json)
    ensures Includes(MergePatch(current, wanted), wanted)
    decreases wanted
  {
    if wanted.Object? {
      forall k | k in wanted.fields
        ensures Includes(MergePatch(current, wanted).fields[k], wanted.fields[k])
      {
        PatchedIncludes(FieldOf(current, k), wanted.fields[k]);
      }
    }
  }

  /** The fields that the template does not name are as before, recursively, and there are no others. */
  ghost predicate Preserves(before: Json, after: Json, part: Json)
    decreases part
  {
    part.Object? ==>
      after.Object? && after.fields.Keys == FieldsOf(before).Keys + part.fields.Keys &&
      (forall k | k in FieldsOf(before) && k !in part.fields :: after.fields[k] == FieldsOf(before)[k]) &&
      forall k | k in part.fields :: Preserves(FieldOf(before, k), after.fields[k], part.fields[k])
  }

  /** Merging is the one way to include the template and to leave all else as it is. */
  lemma {:induction false} MergesExactly(before: Json, after: Json, part: Json)
    ensures after == MergePatch(before, part) <==> Includes(after, part) && Preserves(before, after, part)
    decreases part
  {
    if part.Object? {
      var merged := MergePatch(before, part);
      forall k | k in part.fields && after.Object? && k in after.fields
        ensures after.fields[k] == merged.fields[k] <==>
                Includes(after.fields[k], part.fields[k]) && Preserves(FieldOf(before, k), after.fields[k],
                  part.fields[k])
      {
        MergesExactly(FieldOf(before, k), after.fields[k], part.fields[k]);
      }
      if Includes(after, part) && Preserves(before, after, part) {
        assert after.fields == merged.fields;
      }
    }
  }

  /** The patch towards a template is empty if and only if the object includes the template. */
  lemma {:induction false} EmptyPatchIff(current: Json, wanted: Json)
    requires current.Object? && wanted.Object?
    ensures CreatePatch(current, wanted) == EMPTY <==> Includes(current, wanted)
    decreases wanted
  {
    var patch := CreatePatch(current, wanted);
    forall k | k in wanted.fields
      ensures k !in patch.fields <==> k in current.fields && Includes(current.fields[k], wanted.fields[k])
    {
      assert k in patch.fields <==> Differs(current, k, wanted.fields[k]);
      if k in current.fields && current.fields[k].Object? && wanted.fields[k].Object? {
        EmptyPatchIff(current.fields[k], wanted.fields[k]);
      }
    }
    assert patch == EMPTY <==> forall k | k in wanted.fields :: k !in patch.fields;
  }

  /** The second patch towards the same template is empty and leaves the object as it is. */
  lemma {:induction false} PatchIsIdempotent(current: Json, wanted: Json)
    requires current.Object? && wanted.Object?
    ensures CreatePatch(Patched(current, wanted), wanted) == EMPTY
    ensures Patched(Patched(current, wanted), wanted) == Patched(current, wanted)
  {
    PatchActsAsTemplate(current, wanted);
    PatchedIncludes(current, wanted);
    EmptyPatchIff(Patched(current, wanted), wanted);
    MergeEmpty(Patched(current, wanted));
  }
}
