/**
 JSON documents, the layer merge a configuration is composed with, and the merge patch
 (RFC 7386) it is delivered as. The two operations differ in what `null` means: a value to
 the merge, a deletion to the patch.
 */
module Json {
  import opened Outcomes

  datatype Json =
    | Null
    | Bool(flag: bool)
    | Num(number: int)
    | Str(text: string)
    | Arr(items: seq<Json>)
    | Obj(fields: map<string, Json>)
  {
    /** The member under `key`, or nothing for a value that is not an object. */
    predicate Has(key: string) {
      Obj? && key in fields
    }

    function Get(key: string): Json
      requires Has(key)
    {
      fields[key]
    }
  }

  const EMPTY := Obj(map[])

  function Lookup(document: Json, key: string): Option<Json> {
    if document.Has(key) then Some(document.Get(key)) else None
  }

  // --- Layer merge ----------------------------------------------------------------------------

  /** `overlay` on `base`: objects member by member, anything else by replacement. */
  function Merge(base: Json, overlay: Json): Json
    decreases overlay
  {
    if base.Obj? && overlay.Obj? then
      Obj(map k | k in base.fields.Keys + overlay.fields.Keys ::
        if k !in overlay.fields then base.fields[k]
        else if k !in base.fields then overlay.fields[k]
        else Merge(base.fields[k], overlay.fields[k]))
    else
      overlay
  }

  /** The layers merged from the least specific to the most specific. */
  function MergeLayers(layers: seq<Json>): Json {
    if layers == [] then EMPTY
    else Merge(MergeLayers(layers[..|layers| - 1]), layers[|layers| - 1])
  }

  /** No member of an object, at any depth of objects, is `null`. Arrays are opaque to both
      operations, so what an array holds does not matter. */
  predicate NullFree(value: Json)
    decreases value
  {
    value.Obj? ==>
      forall k :: k in value.fields ==> value.fields[k] != Null && NullFree(value.fields[k])
  }

  lemma {:induction false} MergeNullFree(base: Json, overlay: Json)
    requires base != Null && overlay != Null
    requires NullFree(base) && NullFree(overlay)
    ensures Merge(base, overlay) != Null && NullFree(Merge(base, overlay))
    decreases overlay
  {
    if base.Obj? && overlay.Obj? {
      forall k | k in base.fields && k in overlay.fields
        ensures Merge(base.fields[k], overlay.fields[k]) != Null
        ensures NullFree(Merge(base.fields[k], overlay.fields[k]))
      {
        MergeNullFree(base.fields[k], overlay.fields[k]);
      }
    }
  }

  lemma {:induction false} MergeLayersNullFree(layers: seq<Json>)
    requires forall i :: 0 <= i < |layers| ==> layers[i] != Null && NullFree(layers[i])
    ensures MergeLayers(layers) != Null && NullFree(MergeLayers(layers))
  {
    if layers != [] {
      MergeLayersNullFree(layers[..|layers| - 1]);
      MergeNullFree(MergeLayers(layers[..|layers| - 1]), layers[|layers| - 1]);
    }
  }

  // --- Merge patch ----------------------------------------------------------------------------

  /** What a store makes of `target` when it is sent `patch`. */
  function ApplyPatch(target: Json, patch: Json): Json
    decreases patch
  {
    if !patch.Obj? then patch
    else
      var base := if target.Obj? then target.fields else map[];
      Obj(map k | k in base.Keys + patch.fields.Keys && !(k in patch.fields && patch.fields[k] == Null) ::
        if k !in patch.fields then base[k]
        else ApplyPatch(if k in base then base[k] else Null, patch.fields[k]))
  }

  /** The patch the cloud sends for the change from `before` to `after`. */
  function Diff(before: Json, after: Json): Json
    decreases after
  {
    if !(before.Obj? && after.Obj?) then after
    else
      Obj(map k | k in before.fields.Keys + after.fields.Keys
                  && !(k in before.fields && k in after.fields && before.fields[k] == after.fields[k]) ::
        if k !in after.fields then Null
        else if k !in before.fields then after.fields[k]
        else Diff(before.fields[k], after.fields[k]))
  }

  /** When the patch from `before` to `after` says exactly that change: every `null` in `after`
      sits in a member `before` already held with the same value. */
  predicate Patchable(before: Json, after: Json)
    decreases after
  {
    if before.Obj? && after.Obj? then
      forall k :: k in after.fields ==>
        || (k in before.fields && before.fields[k] == after.fields[k])
        || (&& after.fields[k] != Null
            && if k in before.fields then Patchable(before.fields[k], after.fields[k])
               else NullFree(after.fields[k]))
    else
      NullFree(after)
  }

  /** A value sent where nothing, or no object, was held arrives without the members that are
      `null`: it arrives whole exactly when it has none. */
  lemma {:induction false} FreshPatch(target: Json, value: Json)
    requires !target.Obj?
    ensures ApplyPatch(target, value) == value <==> NullFree(value)
    decreases value
  {
    if value.Obj? {
      var applied := ApplyPatch(target, value);
      forall k | k in value.fields && value.fields[k] != Null
        ensures applied.fields[k] == value.fields[k] <==> NullFree(value.fields[k])
      {
        FreshPatch(Null, value.fields[k]);
      }
      if NullFree(value) {
        assert applied.fields == value.fields;
      } else {
        var k :| k in value.fields && !(value.fields[k] != Null && NullFree(value.fields[k]));
        assert value.fields[k] == Null ==> k !in applied.fields;
      }
    }
  }

  /** The round trip the delta format rests on, with the exact condition it holds under. */
  lemma {:induction false} PatchRoundTrip(before: Json, after: Json)
    ensures ApplyPatch(before, Diff(before, after)) == after <==> Patchable(before, after)
    decreases after
  {
    if !(before.Obj? && after.Obj?) {
      if after.Obj? {
        FreshPatch(before, after);
      }
    } else {
      var patch := Diff(before, after);
      var applied := ApplyPatch(before, patch);
      forall k | k in after.fields
        ensures k in applied.fields && applied.fields[k] == after.fields[k] <==>
                PatchableMember(before, after, k)
      {
        PatchMember(before, after, k);
      }
      assert forall k :: k in applied.fields ==> k in after.fields;
      if Patchable(before, after) {
        assert forall k :: k in after.fields ==> PatchableMember(before, after, k);
        assert applied.fields == after.fields;
      } else {
        var k :| k in after.fields && !PatchableMember(before, after, k);
        assert applied.fields != after.fields;
      }
    }
  }

  predicate PatchableMember(before: Json, after: Json, k: string)
    requires before.Obj? && after.Has(k)
  {
    || (k in before.fields && before.fields[k] == after.fields[k])
    || (&& after.fields[k] != Null
        && if k in before.fields then Patchable(before.fields[k], after.fields[k])
           else NullFree(after.fields[k]))
  }

  lemma {:induction false} PatchMember(before: Json, after: Json, k: string)
    requires before.Obj? && after.Has(k)
    ensures var applied := ApplyPatch(before, Diff(before, after));
            && applied.Obj?
            && (applied.Has(k) && applied.fields[k] == after.fields[k] <==>
                PatchableMember(before, after, k))
    decreases after, 0
  {
    var patch := Diff(before, after);
    if k in before.fields {
      PatchRoundTrip(before.fields[k], after.fields[k]);
      if before.fields[k] != after.fields[k] && after.fields[k] != Null {
        assert patch.fields[k] != Null by {
          if before.fields[k].Obj? && after.fields[k].Obj? {
            assert Diff(before.fields[k], after.fields[k]).Obj?;
          }
        }
      }
    } else {
      FreshPatch(Null, after.fields[k]);
    }
  }

  /** A document with no `null` is always delivered exactly. */
  lemma {:induction false} NullFreePatchable(before: Json, after: Json)
    requires NullFree(after)
    ensures Patchable(before, after)
    decreases after
  {
    if before.Obj? && after.Obj? {
      forall k | k in after.fields && k in before.fields
        ensures Patchable(before.fields[k], after.fields[k])
      {
        NullFreePatchable(before.fields[k], after.fields[k]);
      }
    }
  }

  /** A layer that starts writing a `null` is not delivered by a patch: the store ends without the
      member, while the document the cloud holds carries it. */
  lemma NewNullIsLost()
    ensures var before, after := Obj(map["a" := Num(1)]), Obj(map["a" := Null]);
            && ApplyPatch(before, Diff(before, after)) == EMPTY != after
            && MergeLayers([before, after]) == after
  {
    var before, after := Obj(map["a" := Num(1)]), Obj(map["a" := Null]);
    assert ApplyPatch(before, Diff(before, after)).fields == map[];
    assert "a" in after.fields;
    assert [before, after][..1] == [before];
    assert Merge(EMPTY, before).fields == before.fields;
    assert MergeLayers([before]) == before by { assert [before][..0] == []; }
    assert Merge(before, after).fields == after.fields;
  }
}
