/** JSON Merge Patch as the PATCH handler applies it, against section 2 of RFC 7396. */
module MergePatch {
  import opened Options

  datatype Json =
    | JNull
    | JBool(flag: bool)
    | JNumber(text: string)
    | JString(value: string)
    | JArray(items: seq<Json>)
    | JObject(members: map<string, Json>)

  type Members = map<string, Json>

  /** The members of a target, which is emptied first when it is not an object. */
  function Base(target: Option<Json>): Members {
    if target.Some? && target.value.JObject? then target.value.members else map[]
  }

  function Member(m: Members, k: string): Option<Json> {
    if k in m then Some(m[k]) else None
  }

  /** `MergePatch` of section 2 of RFC 7396; `None` is a member the target does not have. */
  function Merge(target: Option<Json>, patch: Json): Json
    decreases patch
  {
    if !patch.JObject? then patch
    else
      var base := Base(target);
      JObject(map k | k in base.Keys + patch.members.Keys && !(k in patch.members && patch.members[k].JNull?) ::
                if k in patch.members then Merge(Member(base, k), patch.members[k]) else base[k])
  }

  /** One turn of the loop over the patch's members, in place on the target's members. */
  function Apply(m: Members, k: string, v: Json): Members {
    if v.JNull? then m - {k} else m[k := Merge(Some(if k in m then m[k] else JObject(map[])), v)]
  }

  /** A missing member and a freshly inserted empty object are patched alike. */
  lemma EmptyObjectIsAbsent(patch: Json)
    ensures Merge(Some(JObject(map[])), patch) == Merge(None, patch)
  {
  }

  /** The members of the merge when only the patch members in `done` have been applied. */
  function Partly(base: Members, patch: Members, done: set<string>): Members
    requires done <= patch.Keys
  {
    map k | k in base.Keys + done && !(k in done && patch[k].JNull?) ::
      if k in done then Merge(Member(base, k), patch[k]) else base[k]
  }

  lemma PartlyStep(base: Members, patch: Members, done: set<string>, k: string)
    requires done <= patch.Keys && k in patch && k !in done
    ensures Partly(base, patch, done + {k}) == Apply(Partly(base, patch, done), k, patch[k])
  {
  }

  /** The in-place merge, visiting the patch's members in whatever order they come. */
  method JsonMergePatch(target: Json, patch: Json) returns (result: Json)
    ensures result == Merge(Some(target), patch)
    decreases patch
  {
    if !patch.JObject? {
      return patch;
    }
    var base := if target.JObject? then target.members else map[];
    var obj := base;
    var todo := patch.members.Keys;
    ghost var done: set<string> := {};
    assert Partly(base, patch.members, {}) == base;
    while todo != {}
      invariant todo <= patch.members.Keys && done == patch.members.Keys - todo
      invariant obj == Partly(base, patch.members, done)
      decreases todo
    {
      var k :| k in todo;
      var value := patch.members[k];
      PartlyStep(base, patch.members, done, k);
      if value.JNull? {
        obj := obj - {k};
      } else {
        if k !in obj {
          obj := obj[k := JObject(map[])];
        }
        var merged := JsonMergePatch(obj[k], value);
        obj := obj[k := merged];
      }
      todo := todo - {k};
      done := done + {k};
    }
    result := JObject(obj);
  }

  /** Applying the same patch again changes nothing. */
  lemma {:induction false} MergeIdempotent(target: Option<Json>, patch: Json)
    ensures Merge(Some(Merge(target, patch)), patch) == Merge(target, patch)
    decreases patch
  {
    if patch.JObject? {
      var base := Base(target);
      var once := Merge(target, patch).members;
      forall k | k in patch.members && !patch.members[k].JNull?
        ensures Merge(Member(once, k), patch.members[k]) == once[k]
      {
        MergeIdempotent(Member(base, k), patch.members[k]);
      }
    }
  }

  /** No member of an object is null; arrays are opaque to a merge patch. */
  predicate NoNullMembers(j: Json)
    decreases j
  {
    j.JObject? ==> forall k :: k in j.members ==> !j.members[k].JNull? && NoNullMembers(j.members[k])
  }

  /** A null in a patch only ever deletes: it never ends up as a member. */
  lemma {:induction false} MergeAddsNoNull(target: Option<Json>, patch: Json)
    requires target.Some? ==> NoNullMembers(target.value)
    ensures NoNullMembers(Merge(target, patch))
    decreases patch
  {
    if patch.JObject? {
      var base := Base(target);
      var m := Merge(target, patch).members;
      forall k | k in m ensures !m[k].JNull? && NoNullMembers(m[k]) {
        if k in patch.members {
          MergeAddsNoNull(Member(base, k), patch.members[k]);
        }
      }
    }
  }
}
