/** The presence-aware merge of a patch onto the live configuration
    (internal/service/config_patch.go).

    The recursion is the one of section 2 of RFC 7396, except that null replaces the live
    value instead of deleting the key.  What the merge means is stated through `At`: the
    value a document holds at a path of keys.
 */
module JsonMerge {
  import opened Wrappers

  datatype Json =
    | Null
    | Bool(b: bool)
    | Number(n: real)
    | String(s: string)
    | Array(items: seq<Json>)
    | Object(fields: map<string, Json>)

  type Path = seq<string>

  /** The value at a path, if every step but the last goes through an object. */
  function At(doc: Option<Json>, path: Path): Option<Json>
    decreases path
  {
    if path == [] then doc
    else if doc.Some? && doc.value.Object? && path[0] in doc.value.fields
    then At(Some(doc.value.fields[path[0]]), path[1..])
    else None
  }

  function Field(doc: Option<Json>, name: string): Option<Json> {
    if doc.Some? && doc.value.Object? && name in doc.value.fields then Some(doc.value.fields[name]) else None
  }

  /** One patch value merged onto the live value, which may be absent. */
  function Merge(live: Option<Json>, patch: Json): Json
    decreases patch
  {
    if live.None? || !live.value.Object? || !patch.Object? then patch
    else
      Object(map name | name in live.value.fields.Keys + patch.fields.Keys ::
               if name in patch.fields then Merge(Field(live, name), patch.fields[name])
               else live.value.fields[name])
  }

  /** The merge as the code runs it: the patch's fields are overlaid on a copy of the live
      fields one at a time, in whatever order the map is walked. */
  method MergeValue(live: Option<Json>, patch: Json) returns (merged: Json)
    ensures merged == Merge(live, patch)
    decreases patch
  {
    if live.None? || !live.value.Object? || !patch.Object? {
      return patch;
    }
    var fields, todo := live.value.fields, patch.fields.Keys;
    while todo != {}
      invariant todo <= patch.fields.Keys
      invariant fields.Keys == live.value.fields.Keys + (patch.fields.Keys - todo)
      invariant forall name :: name in fields ==>
        fields[name] == if name in patch.fields && name !in todo then Merge(Field(live, name), patch.fields[name])
                        else live.value.fields[name]
      decreases todo
    {
      var name :| name in todo;
      var value := MergeValue(if name in fields then Some(fields[name]) else None, patch.fields[name]);
      fields := fields[name := value];
      todo := todo - {name};
    }
    merged := Object(fields);
    assert fields == Merge(live, patch).fields;
  }

  /** Each field of a merged object, whether or not the live value was an object. */
  lemma {:induction false} MergeField(live: Option<Json>, patch: Json, name: string)
    requires patch.Object?
    ensures Merge(live, patch).Object?
    ensures Field(Some(Merge(live, patch)), name) ==
      if name in patch.fields then Some(Merge(Field(live, name), patch.fields[name])) else Field(live, name)
  {}

  lemma {:induction false} SameFields(a: Json, b: Json)
    requires a.Object? && b.Object?
    requires forall name :: Field(Some(a), name) == Field(Some(b), name)
    ensures a == b
  {
    forall name ensures name in a.fields <==> name in b.fields {
      assert Field(Some(a), name) == Field(Some(b), name);
    }
    forall name | name in a.fields ensures a.fields[name] == b.fields[name] {
      assert Field(Some(a), name) == Field(Some(b), name);
    }
    assert a.fields == b.fields;
  }

  // ---------- What a merged document holds, path by path ----------

  /** The patch says nothing at the path, above it or below it. */
  predicate Untouched(patch: Json, path: Path)
    decreases path
  {
    && patch.Object? && path != []
    && (path[0] in patch.fields ==> Untouched(patch.fields[path[0]], path[1..]))
  }

  lemma {:induction false} UntouchedAbsent(patch: Json, path: Path)
    requires Untouched(patch, path)
    ensures At(Some(patch), path) == None
    decreases path
  {
    if path[0] in patch.fields {
      UntouchedAbsent(patch.fields[path[0]], path[1..]);
    }
  }

  /** Every path of the merged document: the live value where the patch is silent, the patch
      value merged onto the live one where the patch reaches, and nothing below a patch value
      that is not an object. */
  lemma {:induction false} MergeAt(live: Option<Json>, patch: Json, path: Path)
    ensures At(Some(Merge(live, patch)), path) ==
      if Untouched(patch, path) then At(live, path)
      else if At(Some(patch), path).Some? then Some(Merge(At(live, path), At(Some(patch), path).value))
      else None
    decreases path
  {
    if path != [] && patch.Object? {
      if live.None? || !live.value.Object? {
        if Untouched(patch, path) {
          UntouchedAbsent(patch, path);
        }
        assert At(live, path) == None;
      } else if path[0] in patch.fields {
        MergeAt(Field(live, path[0]), patch.fields[path[0]], path[1..]);
        if Field(live, path[0]).None? && path[1..] != [] {
          assert At(None, path[1..]) == None;
        }
      }
    }
  }

  /** The patch value is installed wherever either side is not an object. */
  lemma {:induction false} MergeInstalls(live: Option<Json>, patch: Json, path: Path)
    requires At(Some(patch), path).Some?
    requires !At(Some(patch), path).value.Object? || At(live, path).None? || !At(live, path).value.Object?
    ensures At(Some(Merge(live, patch)), path) == At(Some(patch), path)
  {
    MergeAt(live, patch, path);
    if Untouched(patch, path) {
      UntouchedAbsent(patch, path);
    }
  }

  lemma {:induction false} MergeIdempotent(live: Option<Json>, patch: Json)
    ensures Merge(Some(Merge(live, patch)), patch) == Merge(live, patch)
    decreases patch
  {
    if patch.Object? {
      var once := Merge(live, patch);
      var twice := Merge(Some(once), patch);
      forall name ensures Field(Some(twice), name) == Field(Some(once), name) {
        MergeField(live, patch, name);
        MergeField(Some(once), patch, name);
        if name in patch.fields {
          MergeIdempotent(Field(live, name), patch.fields[name]);
        }
      }
      SameFields(twice, once);
    }
  }

  // ---------- When two patches commute ----------

  /** Where both patches reach they carry the same value, or both descend further. */
  predicate Compatible(p: Json, q: Json)
    decreases p
  {
    p == q || (p.Object? && q.Object?
               && forall name :: name in p.fields && name in q.fields ==> Compatible(p.fields[name], q.fields[name]))
  }

  lemma {:induction false} CompatibleCommute(live: Option<Json>, p: Json, q: Json)
    requires Compatible(p, q)
    ensures Merge(Some(Merge(live, p)), q) == Merge(Some(Merge(live, q)), p)
    decreases p
  {
    if p != q {
      var pq, qp := Merge(Some(Merge(live, p)), q), Merge(Some(Merge(live, q)), p);
      forall name ensures Field(Some(pq), name) == Field(Some(qp), name) {
        MergeField(live, p, name);
        MergeField(live, q, name);
        MergeField(Some(Merge(live, p)), q, name);
        MergeField(Some(Merge(live, q)), p, name);
        if name in p.fields && name in q.fields {
          CompatibleCommute(Field(live, name), p.fields[name], q.fields[name]);
        }
      }
      SameFields(pq, qp);
    }
  }

  lemma {:induction false} CommuteCompatible(p: Json, q: Json)
    requires Merge(Some(p), q) == Merge(Some(q), p)
    ensures Compatible(p, q)
    decreases p
  {
    if p.Object? && q.Object? {
      forall name | name in p.fields && name in q.fields
        ensures Compatible(p.fields[name], q.fields[name])
      {
        MergeField(Some(p), q, name);
        MergeField(Some(q), p, name);
        CommuteCompatible(p.fields[name], q.fields[name]);
      }
    }
  }

  /** The two patches can be applied to this document in either order. */
  predicate CommuteOn(live: Option<Json>, p: Json, q: Json) {
    Merge(Some(Merge(live, p)), q) == Merge(Some(Merge(live, q)), p)
  }

  /** Two patches can be applied in either order, whatever the live document is, exactly when
      they are compatible; patches on disjoint paths are. */
  lemma {:induction false} MergeCommutes(p: Json, q: Json)
    ensures (forall live :: CommuteOn(live, p, q)) <==> Compatible(p, q)
  {
    if Compatible(p, q) {
      forall live ensures CommuteOn(live, p, q) {
        CompatibleCommute(live, p, q);
      }
    } else {
      assert !CommuteOn(None, p, q) by {
        if CommuteOn(None, p, q) { CommuteCompatible(p, q); }
      }
    }
  }

  // ---------- The configuration patch ----------

  type Fields = map<string, Json>

  /** The patch moves the editor port and leaves it to the model to move the port with it. */
  predicate MovesPort(patch: Fields) {
    "uiPort" in patch && "port" !in patch
  }

  /** A patch applied to the fields of the live configuration. */
  function PatchFields(base: Fields, patch: Fields): Fields {
    var merged := Merge(Some(Object(base)), Object(patch)).fields;
    if MovesPort(patch) then merged["port" := patch["uiPort"]] else merged
  }

  method MergePatch(base: Fields, patch: Fields) returns (merged: Fields)
    ensures merged == PatchFields(base, patch)
  {
    if patch == map[] {
      assert PatchFields(base, patch) == base;
      return base;
    }
    merged := base;
    var todo := patch.Keys;
    while todo != {}
      invariant todo <= patch.Keys
      invariant merged.Keys == base.Keys + (patch.Keys - todo)
      invariant forall name :: name in merged ==>
        merged[name] == if name in patch && name !in todo then Merge(Field(Some(Object(base)), name), patch[name])
                        else base[name]
      decreases todo
    {
      var name :| name in todo;
      var value := MergeValue(if name in merged then Some(merged[name]) else None, patch[name]);
      merged := merged[name := value];
      todo := todo - {name};
    }
    assert merged == Merge(Some(Object(base)), Object(patch)).fields;
    if "port" !in patch && "uiPort" in patch {
      merged := merged["port" := patch["uiPort"]];
    }
  }

  /** A path the patch does not reach keeps its live value, except that the port follows a
      moved editor port. */
  lemma {:induction false} PatchKeeps(base: Fields, patch: Fields, path: Path)
    requires Untouched(Object(patch), path)
    requires MovesPort(patch) ==> path[0] != "port"
    ensures At(Some(Object(PatchFields(base, patch))), path) == At(Some(Object(base)), path)
  {
    MergeAt(Some(Object(base)), Object(patch), path);
  }

  lemma {:induction false} PatchIdempotent(base: Fields, patch: Fields)
    ensures PatchFields(PatchFields(base, patch), patch) == PatchFields(base, patch)
  {
    MergeIdempotent(Some(Object(base)), Object(patch));
    var merged := Merge(Some(Object(base)), Object(patch)).fields;
    if MovesPort(patch) {
      var once := PatchFields(base, patch);
      assert Merge(Some(Object(once)), Object(patch)).fields["port" := patch["uiPort"]]
          == Merge(Some(Object(merged)), Object(patch)).fields["port" := patch["uiPort"]];
    }
  }

  /** One patch moves the port implicitly and the other sets it to something else. */
  predicate PortClash(p: Fields, q: Fields) {
    MovesPort(p) &&
    ((MovesPort(q) && p["uiPort"] != q["uiPort"])
     || ("port" in q && Merge(Some(p["uiPort"]), q["port"]) != p["uiPort"]))
  }

  predicate PatchesCommuteOn(base: Fields, p: Fields, q: Fields) {
    PatchFields(PatchFields(base, p), q) == PatchFields(PatchFields(base, q), p)
  }

  /** Configuration patches commute on every live configuration exactly when they are
      compatible and the port one of them implies is not set otherwise by the other: disjoint
      paths alone are not enough. */
  lemma {:induction false} PatchesCommute(p: Fields, q: Fields)
    ensures (forall base :: PatchesCommuteOn(base, p, q))
      <==> Compatible(Object(p), Object(q)) && !PortClash(p, q) && !PortClash(q, p)
  {
    if Compatible(Object(p), Object(q)) && !PortClash(p, q) && !PortClash(q, p) {
      forall base ensures PatchesCommuteOn(base, p, q) {
        PatchesCommuteIf(base, p, q);
      }
    } else {
      assert !PatchesCommuteOn(map[], p, q) by {
        if PatchesCommuteOn(map[], p, q) { PatchesCommuteOnlyIf(p, q); }
      }
    }
  }

  /** Each field of a patched configuration. */
  lemma {:induction false} PatchedField(base: Fields, patch: Fields, name: string)
    ensures Field(Some(Object(PatchFields(base, patch))), name) ==
      if name == "port" && MovesPort(patch) then Some(patch["uiPort"])
      else if name in patch then Some(Merge(Field(Some(Object(base)), name), patch[name]))
      else Field(Some(Object(base)), name)
  {
    MergeField(Some(Object(base)), Object(patch), name);
  }

  /** The port follows a submitted editor port unless a port is submitted itself. */
  lemma {:induction false} PortFollows(base: Fields, patch: Fields)
    ensures var live, r := Field(Some(Object(base)), "port"), Field(Some(Object(PatchFields(base, patch))), "port");
      && ("port" !in patch && "uiPort" in patch ==> r == Some(patch["uiPort"]))
      && ("port" in patch ==> r == Some(Merge(live, patch["port"])))
      && ("port" !in patch && "uiPort" !in patch ==> r == live)
  {
    PatchedField(base, patch, "port");
  }

  lemma {:induction false} PatchesCommuteIf(base: Fields, p: Fields, q: Fields)
    requires Compatible(Object(p), Object(q)) && !PortClash(p, q) && !PortClash(q, p)
    ensures PatchesCommuteOn(base, p, q)
  {
    var pq, qp := Object(PatchFields(PatchFields(base, p), q)), Object(PatchFields(PatchFields(base, q), p));
    forall name ensures Field(Some(pq), name) == Field(Some(qp), name) {
      PatchedTwice(base, p, q, name);
      PatchedTwice(base, q, p, name);
      if name in p && name in q {
        CompatibleCommute(Field(Some(Object(base)), name), p[name], q[name]);
      }
    }
    SameFields(pq, qp);
  }

  lemma {:induction false} PatchedTwice(base: Fields, p: Fields, q: Fields, name: string)
    ensures var live := Field(Some(Object(base)), name);
      Field(Some(Object(PatchFields(PatchFields(base, p), q))), name) ==
      if name == "port" && MovesPort(q) then Some(q["uiPort"])
      else
        var between := if name == "port" && MovesPort(p) then Some(p["uiPort"])
                       else if name in p then Some(Merge(live, p[name])) else live;
        if name in q then Some(Merge(between, q[name])) else between
  {
    PatchedField(base, p, name);
    PatchedField(PatchFields(base, p), q, name);
  }

  lemma {:induction false} PatchesCommuteOnlyIf(p: Fields, q: Fields)
    requires PatchesCommuteOn(map[], p, q)
    ensures Compatible(Object(p), Object(q)) && !PortClash(p, q) && !PortClash(q, p)
  {
    forall name | name in p && name in q
      ensures Compatible(p[name], q[name])
    {
      PatchedTwice(map[], p, q, name);
      PatchedTwice(map[], q, p, name);
      CommuteCompatible(p[name], q[name]);
    }
    PatchedTwice(map[], p, q, "port");
    PatchedTwice(map[], q, p, "port");
  }
}
