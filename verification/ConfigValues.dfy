/** Values of a plugin's configuration draft: apps/admin/plugin-config.js. */
module ConfigValues {
  import opened Lists
  import opened ModuleRefs
  import opened Timestamps

  /** A JSON value, as far as a configuration value may be one. */
  datatype Scalar = Number(n: int) | Flag(b: bool) | Text(s: string) | OtherValue

  /** A submitted value: a record with exactly its three keys, or anything else. */
  datatype Value = Value(fieldId: string, kind: string, value: Scalar) | NotAValue

  datatype Field = Field(fieldId: string, kind: string, minimum: Option<int>, maximum: Option<int>,
                         options: Option<seq<string>>, required: bool)

  const MAX_FIELDS := 64
  const MAX_OPTIONS := 64
  const MAX_VALUES := 64
  const KINDS := {"integer", "boolean", "enum", "secret_slot"}

  /** What the reference pattern calls unsafe; nothing below depends on which texts those are. */
  type Unsafe = string -> bool

  predicate SafeIdentifier(s: string, unsafe: Unsafe) {
    Identifier(s) && !unsafe(s)
  }

  predicate ValidOptions(options: seq<string>, unsafe: Unsafe) {
    && 1 <= |options| <= MAX_OPTIONS
    && (forall i :: 0 <= i < |options| ==> SafeIdentifier(options[i], unsafe))
    && forall i, j :: 0 <= i < j < |options| ==> options[i] != options[j]
  }

  predicate SafeBound(x: Option<int>) {
    x.Some? ==> SafeInteger(x.value)
  }

  /** `validateConfigField` */
  predicate ValidField(f: Field, unsafe: Unsafe) {
    && SafeIdentifier(f.fieldId, unsafe) && f.kind in KINDS
    && SafeBound(f.minimum) && SafeBound(f.maximum)
    && (f.minimum.Some? && f.maximum.Some? ==> f.minimum.value <= f.maximum.value)
    && (if f.kind == "integer" then f.options.None?
        else if f.kind == "boolean" then f.minimum.None? && f.maximum.None? && f.options.None?
        else f.minimum.None? && f.maximum.None? && f.options.Some? && ValidOptions(f.options.value, unsafe))
  }

  /** `validateConfigSpec` on the fields of a specification. */
  predicate ValidSpec(fields: seq<Field>, unsafe: Unsafe) {
    && |fields| <= MAX_FIELDS
    && (forall i :: 0 <= i < |fields| ==> ValidField(fields[i], unsafe))
    && forall i, j :: 0 <= i < j < |fields| ==> fields[i].fieldId != fields[j].fieldId
  }

  /** `validateConfigValueAgainstField` */
  predicate MatchesField(v: Value, f: Field, unsafe: Unsafe)
    requires v.Value?
  {
    && v.kind == f.kind
    && (if f.kind == "integer" then
          && v.value.Number? && SafeInteger(v.value.n)
          && (f.minimum.Some? ==> f.minimum.value <= v.value.n)
          && (f.maximum.Some? ==> v.value.n <= f.maximum.value)
        else if f.kind == "boolean" then v.value.Flag?
        else v.value.Text? && SafeIdentifier(v.value.s, unsafe) && f.options.Some? && v.value.s in f.options.value)
  }

  /** The map from identifiers to fields. */
  function FieldMap(fields: seq<Field>): map<string, Field> {
    if fields == [] then map[]
    else FieldMap(fields[..|fields| - 1])[fields[|fields| - 1].fieldId := fields[|fields| - 1]]
  }

  datatype ValuesError =
    | BadSpec | TooMany | ValuesWithoutSpec
    | BadValue(index: nat) | NotDeclared(index: nat) | Duplicate(index: nat) | Mismatch(index: nat)
    | MissingRequired(fieldId: string)

  /** The loop over the values: stops at the first that is malformed, undeclared, repeated or out of range. */
  method ScanValues(values: seq<Value>, spec: seq<Field>, unsafe: Unsafe)
    returns (error: Option<ValuesError>, seen: set<string>)
    requires ValidSpec(spec, unsafe)
    ensures error.None? <==> AllDeclared(values, spec, unsafe) && DistinctIds(values)
    ensures error.None? ==> forall id :: id in seen <==> Covers(values, id)
    ensures error.Some? ==> !error.value.MissingRequired? && !error.value.BadSpec?
    ensures error.Some? && error.value.Mismatch? ==> MismatchAt(values, spec, unsafe, error.value.index)
  {
    var fields := FieldMap(spec);
    seen := {};
    var i := 0;
    while i < |values|
      invariant 0 <= i <= |values|
      invariant AllDeclared(values[..i], spec, unsafe) && DistinctIds(values[..i])
      invariant forall id :: id in seen <==> Covers(values[..i], id)
    {
      var v := values[i];
      DeclaredByMap(v, spec, unsafe);
      if v.NotAValue? || !SafeIdentifier(v.fieldId, unsafe) {
        return Some(BadValue(i)), seen;
      }
      if v.fieldId !in fields {
        return Some(NotDeclared(i)), seen;
      }
      if v.fieldId in seen {
        RepeatedId(values, i);
        return Some(Duplicate(i)), seen;
      }
      if !MatchesField(v, fields[v.fieldId], unsafe) {
        return Some(Mismatch(i)), seen;
      }
      ScanStep(values[..i], v, spec, unsafe);
      assert values[..i + 1] == values[..i] + [v];
      seen := seen + {v.fieldId};
      i := i + 1;
    }
    assert values[..|values|] == values;
    error := None;
  }

  lemma DeclaredByMap(v: Value, spec: seq<Field>, unsafe: Unsafe)
    requires ValidSpec(spec, unsafe)
    ensures Declared(v, spec, unsafe) <==>
              && v.Value? && SafeIdentifier(v.fieldId, unsafe) && v.fieldId in FieldMap(spec)
              && MatchesField(v, FieldMap(spec)[v.fieldId], unsafe)
    ensures v.Value? && v.fieldId in FieldMap(spec) ==>
              FieldMap(spec)[v.fieldId] in spec && FieldMap(spec)[v.fieldId].fieldId == v.fieldId
  {
    FieldMapMeaning(spec);
  }

  lemma RepeatedId(values: seq<Value>, i: nat)
    requires i < |values| && values[i].Value? && Covers(values[..i], values[i].fieldId)
    ensures !DistinctIds(values)
  {
    var k :| 0 <= k < i && values[..i][k].Value? && values[..i][k].fieldId == values[i].fieldId;
    assert SameId(values[k], values[i]);
  }

  lemma ScanStep(before: seq<Value>, v: Value, spec: seq<Field>, unsafe: Unsafe)
    requires AllDeclared(before, spec, unsafe) && DistinctIds(before) && Declared(v, spec, unsafe)
    requires !Covers(before, v.fieldId)
    ensures AllDeclared(before + [v], spec, unsafe) && DistinctIds(before + [v])
    ensures forall id :: Covers(before + [v], id) <==> Covers(before, id) || id == v.fieldId
  {
    var after := before + [v];
    assert forall k :: 0 <= k < |before| ==> after[k] == before[k];
    forall id ensures Covers(after, id) <==> Covers(before, id) || id == v.fieldId {
      if Covers(before, id) {
        var k :| 0 <= k < |before| && before[k].Value? && before[k].fieldId == id;
        assert after[k].fieldId == id;
      }
      assert after[|before|] == v;
    }
    forall j, k | 0 <= j < k < |after| ensures !SameId(after[j], after[k]) {
      if k == |before| {
        assert Declared(before[j], spec, unsafe);
      }
    }
  }

  /** The loop over the required fields. */
  method FindMissing(fields: seq<Field>, seen: set<string>) returns (missing: Option<string>)
    ensures missing.None? <==> forall f :: f in fields && f.required ==> f.fieldId in seen
    ensures missing.Some? ==>
              missing.value !in seen && exists f :: f in fields && f.required && f.fieldId == missing.value
  {
    for k := 0 to |fields|
      invariant forall j :: 0 <= j < k && fields[j].required ==> fields[j].fieldId in seen
    {
      if fields[k].required && fields[k].fieldId !in seen {
        assert fields[k] in fields;
        return Some(fields[k].fieldId);
      }
    }
    return None;
  }

  /** `validateConfigValues`; no specification is None, acceptance is None. */
  method ValidateConfigValues(values: seq<Value>, spec: Option<seq<Field>>, unsafe: Unsafe)
    returns (error: Option<ValuesError>)
    ensures error.None? <==> Acceptable(values, spec, unsafe)
    ensures error.Some? && error.value.MissingRequired? ==>
              && spec.Some? && !Covers(values, error.value.fieldId)
              && exists f :: f in spec.value && f.required && f.fieldId == error.value.fieldId
    ensures error.Some? && error.value.Mismatch? ==>
              spec.Some? && MismatchAt(values, spec.value, unsafe, error.value.index)
  {
    if spec.Some? && !ValidSpec(spec.value, unsafe) {
      return Some(BadSpec);
    }
    if |values| > MAX_VALUES {
      return Some(TooMany);
    }
    if spec.None? {
      return if |values| != 0 then Some(ValuesWithoutSpec) else None;
    }
    var seen;
    error, seen := ScanValues(values, spec.value, unsafe);
    if error.Some? {
      return;
    }
    var missing := FindMissing(spec.value, seen);
    return if missing.Some? then Some(MissingRequired(missing.value)) else None;
  }

  // ---- what is accepted ----

  ghost predicate Declared(v: Value, fields: seq<Field>, unsafe: Unsafe) {
    && v.Value? && SafeIdentifier(v.fieldId, unsafe)
    && exists f :: f in fields && f.fieldId == v.fieldId && MatchesField(v, f, unsafe)
  }

  ghost predicate AllDeclared(values: seq<Value>, fields: seq<Field>, unsafe: Unsafe) {
    forall i :: 0 <= i < |values| ==> Declared(values[i], fields, unsafe)
  }

  predicate SameId(v: Value, w: Value) {
    v.Value? && w.Value? && v.fieldId == w.fieldId
  }

  ghost predicate DistinctIds(values: seq<Value>) {
    forall i, j :: 0 <= i < j < |values| ==> !SameId(values[i], values[j])
  }

  ghost predicate MismatchAt(values: seq<Value>, fields: seq<Field>, unsafe: Unsafe, i: nat) {
    && i < |values| && values[i].Value?
    && exists f :: f in fields && f.fieldId == values[i].fieldId && !MatchesField(values[i], f, unsafe)
  }

  ghost predicate Covers(values: seq<Value>, fieldId: string) {
    exists k :: 0 <= k < |values| && values[k].Value? && values[k].fieldId == fieldId
  }

  /** At most 64 distinct values, each of a declared field, of its kind and in its range, covering the required ones. */
  ghost predicate Acceptable(values: seq<Value>, spec: Option<seq<Field>>, unsafe: Unsafe) {
    && |values| <= MAX_VALUES
    && if spec.None? then values == []
       else
         && ValidSpec(spec.value, unsafe)
         && AllDeclared(values, spec.value, unsafe) && DistinctIds(values)
         && forall f :: f in spec.value && f.required ==> Covers(values, f.fieldId)
  }

  lemma {:induction false} FieldMapMeaning(fields: seq<Field>)
    requires forall i, j :: 0 <= i < j < |fields| ==> fields[i].fieldId != fields[j].fieldId
    ensures forall f :: f in fields ==> f.fieldId in FieldMap(fields) && FieldMap(fields)[f.fieldId] == f
    ensures forall id :: id in FieldMap(fields) ==> FieldMap(fields)[id] in fields && FieldMap(fields)[id].fieldId == id
  {
    if fields != [] {
      var front, last := fields[..|fields| - 1], fields[|fields| - 1];
      FieldMapMeaning(front);
      assert fields == front + [last];
    }
  }

  // ---- the client's own request check ----

  /** `validateConfigValueShape` */
  predicate ValueShape(v: Value, unsafe: Unsafe) {
    && v.Value? && SafeIdentifier(v.fieldId, unsafe) && v.kind in KINDS
    && (if v.kind == "integer" then v.value.Number? && SafeInteger(v.value.n)
        else if v.kind == "boolean" then v.value.Flag?
        else v.value.Text? && SafeIdentifier(v.value.s, unsafe))
  }

  /** What `validateConfigValueArrayShape` accepts. */
  ghost predicate Shapely(values: seq<Value>, unsafe: Unsafe) {
    && |values| <= MAX_VALUES
    && (forall i :: 0 <= i < |values| ==> ValueShape(values[i], unsafe)) && DistinctIds(values)
  }

  /** `validateConfigValueArrayShape`, as its loop over a growing set. */
  method ValidateArrayShape(values: seq<Value>, unsafe: Unsafe) returns (accepted: bool)
    ensures accepted <==> Shapely(values, unsafe)
  {
    if |values| > MAX_VALUES {
      return false;
    }
    var seen: set<string> := {};
    var i := 0;
    while i < |values|
      invariant 0 <= i <= |values|
      invariant forall k :: 0 <= k < i ==> ValueShape(values[k], unsafe)
      invariant forall j, k :: 0 <= j < k < i ==> values[j].fieldId != values[k].fieldId
      invariant forall id :: id in seen <==> exists k :: 0 <= k < i && values[k].fieldId == id
    {
      if !ValueShape(values[i], unsafe) || values[i].fieldId in seen {
        return false;
      }
      seen := seen + {values[i].fieldId};
      i := i + 1;
    }
    return true;
  }

  /** A draft that passes the page's local check never fails the client's request check on its values. */
  lemma AcceptedPassesShape(values: seq<Value>, spec: Option<seq<Field>>, unsafe: Unsafe)
    requires Acceptable(values, spec, unsafe)
    ensures Shapely(values, unsafe)
  {
    forall i | 0 <= i < |values| ensures ValueShape(values[i], unsafe) {
      assert Declared(values[i], spec.value, unsafe);
      var f :| f in spec.value && f.fieldId == values[i].fieldId && MatchesField(values[i], f, unsafe);
      assert ValidField(f, unsafe);
    }
  }

  // ---- drafts read from the form ----

  /** `readPluginConfigDraftValues`: one value per field, in the order of the specification. */
  function DraftValues(fields: seq<Field>, inputs: map<string, Scalar>): (values: seq<Value>)
    ensures |values| == |fields|
    ensures forall i :: 0 <= i < |fields| ==>
              values[i] == Value(fields[i].fieldId, fields[i].kind,
                                 if fields[i].fieldId in inputs then inputs[fields[i].fieldId] else OtherValue)
  {
    seq(|fields|, i requires 0 <= i < |fields| =>
      Value(fields[i].fieldId, fields[i].kind,
            if fields[i].fieldId in inputs then inputs[fields[i].fieldId] else OtherValue))
  }

  /** A draft read from the form of a valid specification is accepted exactly if every input fits its field. */
  lemma FormDraftAccepted(fields: seq<Field>, inputs: map<string, Scalar>, unsafe: Unsafe)
    requires ValidSpec(fields, unsafe)
    ensures var values := DraftValues(fields, inputs);
            Acceptable(values, Some(fields), unsafe) <==>
              forall i :: 0 <= i < |fields| ==> MatchesField(values[i], fields[i], unsafe)
  {
    var values := DraftValues(fields, inputs);
    if forall i :: 0 <= i < |fields| ==> MatchesField(values[i], fields[i], unsafe) {
      forall i | 0 <= i < |values| ensures Declared(values[i], fields, unsafe) {
        assert fields[i] in fields && ValidField(fields[i], unsafe);
      }
      forall f | f in fields && f.required ensures Covers(values, f.fieldId) {
        var i :| 0 <= i < |fields| && fields[i] == f;
        assert values[i].fieldId == f.fieldId;
      }
    }
    if Acceptable(values, Some(fields), unsafe) {
      forall i | 0 <= i < |fields| ensures MatchesField(values[i], fields[i], unsafe) {
        assert Declared(values[i], fields, unsafe);
        var f :| f in fields && f.fieldId == values[i].fieldId && MatchesField(values[i], f, unsafe);
        var k :| 0 <= k < |fields| && fields[k] == f;
        assert k == i;
      }
    }
  }

  // ---- kinds and ranges ----

  /** A value of this kind and range, kind by kind. */
  ghost predicate InRange(v: Scalar, f: Field, unsafe: Unsafe) {
    match v
    case Number(n) =>
      && f.kind == "integer" && -9007199254740991 <= n <= 9007199254740991
      && !(f.minimum.Some? && n < f.minimum.value) && !(f.maximum.Some? && n > f.maximum.value)
    case Flag(_) => f.kind == "boolean"
    case Text(s) =>
      && f.kind in {"enum", "secret_slot"} && Identifier(s) && !unsafe(s)
      && f.options.Some? && exists k :: 0 <= k < |f.options.value| && f.options.value[k] == s
    case OtherValue => false
  }

  /** Against one field, a single value is accepted exactly if it names the field and its kind and is in its range. */
  lemma OneValueAccepted(v: Value, f: Field, unsafe: Unsafe)
    requires ValidField(f, unsafe)
    ensures Acceptable([v], Some([f]), unsafe)
            <==> v.Value? && v.fieldId == f.fieldId && v.kind == f.kind && InRange(v.value, f, unsafe)
  {
    if v.Value? {
      assert v.fieldId == f.fieldId ==> (Declared(v, [f], unsafe) <==> MatchesField(v, f, unsafe));
      assert Covers([v], v.fieldId) by {
        assert [v][0] == v;
      }
    }
    assert [v][0] == v;
  }

  /** No value is accepted against one field exactly if the field is required. */
  lemma NoValueAccepted(f: Field, unsafe: Unsafe)
    requires ValidField(f, unsafe)
    ensures Acceptable([], Some([f]), unsafe) <==> !f.required
  {
    assert f in [f] && !Covers([], f.fieldId);
  }

  /** A field that a specification may hold, kind by kind. */
  ghost predicate GoodField(f: Field, unsafe: Unsafe) {
    && Identifier(f.fieldId) && !unsafe(f.fieldId)
    && match f.kind
       case "integer" =>
         && f.options.None?
         && (f.minimum.Some? ==> -9007199254740991 <= f.minimum.value <= 9007199254740991)
         && (f.maximum.Some? ==> -9007199254740991 <= f.maximum.value <= 9007199254740991)
         && !(f.minimum.Some? && f.maximum.Some? && f.minimum.value > f.maximum.value)
       case "boolean" => f.options.None? && f.minimum.None? && f.maximum.None?
       case _ =>
         && f.kind in {"enum", "secret_slot"} && f.minimum.None? && f.maximum.None?
         && f.options.Some? && 1 <= |f.options.value| <= 64 && Distinct(f.options.value)
         && forall option :: option in f.options.value ==> Identifier(option) && !unsafe(option)
  }

  lemma ValidFieldExactly(f: Field, unsafe: Unsafe)
    ensures ValidField(f, unsafe) <==> GoodField(f, unsafe)
  {
  }

  /** A specification of at most 64 good fields with different names. */
  lemma ValidSpecExactly(fields: seq<Field>, unsafe: Unsafe)
    ensures ValidSpec(fields, unsafe) <==>
              && |fields| <= 64 && (forall f :: f in fields ==> GoodField(f, unsafe))
              && Distinct(seq(|fields|, i requires 0 <= i < |fields| => fields[i].fieldId))
  {
    forall f ensures ValidField(f, unsafe) <==> GoodField(f, unsafe) {
      ValidFieldExactly(f, unsafe);
    }
    var ids := seq(|fields|, i requires 0 <= i < |fields| => fields[i].fieldId);
    assert forall i :: 0 <= i < |fields| ==> ids[i] == fields[i].fieldId && fields[i] in fields;
  }

  /** The request check on one value, kind by kind. */
  lemma ShapeExactly(v: Value, unsafe: Unsafe)
    ensures Shapely([v], unsafe) <==>
              && v.Value? && Identifier(v.fieldId) && !unsafe(v.fieldId)
              && match v.value
                 case Number(n) => v.kind == "integer" && -9007199254740991 <= n <= 9007199254740991
                 case Flag(_) => v.kind == "boolean"
                 case Text(s) => v.kind in {"enum", "secret_slot"} && Identifier(s) && !unsafe(s)
                 case OtherValue => false
  {
    assert [v][0] == v;
  }
}
