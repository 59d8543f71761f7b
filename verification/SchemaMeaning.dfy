/**
 What a schema accepts, and the proof that the router rewrite changes none of it.

 The frozen document mixes two spellings: boolean exclusive bounds (sections 5.3
 and 5.5 of draft-wright-json-schema-validation-00) next to numeric ones
 (sections 6.2.3 and 6.2.5 of JSON Schema Validation 2020-12), and the type null
 next to `nullable` (section 4.7.24 of OpenAPI 3.0.3).  A reading says which of
 them a validator understands; keywords it does not understand constrain nothing.
 */
module SchemaMeaning {
  import opened Wrappers
  import opened JsonValues
  import opened RouterSchemas

  datatype Reading = Reading(nullable: bool, booleanBounds: bool, numericBounds: bool)

  /** How the frozen document is meant: both spellings of a bound, and `nullable` only where 3.0 validators run. */
  function SourceReading(native: bool): Reading {
    Reading(!native, true, true)
  }

  function RouterReading(native: bool): Reading {
    if native then Reading(false, false, true) else Reading(true, true, false)
  }

  /** Named schemas for `$ref`, and the meaning of every assertion keyword the rewrite does not touch. */
  datatype Context = Context(schemas: map<string, Json>, assertion: (string, Json, Json) -> bool)

  const ANNOTATIONS := {"default", "description", "example", "examples", "title"}

  const ARRAY_APPLICATORS := {"allOf", "anyOf", "oneOf"}

  const SCHEMA_APPLICATORS := {"additionalProperties", "items", "not"}

  const INTERPRETED :=
    {"type", "nullable", "enum", "required", "minimum", "maximum", "exclusiveMinimum", "exclusiveMaximum", "properties", "$ref"}

  predicate IsAssertion(key: string) {
    key !in ANNOTATIONS && key !in ARRAY_APPLICATORS && key !in SCHEMA_APPLICATORS && key !in INTERPRETED
  }

  // ---- Keywords of one object ----

  predicate HasType(t: string, v: Json) {
    match v
    case Null => t == "null"
    case Bool(_) => t == "boolean"
    case Num(x) => t == "number" || (t == "integer" && x.Floor as real == x)
    case Str(_) => t == "string"
    case Arr(_) => t == "array"
    case Obj(_) => t == "object"
  }

  predicate SaysNullable(m: Members) {
    "nullable" in m && m["nullable"] == Bool(true)
  }

  /** `nullable` adds null to the types a `type` keyword in the same object allows. */
  predicate TypeHolds(r: Reading, m: Members, v: Json) {
    if "type" !in m then true
    else if r.nullable && SaysNullable(m) && v.Null? then true
    else match m["type"]
      case Str(t) => HasType(t, v)
      case Arr(ts) => exists t :: t in ts && t.Str? && HasType(t.text, v)
      case _ => true
  }

  predicate EnumHolds(m: Members, v: Json) {
    "enum" in m && m["enum"].Arr? ==> v in m["enum"].items
  }

  predicate RequiredHolds(m: Members, v: Json) {
    "required" in m && m["required"].Arr? && v.Obj? ==>
      forall name :: name in m["required"].items && name.Str? ==> name.text in v.members
  }

  predicate Clears(x: real, bound: real, lower: bool, strict: bool) {
    if strict then (if lower then x > bound else x < bound) else (if lower then x >= bound else x <= bound)
  }

  predicate BoundHolds(r: Reading, m: Members, inclusive: string, exclusive: string, lower: bool, v: Json) {
    v.Num? ==>
      && (inclusive in m && m[inclusive].Num? ==>
            Clears(v.number, m[inclusive].number, lower,
                   r.booleanBounds && exclusive in m && m[exclusive] == Bool(true)))
      && (r.numericBounds && exclusive in m && m[exclusive].Num? ==>
            Clears(v.number, m[exclusive].number, lower, true))
  }

  predicate BoundsHold(r: Reading, m: Members, v: Json) {
    && BoundHolds(r, m, "minimum", "exclusiveMinimum", true, v)
    && BoundHolds(r, m, "maximum", "exclusiveMaximum", false, v)
  }

  predicate AssertionsHold(ctx: Context, m: Members, v: Json) {
    forall key :: key in m && IsAssertion(key) ==> ctx.assertion(key, m[key], v)
  }

  predicate Declares(m: Members, name: string) {
    "properties" in m && m["properties"].Obj? && name in m["properties"].members
  }

  // ---- Acceptance ----

  /** `depth` bounds how many references may be followed. */
  ghost predicate Accepts(r: Reading, ctx: Context, depth: nat, schema: Json, v: Json)
    decreases depth, schema, 1
  {
    match schema
    case Bool(b) => b
    case Obj(m) =>
      && TypeHolds(r, m, v)
      && EnumHolds(m, v)
      && RequiredHolds(m, v)
      && BoundsHold(r, m, v)
      && AssertionsHold(ctx, m, v)
      && AllOfHolds(r, ctx, depth, m, v)
      && AnyOfHolds(r, ctx, depth, m, v)
      && OneOfHolds(r, ctx, depth, m, v)
      && NotHolds(r, ctx, depth, m, v)
      && ItemsHold(r, ctx, depth, m, v)
      && PropertiesHold(r, ctx, depth, m, v)
      && ReferenceHolds(r, ctx, depth, m, v)
    case _ => false
  }

  ghost predicate AllOfHolds(r: Reading, ctx: Context, depth: nat, m: Members, v: Json)
    decreases depth, Obj(m), 0
  {
    "allOf" in m && m["allOf"].Arr? ==>
      forall i :: 0 <= i < |m["allOf"].items| ==> Accepts(r, ctx, depth, m["allOf"].items[i], v)
  }

  ghost predicate AnyOfHolds(r: Reading, ctx: Context, depth: nat, m: Members, v: Json)
    decreases depth, Obj(m), 0
  {
    "anyOf" in m && m["anyOf"].Arr? ==>
      exists i :: 0 <= i < |m["anyOf"].items| && Accepts(r, ctx, depth, m["anyOf"].items[i], v)
  }

  ghost predicate OneOfHolds(r: Reading, ctx: Context, depth: nat, m: Members, v: Json)
    decreases depth, Obj(m), 0
  {
    "oneOf" in m && m["oneOf"].Arr? ==>
      var items := m["oneOf"].items;
      ExactlyOne(seq(|items|, i requires 0 <= i < |items| => Accepts(r, ctx, depth, items[i], v)))
  }

  ghost predicate ExactlyOne(verdicts: seq<bool>) {
    exists i :: 0 <= i < |verdicts| && verdicts[i] && forall j :: 0 <= j < |verdicts| && verdicts[j] ==> j == i
  }

  ghost predicate NotHolds(r: Reading, ctx: Context, depth: nat, m: Members, v: Json)
    decreases depth, Obj(m), 0
  {
    "not" in m ==> !Accepts(r, ctx, depth, m["not"], v)
  }

  ghost predicate ItemsHold(r: Reading, ctx: Context, depth: nat, m: Members, v: Json)
    decreases depth, Obj(m), 0
  {
    "items" in m && v.Arr? ==>
      forall i :: 0 <= i < |v.items| ==> Accepts(r, ctx, depth, m["items"], v.items[i])
  }

  ghost predicate PropertiesHold(r: Reading, ctx: Context, depth: nat, m: Members, v: Json)
    decreases depth, Obj(m), 0, 1
  {
    v.Obj? ==> forall name :: name in v.members ==> PropertyHolds(r, ctx, depth, m, name, v.members[name])
  }

  ghost predicate PropertyHolds(r: Reading, ctx: Context, depth: nat, m: Members, name: string, w: Json)
    decreases depth, Obj(m), 0, 0
  {
    && (Declares(m, name) ==> Accepts(r, ctx, depth, m["properties"].members[name], w))
    && ("additionalProperties" in m && !Declares(m, name) ==> Accepts(r, ctx, depth, m["additionalProperties"], w))
  }

  ghost predicate ReferenceHolds(r: Reading, ctx: Context, depth: nat, m: Members, v: Json)
    decreases depth, Obj(m), 0
  {
    "$ref" in m && m["$ref"].Str? ==>
      m["$ref"].text in ctx.schemas && depth > 0
      && Accepts(r, ctx, depth - 1, ctx.schemas[m["$ref"].text], v)
  }

  // ---- Which documents the rewrite may be applied to ----

  predicate BoundInert(native: bool, m: Members, inclusive: string, exclusive: string) {
    native && exclusive in m && m[exclusive].Bool? ==>
      m[exclusive].flag && !(inclusive in m && m[inclusive].Num?)
  }

  /** No guard of the rewrite fires anywhere in `value`. */
  predicate Inert(native: bool, value: Json) {
    match value
    case Obj(m) =>
      && ("required" in m && m["required"].Arr? ==> Unique(m["required"].items) == m["required"].items)
      && BoundInert(native, m, "minimum", "exclusiveMinimum")
      && BoundInert(native, m, "maximum", "exclusiveMaximum")
      && (!native ==> !("type" in m && m["type"] == Str("null")))
      && ("type" in m || CommonAnyOfType(Member(m, "anyOf")).None?)
      && forall k :: k in m ==> Inert(native, m[k])
    case Arr(items) => forall i :: 0 <= i < |items| ==> Inert(native, items[i])
    case _ => true
  }

  predicate OnlyNulls(items: seq<Json>) {
    forall x :: x in items ==> x == Null
  }

  predicate NullableBranch(branch: Json) {
    branch.Obj? && SaysNullable(branch.members)
  }

  /** The conditions on one schema object; all of them concern the 3.0 spelling. */
  predicate ObjectSuits(native: bool, m: Members) {
    !native ==>
      && !("exclusiveMinimum" in m && m["exclusiveMinimum"].Num?)
      && !("exclusiveMaximum" in m && m["exclusiveMaximum"].Num?)
      && ("type" in m && m["type"] == Str("null") && "enum" in m ==> m["enum"].Arr? && OnlyNulls(m["enum"].items))
      && ("type" !in m && !SaysNullable(m) && CommonAnyOfType(Member(m, "anyOf")).Some? ==>
            forall i :: 0 <= i < |m["anyOf"].items| ==> !NullableBranch(m["anyOf"].items[i]))
  }

  /** A property map is walked like a schema, so a forbidden property must not be named like a boolean bound. */
  predicate NamesSuit(native: bool, properties: Members) {
    native ==>
      && !("exclusiveMinimum" in properties && properties["exclusiveMinimum"] == Bool(false))
      && !("exclusiveMaximum" in properties && properties["exclusiveMaximum"] == Bool(false))
  }

  predicate Suits(native: bool, schema: Json) {
    match schema
    case Bool(_) => true
    case Obj(m) =>
      && ObjectSuits(native, m)
      && (forall key :: key in m && key in ARRAY_APPLICATORS ==>
            m[key].Arr? && forall i :: 0 <= i < |m[key].items| ==> Suits(native, m[key].items[i]))
      && (forall key :: key in m && key in SCHEMA_APPLICATORS ==> Suits(native, m[key]))
      && ("properties" in m ==>
            m["properties"].Obj? && NamesSuit(native, m["properties"].members)
            && forall name :: name in m["properties"].members ==> Suits(native, m["properties"].members[name]))
      && (forall key :: key in m && (key == "enum" || IsAssertion(key)) ==> Inert(native, m[key]))
    case _ => false
  }

  predicate ContextSuits(native: bool, ctx: Context) {
    && NamesSuit(native, ctx.schemas)
    && forall name {:trigger Suits(native, ctx.schemas[name])} :: name in ctx.schemas ==> Suits(native, ctx.schemas[name])
  }

  /** The context whose named schemas went through the same rewrite, as members of one object. */
  function RouterContext(native: bool, ctx: Context): Context {
    Context(Normalize(native, Obj(ctx.schemas)).members, ctx.assertion)
  }

  // ---- The rewrite leaves data alone exactly where no guard fires ----

  lemma NormalizedArray(native: bool, items: seq<Json>)
    ensures var n := Normalize(native, Arr(items));
            n.Arr? && |n.items| == |items| && forall i :: 0 <= i < |items| ==> n.items[i] == Normalize(native, items[i])
  {
  }

  lemma NormalizedObject(native: bool, m: Members)
    ensures var n := Normalize(native, Obj(m)); var w := RewriteObject(native, m);
            n.Obj? && n.members.Keys == w.Keys && forall k :: k in w ==> n.members[k] == Normalize(native, w[k])
  {
  }

  lemma {:induction false} InertUnchanged(native: bool, value: Json)
    requires Inert(native, value)
    ensures Normalize(native, value) == value
    decreases value
  {
    match value {
      case Obj(m) =>
        assert RewriteObject(native, m) == m;
        NormalizedObject(native, m);
        forall k | k in m
          ensures Normalize(native, m[k]) == m[k]
        {
          InertUnchanged(native, m[k]);
        }
      case Arr(items) =>
        NormalizedArray(native, items);
        forall i | 0 <= i < |items|
          ensures Normalize(native, items[i]) == items[i]
        {
          InertUnchanged(native, items[i]);
        }
      case _ =>
    }
  }

  lemma {:induction false} UniqueLength(items: seq<Json>)
    ensures |Unique(items)| <= |items|
    ensures |Unique(items)| == |items| ==> Unique(items) == items
  {
    if items != [] {
      UniqueLength(items[..|items| - 1]);
    }
  }

  lemma RequiredFixed(native: bool, m: Members)
    requires Normalize(native, Obj(m)) == Obj(m)
    ensures "required" in m && m["required"].Arr? ==> Unique(m["required"].items) == m["required"].items
    ensures DedupeRequired(m) == m
  {
    NormalizedObject(native, m);
    if "required" in m && m["required"].Arr? {
      var items := m["required"].items;
      RewrittenRequired(native, m);
      assert Member(RewriteObject(native, m), "required") == Some(Arr(Unique(items)));
      NormalizedArray(native, Unique(items));
      UniqueLength(items);
    }
  }

  lemma BoundsFixed(m: Members)
    requires DedupeRequired(m) == m && Normalize(true, Obj(m)) == Obj(m)
    ensures NumericBounds(m) == m
  {
    NormalizedObject(true, m);
    var n := Normalize(true, Obj(m)).members;
    var lower := NumericBound(m, "minimum", "exclusiveMinimum");
    var both := NumericBound(lower, "maximum", "exclusiveMaximum");
    assert RewriteObject(true, m) == PromoteType(both);
    assert lower == m;
    assert both == m;
  }

  lemma NullFixed(m: Members)
    requires DedupeRequired(m) == m && Normalize(false, Obj(m)) == Obj(m)
    ensures SpellNull(m) == m
  {
  }

  /** If the rewritten members, once visited, are the old ones, then nothing was rewritten. */
  lemma RewriteFixed(native: bool, m: Members)
    requires Normalize(native, Obj(m)) == Obj(m)
    ensures RewriteObject(native, m) == m && DedupeRequired(m) == m
    ensures if native then NumericBounds(m) == m else SpellNull(m) == m
    ensures PromoteType(m) == m
  {
    RequiredFixed(native, m);
    if native {
      BoundsFixed(m);
    } else {
      NullFixed(m);
    }
    NormalizedObject(native, m);
    assert RewriteObject(native, m).Keys == m.Keys;
  }

  lemma {:induction false} UnchangedInert(native: bool, value: Json)
    requires Normalize(native, value) == value
    ensures Inert(native, value)
    decreases value
  {
    match value {
      case Obj(m) =>
        var w := RewriteObject(native, m);
        NormalizedObject(native, m);
        RequiredFixed(native, m);
        RewriteFixed(native, m);
        forall k | k in m
          ensures Inert(native, m[k])
        {
          UnchangedInert(native, m[k]);
        }
      case Arr(items) =>
        NormalizedArray(native, items);
        forall i | 0 <= i < |items|
          ensures Inert(native, items[i])
        {
          UnchangedInert(native, items[i]);
        }
      case _ =>
    }
  }

  // ---- What the rewrite keeps of one object ----

  lemma ScalarsKept(native: bool, value: Json)
    ensures !value.Arr? && !value.Obj? ==> Normalize(native, value) == value
    ensures value.Arr? == Normalize(native, value).Arr? && value.Obj? == Normalize(native, value).Obj?
    ensures value.Num? == Normalize(native, value).Num? && value.Str? == Normalize(native, value).Str?
    ensures value.Bool? == Normalize(native, value).Bool?
  {
  }

  const REWRITTEN :=
    {"required", "minimum", "maximum", "exclusiveMinimum", "exclusiveMaximum", "type", "nullable", "enum"}

  lemma OtherKept(native: bool, m: Members, key: string)
    requires key !in REWRITTEN
    ensures Member(Normalize(native, Obj(m)).members, key) == if key in m then Some(Normalize(native, m[key])) else None
  {
    OthersKept(native, m);
  }

  /** Reads a member of the rewritten object before and after its members are visited. */
  lemma MemberVisited(native: bool, m: Members, key: string)
    ensures var w := Member(RewriteObject(native, m), key);
            Member(Normalize(native, Obj(m)).members, key) == if w.Some? then Some(Normalize(native, w.value)) else None
  {
    NormalizedObject(native, m);
  }

  lemma RewrittenRequired(native: bool, m: Members)
    ensures Member(RewriteObject(native, m), "required") == Member(DedupeRequired(m), "required")
  {
  }

  lemma BoundElsewhere(m: Members, inclusive: string, exclusive: string)
    ensures forall key :: key != inclusive && key != exclusive ==>
              Member(NumericBound(m, inclusive, exclusive), key) == Member(m, key)
  {
  }

  lemma BoundLocal(m: Members, d: Members, inclusive: string, exclusive: string)
    requires Member(m, inclusive) == Member(d, inclusive) && Member(m, exclusive) == Member(d, exclusive)
    ensures Member(NumericBound(m, inclusive, exclusive), inclusive) == Member(NumericBound(d, inclusive, exclusive), inclusive)
    ensures Member(NumericBound(m, inclusive, exclusive), exclusive) == Member(NumericBound(d, inclusive, exclusive), exclusive)
  {
  }

  lemma OutsideBounds(m: Members)
    ensures forall key :: key != "required" ==> Member(DedupeRequired(m), key) == Member(m, key)
    ensures forall key :: key !in {"type", "nullable", "enum"} ==> Member(SpellNull(m), key) == Member(m, key)
    ensures forall key :: key != "type" ==> Member(PromoteType(m), key) == Member(m, key)
  {
  }

  lemma OthersRewritten(native: bool, m: Members)
    ensures forall k :: k !in REWRITTEN ==> Member(RewriteObject(native, m), k) == Member(m, k)
  {
    var d := DedupeRequired(m);
    OutsideBounds(m);
    if native {
      var lower := NumericBound(d, "minimum", "exclusiveMinimum");
      BoundElsewhere(d, "minimum", "exclusiveMinimum");
      BoundElsewhere(lower, "maximum", "exclusiveMaximum");
      OutsideBounds(NumericBounds(d));
    } else {
      OutsideBounds(d);
      OutsideBounds(SpellNull(d));
    }
  }

  lemma OthersKept(native: bool, m: Members)
    ensures var n := Normalize(native, Obj(m)).members;
            forall k :: k !in REWRITTEN ==> (k in n <==> k in m) && (k in m ==> n[k] == Normalize(native, m[k]))
  {
    NormalizedObject(native, m);
    OthersRewritten(native, m);
    assert forall k :: k !in REWRITTEN ==> Member(RewriteObject(native, m), k) == Member(m, k);
  }

  lemma RewrittenBound(native: bool, m: Members)
    ensures var b := if native then NumericBound(m, "minimum", "exclusiveMinimum") else m;
            && Member(RewriteObject(native, m), "minimum") == Member(b, "minimum")
            && Member(RewriteObject(native, m), "exclusiveMinimum") == Member(b, "exclusiveMinimum")
    ensures var b := if native then NumericBound(m, "maximum", "exclusiveMaximum") else m;
            && Member(RewriteObject(native, m), "maximum") == Member(b, "maximum")
            && Member(RewriteObject(native, m), "exclusiveMaximum") == Member(b, "exclusiveMaximum")
  {
    var d := DedupeRequired(m);
    OutsideBounds(m);
    if native {
      var lower := NumericBound(d, "minimum", "exclusiveMinimum");
      var both := NumericBound(lower, "maximum", "exclusiveMaximum");
      BoundElsewhere(d, "minimum", "exclusiveMinimum");
      BoundElsewhere(lower, "maximum", "exclusiveMaximum");
      BoundLocal(m, d, "minimum", "exclusiveMinimum");
      BoundLocal(m, lower, "maximum", "exclusiveMaximum");
      OutsideBounds(both);
    } else {
      OutsideBounds(d);
      OutsideBounds(SpellNull(d));
    }
  }

  /** The object names the type null and the spelling for 3.0 validators replaces it. */
  predicate Spelled(native: bool, m: Members) {
    !native && "type" in m && m["type"] == Str("null")
  }

  lemma RewrittenType(native: bool, m: Members)
    ensures var w := RewriteObject(native, m); var common := CommonAnyOfType(Member(m, "anyOf"));
            && Member(w, "nullable") == (if Spelled(native, m) then Some(Bool(true)) else Member(m, "nullable"))
            && Member(w, "enum") == (if Spelled(native, m) && "enum" !in m then Some(ONLY_NULL) else Member(m, "enum"))
            && Member(w, "type") == (if "type" in m && !Spelled(native, m) then Member(m, "type")
                                     else if common.Some? then Some(Str(common.value)) else None)
  {
    var d := DedupeRequired(m);
    OutsideBounds(m);
    if native {
      var lower := NumericBound(d, "minimum", "exclusiveMinimum");
      BoundElsewhere(d, "minimum", "exclusiveMinimum");
      BoundElsewhere(lower, "maximum", "exclusiveMaximum");
      TypePromoted(NumericBound(lower, "maximum", "exclusiveMaximum"));
    } else {
      OutsideBounds(d);
      TypePromoted(SpellNull(d));
    }
  }

  lemma TypePromoted(m: Members)
    ensures var w := PromoteType(m); var common := CommonAnyOfType(Member(m, "anyOf"));
            && Member(w, "nullable") == Member(m, "nullable") && Member(w, "enum") == Member(m, "enum")
            && Member(w, "type") == (if "type" in m then Member(m, "type")
                                     else if common.Some? then Some(Str(common.value)) else None)
  {
  }

  lemma RequiredKept(native: bool, m: Members, v: Json)
    ensures RequiredHolds(Normalize(native, Obj(m)).members, v) == RequiredHolds(m, v)
  {
    MemberVisited(native, m, "required");
    RewrittenRequired(native, m);
    if "required" in m && m["required"].Arr? {
      var items := m["required"].items;
      UniqueKeepsMembers(items);
      forall name: Json | name.Str?
        ensures name in Normalize(native, Arr(Unique(items))).items <==> name in items
      {
        NamesKept(native, Unique(items), name);
      }
    } else if "required" in m {
      ScalarsKept(native, m["required"]);
    }
  }

  lemma NamesKept(native: bool, items: seq<Json>, name: Json)
    requires name.Str?
    ensures name in Normalize(native, Arr(items)).items <==> name in items
  {
    NormalizedArray(native, items);
    var n := Normalize(native, Arr(items)).items;
    forall i | 0 <= i < |items|
      ensures n[i] == name <==> items[i] == name
    {
      ScalarsKept(native, items[i]);
    }
    if name in items {
      var i :| 0 <= i < |items| && items[i] == name;
      assert n[i] == name;
    }
  }

  /** One bound, before its members are visited. */
  lemma BoundRewritten(native: bool, m: Members, w: Members, inclusive: string, exclusive: string, lower: bool, v: Json)
    requires inclusive != exclusive
    requires !native ==> !(exclusive in m && m[exclusive].Num?)
    requires var b := if native then NumericBound(m, inclusive, exclusive) else m;
             Member(w, inclusive) == Member(b, inclusive) && Member(w, exclusive) == Member(b, exclusive)
    ensures BoundHolds(RouterReading(native), w, inclusive, exclusive, lower, v)
         == BoundHolds(SourceReading(native), m, inclusive, exclusive, lower, v)
  {
  }

  lemma BoundVisited(native: bool, m: Members, inclusive: string, exclusive: string, lower: bool, v: Json)
    ensures BoundHolds(RouterReading(native), Normalize(native, Obj(m)).members, inclusive, exclusive, lower, v)
         == BoundHolds(RouterReading(native), RewriteObject(native, m), inclusive, exclusive, lower, v)
  {
  }

  /** A boolean exclusive bound and the numeric one that replaces it exclude the same numbers. */
  lemma BoundsKept(native: bool, m: Members, v: Json)
    requires ObjectSuits(native, m)
    ensures BoundsHold(RouterReading(native), Normalize(native, Obj(m)).members, v) == BoundsHold(SourceReading(native), m, v)
  {
    var w := RewriteObject(native, m);
    RewrittenBound(native, m);
    BoundVisited(native, m, "minimum", "exclusiveMinimum", true, v);
    BoundVisited(native, m, "maximum", "exclusiveMaximum", false, v);
    BoundRewritten(native, m, w, "minimum", "exclusiveMinimum", true, v);
    BoundRewritten(native, m, w, "maximum", "exclusiveMaximum", false, v);
  }

  lemma AssertionsKept(native: bool, ctx: Context, m: Members, v: Json)
    requires Suits(native, Obj(m))
    ensures AssertionsHold(RouterContext(native, ctx), Normalize(native, Obj(m)).members, v) == AssertionsHold(ctx, m, v)
  {
    OthersKept(native, m);
    forall key | key in m && IsAssertion(key)
      ensures Normalize(native, m[key]) == m[key]
    {
      InertUnchanged(native, m[key]);
    }
  }

  /** An accepted branch of a promoted union carries the promoted type, unless it accepted null by being nullable. */
  lemma AcceptedBranchType(r: Reading, ctx: Context, depth: nat, m: Members, i: nat, v: Json)
    requires CommonAnyOfType(Member(m, "anyOf")).Some? && i < |m["anyOf"].items|
    requires Accepts(r, ctx, depth, m["anyOf"].items[i], v)
    ensures HasType(CommonAnyOfType(Member(m, "anyOf")).value, v) || (r.nullable && v.Null? && NullableBranch(m["anyOf"].items[i]))
  {
    var branches := m["anyOf"].items;
    AgreedTypes(branches, i);
    assert TypeHolds(r, branches[i].members, v);
  }

  lemma EnumKept(native: bool, m: Members, v: Json)
    requires Suits(native, Obj(m))
    ensures EnumHolds(Normalize(native, Obj(m)).members, v)
         == (EnumHolds(m, v) && (Spelled(native, m) && "enum" !in m ==> v.Null?))
  {
    MemberVisited(native, m, "enum");
    RewrittenType(native, m);
    if "enum" in m {
      InertUnchanged(native, m["enum"]);
    } else {
      NormalizedArray(native, [Null]);
      assert Normalize(native, ONLY_NULL).items == [Null];
    }
  }

  lemma TypeMembers(native: bool, m: Members)
    ensures var n := Normalize(native, Obj(m)).members; var common := CommonAnyOfType(Member(m, "anyOf"));
            && SaysNullable(n) == (SaysNullable(m) || Spelled(native, m))
            && Member(n, "type") == (if "type" in m && !Spelled(native, m) then Some(Normalize(native, m["type"]))
                                     else if common.Some? then Some(Str(common.value)) else None)
  {
    MemberVisited(native, m, "nullable");
    MemberVisited(native, m, "type");
    RewrittenType(native, m);
    if "nullable" in m {
      ScalarsKept(native, m["nullable"]);
    }
  }

  lemma TypeNamesKept(native: bool, r: Reading, m: Members, n: Members, v: Json)
    requires "type" in m && "type" in n && n["type"] == Normalize(native, m["type"])
    requires r.nullable ==> SaysNullable(m) == SaysNullable(n)
    ensures TypeHolds(r, n, v) == TypeHolds(r, m, v)
  {
    ScalarsKept(native, m["type"]);
    if m["type"].Arr? {
      forall t: Json | t.Str?
        ensures t in n["type"].items <==> t in m["type"].items
      {
        NamesKept(native, m["type"].items, t);
      }
    }
  }

  /** What a satisfied union says about the type it shares. */
  lemma UnionTypeHolds(native: bool, ctx: Context, depth: nat, m: Members, v: Json)
    requires ObjectSuits(native, m) && AnyOfHolds(SourceReading(native), ctx, depth, m, v)
    requires CommonAnyOfType(Member(m, "anyOf")).Some?
    ensures HasType(CommonAnyOfType(Member(m, "anyOf")).value, v)
            || (!native && v.Null? && (SaysNullable(m) || "type" in m))
  {
    var i :| 0 <= i < |m["anyOf"].items| && Accepts(SourceReading(native), ctx, depth, m["anyOf"].items[i], v);
    AcceptedBranchType(SourceReading(native), ctx, depth, m, i, v);
  }

  /** Once the union is satisfied, promotion and the spelling of null change nothing. */
  lemma TypeAndEnumKept(native: bool, ctx: Context, depth: nat, m: Members, v: Json)
    requires Suits(native, Obj(m)) && AnyOfHolds(SourceReading(native), ctx, depth, m, v)
    ensures var n := Normalize(native, Obj(m)).members;
            (TypeHolds(RouterReading(native), n, v) && EnumHolds(n, v))
            == (TypeHolds(SourceReading(native), m, v) && EnumHolds(m, v))
  {
    var n := Normalize(native, Obj(m)).members;
    EnumKept(native, m, v);
    TypeMembers(native, m);
    if "type" in m && !Spelled(native, m) {
      TypeNamesKept(native, SourceReading(native), m, n, v);
    } else if CommonAnyOfType(Member(m, "anyOf")).Some? {
      UnionTypeHolds(native, ctx, depth, m, v);
    }
  }

  // ---- The main result ----

  /** The source schema, read as meant, and the rewritten one, read by the router's validator, agree on `v`. */
  ghost predicate Same(native: bool, ctx: Context, depth: nat, schema: Json, v: Json) {
    Accepts(RouterReading(native), RouterContext(native, ctx), depth, Normalize(native, schema), v)
    <==> Accepts(SourceReading(native), ctx, depth, schema, v)
  }

  /** Every value looks like a schema, and no forbidden name is spelled like a boolean bound. */
  predicate SchemaMap(native: bool, named: Members) {
    NamesSuit(native, named) && forall name :: name in named ==> named[name].Bool? || named[name].Obj?
  }

  lemma SuitableIsSchema(native: bool, schema: Json)
    requires Suits(native, schema)
    ensures schema.Bool? || schema.Obj?
  {
  }

  lemma SuitableProperties(native: bool, m: Members)
    requires Suits(native, Obj(m)) && "properties" in m
    ensures m["properties"].Obj? && SchemaMap(native, m["properties"].members)
  {
    var named := m["properties"].members;
    forall name | name in named
      ensures named[name].Bool? || named[name].Obj?
    {
      SuitableIsSchema(native, named[name]);
    }
  }

  lemma SuitableNames(native: bool, ctx: Context)
    requires ContextSuits(native, ctx)
    ensures SchemaMap(native, ctx.schemas)
  {
    forall name | name in ctx.schemas
      ensures ctx.schemas[name].Bool? || ctx.schemas[name].Obj?
    {
      SuitableIsSchema(native, ctx.schemas[name]);
    }
  }

  /** A map from names to schemas goes through the walk name by name. */
  lemma NamedSchemasKept(native: bool, named: Members)
    requires SchemaMap(native, named)
    ensures var n := Normalize(native, Obj(named)).members;
            n.Keys == named.Keys && forall name :: name in named ==> n[name] == Normalize(native, named[name])
  {
    NormalizedObject(native, named);
    assert RewriteObject(native, named) == named by {
      assert DedupeRequired(named) == named;
      if native {
        assert NumericBound(named, "minimum", "exclusiveMinimum") == named;
        assert NumericBound(named, "maximum", "exclusiveMaximum") == named;
      } else {
        assert SpellNull(named) == named;
      }
      assert PromoteType(named) == named;
    }
  }

  /** The branches under `key`, before and after, agree on `v` one by one. */
  ghost predicate BranchesSame(native: bool, ctx: Context, depth: nat, m: Members, key: string, v: Json) {
    key in m ==> m[key].Arr? && forall i :: 0 <= i < |m[key].items| ==> Same(native, ctx, depth, m[key].items[i], v)
  }

  lemma BranchesVisited(native: bool, ctx: Context, depth: nat, m: Members, key: string, v: Json)
    requires key !in REWRITTEN && BranchesSame(native, ctx, depth, m, key, v)
    ensures var n := Normalize(native, Obj(m)).members;
            && (key in n <==> key in m)
            && (key in m ==>
                  n[key].Arr? && |n[key].items| == |m[key].items|
                  && forall i :: 0 <= i < |m[key].items| ==>
                       (Accepts(RouterReading(native), RouterContext(native, ctx), depth, n[key].items[i], v)
                        <==> Accepts(SourceReading(native), ctx, depth, m[key].items[i], v)))
  {
    OtherKept(native, m, key);
    if key in m {
      NormalizedArray(native, m[key].items);
      var n := Normalize(native, Obj(m)).members;
      forall i | 0 <= i < |m[key].items|
        ensures Accepts(RouterReading(native), RouterContext(native, ctx), depth, n[key].items[i], v)
                <==> Accepts(SourceReading(native), ctx, depth, m[key].items[i], v)
      {
        assert Same(native, ctx, depth, m[key].items[i], v);
      }
    }
  }

  lemma AllOfKept(native: bool, ctx: Context, depth: nat, m: Members, v: Json)
    requires BranchesSame(native, ctx, depth, m, "allOf", v)
    ensures AllOfHolds(RouterReading(native), RouterContext(native, ctx), depth, Normalize(native, Obj(m)).members, v)
         == AllOfHolds(SourceReading(native), ctx, depth, m, v)
  {
    BranchesVisited(native, ctx, depth, m, "allOf", v);
  }

  lemma AnyOfKept(native: bool, ctx: Context, depth: nat, m: Members, v: Json)
    requires BranchesSame(native, ctx, depth, m, "anyOf", v)
    ensures AnyOfHolds(RouterReading(native), RouterContext(native, ctx), depth, Normalize(native, Obj(m)).members, v)
         == AnyOfHolds(SourceReading(native), ctx, depth, m, v)
  {
    BranchesVisited(native, ctx, depth, m, "anyOf", v);
  }

  lemma OneOfKept(native: bool, ctx: Context, depth: nat, m: Members, v: Json)
    requires BranchesSame(native, ctx, depth, m, "oneOf", v)
    ensures OneOfHolds(RouterReading(native), RouterContext(native, ctx), depth, Normalize(native, Obj(m)).members, v)
         == OneOfHolds(SourceReading(native), ctx, depth, m, v)
  {
    BranchesVisited(native, ctx, depth, m, "oneOf", v);
    if "oneOf" in m {
      var n := Normalize(native, Obj(m)).members;
      var before, after := m["oneOf"].items, n["oneOf"].items;
      assert seq(|after|, i requires 0 <= i < |after| => Accepts(RouterReading(native), RouterContext(native, ctx), depth, after[i], v))
          == seq(|before|, i requires 0 <= i < |before| => Accepts(SourceReading(native), ctx, depth, before[i], v));
    }
  }

  lemma NotKept(native: bool, ctx: Context, depth: nat, m: Members, v: Json)
    requires "not" in m ==> Same(native, ctx, depth, m["not"], v)
    ensures NotHolds(RouterReading(native), RouterContext(native, ctx), depth, Normalize(native, Obj(m)).members, v)
         == NotHolds(SourceReading(native), ctx, depth, m, v)
  {
    OtherKept(native, m, "not");
  }

  lemma ItemsKept(native: bool, ctx: Context, depth: nat, m: Members, v: Json)
    requires "items" in m && v.Arr? ==> forall i :: 0 <= i < |v.items| ==> Same(native, ctx, depth, m["items"], v.items[i])
    ensures ItemsHold(RouterReading(native), RouterContext(native, ctx), depth, Normalize(native, Obj(m)).members, v)
         == ItemsHold(SourceReading(native), ctx, depth, m, v)
  {
    OtherKept(native, m, "items");
    var n := Normalize(native, Obj(m)).members;
    if "items" in m && v.Arr? {
      forall i | 0 <= i < |v.items|
        ensures Accepts(RouterReading(native), RouterContext(native, ctx), depth, n["items"], v.items[i])
                <==> Accepts(SourceReading(native), ctx, depth, m["items"], v.items[i])
      {
        assert Same(native, ctx, depth, m["items"], v.items[i]);
      }
    }
  }

  /** What the properties keywords say about one member of an object, before and after. */
  ghost predicate PropertySame(native: bool, ctx: Context, depth: nat, m: Members, name: string, w: Json) {
    && (Declares(m, name) ==> Same(native, ctx, depth, m["properties"].members[name], w))
    && ("additionalProperties" in m ==> Same(native, ctx, depth, m["additionalProperties"], w))
  }

  predicate PropertiesSuit(native: bool, m: Members) {
    "properties" in m ==> m["properties"].Obj? && SchemaMap(native, m["properties"].members)
  }

  lemma DeclaresKept(native: bool, m: Members, name: string)
    requires PropertiesSuit(native, m)
    ensures var n := Normalize(native, Obj(m)).members;
            && Declares(n, name) == Declares(m, name)
            && (Declares(m, name) ==> n["properties"].members[name] == Normalize(native, m["properties"].members[name]))
  {
    OtherKept(native, m, "properties");
    if "properties" in m {
      NamedSchemasKept(native, m["properties"].members);
    }
  }

  lemma PropertyKept(native: bool, ctx: Context, depth: nat, m: Members, name: string, w: Json)
    requires PropertiesSuit(native, m) && PropertySame(native, ctx, depth, m, name, w)
    ensures PropertyHolds(RouterReading(native), RouterContext(native, ctx), depth, Normalize(native, Obj(m)).members, name, w)
         == PropertyHolds(SourceReading(native), ctx, depth, m, name, w)
  {
    DeclaresKept(native, m, name);
    OtherKept(native, m, "additionalProperties");
  }

  lemma PropertiesKept(native: bool, ctx: Context, depth: nat, m: Members, v: Json)
    requires PropertiesSuit(native, m)
    requires v.Obj? ==> forall name :: name in v.members ==> PropertySame(native, ctx, depth, m, name, v.members[name])
    ensures PropertiesHold(RouterReading(native), RouterContext(native, ctx), depth, Normalize(native, Obj(m)).members, v)
         == PropertiesHold(SourceReading(native), ctx, depth, m, v)
  {
    if v.Obj? {
      forall name | name in v.members
        ensures PropertyHolds(RouterReading(native), RouterContext(native, ctx), depth, Normalize(native, Obj(m)).members, name, v.members[name])
             == PropertyHolds(SourceReading(native), ctx, depth, m, name, v.members[name])
      {
        PropertyKept(native, ctx, depth, m, name, v.members[name]);
      }
    }
  }

  predicate Resolves(ctx: Context, depth: nat, m: Members) {
    "$ref" in m && m["$ref"].Str? && m["$ref"].text in ctx.schemas && depth > 0
  }

  lemma ReferenceKept(native: bool, ctx: Context, depth: nat, m: Members, v: Json)
    requires SchemaMap(native, ctx.schemas)
    requires Resolves(ctx, depth, m) ==> Same(native, ctx, depth - 1, ctx.schemas[m["$ref"].text], v)
    ensures ReferenceHolds(RouterReading(native), RouterContext(native, ctx), depth, Normalize(native, Obj(m)).members, v)
         == ReferenceHolds(SourceReading(native), ctx, depth, m, v)
  {
    OtherKept(native, m, "$ref");
    NamedSchemasKept(native, ctx.schemas);
    if "$ref" in m {
      ScalarsKept(native, m["$ref"]);
    }
  }

  lemma ObjectKept(native: bool, ctx: Context, depth: nat, m: Members, v: Json)
    requires Suits(native, Obj(m))
    requires var n := Normalize(native, Obj(m)).members; var routed := RouterContext(native, ctx);
             && AllOfHolds(RouterReading(native), routed, depth, n, v) == AllOfHolds(SourceReading(native), ctx, depth, m, v)
             && AnyOfHolds(RouterReading(native), routed, depth, n, v) == AnyOfHolds(SourceReading(native), ctx, depth, m, v)
             && OneOfHolds(RouterReading(native), routed, depth, n, v) == OneOfHolds(SourceReading(native), ctx, depth, m, v)
             && NotHolds(RouterReading(native), routed, depth, n, v) == NotHolds(SourceReading(native), ctx, depth, m, v)
             && ItemsHold(RouterReading(native), routed, depth, n, v) == ItemsHold(SourceReading(native), ctx, depth, m, v)
             && PropertiesHold(RouterReading(native), routed, depth, n, v) == PropertiesHold(SourceReading(native), ctx, depth, m, v)
             && ReferenceHolds(RouterReading(native), routed, depth, n, v) == ReferenceHolds(SourceReading(native), ctx, depth, m, v)
    ensures Same(native, ctx, depth, Obj(m), v)
  {
    NormalizedObject(native, m);
    RequiredKept(native, m, v);
    BoundsKept(native, m, v);
    AssertionsKept(native, ctx, m, v);
    if AnyOfHolds(SourceReading(native), ctx, depth, m, v) {
      TypeAndEnumKept(native, ctx, depth, m, v);
    }
  }

  lemma {:induction false} SamePreserved(native: bool, ctx: Context, depth: nat, schema: Json, v: Json)
    requires ContextSuits(native, ctx) && Suits(native, schema)
    ensures Same(native, ctx, depth, schema, v)
    decreases depth, schema, 1
  {
    if schema.Obj? {
      var m := schema.members;
      BranchesPreserved(native, ctx, depth, m, "allOf", v);
      AllOfKept(native, ctx, depth, m, v);
      BranchesPreserved(native, ctx, depth, m, "anyOf", v);
      AnyOfKept(native, ctx, depth, m, v);
      BranchesPreserved(native, ctx, depth, m, "oneOf", v);
      OneOfKept(native, ctx, depth, m, v);
      MembersPreserved(native, ctx, depth, m, v);
      ReferencePreserved(native, ctx, depth, m, v);
      ObjectKept(native, ctx, depth, m, v);
    }
  }

  lemma {:induction false} BranchesPreserved(native: bool, ctx: Context, depth: nat, m: Members, key: string, v: Json)
    requires ContextSuits(native, ctx) && Suits(native, Obj(m)) && key in ARRAY_APPLICATORS
    ensures BranchesSame(native, ctx, depth, m, key, v)
    decreases depth, Obj(m), 0
  {
    if key in m {
      forall i | 0 <= i < |m[key].items|
        ensures Same(native, ctx, depth, m[key].items[i], v)
      {
        SamePreserved(native, ctx, depth, m[key].items[i], v);
      }
    }
  }

  lemma {:induction false} MembersPreserved(native: bool, ctx: Context, depth: nat, m: Members, v: Json)
    requires ContextSuits(native, ctx) && Suits(native, Obj(m))
    ensures var n := Normalize(native, Obj(m)).members; var routed := RouterContext(native, ctx);
            && NotHolds(RouterReading(native), routed, depth, n, v) == NotHolds(SourceReading(native), ctx, depth, m, v)
            && ItemsHold(RouterReading(native), routed, depth, n, v) == ItemsHold(SourceReading(native), ctx, depth, m, v)
            && PropertiesHold(RouterReading(native), routed, depth, n, v) == PropertiesHold(SourceReading(native), ctx, depth, m, v)
    decreases depth, Obj(m), 0, 1
  {
    if "not" in m {
      SamePreserved(native, ctx, depth, m["not"], v);
    }
    NotKept(native, ctx, depth, m, v);
    if "items" in m && v.Arr? {
      forall i | 0 <= i < |v.items|
        ensures Same(native, ctx, depth, m["items"], v.items[i])
      {
        SamePreserved(native, ctx, depth, m["items"], v.items[i]);
      }
    }
    ItemsKept(native, ctx, depth, m, v);
    if v.Obj? {
      forall name | name in v.members
        ensures PropertySame(native, ctx, depth, m, name, v.members[name])
      {
        PropertyPreserved(native, ctx, depth, m, name, v.members[name]);
      }
    }
    if "properties" in m {
      SuitableProperties(native, m);
    }
    PropertiesKept(native, ctx, depth, m, v);
  }

  lemma {:induction false} PropertyPreserved(native: bool, ctx: Context, depth: nat, m: Members, name: string, w: Json)
    requires ContextSuits(native, ctx) && Suits(native, Obj(m))
    ensures PropertySame(native, ctx, depth, m, name, w)
    decreases depth, Obj(m), 0, 0
  {
    if Declares(m, name) {
      SamePreserved(native, ctx, depth, m["properties"].members[name], w);
    }
    if "additionalProperties" in m {
      SamePreserved(native, ctx, depth, m["additionalProperties"], w);
    }
  }

  lemma NamedSuits(native: bool, ctx: Context, name: string)
    requires ContextSuits(native, ctx) && name in ctx.schemas
    ensures Suits(native, ctx.schemas[name])
  {
  }

  lemma {:induction false} NamedPreserved(native: bool, ctx: Context, depth: nat, name: string, v: Json)
    requires ContextSuits(native, ctx) && name in ctx.schemas
    ensures Same(native, ctx, depth, ctx.schemas[name], v)
    decreases depth, ctx.schemas[name], 2
  {
    var schema := ctx.schemas[name];
    NamedSuits(native, ctx, name);
    SamePreserved(native, ctx, depth, schema, v);
  }

  lemma {:induction false} ReferencePreserved(native: bool, ctx: Context, depth: nat, m: Members, v: Json)
    requires ContextSuits(native, ctx)
    ensures ReferenceHolds(RouterReading(native), RouterContext(native, ctx), depth, Normalize(native, Obj(m)).members, v)
         == ReferenceHolds(SourceReading(native), ctx, depth, m, v)
    decreases depth, Obj(m), 0, 1
  {
    if Resolves(ctx, depth, m) {
      NamedPreserved(native, ctx, depth - 1, m["$ref"].text, v);
    }
    SuitableNames(native, ctx);
    ReferenceKept(native, ctx, depth, m, v);
  }

  /**
   The router document is semantically equivalent to the frozen one: for every
   suitable schema, with any references into a suitable document, at every depth
   of reference and for every JSON value, both accept or both reject it.
   */
  lemma MeaningPreserved(native: bool, ctx: Context, depth: nat, schema: Json, v: Json)
    requires ContextSuits(native, ctx) && Suits(native, schema)
    ensures Accepts(RouterReading(native), RouterContext(native, ctx), depth, Normalize(native, schema), v)
       <==> Accepts(SourceReading(native), ctx, depth, schema, v)
  {
    SamePreserved(native, ctx, depth, schema, v);
  }
}
