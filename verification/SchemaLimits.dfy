/**
 Where the router rewrite does change meaning.  Each lemma takes one family of
 schemas a condition of `Suits` shuts out and shows that, within the family, the
 rewrite preserves meaning exactly when the condition holds.
 */
module SchemaLimits {
  import opened Wrappers
  import opened JsonValues
  import opened RouterSchemas
  import opened SchemaMeaning

  function Unreferenced(assertion: (string, Json, Json) -> bool): Context {
    Context(map[], assertion)
  }

  ghost predicate Preserved(native: bool, assertion: (string, Json, Json) -> bool, schema: Json) {
    forall v :: Same(native, Unreferenced(assertion), 0, schema, v)
  }

  lemma SuitableIsPreserved(native: bool, assertion: (string, Json, Json) -> bool, schema: Json)
    requires Suits(native, schema)
    ensures Preserved(native, assertion, schema)
  {
    forall v
      ensures Same(native, Unreferenced(assertion), 0, schema, v)
    {
      MeaningPreserved(native, Unreferenced(assertion), 0, schema, v);
    }
  }

  const PLAIN := {"type", "nullable", "enum", "required", "minimum", "maximum", "exclusiveMinimum", "exclusiveMaximum"}

  /** A keyword that is absent constrains nothing. */
  lemma AbsentHold(r: Reading, ctx: Context, m: Members, v: Json)
    ensures "allOf" !in m ==> AllOfHolds(r, ctx, 0, m, v)
    ensures "anyOf" !in m ==> AnyOfHolds(r, ctx, 0, m, v)
    ensures "oneOf" !in m ==> OneOfHolds(r, ctx, 0, m, v)
    ensures "not" !in m ==> NotHolds(r, ctx, 0, m, v)
    ensures "items" !in m ==> ItemsHold(r, ctx, 0, m, v)
    ensures "$ref" !in m ==> ReferenceHolds(r, ctx, 0, m, v)
    ensures "properties" !in m && "additionalProperties" !in m ==> PropertiesHold(r, ctx, 0, m, v)
    ensures (forall key :: key in m ==> !IsAssertion(key)) ==> AssertionsHold(ctx, m, v)
  {
  }

  lemma PlainAccepts(r: Reading, ctx: Context, m: Members, v: Json)
    requires m.Keys <= PLAIN
    ensures Accepts(r, ctx, 0, Obj(m), v) ==
            (TypeHolds(r, m, v) && EnumHolds(m, v) && RequiredHolds(m, v) && BoundsHold(r, m, v))
  {
    assert forall key :: key in m ==> key in PLAIN;
    AbsentHold(r, ctx, m, v);
  }

  /** Data under `enum` must trip none of the rewrite's guards. */
  lemma EnumDataExactly(native: bool, assertion: (string, Json, Json) -> bool, x: Json)
    ensures Preserved(native, assertion, Obj(map["enum" := Arr([x])])) <==> Inert(native, x)
  {
    var m: Members := map["enum" := Arr([x])];
    if Inert(native, x) {
      assert Inert(native, m["enum"]);
      SuitableIsPreserved(native, assertion, Obj(m));
    }
    if Preserved(native, assertion, Obj(m)) {
      assert Same(native, Unreferenced(assertion), 0, Obj(m), x);
      assert RewriteObject(native, m) == m;
      NormalizedObject(native, m);
      NormalizedArray(native, [x]);
      var n := Normalize(native, Obj(m)).members;
      assert n["enum"].items == [Normalize(native, x)];
      PlainAccepts(SourceReading(native), Unreferenced(assertion), m, x);
      PlainAccepts(RouterReading(native), RouterContext(native, Unreferenced(assertion)), n, x);
      UnchangedInert(native, x);
    }
  }

  /** Reads the keyword as naming the one value it compares with `x`. */
  function Compares(key: string, x: Json): (string, Json, Json) -> bool {
    (k: string, value: Json, v: Json) => k == key ==> value == x
  }

  /**
   The value of a keyword the rewrite does not know must trip none of the guards, or
   some meaning of the keyword is not preserved.
   */
  lemma AssertionDataExactly(native: bool, key: string, x: Json)
    requires IsAssertion(key)
    ensures (forall assertion :: Preserved(native, assertion, Obj(map[key := x]))) <==> Inert(native, x)
  {
    var m: Members := map[key := x];
    if Inert(native, x) {
      assert Suits(native, Obj(m));
      forall assertion
        ensures Preserved(native, assertion, Obj(m))
      {
        SuitableIsPreserved(native, assertion, Obj(m));
      }
    }
    if forall assertion :: Preserved(native, assertion, Obj(m)) {
      ComparedDataKept(native, key, x);
      UnchangedInert(native, x);
    }
  }

  lemma ComparedDataKept(native: bool, key: string, x: Json)
    requires IsAssertion(key) && Preserved(native, Compares(key, x), Obj(map[key := x]))
    ensures Normalize(native, x) == x
  {
    var m: Members := map[key := x];
    var ctx := Unreferenced(Compares(key, x));
    assert Same(native, ctx, 0, Obj(m), Null);
    AbsentHold(SourceReading(native), ctx, m, Null);
    assert Accepts(SourceReading(native), ctx, 0, Obj(m), Null);
    OthersKept(native, m);
    var n := Normalize(native, Obj(m)).members;
    assert AssertionsHold(RouterContext(native, ctx), n, Null);
    assert key in n && n[key] == Normalize(native, x);
  }

  function NullEnum(values: seq<Json>): Members {
    map["type" := Str("null"), "enum" := Arr(values)]
  }

  /** With 3.0 spelling, an enum beside the type null must list nothing but null. */
  lemma NullEnumExactly(assertion: (string, Json, Json) -> bool, values: seq<Json>)
    requires Inert(false, Arr(values))
    ensures Preserved(false, assertion, Obj(NullEnum(values))) <==> OnlyNulls(values)
  {
    if OnlyNulls(values) {
      SuitableIsPreserved(false, assertion, Obj(NullEnum(values)));
    } else {
      var x :| x in values && x != Null;
      NullEnumLost(assertion, values, x);
    }
  }

  lemma NullEnumLost(assertion: (string, Json, Json) -> bool, values: seq<Json>, x: Json)
    requires Inert(false, Arr(values)) && x in values && x != Null
    ensures !Same(false, Unreferenced(assertion), 0, Obj(NullEnum(values)), x)
  {
    PlainAccepts(SourceReading(false), Unreferenced(assertion), NullEnum(values), x);
    SpelledNullAccepts(assertion, values, x);
  }

  /** What is left of such an object: the enum, and nullable. */
  lemma SpelledNull(values: seq<Json>)
    requires Inert(false, Arr(values))
    ensures Normalize(false, Obj(NullEnum(values))) == Obj(map["nullable" := Bool(true), "enum" := Arr(values)])
  {
    var m := NullEnum(values);
    var w: Members := map["nullable" := Bool(true), "enum" := Arr(values)];
    assert RewriteObject(false, m) == w;
    NormalizedObject(false, m);
    InertUnchanged(false, Arr(values));
    assert Normalize(false, Obj(m)).members == w;
  }

  lemma SpelledNullAccepts(assertion: (string, Json, Json) -> bool, values: seq<Json>, x: Json)
    requires Inert(false, Arr(values)) && x in values
    ensures Accepts(RouterReading(false), RouterContext(false, Unreferenced(assertion)), 0, Normalize(false, Obj(NullEnum(values))), x)
  {
    SpelledNull(values);
    var n: Members := map["nullable" := Bool(true), "enum" := Arr(values)];
    PlainAccepts(RouterReading(false), RouterContext(false, Unreferenced(assertion)), n, x);
  }

  /** A numeric exclusive bound, lower or upper, survives exactly where validators read one. */
  lemma NumericBoundExactly(native: bool, assertion: (string, Json, Json) -> bool, exclusive: string, bound: real)
    requires exclusive in {"exclusiveMinimum", "exclusiveMaximum"}
    ensures Preserved(native, assertion, Obj(map[exclusive := Num(bound)])) <==> native
  {
    var m: Members := map[exclusive := Num(bound)];
    if native {
      SuitableIsPreserved(native, assertion, Obj(m));
    } else {
      assert RewriteObject(native, m) == m;
      NormalizedObject(native, m);
      var n := Normalize(native, Obj(m)).members;
      PlainAccepts(SourceReading(native), Unreferenced(assertion), m, Num(bound));
      PlainAccepts(RouterReading(native), RouterContext(native, Unreferenced(assertion)), n, Num(bound));
      assert !Same(native, Unreferenced(assertion), 0, Obj(m), Num(bound));
    }
  }

  function TypedBranch(t: string, nullable: bool): Json {
    Obj(map["type" := Str(t), "nullable" := Bool(nullable)])
  }

  function TypedUnion(t: string, flags: seq<bool>): Members {
    map["anyOf" := Arr(seq(|flags|, i requires 0 <= i < |flags| => TypedBranch(t, flags[i])))]
  }

  lemma {:induction false} SameTypeAgreed(branches: seq<Json>, t: string)
    requires branches != [] && forall i :: 0 <= i < |branches| ==> BranchType(branches[i]) == Some(t)
    ensures Agreed(branches) == Some(t)
  {
    if |branches| > 1 {
      SameTypeAgreed(branches[..|branches| - 1], t);
    } else {
      AgreedOne(branches[0]);
      assert branches == [branches[0]];
    }
  }

  lemma UnionShares(t: string, flags: seq<bool>)
    requires t != "null" && flags != []
    ensures CommonAnyOfType(Member(TypedUnion(t, flags), "anyOf")) == Some(t)
  {
    SameTypeAgreed(TypedUnion(t, flags)["anyOf"].items, t);
  }

  lemma NullableBranchLost(assertion: (string, Json, Json) -> bool, t: string, flags: seq<bool>, i: nat)
    requires t != "null" && i < |flags| && flags[i]
    ensures !Same(false, Unreferenced(assertion), 0, Obj(TypedUnion(t, flags)), Null)
  {
    var m := TypedUnion(t, flags);
    var ctx := Unreferenced(assertion);
    var branch := m["anyOf"].items[i];
    assert branch == TypedBranch(t, true);
    PlainAccepts(SourceReading(false), ctx, branch.members, Null);
    assert Accepts(SourceReading(false), ctx, 0, branch, Null);
    AbsentHold(SourceReading(false), ctx, m, Null);
    assert Accepts(SourceReading(false), ctx, 0, Obj(m), Null);
    UnionShares(t, flags);
    TypeMembers(false, m);
    var n := Normalize(false, Obj(m)).members;
    assert Member(n, "type") == Some(Str(t));
    assert !TypeHolds(RouterReading(false), n, Null);
  }

  lemma PlainUnionSuits(t: string, flags: seq<bool>)
    requires t != "null" && true !in flags
    ensures Suits(false, Obj(TypedUnion(t, flags)))
  {
    forall i | 0 <= i < |flags|
      ensures Suits(false, TypedBranch(t, flags[i])) && !NullableBranch(TypedBranch(t, flags[i]))
    {
      assert !flags[i];
    }
  }

  /** With 3.0 spelling, a promoted union of any number of branches must have no nullable one. */
  lemma NullableBranchExactly(assertion: (string, Json, Json) -> bool, t: string, flags: seq<bool>)
    requires t != "null" && flags != []
    ensures Preserved(false, assertion, Obj(TypedUnion(t, flags))) <==> true !in flags
  {
    var m := TypedUnion(t, flags);
    if true in flags {
      var i :| 0 <= i < |flags| && flags[i];
      NullableBranchLost(assertion, t, flags, i);
    } else {
      PlainUnionSuits(t, flags);
      SuitableIsPreserved(false, assertion, Obj(m));
    }
  }

  lemma ForbiddenPropertyWalked(named: Members, name: string)
    requires name in {"exclusiveMinimum", "exclusiveMaximum"} && named == map[name := Bool(false)]
    ensures Normalize(true, Obj(map["properties" := Obj(named)])) == Obj(map["properties" := Obj(map[])])
  {
    var m: Members := map["properties" := Obj(named)];
    NormalizedObject(true, named);
    assert RewriteObject(true, named) == map[];
    assert Normalize(true, Obj(named)) == Obj(map[]);
    NormalizedObject(true, m);
    assert RewriteObject(true, m) == m;
  }

  lemma ForbiddenPropertyLost(assertion: (string, Json, Json) -> bool, name: string)
    requires name in {"exclusiveMinimum", "exclusiveMaximum"}
    ensures !Same(true, Unreferenced(assertion), 0, Obj(map["properties" := Obj(map[name := Bool(false)])]), Obj(map[name := Null]))
  {
    var named: Members := map[name := Bool(false)];
    var m: Members := map["properties" := Obj(named)];
    var v := Obj(map[name := Null]);
    var ctx := Unreferenced(assertion);
    assert Declares(m, name);
    assert !PropertyHolds(SourceReading(true), ctx, 0, m, name, v.members[name]);
    ForbiddenPropertyWalked(named, name);
    var n: Members := map["properties" := Obj(map[])];
    assert PropertiesHold(RouterReading(true), RouterContext(true, ctx), 0, n, v);
    AbsentHold(RouterReading(true), RouterContext(true, ctx), n, v);
    assert Accepts(RouterReading(true), RouterContext(true, ctx), 0, Obj(n), v);
    assert !PropertiesHold(SourceReading(true), ctx, 0, m, v);
    assert !Accepts(SourceReading(true), ctx, 0, Obj(m), v);
  }

  /**
   A forbidden property survives exactly when the walk does not mistake its name
   for a boolean bound that is switched off.
   */
  lemma ForbiddenPropertyExactly(native: bool, assertion: (string, Json, Json) -> bool, name: string)
    ensures Preserved(native, assertion, Obj(map["properties" := Obj(map[name := Bool(false)])]))
            <==> !(native && name in {"exclusiveMinimum", "exclusiveMaximum"})
  {
    var named: Members := map[name := Bool(false)];
    var m: Members := map["properties" := Obj(named)];
    if native && name in {"exclusiveMinimum", "exclusiveMaximum"} {
      ForbiddenPropertyLost(assertion, name);
    } else {
      assert NamesSuit(native, named);
      assert !IsAssertion("properties");
      assert Suits(native, named[name]);
      SuitableIsPreserved(native, assertion, Obj(m));
    }
  }
}
