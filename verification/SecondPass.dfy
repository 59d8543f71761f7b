/**
 When a second pass of the router rewrite finds nothing left to do.  All guards but
 one stay quiet on rewritten documents; the promotion of a common type can fire again,
 because an object is rewritten before its branches are.
 */
module SecondPass {
  import opened Wrappers
  import opened JsonValues
  import opened RouterSchemas
  import opened SchemaMeaning

  // ---- The condition ----

  /** A branch after its own rewrite, before its members are visited. */
  function Shallow(native: bool, branch: Json): Json {
    if branch.Obj? then Obj(RewriteObject(native, branch.members)) else branch
  }

  /** The rewritten object is typed, or the branches of its union share no type even after their own rewrite. */
  predicate PromotesNoMore(native: bool, w: Members) {
    "type" !in w && "anyOf" in w && w["anyOf"].Arr? ==>
      var branches := w["anyOf"].items;
      CommonAnyOfType(Some(Arr(seq(|branches|, i requires 0 <= i < |branches| => Shallow(native, branches[i]))))).None?
  }

  /** `PromotesNoMore` at every object the walk visits. */
  predicate Settled(native: bool, value: Json)
    decreases Weight(value)
  {
    match value
    case Obj(m) =>
      RewrittenMembersLighter(native, m);
      var w := RewriteObject(native, m);
      PromotesNoMore(native, w) && forall k :: k in w ==> Settled(native, w[k])
    case Arr(items) =>
      ItemLighter(items);
      forall i :: 0 <= i < |items| ==> Settled(native, items[i])
    case _ => true
  }

  // ---- The guards that stay quiet ----

  lemma {:induction false} DistinctStringsUnique(items: seq<Json>)
    requires forall i, j :: 0 <= i < j < |items| && items[j].Str? ==> items[i] != items[j]
    ensures Unique(items) == items
  {
    if items != [] {
      DistinctStringsUnique(items[..|items| - 1]);
    }
  }

  lemma RequiredQuiet(native: bool, m: Members)
    ensures var n := Normalize(native, Obj(m)).members;
            "required" in n && n["required"].Arr? ==> Unique(n["required"].items) == n["required"].items
  {
    var n := Normalize(native, Obj(m)).members;
    MemberVisited(native, m, "required");
    RewrittenRequired(native, m);
    if "required" in n && n["required"].Arr? {
      var before := Unique(m["required"].items);
      var after := n["required"].items;
      assert n["required"] == Normalize(native, Arr(before));
      UniqueStrings(m["required"].items);
      forall i, j | 0 <= i < j < |after| && after[j].Str?
        ensures after[i] != after[j]
      {
        ScalarsKept(native, before[i]);
        ScalarsKept(native, before[j]);
      }
      DistinctStringsUnique(after);
    }
  }

  lemma BoundsQuiet(native: bool, m: Members)
    ensures var n := Normalize(native, Obj(m)).members;
            BoundInert(native, n, "minimum", "exclusiveMinimum") && BoundInert(native, n, "maximum", "exclusiveMaximum")
  {
    if native {
      RewrittenBound(native, m);
      BoundQuiet(m, "minimum", "exclusiveMinimum");
      BoundQuiet(m, "maximum", "exclusiveMaximum");
    }
  }

  lemma BoundQuiet(m: Members, inclusive: string, exclusive: string)
    requires inclusive != exclusive
    requires var b := NumericBound(m, inclusive, exclusive); var w := RewriteObject(true, m);
             Member(w, inclusive) == Member(b, inclusive) && Member(w, exclusive) == Member(b, exclusive)
    ensures BoundInert(true, Normalize(true, Obj(m)).members, inclusive, exclusive)
  {
    MemberVisited(true, m, inclusive);
    MemberVisited(true, m, exclusive);
  }

  lemma {:induction false} AgreedNotNull(branches: seq<Json>)
    ensures Agreed(branches) != Some("null")
  {
    if branches != [] {
      AgreedNotNull(branches[..|branches| - 1]);
    }
  }

  lemma NullQuiet(m: Members)
    ensures Member(Normalize(false, Obj(m)).members, "type") != Some(Str("null"))
  {
    MemberVisited(false, m, "type");
    RewrittenType(false, m);
    if CommonAnyOfType(Member(m, "anyOf")).Some? {
      AgreedNotNull(m["anyOf"].items);
    }
  }

  // ---- The guard that may fire again ----

  lemma BranchVisited(native: bool, branch: Json)
    ensures BranchType(Normalize(native, branch)) == BranchType(Shallow(native, branch))
  {
    if branch.Obj? {
      MemberVisited(native, branch.members, "type");
    }
  }

  lemma {:induction false} SameTypesAgree(some: seq<Json>, other: seq<Json>)
    requires |some| == |other| && forall i :: 0 <= i < |some| ==> BranchType(some[i]) == BranchType(other[i])
    ensures Agreed(some) == Agreed(other)
  {
    if some != [] {
      SameTypesAgree(some[..|some| - 1], other[..|other| - 1]);
    }
  }

  lemma PromotionQuiet(native: bool, m: Members)
    ensures var n := Normalize(native, Obj(m)).members;
            ("type" in n || CommonAnyOfType(Member(n, "anyOf")).None?) <==> PromotesNoMore(native, RewriteObject(native, m))
  {
    var w := RewriteObject(native, m);
    MemberVisited(native, m, "type");
    MemberVisited(native, m, "anyOf");
    if "anyOf" in w && w["anyOf"].Arr? {
      var branches := w["anyOf"].items;
      var shallow := seq(|branches|, i requires 0 <= i < |branches| => Shallow(native, branches[i]));
      var visited := Normalize(native, w["anyOf"]).items;
      forall i | 0 <= i < |branches|
        ensures BranchType(visited[i]) == BranchType(shallow[i])
      {
        BranchVisited(native, branches[i]);
      }
      SameTypesAgree(visited, shallow);
    }
  }

  // ---- The result ----

  lemma {:induction false} SettledIsInert(native: bool, value: Json)
    ensures Inert(native, Normalize(native, value)) <==> Settled(native, value)
    decreases Weight(value)
  {
    match value {
      case Obj(m) =>
        var w := RewriteObject(native, m);
        RewrittenMembersLighter(native, m);
        NormalizedObject(native, m);
        RequiredQuiet(native, m);
        BoundsQuiet(native, m);
        if !native {
          NullQuiet(m);
        }
        PromotionQuiet(native, m);
        forall k | k in w
          ensures Inert(native, Normalize(native, w[k])) <==> Settled(native, w[k])
        {
          SettledIsInert(native, w[k]);
        }
      case Arr(items) =>
        NormalizedArray(native, items);
        ItemLighter(items);
        forall i | 0 <= i < |items|
          ensures Inert(native, Normalize(native, items[i])) <==> Settled(native, items[i])
        {
          SettledIsInert(native, items[i]);
        }
      case _ =>
    }
  }

  /** One pass is enough exactly for settled documents, so there the rewrite is idempotent. */
  lemma SecondPassExactly(native: bool, value: Json)
    ensures Normalize(native, Normalize(native, value)) == Normalize(native, value) <==> Settled(native, value)
  {
    SettledIsInert(native, value);
    if Settled(native, value) {
      InertUnchanged(native, Normalize(native, value));
    } else if Normalize(native, Normalize(native, value)) == Normalize(native, value) {
      UnchangedInert(native, Normalize(native, value));
    }
  }

  /** The smallest kind of document that is not: an inner union promoted by the first pass types a branch of the outer one. */
  lemma SecondPassCanPromote(native: bool)
    ensures var inner := Obj(map["anyOf" := Arr([Obj(map["type" := Str("string")])])]);
            var outer := Obj(map["anyOf" := Arr([inner])]);
            !Settled(native, outer) && Normalize(native, Normalize(native, outer)) != Normalize(native, outer)
  {
    var leaf := Obj(map["type" := Str("string")]);
    var inner: Members := map["anyOf" := Arr([leaf])];
    var outer: Members := map["anyOf" := Arr([Obj(inner)])];
    AgreedOne(leaf);
    AgreedOne(Obj(inner));
    assert RewriteObject(native, outer) == outer;
    assert RewriteObject(native, inner)["type"] == Str("string");
    AgreedOne(Shallow(native, Obj(inner)));
    var branches := outer["anyOf"].items;
    assert seq(|branches|, i requires 0 <= i < |branches| => Shallow(native, branches[i])) == [Shallow(native, Obj(inner))];
    assert !PromotesNoMore(native, outer);
    SecondPassExactly(native, Obj(outer));
  }
}
