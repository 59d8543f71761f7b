/** What the rewrite of one object computes, member by member, in terms of the JSON it is given. */
module RewriteMeaning {
  import opened Wrappers
  import opened JsonValues
  import opened RouterSchemas
  import opened SchemaMeaning

  /** The member as the walk leaves it where nothing is rewritten. */
  function Visited(native: bool, m: Members, key: string): Option<Json> {
    if key in m then Some(Normalize(native, m[key])) else None
  }

  /** With 3.0 spelling the type null is spelled out. */
  predicate SpellsNull(native: bool, m: Members) {
    !native && "type" in m && m["type"] == Str("null")
  }

  /**
   A typed object keeps its type, unless that is null in 3.0 spelling.  Any other
   object ends up with the type its union shares, and with no type if there is none.
   */
  lemma TypeComputed(native: bool, m: Members, t: string)
    ensures var n := Normalize(native, Obj(m)).members;
            if "type" in m && !SpellsNull(native, m) then Member(n, "type") == Visited(native, m, "type")
            else
              && (Member(n, "type") == Some(Str(t)) <==> SharesType(Member(m, "anyOf"), t))
              && ("type" in n ==> n["type"].Str?)
  {
    TypeMembers(native, m);
    CommonTypeMeaning(Member(m, "anyOf"), t);
  }

  /** Whatever else the branches hold, a union of strings and string enums is a string. */
  lemma UnionOfOneType(native: bool, m: Members, t: string)
    requires "type" !in m && "anyOf" in m && m["anyOf"].Arr? && m["anyOf"].items != [] && t != "null"
    requires forall i :: 0 <= i < |m["anyOf"].items| ==> TypedAs(m["anyOf"].items[i], t)
    ensures Member(Normalize(native, Obj(m)).members, "type") == Some(Str(t))
  {
    assert TypedFrom(m["anyOf"].items, 0, t);
    TypeComputed(native, m, t);
  }

  lemma NullComputed(native: bool, m: Members)
    ensures var n := Normalize(native, Obj(m)).members;
            if SpellsNull(native, m) then
              && Member(n, "nullable") == Some(Bool(true))
              && Member(n, "enum") == (if "enum" in m then Visited(native, m, "enum") else Some(Arr([Null])))
            else Member(n, "nullable") == Visited(native, m, "nullable") && Member(n, "enum") == Visited(native, m, "enum")
  {
    MemberVisited(native, m, "nullable");
    MemberVisited(native, m, "enum");
    RewrittenType(native, m);
    NormalizedArray(native, [Null]);
    assert Normalize(native, Arr([Null])).items == [Null];
  }

  /** In native mode a false bound goes, and a true one takes over the number of its inclusive partner. */
  predicate BoundComputed(native: bool, m: Members, n: Members, inclusive: string, exclusive: string) {
    var boolean := native && exclusive in m && m[exclusive].Bool?;
    if boolean && m[exclusive] == Bool(false) then
      exclusive !in n && Member(n, inclusive) == Visited(native, m, inclusive)
    else if boolean && inclusive in m && m[inclusive].Num? then
      inclusive !in n && Member(n, exclusive) == Some(m[inclusive])
    else Member(n, inclusive) == Visited(native, m, inclusive) && Member(n, exclusive) == Visited(native, m, exclusive)
  }

  lemma BoundsComputed(native: bool, m: Members)
    ensures BoundComputed(native, m, Normalize(native, Obj(m)).members, "minimum", "exclusiveMinimum")
    ensures BoundComputed(native, m, Normalize(native, Obj(m)).members, "maximum", "exclusiveMaximum")
  {
    RewrittenBound(native, m);
    MemberVisited(native, m, "minimum");
    MemberVisited(native, m, "exclusiveMinimum");
    MemberVisited(native, m, "maximum");
    MemberVisited(native, m, "exclusiveMaximum");
  }

  lemma StringsUnvisited(native: bool, items: seq<Json>)
    requires forall x :: x in items ==> x.Str?
    ensures Normalize(native, Arr(items)) == Arr(items)
  {
    NormalizedArray(native, items);
    assert Normalize(native, Arr(items)).items == items;
  }

  /** A list of required names loses its repeats; anything else under `required` is only visited. */
  lemma RequiredComputed(native: bool, m: Members)
    ensures var n := Normalize(native, Obj(m)).members;
            && ("required" !in m ==> "required" !in n)
            && ("required" in m && !m["required"].Arr? ==> Member(n, "required") == Visited(native, m, "required"))
            && ("required" in m && m["required"].Arr? && (forall x :: x in m["required"].items ==> x.Str?) ==>
                  Member(n, "required") == Some(Arr(Unique(m["required"].items))))
  {
    MemberVisited(native, m, "required");
    RewrittenRequired(native, m);
    if "required" in m && m["required"].Arr? && forall x :: x in m["required"].items ==> x.Str? {
      UniqueKeepsMembers(m["required"].items);
      StringsUnvisited(native, Unique(m["required"].items));
    }
  }

  /** No other member is added, dropped or touched before it is visited. */
  lemma OthersComputed(native: bool, m: Members, key: string)
    requires key !in {"required", "minimum", "maximum", "exclusiveMinimum", "exclusiveMaximum", "type", "nullable", "enum"}
    ensures Member(Normalize(native, Obj(m)).members, key) == Visited(native, m, key)
  {
    OtherKept(native, m, key);
  }
}
