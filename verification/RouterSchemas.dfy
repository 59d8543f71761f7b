/**
 The rewrite that prepares the frozen OpenAPI document for the router.

 Every object is rewritten before its members are visited, and the visit also
 enters what the rewrite has just inserted.  The functions say what the rewrite
 computes; the methods do it the way the source does, filtering the required
 names inside their own array and walking members in arbitrary order.
 */
module RouterSchemas {
  import opened Wrappers
  import opened JsonValues

  // ---- Required names ----

  /** `items` without each string that already occurred. */
  function Unique(items: seq<Json>): seq<Json> {
    if items == [] then []
    else
      var earlier, last := items[..|items| - 1], items[|items| - 1];
      if last.Str? && last in earlier then Unique(earlier) else Unique(earlier) + [last]
  }

  function NonStrings(items: seq<Json>): seq<Json> {
    if items == [] then []
    else
      var earlier, last := items[..|items| - 1], items[|items| - 1];
      if last.Str? then NonStrings(earlier) else NonStrings(earlier) + [last]
  }

  function FirstIndex(items: seq<Json>, x: Json): (i: nat)
    requires x in items
    ensures i < |items| && items[i] == x && x !in items[..i]
  {
    if x in items[..|items| - 1] then
      var i := FirstIndex(items[..|items| - 1], x);
      assert items[..|items| - 1][..i] == items[..i];
      i
    else |items| - 1
  }

  lemma {:induction false} UniqueKeepsMembers(items: seq<Json>)
    ensures forall x :: x in Unique(items) <==> x in items
  {
    if items != [] {
      UniqueKeepsMembers(items[..|items| - 1]);
      assert items == items[..|items| - 1] + [items[|items| - 1]];
    }
  }

  lemma {:induction false} UniqueStrings(items: seq<Json>)
    ensures forall i, j :: 0 <= i < j < |Unique(items)| && Unique(items)[j].Str? ==> Unique(items)[i] != Unique(items)[j]
    ensures NonStrings(Unique(items)) == NonStrings(items)
  {
    if items != [] {
      var earlier, last := items[..|items| - 1], items[|items| - 1];
      UniqueStrings(earlier);
      UniqueKeepsMembers(earlier);
      if !(last.Str? && last in earlier) {
        assert (Unique(earlier) + [last])[..|Unique(earlier)|] == Unique(earlier);
      }
    }
  }

  lemma {:induction false} UniqueKeepsOrder(items: seq<Json>, x: Json, y: Json)
    requires x in items && y in items
    ensures x in Unique(items) && y in Unique(items)
    ensures FirstIndex(items, x) < FirstIndex(items, y) <==> FirstIndex(Unique(items), x) < FirstIndex(Unique(items), y)
  {
    UniqueKeepsMembers(items);
    var earlier, last := items[..|items| - 1], items[|items| - 1];
    UniqueKeepsMembers(earlier);
    if x in earlier && y in earlier {
      UniqueKeepsOrder(earlier, x, y);
    }
    var u := Unique(items);
    assert !(last.Str? && last in earlier) ==> u[..|u| - 1] == Unique(earlier);
  }

  /**
   The filter of required names is the first-occurrence dedupe: the same values,
   no string twice, every other value kept in order, first occurrences in order.
   */
  lemma {:induction false} RequiredFilterMeaning(items: seq<Json>)
    ensures forall x :: x in Unique(items) <==> x in items
    ensures forall i, j :: 0 <= i < j < |Unique(items)| && Unique(items)[j].Str? ==> Unique(items)[i] != Unique(items)[j]
    ensures NonStrings(Unique(items)) == NonStrings(items)
    ensures forall x, y :: x in items && y in items ==>
              (FirstIndex(items, x) < FirstIndex(items, y) <==> FirstIndex(Unique(items), x) < FirstIndex(Unique(items), y))
  {
    UniqueKeepsMembers(items);
    UniqueStrings(items);
    forall x, y | x in items && y in items
      ensures FirstIndex(items, x) < FirstIndex(items, y) <==> FirstIndex(Unique(items), x) < FirstIndex(Unique(items), y)
    {
      UniqueKeepsOrder(items, x, y);
    }
  }

  /** The strings among the first `i` items. */
  ghost function StringsBefore(items: seq<Json>, i: nat): set<string>
    requires i <= |items|
  {
    set k | 0 <= k < i && items[k].Str? :: items[k].text
  }

  lemma UniqueNext(items: seq<Json>, i: nat)
    requires i < |items|
    ensures Unique(items[..i + 1]) ==
            Unique(items[..i]) + (if items[i].Str? && items[i].text in StringsBefore(items, i) then [] else [items[i]])
    ensures StringsBefore(items, i + 1) == StringsBefore(items, i) + (if items[i].Str? then {items[i].text} else {})
  {
    assert items[..i + 1][..i] == items[..i];
    if items[i].Str? && items[i].text in StringsBefore(items, i) {
      var k :| 0 <= k < i && items[k] == items[i];
      assert items[..i][k] == items[i];
      assert Unique(items[..i]) + [] == Unique(items[..i]);
    }
  }

  /** Filters `required` in its own backing array; the result is the first `length` cells. */
  method FilterRequired(required: array<Json>) returns (length: nat)
    modifies required
    ensures length <= required.Length
    ensures required[..length] == Unique(old(required[..]))
    ensures required[length..] == old(required[length..])
  {
    ghost var items := required[..];
    var seen: set<string> := {};
    length := 0;
    for i := 0 to required.Length
      invariant length <= i
      invariant required[..length] == Unique(items[..i])
      invariant forall k :: length <= k < required.Length ==> required[k] == items[k]
      invariant seen == StringsBefore(items, i)
    {
      UniqueNext(items, i);
      var item := required[i];
      if item.Str? && item.text in seen {
        continue;
      }
      required[length] := item;
      length := length + 1;
      if item.Str? {
        seen := seen + {item.text};
      }
    }
    assert items[..required.Length] == items;
  }

  // ---- The type shared by all branches of anyOf ----

  function BranchType(branch: Json): Option<string> {
    if branch.Obj? && "type" in branch.members && branch.members["type"].Str? && branch.members["type"].text != "null"
    then Some(branch.members["type"].text)
    else None
  }

  /** The type the branches agree on so far; the empty string stands for no type yet. */
  function Agreed(branches: seq<Json>): Option<string> {
    if branches == [] then Some("")
    else
      var earlier, last := Agreed(branches[..|branches| - 1]), BranchType(branches[|branches| - 1]);
      if earlier.None? || last.None? then None
      else if earlier.value == "" then last
      else if earlier == last then earlier
      else None
  }

  function CommonAnyOfType(value: Option<Json>): Option<string> {
    if value.Some? && value.value.Arr? && value.value.items != [] then Agreed(value.value.items) else None
  }

  /** Empty type names up to `p`, and `t` from there on. */
  ghost predicate NamesFrom(branches: seq<Json>, p: int, t: string) {
    && 0 <= p <= |branches|
    && (forall i :: 0 <= i < p ==> BranchType(branches[i]) == Some(""))
    && (forall i :: p <= i < |branches| ==> BranchType(branches[i]) == Some(t))
    && (p == |branches| ==> t == "")
  }

  /**
   A type is promoted exactly when every branch names a non-null type and, past
   a possible run of empty type names, all of them name that one.
   */
  lemma {:induction false} AgreedMeaning(branches: seq<Json>, t: string)
    ensures Agreed(branches) == Some(t) <==> exists p :: NamesFrom(branches, p, t)
  {
    if branches == [] {
      assert t == "" ==> NamesFrom(branches, 0, t);
    } else {
      var n := |branches| - 1;
      var earlier := branches[..n];
      if Agreed(branches) == Some(t) {
        AgreedMeaning(earlier, Agreed(earlier).value);
        var c := Agreed(earlier).value;
        var p :| NamesFrom(earlier, p, c);
        assert forall i :: 0 <= i < n ==> branches[i] == earlier[i];
        assert NamesFrom(branches, if c != "" then p else if t == "" then n + 1 else n, t);
      }
      if p :| NamesFrom(branches, p, t) {
        assert forall i :: 0 <= i < n ==> branches[i] == earlier[i];
        assert NamesFrom(earlier, if p < n then p else n, if p < n then t else "");
        AgreedMeaning(earlier, if p < n then t else "");
      }
    }
  }

  predicate TypedAs(branch: Json, t: string) {
    branch.Obj? && "type" in branch.members && branch.members["type"] == Str(t)
  }

  /** The branches are typed with the empty name up to `p` and with `t` from there on. */
  ghost predicate TypedFrom(branches: seq<Json>, p: int, t: string) {
    && 0 <= p <= |branches|
    && (forall i :: 0 <= i < p ==> TypedAs(branches[i], ""))
    && (forall i :: p <= i < |branches| ==> TypedAs(branches[i], t))
    && (p == |branches| ==> t == "")
  }

  /**
   A non-empty union all branches of which name the type `t`, which is not null.  An
   empty name at the start counts as no name yet; otherwise a branch may hold anything else.
   */
  ghost predicate SharesType(union: Option<Json>, t: string) {
    && union.Some? && union.value.Arr? && union.value.items != [] && t != "null"
    && exists p :: TypedFrom(union.value.items, p, t)
  }

  lemma NamedAsTyped(branches: seq<Json>, p: int, t: string)
    ensures NamesFrom(branches, p, t) && (p < |branches| ==> t != "null") <==> TypedFrom(branches, p, t) && (p < |branches| ==> t != "null")
    ensures NamesFrom(branches, p, t) && p < |branches| ==> t != "null"
  {
    if 0 <= p < |branches| && NamesFrom(branches, p, t) {
      assert BranchType(branches[p]) == Some(t);
    }
  }

  /** The common type, in terms of the JSON value alone. */
  lemma CommonTypeMeaning(union: Option<Json>, t: string)
    ensures CommonAnyOfType(union) == Some(t) <==> SharesType(union, t)
  {
    if union.Some? && union.value.Arr? {
      var branches := union.value.items;
      AgreedMeaning(branches, t);
      if p :| NamesFrom(branches, p, t) {
        NamedAsTyped(branches, p, t);
      }
      if t != "null" {
        if p :| TypedFrom(branches, p, t) {
          NamedAsTyped(branches, p, t);
        }
      }
    }
  }

  /** Each branch of a promoted union has the promoted type or the empty one. */
  lemma {:induction false} AgreedTypes(branches: seq<Json>, i: nat)
    requires Agreed(branches).Some? && i < |branches|
    ensures BranchType(branches[i]) in {Some(""), Agreed(branches)}
  {
    if i < |branches| - 1 {
      AgreedTypes(branches[..|branches| - 1], i);
    }
  }

  lemma AgreedOne(branch: Json)
    ensures Agreed([branch]) == BranchType(branch)
  {
  }

  method FindCommonAnyOfType(value: Option<Json>) returns (common: Option<string>)
    ensures common == CommonAnyOfType(value)
    ensures forall t :: common == Some(t) <==> SharesType(value, t)
  {
    forall t
      ensures CommonAnyOfType(value) == Some(t) <==> SharesType(value, t)
    {
      CommonTypeMeaning(value, t);
    }
    if value.None? || !value.value.Arr? || |value.value.items| == 0 {
      return None;
    }
    var branches := value.value.items;
    var found := "";
    for i := 0 to |branches|
      invariant Agreed(branches[..i]) == Some(found)
    {
      assert branches[..i + 1][..i] == branches[..i];
      var branch := branches[i];
      if !branch.Obj? || "type" !in branch.members || !branch.members["type"].Str? || branch.members["type"].text == "null" {
        AgreedFails(branches, i + 1);
        return None;
      }
      var branchType := branch.members["type"].text;
      if found == "" {
        found := branchType;
      } else if found != branchType {
        AgreedFails(branches, i + 1);
        return None;
      }
    }
    assert branches[..|branches|] == branches;
    return Some(found);
  }

  lemma {:induction false} AgreedFails(branches: seq<Json>, n: nat)
    requires n <= |branches| && Agreed(branches[..n]) == None
    ensures Agreed(branches) == None
    decreases |branches| - n
  {
    if n == |branches| {
      assert branches[..n] == branches;
    } else {
      assert branches[..n + 1][..n] == branches[..n];
      AgreedFails(branches, n + 1);
    }
  }

  // ---- One object ----

  type Members = map<string, Json>

  function Member(m: Members, key: string): Option<Json> {
    if key in m then Some(m[key]) else None
  }

  function DedupeRequired(m: Members): Members {
    if "required" in m && m["required"].Arr? then m["required" := Arr(Unique(m["required"].items))] else m
  }

  function NumericBound(m: Members, inclusive: string, exclusive: string): Members {
    if exclusive !in m || !m[exclusive].Bool? then m
    else if !m[exclusive].flag then m - {exclusive}
    else if inclusive in m && m[inclusive].Num? then m[exclusive := m[inclusive]] - {inclusive}
    else m
  }

  function NumericBounds(m: Members): Members {
    NumericBound(NumericBound(m, "minimum", "exclusiveMinimum"), "maximum", "exclusiveMaximum")
  }

  const ONLY_NULL := Arr([Null])

  function SpellNull(m: Members): Members {
    if "type" in m && m["type"] == Str("null") then
      var nullable := (m - {"type"})["nullable" := Bool(true)];
      if "enum" in m then nullable else nullable["enum" := ONLY_NULL]
    else m
  }

  function PromoteType(m: Members): Members {
    var common := CommonAnyOfType(Member(m, "anyOf"));
    if "type" !in m && common.Some? then m["type" := Str(common.value)] else m
  }

  function RewriteObject(native: bool, m: Members): Members {
    var deduped := DedupeRequired(m);
    PromoteType(if native then NumericBounds(deduped) else SpellNull(deduped))
  }

  /** Every member weighs less than `bound`. */
  ghost predicate Below(m: Members, bound: nat) {
    forall k :: k in m ==> Weight(m[k]) < bound
  }

  lemma DedupeBelow(m: Members, bound: nat)
    requires Below(m, bound)
    ensures Below(DedupeRequired(m), bound)
  {
    if "required" in m && m["required"].Arr? {
      UniqueKeepsMembers(m["required"].items);
      SubarrayLighter(Unique(m["required"].items), m["required"].items);
    }
  }

  lemma SpellNullBelow(m: Members, bound: nat)
    requires Below(m, bound)
    ensures Below(SpellNull(m), bound)
  {
  }

  lemma PromoteBelow(m: Members, bound: nat)
    requires Below(m, bound)
    ensures Below(PromoteType(m), bound)
  {
    if CommonAnyOfType(Member(m, "anyOf")).Some? {
      var branches := m["anyOf"].items;
      AgreedTypes(branches, 0);
      ItemLighter(branches);
      MemberLighter(branches[0].members);
      assert Weight(branches[0].members["type"]) == 2;
    }
  }

  lemma NumericBoundsBelow(m: Members, bound: nat)
    requires Below(m, bound)
    ensures Below(NumericBounds(m), bound)
  {
    assert Below(NumericBound(m, "minimum", "exclusiveMinimum"), bound);
  }

  /** The recursion enters inserted members too, and still gets lighter. */
  lemma RewrittenMembersLighter(native: bool, m: Members)
    ensures Below(RewriteObject(native, m), Weight(Obj(m)))
  {
    MemberLighter(m);
    var bound := Weight(Obj(m));
    DedupeBelow(m, bound);
    var deduped := DedupeRequired(m);
    SpellNullBelow(deduped, bound);
    NumericBoundsBelow(deduped, bound);
    PromoteBelow(if native then NumericBounds(deduped) else SpellNull(deduped), bound);
  }

  // ---- The whole tree ----

  function Normalize(native: bool, value: Json): Json
    decreases Weight(value)
  {
    match value
    case Obj(m) =>
      RewrittenMembersLighter(native, m);
      var rewritten := RewriteObject(native, m);
      Obj(map k | k in rewritten :: Normalize(native, rewritten[k]))
    case Arr(items) =>
      ItemLighter(items);
      Arr(seq(|items|, i requires 0 <= i < |items| => Normalize(native, items[i])))
    case _ => value
  }

  method MakeBoundNumeric(m: Members, inclusive: string, exclusive: string) returns (typed: Members)
    ensures typed == NumericBound(m, inclusive, exclusive)
  {
    typed := m;
    if exclusive in typed && typed[exclusive].Bool? {
      if !typed[exclusive].flag {
        typed := typed - {exclusive};
      } else if inclusive in typed && typed[inclusive].Num? {
        typed := typed[exclusive := typed[inclusive]];
        typed := typed - {inclusive};
      }
    }
  }

  method RewriteInPlace(m: Members, native: bool) returns (typed: Members)
    ensures typed == RewriteObject(native, m)
  {
    typed := m;
    if "required" in typed && typed["required"].Arr? {
      var items := typed["required"].items;
      var backing := new Json[|items|](i requires 0 <= i < |items| => items[i]);
      assert backing[..] == items;
      var length := FilterRequired(backing);
      typed := typed["required" := Arr(backing[..length])];
    }
    if native {
      typed := MakeBoundNumeric(typed, "minimum", "exclusiveMinimum");
      typed := MakeBoundNumeric(typed, "maximum", "exclusiveMaximum");
    }
    if "type" in typed && typed["type"] == Str("null") && !native {
      typed := typed - {"type"};
      typed := typed["nullable" := Bool(true)];
      if "enum" !in typed {
        typed := typed["enum" := ONLY_NULL];
      }
    }
    if "type" !in typed {
      var common := FindCommonAnyOfType(Member(typed, "anyOf"));
      if common.Some? {
        typed := typed["type" := Str(common.value)];
      }
    }
  }

  /**
   The rewrite as the source performs it.  Members are visited in whatever order
   the choice of keys produces, and the result is the same for every order.
   */
  method NormalizeRouterSchemas(value: Json, native: bool) returns (normalized: Json)
    ensures normalized == Normalize(native, value)
    decreases Weight(value), 1
  {
    match value {
      case Obj(m) =>
        var rewritten := RewriteInPlace(m, native);
        RewrittenMembersLighter(native, m);
        var typed := NormalizeMembers(rewritten, native, Weight(value));
        return Obj(typed);
      case Arr(items) =>
        ItemLighter(items);
        var visited := NormalizeItems(items, native, Weight(value));
        return Arr(visited);
      case _ =>
        return value;
    }
  }

  method NormalizeMembers(rewritten: Members, native: bool, ghost bound: nat) returns (typed: Members)
    requires Below(rewritten, bound)
    ensures typed.Keys == rewritten.Keys && forall k :: k in rewritten ==> typed[k] == Normalize(native, rewritten[k])
    decreases bound, 0
  {
    typed := rewritten;
    var pending := typed.Keys;
    while pending != {}
      invariant pending <= typed.Keys == rewritten.Keys
      invariant forall k :: k in pending ==> typed[k] == rewritten[k]
      invariant forall k :: k in rewritten && k !in pending ==> typed[k] == Normalize(native, rewritten[k])
    {
      var k :| k in pending;
      var child := NormalizeRouterSchemas(typed[k], native);
      typed := typed[k := child];
      pending := pending - {k};
    }
  }

  method NormalizeItems(items: seq<Json>, native: bool, ghost bound: nat) returns (visited: seq<Json>)
    requires forall i :: 0 <= i < |items| ==> Weight(items[i]) < bound
    ensures |visited| == |items| && forall k :: 0 <= k < |items| ==> visited[k] == Normalize(native, items[k])
    decreases bound, 0
  {
    visited := [];
    for i := 0 to |items|
      invariant |visited| == i
      invariant forall k :: 0 <= k < i ==> visited[k] == Normalize(native, items[k])
    {
      var child := NormalizeRouterSchemas(items[i], native);
      visited := visited + [child];
    }
  }
}
