/** Decoded JSON: numbers are exact, object members are keyed, text syntax is not modelled. */
module JsonValues {
  datatype Json =
    | Null
    | Bool(flag: bool)
    | Num(number: real)
    | Str(text: string)
    | Arr(items: seq<Json>)
    | Obj(members: map<string, Json>)

  ghost function MaxOf(s: set<nat>): (r: nat)
    ensures forall x :: x in s ==> x <= r
    ensures s == {} ==> r == 0
    ensures s != {} ==> r in s
  {
    if s == {} then 0
    else
      var x :| x in s;
      var rest := s - {x};
      assert s == rest + {x};
      var y := MaxOf(rest);
      if x < y then y else x
  }

  /** A bound on nesting, in which a string weighs two so that it outweighs the array [null]. */
  ghost function Weight(j: Json): nat {
    match j
    case Str(_) => 2
    case Arr(items) => 1 + MaxOf(set i | 0 <= i < |items| :: Weight(items[i]))
    case Obj(members) => 1 + MaxOf(set k | k in members :: Weight(members[k]))
    case _ => 0
  }

  lemma ItemLighter(items: seq<Json>)
    ensures forall i :: 0 <= i < |items| ==> Weight(items[i]) < Weight(Arr(items))
  {
    var weights := set i | 0 <= i < |items| :: Weight(items[i]);
    forall i | 0 <= i < |items|
      ensures Weight(items[i]) < Weight(Arr(items))
    {
      assert Weight(items[i]) in weights;
    }
  }

  lemma MemberLighter(members: map<string, Json>)
    ensures forall k :: k in members ==> Weight(members[k]) < Weight(Obj(members))
  {
    var weights := set k | k in members :: Weight(members[k]);
    forall k | k in members
      ensures Weight(members[k]) < Weight(Obj(members))
    {
      assert Weight(members[k]) in weights;
    }
  }

  /** An array weighs no more than any that contains all its items. */
  lemma SubarrayLighter(some: seq<Json>, all: seq<Json>)
    requires forall x :: x in some ==> x in all
    ensures Weight(Arr(some)) <= Weight(Arr(all))
  {
    var weights := set i | 0 <= i < |some| :: Weight(some[i]);
    if weights != {} {
      var i :| 0 <= i < |some| && Weight(some[i]) == MaxOf(weights);
      assert some[i] in all;
      ItemLighter(all);
    }
  }
}
