/** String order, sorting, and why a sorted arrangement does not depend on the order it was built in. */
module Ordering {

  /** Byte order of UTF-8 text, which is code point order. */
  predicate StringLeq(a: string, b: string) {
    a == "" || (b != "" && (a[0] < b[0] || (a[0] == b[0] && StringLeq(a[1..], b[1..]))))
  }

  lemma {:induction false} StringTotal(a: string, b: string)
    ensures StringLeq(a, a)
    ensures StringLeq(a, b) || StringLeq(b, a)
    ensures StringLeq(a, b) && StringLeq(b, a) ==> a == b
    decreases |a|
  {
    if a != "" {
      StringTotal(a[1..], if b == "" then "" else b[1..]);
      assert a == [a[0]] + a[1..];
      if b != "" {
        assert b == [b[0]] + b[1..];
      }
    }
  }

  lemma {:induction false} StringTransitive(a: string, b: string, c: string)
    requires StringLeq(a, b) && StringLeq(b, c)
    ensures StringLeq(a, c)
    decreases |a|
  {
    if a != "" && a[0] == b[0] && b[0] == c[0] {
      StringTransitive(a[1..], b[1..], c[1..]);
    }
  }

  /** The strings agree up to `i`, where `a` has the smaller character. */
  ghost predicate SmallerAt(a: string, b: string, i: nat) {
    i < |a| && i < |b| && a[..i] == b[..i] && a[i] < b[i]
  }

  lemma SmallerTails(a: string, b: string, i: nat)
    requires a != "" && b != "" && a[0] == b[0] && SmallerAt(a[1..], b[1..], i)
    ensures SmallerAt(a, b, i + 1)
  {
    assert a[..i + 1] == [a[0]] + a[1..][..i] && b[..i + 1] == [b[0]] + b[1..][..i];
  }

  lemma {:induction false} SmallerComesFirst(a: string, b: string, i: nat)
    requires SmallerAt(a, b, i)
    ensures StringLeq(a, b)
  {
    if i > 0 {
      assert a[0] == a[..i][0] && b[0] == b[..i][0];
      assert a[1..][..i - 1] == a[..i][1..] && b[1..][..i - 1] == b[..i][1..];
      SmallerComesFirst(a[1..], b[1..], i - 1);
    }
  }

  lemma {:induction false} PrefixComesFirst(a: string, b: string)
    requires a <= b
    ensures StringLeq(a, b)
    decreases |a|
  {
    if a != "" {
      PrefixComesFirst(a[1..], b[1..]);
    }
  }

  lemma {:induction false} ComesFirst(a: string, b: string)
    requires StringLeq(a, b)
    ensures a <= b || exists i :: SmallerAt(a, b, i)
    decreases |a|
  {
    if a != "" {
      if a[0] < b[0] {
        assert SmallerAt(a, b, 0);
      } else {
        ComesFirst(a[1..], b[1..]);
        assert a == [a[0]] + a[1..] && b == [b[0]] + b[1..];
        if i :| SmallerAt(a[1..], b[1..], i) {
          SmallerTails(a, b, i);
        }
      }
    }
  }

  /** `a` comes first exactly if it is the beginning of `b` or smaller at the first difference. */
  lemma StringLeqMeaning(a: string, b: string)
    ensures StringLeq(a, b) <==> a <= b || exists i :: SmallerAt(a, b, i)
  {
    if StringLeq(a, b) {
      ComesFirst(a, b);
    }
    if a <= b {
      PrefixComesFirst(a, b);
    }
    if i :| SmallerAt(a, b, i) {
      SmallerComesFirst(a, b, i);
    }
  }

  ghost predicate TotalPreorder<T(!new)>(leq: (T, T) -> bool) {
    && (forall x, y :: leq(x, y) || leq(y, x))
    && (forall x, y, z :: leq(x, y) && leq(y, z) ==> leq(x, z))
  }

  ghost predicate SortedBy<T>(leq: (T, T) -> bool, s: seq<T>) {
    forall i, j :: 0 <= i < j < |s| ==> leq(s[i], s[j])
  }

  lemma SortedAt<T>(leq: (T, T) -> bool, s: seq<T>, i: nat, j: nat)
    requires SortedBy(leq, s) && i <= j < |s| && leq(s[i], s[i])
    ensures leq(s[i], s[j])
  {
  }

  /** No two different elements of the sequence tie. */
  ghost predicate NoTies<T>(leq: (T, T) -> bool, s: seq<T>) {
    forall x, y :: x in s && y in s && leq(x, y) && leq(y, x) ==> x == y
  }

  lemma InsertedSorted<T>(leq: (T, T) -> bool, before: seq<T>, x: T, after: seq<T>)
    requires SortedBy(leq, before + after)
    requires (forall y :: y in before ==> leq(y, x)) && (forall y :: y in after ==> leq(x, y))
    ensures SortedBy(leq, before + [x] + after)
    ensures multiset(before + [x] + after) == multiset(before + after) + multiset{x}
  {
    var r, s := before + [x] + after, before + after;
    forall i, j | 0 <= i < j < |r|
      ensures leq(r[i], r[j])
    {
      assert i < |before| ==> r[i] == s[i] && r[i] in before;
      assert i > |before| ==> r[i] == s[i - 1];
      assert j < |before| ==> r[j] == s[j];
      assert j > |before| ==> r[j] == s[j - 1] && r[j] == after[j - |before| - 1];
    }
  }

  /** The place of `x`: everything before is at most `x`, everything after at least. */
  method FindPlace<T(!new)>(leq: (T, T) -> bool, s: seq<T>, x: T) returns (k: nat)
    requires TotalPreorder(leq) && SortedBy(leq, s)
    ensures k <= |s| && (forall y :: y in s[..k] ==> leq(y, x)) && (forall y :: y in s[k..] ==> leq(x, y))
  {
    k := |s|;
    while k > 0 && !leq(s[k - 1], x)
      invariant k <= |s|
      invariant forall j :: k <= j < |s| ==> leq(x, s[j])
    {
      k := k - 1;
    }
  }

  /** What the library sort promises: the same elements in order. Ties may come out in any order. */
  method Sort<T(!new)>(leq: (T, T) -> bool, s: seq<T>) returns (r: seq<T>)
    requires TotalPreorder(leq)
    ensures SortedBy(leq, r)
    ensures multiset(r) == multiset(s)
  {
    r := [];
    for i := 0 to |s|
      invariant SortedBy(leq, r)
      invariant multiset(r) == multiset(s[..i])
    {
      var k := FindPlace(leq, r, s[i]);
      assert r == r[..k] + r[k..];
      assert s[..i + 1] == s[..i] + [s[i]];
      InsertedSorted(leq, r[..k], s[i], r[k..]);
      r := r[..k] + [s[i]] + r[k..];
    }
    assert s[..|s|] == s;
  }

  lemma PrependSorted<T>(leq: (T, T) -> bool, least: T, rest: seq<T>)
    requires SortedBy(leq, rest) && forall x :: x in multiset(rest) ==> leq(least, x)
    ensures SortedBy(leq, [least] + rest)
  {
  }

  lemma Associative<T>(a: seq<T>, b: seq<T>, c: seq<T>)
    ensures (a + b) + c == a + (b + c)
  {
  }

  lemma MultisetTail<T>(s: seq<T>)
    requires s != []
    ensures multiset(s) == multiset{s[0]} + multiset(s[1..])
  {
    assert s == [s[0]] + s[1..];
  }

  lemma CancelElement<T>(x: T, a: multiset<T>, b: multiset<T>)
    requires multiset{x} + a == multiset{x} + b
    ensures a == b
  {
    assert a == (multiset{x} + a) - multiset{x};
    assert b == (multiset{x} + b) - multiset{x};
  }

  lemma SameElements<T>(a: seq<T>, b: seq<T>)
    requires multiset(a) == multiset(b)
    ensures |a| == |b| && forall x :: x in a <==> x in b
  {
    assert |a| == |multiset(a)| == |multiset(b)| == |b|;
    assert forall x :: x in a <==> x in multiset(a);
    assert forall x :: x in b <==> x in multiset(b);
  }

  lemma SortedHead<T>(leq: (T, T) -> bool, a: seq<T>, b: seq<T>)
    requires SortedBy(leq, a) && SortedBy(leq, b) && NoTies(leq, a) && a != [] && b != []
    requires a[0] in b && b[0] in a && leq(a[0], a[0])
    ensures a[0] == b[0]
  {
  }

  /** Two sorted arrangements of the same elements are the same sequence if nothing ties. */
  lemma {:induction false} SortedIsUnique<T>(leq: (T, T) -> bool, a: seq<T>, b: seq<T>)
    requires SortedBy(leq, a) && SortedBy(leq, b) && multiset(a) == multiset(b) && NoTies(leq, a)
    requires forall x :: x in a ==> leq(x, x)
    ensures a == b
    decreases |a|
  {
    SameElements(a, b);
    if a != [] {
      SortedHead(leq, a, b);
      MultisetTail(a);
      MultisetTail(b);
      CancelElement(a[0], multiset(a[1..]), multiset(b[1..]));
      SortedIsUnique(leq, a[1..], b[1..]);
      assert a == [a[0]] + a[1..] && b == [b[0]] + b[1..];
    }
  }

  // ---- Sorted sets ----

  lemma {:induction false} LeastString(s: set<string>) returns (least: string)
    requires s != {}
    ensures least in s && forall x :: x in s ==> StringLeq(least, x)
  {
    var x :| x in s;
    if s == {x} {
      StringTotal(x, x);
      return x;
    }
    var rest := s - {x};
    var y := LeastString(rest);
    StringTotal(x, y);
    StringTotal(x, x);
    if StringLeq(x, y) {
      forall z | z in s
        ensures StringLeq(x, z)
      {
        if z != x {
          StringTransitive(x, y, z);
        }
      }
      return x;
    }
    return y;
  }

  lemma LeastExists(s: set<string>)
    requires s != {}
    ensures exists least :: least in s && forall x :: x in s ==> StringLeq(least, x)
  {
    var least := LeastString(s);
  }

  lemma LeastFirst(s: set<string>, least: string, rest: seq<string>)
    requires least in s && (forall x :: x in s ==> StringLeq(least, x))
    requires SortedBy(StringLeq, rest) && multiset(rest) == multiset(s - {least})
    ensures SortedBy(StringLeq, [least] + rest) && multiset([least] + rest) == multiset(s)
  {
    PrependSorted(StringLeq, least, rest);
    assert s == {least} + (s - {least});
  }

  /** The elements of a set in order. */
  ghost function Arranged(s: set<string>): (r: seq<string>)
    ensures SortedBy(StringLeq, r)
    ensures multiset(r) == multiset(s)
  {
    if s == {} then []
    else
      LeastExists(s);
      var least :| least in s && forall x :: x in s ==> StringLeq(least, x);
      LeastFirst(s, least, Arranged(s - {least}));
      [least] + Arranged(s - {least})
  }

  lemma StringOrder()
    ensures TotalPreorder(StringLeq)
    ensures forall x, y :: StringLeq(x, y) && StringLeq(y, x) ==> x == y
    ensures forall x :: StringLeq(x, x)
  {
    forall x, y
      ensures StringLeq(x, y) || StringLeq(y, x)
      ensures StringLeq(x, y) && StringLeq(y, x) ==> x == y
      ensures StringLeq(x, x)
    {
      StringTotal(x, y);
    }
    forall x, y, z | StringLeq(x, y) && StringLeq(y, z)
      ensures StringLeq(x, z)
    {
      StringTransitive(x, y, z);
    }
  }

  lemma ArrangedIsUnique(s: set<string>, r: seq<string>)
    requires SortedBy(StringLeq, r) && multiset(r) == multiset(s)
    ensures r == Arranged(s)
  {
    StringOrder();
    SortedIsUnique(StringLeq, r, Arranged(s));
  }

  // ---- Sums over a sequence of keys ----

  function SumOver<K, V>(f: K -> multiset<V>, keys: seq<K>): multiset<V> {
    if keys == [] then multiset{} else f(keys[0]) + SumOver(f, keys[1..])
  }

  lemma {:induction false} SumOfSingles<K, V>(f: K -> multiset<V>, keys: seq<K>, values: seq<V>)
    requires |keys| == |values| && forall i :: 0 <= i < |keys| ==> f(keys[i]) == multiset{values[i]}
    ensures multiset(values) == SumOver(f, keys)
  {
    if keys != [] {
      MultisetTail(values);
      SumOfSingles(f, keys[1..], values[1..]);
    }
  }

  lemma {:induction false} SumConcat<K, V>(f: K -> multiset<V>, a: seq<K>, b: seq<K>)
    ensures SumOver(f, a + b) == SumOver(f, a) + SumOver(f, b)
    decreases |a|
  {
    if a == [] {
      assert a + b == b;
    } else {
      assert (a + b)[1..] == a[1..] + b;
      SumConcat(f, a[1..], b);
    }
  }

  lemma {:induction false} SumMember<K, V>(f: K -> multiset<V>, keys: seq<K>, v: V)
    ensures v in SumOver(f, keys) <==> exists k :: k in keys && v in f(k)
    decreases |keys|
  {
    if keys != [] {
      SumMember(f, keys[1..], v);
      assert keys == [keys[0]] + keys[1..];
    }
  }

  lemma MultisetWithout<T>(s: seq<T>, i: nat)
    requires i < |s|
    ensures multiset(s) == multiset{s[i]} + multiset(s[..i] + s[i + 1..])
  {
    assert s == s[..i] + ([s[i]] + s[i + 1..]);
  }

  lemma SumPrepended<K, V>(f: K -> multiset<V>, key: K, rest: seq<K>)
    ensures SumOver(f, [key] + rest) == f(key) + SumOver(f, rest)
  {
    assert ([key] + rest)[1..] == rest;
  }

  lemma SumWithout<K, V>(f: K -> multiset<V>, keys: seq<K>, i: nat)
    requires i < |keys|
    ensures SumOver(f, keys) == f(keys[i]) + SumOver(f, keys[..i] + keys[i + 1..])
  {
    var head, rest := keys[..i], keys[i + 1..];
    assert keys == head + ([keys[i]] + rest);
    SumConcat(f, head, [keys[i]] + rest);
    SumPrepended(f, keys[i], rest);
    SumConcat(f, head, rest);
  }

  /** The sum does not depend on the order in which the keys are visited. */
  lemma {:induction false} SumIgnoresOrder<K, V>(f: K -> multiset<V>, a: seq<K>, b: seq<K>)
    requires multiset(a) == multiset(b)
    ensures SumOver(f, a) == SumOver(f, b)
    decreases |a|
  {
    SameElements(a, b);
    if a != [] {
      assert a[0] in a;
      var i :| 0 <= i < |b| && b[i] == a[0];
      var rest := b[..i] + b[i + 1..];
      MultisetTail(a);
      MultisetWithout(b, i);
      CancelElement(a[0], multiset(a[1..]), multiset(rest));
      SumIgnoresOrder(f, a[1..], rest);
      SumWithout(f, b, i);
    }
  }
}
