/**
 The WebSocket event codec.  Decoding reads two members into a struct, whose
 field names match any letter case; encoding reads the same text into a map, whose
 keys match exactly.  Most of the work is in how the two agree.
 */
module EventCodec {
  import opened Wrappers
  import opened JsonValues
  import opened Ordering

  type Member = (string, Json)

  /** Any JSON value but an object. */
  type Plain = j: Json | !j.Obj? witness Null

  /**
   The text of an event: zero bytes, bytes that are not JSON, a JSON value other
   than an object, or an object with its members in the order they were written.
   */
  datatype Text = Empty | Malformed | Scalar(value: Plain) | Object(members: seq<Member>)

  datatype Event = Event(kind: string, id: string, data: Text)

  datatype Decoded = Ok(event: Event) | Rejected

  /** Assigning into the nil map that null decodes to panics. */
  datatype Encoded = Encoded(members: map<string, Json>) | Refused | Panics

  // ---- Blank strings and folded names ----

  predicate IsSpace(c: char) {
    var n := c as int;
    9 <= n <= 13 || n == 0x20 || n == 0x85 || n == 0xA0 || n == 0x1680 || 0x2000 <= n <= 0x200A
    || n == 0x2028 || n == 0x2029 || n == 0x202F || n == 0x205F || n == 0x3000
  }

  predicate Blank(s: string) {
    forall c :: c in s ==> IsSpace(c)
  }

  /** Among ASCII characters, exactly the space and the five control characters that move the cursor. */
  lemma AsciiSpaces(c: char)
    requires c as int < 128
    ensures IsSpace(c) <==> c == ' ' || c == '\t' || c == '\n' || c == '\r' || c as int in {11, 12}
  {
  }

  function Lower(c: char): char {
    if 'A' <= c <= 'Z' then c + ' ' else c
  }

  /** The key matches the struct field: no letter of "type" or "event_id" folds outside ASCII. */
  predicate Folds(key: string, name: string) {
    |key| == |name| && forall i :: 0 <= i < |key| ==> Lower(key[i]) == name[i]
  }

  // ---- The two readings of an object ----

  /** The struct field: each matching string overwrites it, null leaves it, anything else is an error. */
  function FieldText(members: seq<Member>, name: string): Option<string> {
    if members == [] then Some("")
    else
      var earlier, last := FieldText(members[..|members| - 1], name), members[|members| - 1];
      if !Folds(last.0, name) || earlier.None? || last.1.Null? then earlier
      else if last.1.Str? then Some(last.1.text)
      else None
  }

  /** The map: the last member of each exact name. */
  function Collapsed(members: seq<Member>): map<string, Json> {
    if members == [] then map[]
    else Collapsed(members[..|members| - 1])[members[|members| - 1].0 := members[|members| - 1].1]
  }

  const TYPE := "type"
  const EVENT_ID := "event_id"

  function DecodeEvent(data: Text): Decoded {
    match data
    case Object(members) =>
      var kind, id := FieldText(members, TYPE), FieldText(members, EVENT_ID);
      if kind.None? || id.None? || Blank(kind.value) then Rejected
      else Ok(Event(kind.value, id.value, data))
    case _ => Rejected
  }

  function EncodeEvent(event: Event): Encoded {
    if Blank(event.kind) then Refused
    else match event.data
      case Empty => Encoded(map[TYPE := Str(event.kind), EVENT_ID := Str(event.id)])
      case Malformed => Refused
      case Scalar(value) => if value == Null then Panics else Refused
      case Object(members) =>
        var envelope := Collapsed(members);
        if TYPE in envelope && envelope[TYPE].Str? && envelope[TYPE].text != event.kind then Refused
        else
          var typed := envelope[TYPE := Str(event.kind)];
          Encoded(if event.id != "" then typed[EVENT_ID := Str(event.id)] else typed)
  }

  /** `members` is one way of writing the object `m`. */
  predicate Writes(members: seq<Member>, m: map<string, Json>) {
    Collapsed(members) == m && |members| == |m|
  }

  // ---- Lemmas ----

  lemma {:induction false} CollapsedMember(members: seq<Member>, key: string)
    ensures key in Collapsed(members) ==> (key, Collapsed(members)[key]) in members
    ensures key in Collapsed(members) <==> exists i :: 0 <= i < |members| && members[i].0 == key
  {
    if members != [] {
      var n := |members| - 1;
      CollapsedMember(members[..n], key);
      assert members == members[..n] + [members[n]];
      if i :| 0 <= i < |members| && members[i].0 == key {
        assert i < n ==> members[..n][i].0 == key;
      }
      if i :| 0 <= i < n && members[..n][i].0 == key {
        assert members[i].0 == key;
      }
    }
  }

  lemma {:induction false} CollapsedSize(members: seq<Member>)
    ensures |Collapsed(members)| <= |members|
    ensures |Collapsed(members)| == |members| ==>
              forall i :: 0 <= i < |members| ==> members[i].0 in Collapsed(members) && Collapsed(members)[members[i].0] == members[i].1
  {
    if members != [] {
      var n := |members| - 1;
      CollapsedSize(members[..n]);
      var before, after := Collapsed(members[..n]), Collapsed(members);
      assert after.Keys == before.Keys + {members[n].0};
      if members[n].0 in before {
        assert after.Keys == before.Keys;
        assert |after| == |after.Keys| == |before.Keys| == |before|;
      } else {
        assert |after| == |after.Keys| == |before.Keys| + 1 == |before| + 1;
        if |after| == |members| {
          forall i | 0 <= i < n
            ensures members[i].0 in after && after[members[i].0] == members[i].1
          {
            assert members[..n][i] == members[i];
          }
        }
      }
    }
  }

  /** Written once per key, an object's members are exactly the map's items. */
  lemma WrittenItems(members: seq<Member>, m: map<string, Json>)
    requires Writes(members, m)
    ensures forall i :: 0 <= i < |members| ==> members[i].0 in m && m[members[i].0] == members[i].1
    ensures forall key :: key in m ==> exists i :: 0 <= i < |members| && members[i] == (key, m[key])
  {
    CollapsedSize(members);
    forall key | key in m
      ensures exists i :: 0 <= i < |members| && members[i] == (key, m[key])
    {
      CollapsedMember(members, key);
    }
  }

  lemma WrittenAt(members: seq<Member>, m: map<string, Json>, key: string)
    requires Writes(members, m) && key in m && m[key].Str?
    ensures forall name :: Folds(key, name) ==> SomeText(members, name, m[key].text)
  {
    WrittenItems(members, m);
    var i :| 0 <= i < |members| && members[i] == (key, m[key]);
    assert members[i].0 == key && members[i].1 == Str(m[key].text);
  }

  /** Every member that matches the field is null or the string `t`. */
  predicate OnlyText(members: seq<Member>, name: string, t: string) {
    forall i :: 0 <= i < |members| && Folds(members[i].0, name) ==> members[i].1 in {Null, Str(t)}
  }

  predicate SomeText(members: seq<Member>, name: string, t: string) {
    exists i :: 0 <= i < |members| && Folds(members[i].0, name) && members[i].1 == Str(t)
  }

  lemma SomeTextLast(members: seq<Member>, name: string, t: string)
    requires members != []
    ensures var n := |members| - 1;
            SomeText(members, name, t) <==>
            SomeText(members[..n], name, t) || (Folds(members[n].0, name) && members[n].1 == Str(t))
  {
  }

  lemma {:induction false} FieldTextOf(members: seq<Member>, name: string, t: string)
    requires OnlyText(members, name, t)
    ensures FieldText(members, name) == Some(if SomeText(members, name, t) then t else "")
  {
    if members != [] {
      var n := |members| - 1;
      assert forall i :: 0 <= i < n ==> members[..n][i] == members[i];
      FieldTextOf(members[..n], name, t);
      SomeTextLast(members, name, t);
    }
  }

  /** Where the struct decodes, every matching member is a string or null. */
  lemma {:induction false} DecodedFieldIsText(members: seq<Member>, name: string)
    requires FieldText(members, name).Some?
    ensures forall i :: 0 <= i < |members| && Folds(members[i].0, name) ==> members[i].1.Null? || members[i].1.Str?
  {
    if members != [] {
      DecodedFieldIsText(members[..|members| - 1], name);
      assert forall i :: 0 <= i < |members| - 1 ==> members[..|members| - 1][i] == members[i];
    }
  }

  /** Some matching member supplied the text, unless it is still empty. */
  lemma {:induction false} TextHasSource(members: seq<Member>, name: string)
    requires FieldText(members, name).Some? && FieldText(members, name).value != ""
    ensures exists i :: 0 <= i < |members| && Folds(members[i].0, name)
  {
    var n := |members| - 1;
    if !Folds(members[n].0, name) {
      TextHasSource(members[..n], name);
      var i :| 0 <= i < n && Folds(members[..n][i].0, name);
      assert Folds(members[i].0, name);
    }
  }

  // ---- What decoding and encoding do, in terms of the members alone ----

  /** A key names a field in any mix of ASCII capitals and small letters. */
  lemma FoldsMeaning(key: string, name: string)
    requires forall c :: c in name ==> !('A' <= c <= 'Z')
    ensures Folds(key, name) <==>
            |key| == |name| && forall i :: 0 <= i < |key| ==>
              key[i] == name[i] || ('a' <= name[i] <= 'z' && key[i] as int + 32 == name[i] as int)
  {
    if |key| == |name| {
      forall i | 0 <= i < |key|
        ensures Lower(key[i]) == name[i] <==> key[i] == name[i] || ('a' <= name[i] <= 'z' && key[i] as int + 32 == name[i] as int)
      {
        assert name[i] in name;
      }
    }
  }

  predicate LastString(members: seq<Member>, name: string, i: nat) {
    && i < |members| && Folds(members[i].0, name) && members[i].1.Str?
    && forall j :: i < j < |members| && Folds(members[j].0, name) ==> members[j].1 == Null
  }

  /** All spellings hold strings or null, and the last string is `t`; without a string `t` is empty. */
  ghost predicate ReadsAs(members: seq<Member>, name: string, t: string) {
    && (forall i :: 0 <= i < |members| && Folds(members[i].0, name) ==> members[i].1.Str? || members[i].1.Null?)
    && ((exists i: nat :: LastString(members, name, i) && members[i].1 == Str(t))
        || (t == "" && forall i :: 0 <= i < |members| && Folds(members[i].0, name) ==> members[i].1 == Null))
  }

  lemma {:induction false} LastStringRead(members: seq<Member>, name: string, i: nat)
    requires FieldText(members, name).Some? && LastString(members, name, i)
    ensures FieldText(members, name) == Some(members[i].1.text)
  {
    var n := |members| - 1;
    if i < n {
      assert forall j :: 0 <= j < n ==> members[..n][j] == members[j];
      LastStringRead(members[..n], name, i);
    }
  }

  lemma {:induction false} SomeLastString(members: seq<Member>, name: string, k: nat) returns (i: nat)
    requires k < |members| && Folds(members[k].0, name) && members[k].1.Str?
    requires forall j :: 0 <= j < |members| && Folds(members[j].0, name) ==> members[j].1.Str? || members[j].1.Null?
    ensures LastString(members, name, i)
    decreases |members| - k
  {
    i := k;
    if j :| k < j < |members| && Folds(members[j].0, name) && members[j].1 != Null {
      i := SomeLastString(members, name, j);
    }
  }

  lemma {:induction false} OnlyNullsRead(members: seq<Member>, name: string)
    requires forall i :: 0 <= i < |members| && Folds(members[i].0, name) ==> members[i].1 == Null
    ensures FieldText(members, name) == Some("")
  {
    if members != [] {
      assert forall j :: 0 <= j < |members| - 1 ==> members[..|members| - 1][j] == members[j];
      OnlyNullsRead(members[..|members| - 1], name);
    }
  }

  lemma FieldTextMeaning(members: seq<Member>, name: string, t: string)
    ensures FieldText(members, name) == Some(t) <==> ReadsAs(members, name, t)
  {
    if forall i :: 0 <= i < |members| && Folds(members[i].0, name) ==> members[i].1.Str? || members[i].1.Null? {
      TextDecodes(members, name);
      if forall i :: 0 <= i < |members| && Folds(members[i].0, name) ==> members[i].1 == Null {
        OnlyNullsRead(members, name);
      } else {
        var k: nat :| k < |members| && Folds(members[k].0, name) && members[k].1 != Null;
        var i := SomeLastString(members, name, k);
        LastStringRead(members, name, i);
        OneLastString(members, name, i);
      }
    } else if FieldText(members, name).Some? {
      DecodedFieldIsText(members, name);
    }
  }

  lemma OneLastString(members: seq<Member>, name: string, i: nat)
    requires LastString(members, name, i)
    ensures forall j: nat :: LastString(members, name, j) ==> j == i
  {
  }

  /** Decoding succeeds exactly on an object whose type and id read as text, the type not blank, and keeps the text as it is. */
  lemma DecodingExactly(data: Text, event: Event)
    ensures DecodeEvent(data) == Ok(event) <==>
            && data.Object? && event.data == data && !Blank(event.kind)
            && ReadsAs(data.members, TYPE, event.kind) && ReadsAs(data.members, EVENT_ID, event.id)
  {
    if data.Object? {
      FieldTextMeaning(data.members, TYPE, event.kind);
      FieldTextMeaning(data.members, EVENT_ID, event.id);
    }
  }

  /** In the map the last member of a name counts. */
  lemma {:induction false} CollapsedLast(members: seq<Member>, i: nat)
    requires i < |members| && forall j :: i < j < |members| ==> members[j].0 != members[i].0
    ensures members[i].0 in Collapsed(members) && Collapsed(members)[members[i].0] == members[i].1
  {
    if i < |members| - 1 {
      assert forall j :: 0 <= j < |members| - 1 ==> members[..|members| - 1][j] == members[j];
      CollapsedLast(members[..|members| - 1], i);
    }
  }

  /** The payload, read as a map, names a type of its own. */
  predicate NamesOtherType(payload: map<string, Json>, kind: string) {
    TYPE in payload && payload[TYPE].Str? && payload[TYPE] != Str(kind)
  }

  /** What becomes of every event: refused, the crash, the two members of an event without data, or the payload retyped. */
  lemma EncodingExactly(event: Event)
    ensures EncodeEvent(event) == Refused <==>
            || Blank(event.kind) || event.data == Malformed || (event.data.Scalar? && event.data.value != Null)
            || (event.data.Object? && NamesOtherType(Collapsed(event.data.members), event.kind))
    ensures event.data == Empty && !Blank(event.kind) ==>
              EncodeEvent(event) == Encoded(map["type" := Str(event.kind), "event_id" := Str(event.id)])
    ensures event.data.Object? && EncodeEvent(event).Encoded? ==>
              EncodeEvent(event).members.Keys ==
              Collapsed(event.data.members).Keys + {"type"} + (if event.id != "" then {"event_id"} else {})
  {
  }

  // ---- The crash ----

  /** Encoding crashes exactly on a null payload under a type that is not blank. */
  lemma PanicsExactly(event: Event)
    ensures EncodeEvent(event) == Panics <==> !Blank(event.kind) && event.data == Scalar(Null)
  {
  }

  // ---- The round trip ----

  /**
   All spellings of the field end on the same text or on null, except that the
   exact spelling of a non-empty id is overwritten anyway.  It holds when no two
   members spell the field differently.
   */
  predicate SpellingsAgree(members: seq<Member>, name: string) {
    var text := FieldText(members, name);
    text.Some? && forall key :: key in Collapsed(members) && Folds(key, name) ==>
                    (key == EVENT_ID && text.value != "") || Collapsed(members)[key] in {Null, Str(text.value)}
  }

  predicate OneSpelling(members: seq<Member>, name: string) {
    forall i, j :: 0 <= i < |members| && 0 <= j < |members| && Folds(members[i].0, name) && Folds(members[j].0, name) ==>
      members[i].0 == members[j].0
  }

  lemma {:induction false} OneSpellingAgrees(members: seq<Member>, name: string)
    requires OneSpelling(members, name) && FieldText(members, name).Some?
    ensures SpellingsAgree(members, name)
  {
    if members != [] {
      var n := |members| - 1;
      assert forall i :: 0 <= i < n ==> members[..n][i] == members[i];
      OneSpellingAgrees(members[..n], name);
      var text := FieldText(members, name).value;
      forall key | key in Collapsed(members) && Folds(key, name)
        ensures (key == EVENT_ID && text != "") || Collapsed(members)[key] in {Null, Str(text)}
      {
        if key != members[n].0 {
          CollapsedMember(members[..n], key);
          assert !Folds(members[n].0, name);
        }
      }
    }
  }

  // Every layout of the members, for peers that reorder them.

  /** The encoding decodes to the same type and id, however its members are ordered. */
  ghost predicate SurvivesAnyLayout(event: Event) {
    var out := EncodeEvent(event);
    && out.Encoded?
    && forall written: seq<Member> :: Writes(written, out.members) ==>
         DecodeEvent(Object(written)) == Ok(Event(event.kind, event.id, Object(written)))
  }

  lemma FoldsItself()
    ensures Folds(TYPE, TYPE) && Folds(EVENT_ID, EVENT_ID)
    ensures !Folds(TYPE, EVENT_ID) && !Folds(EVENT_ID, TYPE)
  {
  }

  /** Whoever spells the type and the id consistently need not care about order. */
  lemma AgreeingSurvives(members: seq<Member>, event: Event)
    requires DecodeEvent(Object(members)) == Ok(event)
    requires SpellingsAgree(members, TYPE) && SpellingsAgree(members, EVENT_ID)
    ensures SurvivesAnyLayout(event)
  {
    FoldsItself();
    var out := EncodeEvent(event).members;
    forall written: seq<Member> | Writes(written, out)
      ensures DecodeEvent(Object(written)) == Ok(Event(event.kind, event.id, Object(written)))
    {
      WrittenItems(written, out);
      WrittenAt(written, out, TYPE);
      assert OnlyText(written, TYPE, event.kind);
      FieldTextOf(written, TYPE, event.kind);
      assert OnlyText(written, EVENT_ID, event.id);
      if event.id != "" {
        WrittenAt(written, out, EVENT_ID);
      }
      FieldTextOf(written, EVENT_ID, event.id);
    }
  }

  // The layout the encoder chooses.

  lemma ArrangedKeys(m: map<string, Json>)
    ensures |Arranged(m.Keys)| == |m|
    ensures forall key :: key in Arranged(m.Keys) <==> key in m
  {
    var keys := Arranged(m.Keys);
    assert |keys| == |multiset(keys)| == |multiset(m.Keys)| == |m.Keys|;
    assert forall key :: key in keys <==> key in multiset(keys);
  }

  /** The encoder writes a map's members in the byte order of their keys. */
  ghost function Layout(m: map<string, Json>): (members: seq<Member>)
    ensures |members| == |m|
  {
    ArrangedKeys(m);
    var keys := Arranged(m.Keys);
    seq(|keys|, i requires 0 <= i < |keys| => (assert keys[i] in keys; (keys[i], m[keys[i]])))
  }

  lemma LayoutOrder(m: map<string, Json>, i: nat, j: nat)
    requires i <= j < |Layout(m)|
    ensures StringLeq(Layout(m)[i].0, Layout(m)[j].0)
  {
    ArrangedKeys(m);
    var keys := Arranged(m.Keys);
    StringTotal(keys[i], keys[i]);
    SortedAt(StringLeq, keys, i, j);
  }

  lemma LayoutMember(m: map<string, Json>, key: string)
    ensures key in Collapsed(Layout(m)) <==> key in m
    ensures key in m ==> Collapsed(Layout(m))[key] == m[key]
  {
    ArrangedKeys(m);
    var keys, members := Arranged(m.Keys), Layout(m);
    CollapsedMember(members, key);
    if key in m {
      var i :| 0 <= i < |keys| && keys[i] == key;
      assert members[i].0 == key;
    }
  }

  lemma LayoutWrites(m: map<string, Json>)
    ensures Writes(Layout(m), m)
  {
    forall key
      ensures key in Collapsed(Layout(m)) <==> key in m
      ensures key in m ==> Collapsed(Layout(m))[key] == m[key]
    {
      LayoutMember(m, key);
    }
    assert Collapsed(Layout(m)) == m;
  }

  /** An upper-case letter comes before its lower-case form, so the exact spelling of a field comes last. */
  lemma {:induction false} ExactSpellingLast(key: string, name: string)
    requires Folds(key, name)
    ensures StringLeq(key, name)
    decreases |key|
  {
    if key != "" {
      assert Lower(key[0]) == name[0];
      assert Folds(key[1..], name[1..]) by {
        assert forall i :: 0 <= i < |key| - 1 ==> key[1..][i] == key[i + 1] && name[1..][i] == name[i + 1];
      }
      ExactSpellingLast(key[1..], name[1..]);
    }
  }

  /** Every spelling of the field holds a string or null. */
  predicate TextOrNull(m: map<string, Json>, name: string) {
    forall key :: key in m && Folds(key, name) ==> m[key].Str? || m[key].Null?
  }

  lemma {:induction false} TextDecodes(members: seq<Member>, name: string)
    requires forall i :: 0 <= i < |members| && Folds(members[i].0, name) ==> members[i].1.Str? || members[i].1.Null?
    ensures FieldText(members, name).Some?
  {
    if members != [] {
      assert forall i :: 0 <= i < |members| - 1 ==> members[..|members| - 1][i] == members[i];
      TextDecodes(members[..|members| - 1], name);
    }
  }

  /** A non-empty text comes from a string with nothing but null after it. */
  lemma {:induction false} LastText(members: seq<Member>, name: string) returns (i: nat)
    requires FieldText(members, name).Some? && FieldText(members, name).value != ""
    ensures i < |members| && Folds(members[i].0, name) && members[i].1 == Str(FieldText(members, name).value)
    ensures forall j :: i < j < |members| && Folds(members[j].0, name) ==> members[j].1 == Null
  {
    var n := |members| - 1;
    i := n;
    if !Folds(members[n].0, name) || members[n].1.Null? {
      i := LastText(members[..n], name);
    }
  }

  /** Where a string is followed by other ones, the text comes from that string or from a later one. */
  lemma {:induction false} TextFromLater(members: seq<Member>, name: string, i: nat) returns (j: nat)
    requires FieldText(members, name).Some? && i < |members| && Folds(members[i].0, name) && members[i].1.Str?
    ensures i <= j < |members| && Folds(members[j].0, name) && members[j].1 == Str(FieldText(members, name).value)
  {
    var n := |members| - 1;
    j := n;
    if !Folds(members[n].0, name) || members[n].1.Null? {
      j := TextFromLater(members[..n], name, i);
    }
  }

  lemma LayoutDecodes(m: map<string, Json>, name: string)
    requires TextOrNull(m, name)
    ensures FieldText(Layout(m), name).Some?
  {
    LayoutWrites(m);
    WrittenItems(Layout(m), m);
    TextDecodes(Layout(m), name);
  }

  /** In the encoder's layout the exact spelling of a field decides, if it holds a string. */
  lemma ExactSpellingWins(m: map<string, Json>, name: string)
    requires TextOrNull(m, name) && name in m && m[name].Str? && Folds(name, name)
    ensures FieldText(Layout(m), name) == Some(m[name].text)
  {
    var written := Layout(m);
    LayoutWrites(m);
    WrittenItems(written, m);
    LayoutDecodes(m, name);
    var i :| 0 <= i < |written| && written[i] == (name, m[name]);
    var j := TextFromLater(written, name, i);
    LayoutOrder(m, i, j);
    ExactSpellingLast(written[j].0, name);
    StringTotal(written[j].0, name);
  }

  /** Every non-empty spelling of the id is followed, in byte order, by an empty one. */
  predicate EmptyIdPrevails(m: map<string, Json>) {
    forall key :: key in m && Folds(key, EVENT_ID) && m[key].Str? && m[key].text != "" ==> OverruledByEmpty(m, key)
  }

  predicate OverruledByEmpty(m: map<string, Json>, key: string) {
    exists later :: later in m && Folds(later, EVENT_ID) && m[later] == Str("") && StringLeq(key, later) && key != later
  }

  lemma EmptyIdPrevailed(m: map<string, Json>, key: string)
    requires TextOrNull(m, EVENT_ID) && FieldText(Layout(m), EVENT_ID) == Some("")
    requires key in m && Folds(key, EVENT_ID) && m[key].Str? && m[key].text != ""
    ensures OverruledByEmpty(m, key)
  {
    var written := Layout(m);
    LayoutWrites(m);
    WrittenItems(written, m);
    var i :| 0 <= i < |written| && written[i] == (key, m[key]);
    var j := TextFromLater(written, EVENT_ID, i);
    LayoutOrder(m, i, j);
    assert m[written[j].0] == Str("");
  }

  /** Nothing after the text that counts in the layout is an empty spelling. */
  lemma NotOverruled(m: map<string, Json>, i: nat)
    requires i < |Layout(m)| && LastString(Layout(m), EVENT_ID, i)
    ensures !OverruledByEmpty(m, Layout(m)[i].0) || Layout(m)[i].1 == Str("")
  {
    var written := Layout(m);
    var key := written[i].0;
    if OverruledByEmpty(m, key) {
      LayoutWrites(m);
      WrittenItems(written, m);
      var later :| later in m && Folds(later, EVENT_ID) && m[later] == Str("") && StringLeq(key, later) && key != later;
      var j: nat :| j < |written| && written[j] == (later, m[later]);
      LaterInLayout(m, i, j);
    }
  }

  lemma LaterInLayout(m: map<string, Json>, i: nat, j: nat)
    requires i < |Layout(m)| && j < |Layout(m)| && Layout(m)[i].0 != Layout(m)[j].0 && StringLeq(Layout(m)[i].0, Layout(m)[j].0)
    ensures i < j
  {
    if j <= i {
      LayoutOrder(m, j, i);
      StringTotal(Layout(m)[i].0, Layout(m)[j].0);
    }
  }

  lemma TextPrevails(m: map<string, Json>) returns (key: string)
    requires TextOrNull(m, EVENT_ID) && FieldText(Layout(m), EVENT_ID) != Some("")
    ensures key in m && Folds(key, EVENT_ID) && m[key].Str? && m[key].text != "" && !OverruledByEmpty(m, key)
  {
    LayoutDecodes(m, EVENT_ID);
    var i := LastText(Layout(m), EVENT_ID);
    NotOverruled(m, i);
    LayoutWrites(m);
    WrittenItems(Layout(m), m);
    key := Layout(m)[i].0;
  }

  lemma EmptyIdReads(m: map<string, Json>)
    requires TextOrNull(m, EVENT_ID)
    ensures FieldText(Layout(m), EVENT_ID) == Some("") <==> EmptyIdPrevails(m)
  {
    if FieldText(Layout(m), EVENT_ID) == Some("") {
      forall key | key in m && Folds(key, EVENT_ID) && m[key].Str? && m[key].text != ""
        ensures OverruledByEmpty(m, key)
      {
        EmptyIdPrevailed(m, key);
      }
    } else {
      var key := TextPrevails(m);
    }
  }

  /** The encoding of a decoded event, as the encoder lays it out, decodes to the same type and id. */
  ghost predicate RoundTrips(event: Event) {
    var out := EncodeEvent(event);
    && out.Encoded?
    && var frame := Object(Layout(out.members)); DecodeEvent(frame) == Ok(Event(event.kind, event.id, frame))
  }

  /** The exact spelling of the type, where it is a string, is the decoded type; otherwise encoding is refused. */
  predicate NamesOwnType(payload: map<string, Json>, event: Event) {
    TYPE in payload && payload[TYPE].Str? ==> payload[TYPE].text == event.kind
  }

  lemma PayloadIsText(members: seq<Member>, name: string)
    requires FieldText(members, name).Some?
    ensures TextOrNull(Collapsed(members), name)
  {
    DecodedFieldIsText(members, name);
    forall key | key in Collapsed(members) && Folds(key, name)
      ensures Collapsed(members)[key].Str? || Collapsed(members)[key].Null?
    {
      CollapsedMember(members, key);
    }
  }

  /** What the encoder's own layout of a decoded event reads as. */
  lemma EncodedReads(members: seq<Member>, event: Event)
    requires DecodeEvent(Object(members)) == Ok(event) && EncodeEvent(event).Encoded?
    ensures var written := Layout(EncodeEvent(event).members);
            && FieldText(written, TYPE) == Some(event.kind)
            && FieldText(written, EVENT_ID).Some?
            && (FieldText(written, EVENT_ID) == Some(event.id) <==> event.id != "" || EmptyIdPrevails(Collapsed(members)))
  {
    FoldsItself();
    var payload, out := Collapsed(members), EncodeEvent(event).members;
    PayloadIsText(members, TYPE);
    PayloadIsText(members, EVENT_ID);
    ExactSpellingWins(out, TYPE);
    LayoutDecodes(out, EVENT_ID);
    if event.id != "" {
      ExactSpellingWins(out, EVENT_ID);
    } else {
      EmptyIdReads(out);
      SameIds(payload, out);
    }
  }

  lemma SameIds(payload: map<string, Json>, out: map<string, Json>)
    requires forall key :: Folds(key, EVENT_ID) ==> (key in payload <==> key in out) && (key in out ==> out[key] == payload[key])
    ensures EmptyIdPrevails(payload) <==> EmptyIdPrevails(out)
  {
    forall key | key in out && Folds(key, EVENT_ID)
      ensures OverruledByEmpty(payload, key) <==> OverruledByEmpty(out, key)
    {
    }
  }

  /**
   A decoded event survives encoding exactly when encoding is not refused for a
   second spelling of its type, and its id is not empty or no other spelling of the
   id has the last word in byte order.  One spelling of each is enough.
   */
  lemma CodecRoundTrip(members: seq<Member>, event: Event)
    requires DecodeEvent(Object(members)) == Ok(event)
    ensures RoundTrips(event) <==>
            NamesOwnType(Collapsed(members), event) && (event.id != "" || EmptyIdPrevails(Collapsed(members)))
    ensures OneSpelling(members, TYPE) && OneSpelling(members, EVENT_ID) ==> RoundTrips(event) && SurvivesAnyLayout(event)
  {
    FoldsItself();
    if NamesOwnType(Collapsed(members), event) {
      EncodedReads(members, event);
    }
    if OneSpelling(members, TYPE) && OneSpelling(members, EVENT_ID) {
      OneSpellingAgrees(members, TYPE);
      OneSpellingAgrees(members, EVENT_ID);
      AgreeingSurvives(members, event);
      LayoutWrites(EncodeEvent(event).members);
    }
  }

  /** Both ways to fail: a second spelling has the type, or a non-empty id that was overruled returns. */
  lemma CodecCanFail()
    ensures var members := [(TYPE, Str("a")), ("TYPE", Str("b"))]; var event := Event("b", "", Object(members));
            DecodeEvent(Object(members)) == Ok(event) && !RoundTrips(event)
    ensures var event := Event("a", "", Object(OVERRULED));
            DecodeEvent(Object(OVERRULED)) == Ok(event) && !RoundTrips(event)
  {
    RefusedExample();
    OverruledExample();
  }

  lemma ReadNext(earlier: seq<Member>, last: Member, name: string)
    ensures var text := FieldText(earlier, name);
            FieldText(earlier + [last], name) ==
              if !Folds(last.0, name) || text.None? || last.1.Null? then text
              else if last.1.Str? then Some(last.1.text)
              else None
    ensures Collapsed(earlier + [last]) == Collapsed(earlier)[last.0 := last.1]
  {
    assert (earlier + [last])[..|earlier|] == earlier;
  }

  lemma RefusedExample()
    ensures var members := [(TYPE, Str("a")), ("TYPE", Str("b"))]; var event := Event("b", "", Object(members));
            DecodeEvent(Object(members)) == Ok(event) && !RoundTrips(event)
  {
    var members: seq<Member> := [(TYPE, Str("a")), ("TYPE", Str("b"))];
    FoldsItself();
    var one: seq<Member> := [] + [(TYPE, Str("a"))];
    assert members == one + [("TYPE", Str("b"))];
    forall name | name in {TYPE, EVENT_ID}
      ensures FieldText(members, name) == Some(if name == TYPE then "b" else "")
      ensures Collapsed(members) == map[TYPE := Str("a"), "TYPE" := Str("b")]
    {
      assert Folds("TYPE", TYPE) && !Folds("TYPE", EVENT_ID);
      ReadNext([], (TYPE, Str("a")), name);
      ReadNext(one, ("TYPE", Str("b")), name);
    }
    assert 'b' in "b" && !IsSpace('b');
    CodecRoundTrip(members, Event("b", "", Object(members)));
  }

  const OVERRULED: seq<Member> := [(TYPE, Str("a")), ("Event_id", Str("x")), ("EVENT_ID", Str(""))]

  lemma OverruledReads()
    ensures FieldText(OVERRULED, TYPE) == Some("a") && FieldText(OVERRULED, EVENT_ID) == Some("")
    ensures Collapsed(OVERRULED) == map[TYPE := Str("a"), "Event_id" := Str("x"), "EVENT_ID" := Str("")]
  {
    FoldsItself();
    var one: seq<Member> := [] + [(TYPE, Str("a"))];
    var two := one + [("Event_id", Str("x"))];
    assert OVERRULED == two + [("EVENT_ID", Str(""))];
    forall name | name in {TYPE, EVENT_ID}
      ensures FieldText(OVERRULED, name) == Some(if name == TYPE then "a" else "")
      ensures Collapsed(OVERRULED) == map[TYPE := Str("a"), "Event_id" := Str("x"), "EVENT_ID" := Str("")]
    {
      assert !Folds("Event_id", TYPE) && !Folds("EVENT_ID", TYPE) && Folds("EVENT_ID", EVENT_ID);
      ReadNext([], (TYPE, Str("a")), name);
      ReadNext(one, ("Event_id", Str("x")), name);
      ReadNext(two, ("EVENT_ID", Str("")), name);
    }
  }

  lemma LowerCaseLater()
    ensures !StringLeq("Event_id", "EVENT_ID")
  {
    assert "Event_id"[1..][0] == 'v' && "EVENT_ID"[1..][0] == 'V';
  }

  lemma OverruledExample()
    ensures var event := Event("a", "", Object(OVERRULED));
            DecodeEvent(Object(OVERRULED)) == Ok(event) && !RoundTrips(event)
  {
    OverruledReads();
    var payload := Collapsed(OVERRULED);
    LowerCaseLater();
    assert !OverruledByEmpty(payload, "Event_id");
    assert Folds("Event_id", EVENT_ID);
    assert !EmptyIdPrevails(payload);
    assert 'a' in "a" && !IsSpace('a');
    CodecRoundTrip(OVERRULED, Event("a", "", Object(OVERRULED)));
  }

  /**
   Encoding any event with object data keeps every other member's value, and
   succeeds only if the payload names no other type.
   */
  lemma EncodingKeepsMembers(event: Event)
    requires event.data.Object? && EncodeEvent(event).Encoded?
    ensures var payload, out := Collapsed(event.data.members), EncodeEvent(event).members;
            && out[TYPE] == Str(event.kind) && !Blank(event.kind)
            && (TYPE in payload && payload[TYPE].Str? ==> payload[TYPE] == out[TYPE])
            && (forall key :: key !in {TYPE, EVENT_ID} ==>
                  (key in out <==> key in payload) && (key in out ==> out[key] == payload[key]))
            && (if event.id != "" then EVENT_ID in out && out[EVENT_ID] == Str(event.id)
                else (EVENT_ID in out <==> EVENT_ID in payload) && (EVENT_ID in out ==> out[EVENT_ID] == payload[EVENT_ID]))
  {
  }

  /**
   A backend event reaches a peer that reads it the same way: with no member
   spelled like the type or the id, and an id only the event itself supplies, the
   peer decodes the event's own type and id from any layout of the frame.
   */
  lemma BackendEventArrives(event: Event, written: seq<Member>)
    requires EncodeEvent(event).Encoded? && Writes(written, EncodeEvent(event).members)
    requires event.data.Object? ==>
               forall key :: key in Collapsed(event.data.members) && key != TYPE ==> !Folds(key, TYPE) && !Folds(key, EVENT_ID)
    ensures DecodeEvent(Object(written)) == Ok(Event(event.kind, event.id, Object(written)))
  {
    FoldsItself();
    var out := EncodeEvent(event).members;
    WrittenItems(written, out);
    WrittenAt(written, out, TYPE);
    FieldTextOf(written, TYPE, event.kind);
    if event.id != "" {
      WrittenAt(written, out, EVENT_ID);
    }
    FieldTextOf(written, EVENT_ID, event.id);
  }
}
