/**
 The generated operation and event tables, the indexes filled from them on first
 use, and the selection of an operation for a matched route.
 */
module OperationTable {
  import opened Wrappers

  datatype Operation = Operation(
    httpMethod: string,
    path: string,
    id: string,
    capability: string,
    requestMedia: seq<string>,
    responseMedia: seq<string>,
    successStatus: int)

  datatype EventEntry = EventEntry(surface: string, direction: string, kind: string)

  type Query = map<string, seq<string>>

  // ---- Route selection ----

  /** Splits at the first `sep`; the second part is empty when there is none. */
  function Cut(s: string, sep: char): (string, string) {
    if s == "" then ("", "")
    else if s[0] == sep then ("", s[1..])
    else
      var (before, after) := Cut(s[1..], sep);
      ([s[0]] + before, after)
  }

  /** The first value of a key, or the empty string. */
  function Get(query: Query, key: string): string {
    if key in query && query[key] != [] then query[key][0] else ""
  }

  predicate Requires(required: Query, key: string, query: Query)
    requires key in required
  {
    required[key] != [] && Get(query, key) == required[key][|required[key]| - 1]
  }

  predicate Met(required: Query, query: Query) {
    forall key :: key in required ==> Requires(required, key, query)
  }

  /** A request as the table sees it; `parse` reads a raw query or fails. */
  datatype Lookup = Lookup(httpMethod: string, path: string, query: Query, parse: string -> Option<Query>)

  predicate OnRoute(op: Operation, at: Lookup) {
    op.httpMethod == at.httpMethod && Cut(op.path, '?').0 == at.path
  }

  predicate PlainEntry(op: Operation, at: Lookup) {
    OnRoute(op, at) && Cut(op.path, '?').1 == ""
  }

  predicate MetVariant(op: Operation, at: Lookup) {
    && OnRoute(op, at) && Cut(op.path, '?').1 != ""
    && at.parse(Cut(op.path, '?').1).Some?
    && Met(at.parse(Cut(op.path, '?').1).value, at.query)
  }

  function FirstMet(table: seq<Operation>, at: Lookup): Option<Operation> {
    if table == [] then None
    else if MetVariant(table[0], at) then Some(table[0])
    else FirstMet(table[1..], at)
  }

  function LastPlain(table: seq<Operation>, at: Lookup): Option<Operation> {
    if table == [] then None
    else if PlainEntry(table[|table| - 1], at) then Some(table[|table| - 1])
    else LastPlain(table[..|table| - 1], at)
  }

  function Selected(table: seq<Operation>, at: Lookup): Option<Operation> {
    if FirstMet(table, at).Some? then FirstMet(table, at) else LastPlain(table, at)
  }

  method CheckQuery(required: Query, query: Query) returns (matches: bool)
    ensures matches == Met(required, query)
  {
    matches := true;
    var pending := required.Keys;
    while pending != {}
      invariant pending <= required.Keys && matches
      invariant forall key :: key in required.Keys - pending ==> Requires(required, key, query)
    {
      var key :| key in pending;
      if |required[key]| == 0 || Get(query, key) != required[key][|required[key]| - 1] {
        return false;
      }
      pending := pending - {key};
    }
  }

  method OperationForRoute(table: seq<Operation>, at: Lookup) returns (found: Option<Operation>)
    ensures found == Selected(table, at)
  {
    var fallback := None;
    for i := 0 to |table|
      invariant fallback == LastPlain(table[..i], at)
      invariant FirstMet(table, at) == FirstMet(table[i..], at)
    {
      assert table[..i + 1][..i] == table[..i];
      assert table[i..][1..] == table[i + 1..];
      var op := table[i];
      var (path, rawQuery) := Cut(op.path, '?');
      if op.httpMethod != at.httpMethod || path != at.path {
        continue;
      }
      if rawQuery == "" {
        fallback := Some(op);
        continue;
      }
      var required := at.parse(rawQuery);
      if required.None? {
        continue;
      }
      var matches := CheckQuery(required.value, at.query);
      if matches {
        return Some(op);
      }
    }
    assert table[..|table|] == table;
    return fallback;
  }

  // ---- What the parts of a route's test mean ----

  /** The path ends at the first separator; without one it is the whole string. */
  lemma {:induction false} CutMeaning(s: string, sep: char)
    ensures var (before, after) := Cut(s, sep);
            && sep !in before
            && (sep in s ==> s == before + [sep] + after)
            && (sep !in s ==> before == s && after == "")
  {
    if s != "" && s[0] != sep {
      assert s == [s[0]] + s[1..];
      CutMeaning(s[1..], sep);
    }
  }

  /** An entry is on a route exactly when its path is the route's, with or without a query after it. */
  lemma RouteMeaning(op: Operation, at: Lookup)
    ensures OnRoute(op, at) <==>
            && op.httpMethod == at.httpMethod && '?' !in at.path
            && (op.path == at.path || at.path + "?" <= op.path)
    ensures OnRoute(op, at) ==>
              (Cut(op.path, '?').1 == "" <==> op.path == at.path || op.path == at.path + "?")
    ensures OnRoute(op, at) && Cut(op.path, '?').1 != "" ==> op.path == at.path + "?" + Cut(op.path, '?').1
  {
    CutMeaning(op.path, '?');
    var (before, after) := Cut(op.path, '?');
    if at.path + "?" <= op.path && '?' !in at.path {
      assert op.path[|at.path|] == '?' && op.path[..|at.path|] == at.path;
      assert '?' in op.path;
      assert forall i :: 0 <= i < |before| ==> op.path[i] == before[i] && before[i] in before;
      assert forall i :: 0 <= i < |at.path| ==> op.path[i] == at.path[i] && at.path[i] in at.path;
      assert op.path[|before|] == '?';
      assert |before| == |at.path|;
      assert before == op.path[..|before|];
    }
  }

  /** The request gives the key the value `x` first, or gives it none and `x` is empty. */
  predicate Answers(query: Query, key: string, x: string) {
    if key in query && query[key] != [] then query[key][0] == x else x == ""
  }

  /** A required query is met exactly when the request answers the last value of each of its keys. */
  lemma MetMeaning(required: Query, query: Query)
    ensures Met(required, query) <==>
            forall key :: key in required ==> required[key] != [] && Answers(query, key, required[key][|required[key]| - 1])
  {
    if Met(required, query) {
      forall key | key in required
        ensures required[key] != [] && Answers(query, key, required[key][|required[key]| - 1])
      {
        assert Requires(required, key, query);
      }
    }
  }

  /** A variant some required key of which the request does not answer is never selected. */
  lemma UnansweredVariant(table: seq<Operation>, at: Lookup, i: nat, required: Query, key: string)
    requires i < |table| && Cut(table[i].path, '?').1 != "" && at.parse(Cut(table[i].path, '?').1) == Some(required)
    requires key in required && (required[key] == [] || !Answers(at.query, key, required[key][|required[key]| - 1]))
    ensures Selected(table, at) != Some(table[i])
  {
    MetMeaning(required, at.query);
    NoneMet(table, at);
    if FirstMet(table, at).Some? {
      FirstMetIn(table, at);
    } else {
      LastPlainIsPlain(table, at);
    }
  }

  /** The parsed query names a key whose last value is not empty. */
  predicate AsksSomething(parsed: Option<Query>) {
    parsed.Some? ==> exists key :: key in parsed.value && (parsed.value[key] == [] || parsed.value[key][|parsed.value[key]| - 1] != "")
  }

  /** A request without a query gets the route's plain entry, whenever each variant asks for something. */
  lemma PlainRequest(table: seq<Operation>, at: Lookup, i: nat)
    requires at.query == map[] && i < |table|
    requires table[i].httpMethod == at.httpMethod && table[i].path == at.path && '?' !in at.path
    requires forall j :: 0 <= j < |table| && OnRoute(table[j], at) && Cut(table[j].path, '?').1 != "" ==>
               AsksSomething(at.parse(Cut(table[j].path, '?').1))
    requires forall j :: i < j < |table| ==> !PlainEntry(table[j], at)
    ensures Selected(table, at) == Some(table[i])
  {
    forall j | 0 <= j < |table|
      ensures !MetVariant(table[j], at)
    {
      var parsed := at.parse(Cut(table[j].path, '?').1);
      if parsed.Some? {
        MetMeaning(parsed.value, at.query);
      }
    }
    RouteMeaning(table[i], at);
    SelectionMeaning(table, at);
  }

  lemma {:induction false} FirstMetMeaning(table: seq<Operation>, at: Lookup, i: nat)
    requires i < |table| && MetVariant(table[i], at)
    requires forall j :: 0 <= j < i ==> !MetVariant(table[j], at)
    ensures FirstMet(table, at) == Some(table[i])
  {
    if i > 0 {
      FirstMetMeaning(table[1..], at, i - 1);
    }
  }

  lemma {:induction false} NoneMet(table: seq<Operation>, at: Lookup)
    ensures FirstMet(table, at).None? <==> forall j :: 0 <= j < |table| ==> !MetVariant(table[j], at)
  {
    if table != [] {
      NoneMet(table[1..], at);
      assert forall j :: 0 <= j < |table| - 1 ==> table[1..][j] == table[j + 1];
      if MetVariant(table[0], at) {
      } else if forall j :: 0 <= j < |table| - 1 ==> !MetVariant(table[1..][j], at) {
        forall j | 0 <= j < |table|
          ensures !MetVariant(table[j], at)
        {
          assert j > 0 ==> table[1..][j - 1] == table[j];
        }
      }
    }
  }

  lemma {:induction false} LastPlainMeaning(table: seq<Operation>, at: Lookup, i: nat)
    requires i < |table| && PlainEntry(table[i], at)
    requires forall j :: i < j < |table| ==> !PlainEntry(table[j], at)
    ensures LastPlain(table, at) == Some(table[i])
  {
    if i < |table| - 1 {
      LastPlainMeaning(table[..|table| - 1], at, i);
    }
  }

  lemma {:induction false} NonePlain(table: seq<Operation>, at: Lookup)
    requires forall j :: 0 <= j < |table| ==> !PlainEntry(table[j], at)
    ensures LastPlain(table, at) == None
  {
    if table != [] {
      NonePlain(table[..|table| - 1], at);
    }
  }

  /**
   The selection in terms of the table: the first entry of the route whose query
   is met; if none is, the last entry without a query; otherwise nothing.
   */
  lemma SelectionMeaning(table: seq<Operation>, at: Lookup)
    ensures forall i :: 0 <= i < |table| && MetVariant(table[i], at) && (forall j :: 0 <= j < i ==> !MetVariant(table[j], at)) ==>
              Selected(table, at) == Some(table[i])
    ensures (forall j :: 0 <= j < |table| ==> !MetVariant(table[j], at)) ==>
              && (forall i :: 0 <= i < |table| && PlainEntry(table[i], at) && (forall j :: i < j < |table| ==> !PlainEntry(table[j], at)) ==>
                    Selected(table, at) == Some(table[i]))
              && ((forall j :: 0 <= j < |table| ==> !PlainEntry(table[j], at)) ==> Selected(table, at) == None)
  {
    forall i | 0 <= i < |table| && MetVariant(table[i], at) && (forall j :: 0 <= j < i ==> !MetVariant(table[j], at))
      ensures Selected(table, at) == Some(table[i])
    {
      FirstMetMeaning(table, at, i);
    }
    NoneMet(table, at);
    forall i | 0 <= i < |table| && PlainEntry(table[i], at) && (forall j :: i < j < |table| ==> !PlainEntry(table[j], at))
      ensures LastPlain(table, at) == Some(table[i])
    {
      LastPlainMeaning(table, at, i);
    }
    if forall j :: 0 <= j < |table| ==> !PlainEntry(table[j], at) {
      NonePlain(table, at);
    }
  }

  /**
   A variant asks for the last of a key's values and looks at a request's first:
   it is met by its own query exactly when the two coincide for every key.
   */
  lemma OwnQuery(required: Query)
    ensures Met(required, required) <==>
            forall key :: key in required ==> required[key] != [] && required[key][0] == required[key][|required[key]| - 1]
  {
  }

  lemma {:induction false} LastPlainIsPlain(table: seq<Operation>, at: Lookup)
    ensures LastPlain(table, at).Some? ==> PlainEntry(LastPlain(table, at).value, at)
  {
    if table != [] {
      LastPlainIsPlain(table[..|table| - 1], at);
    }
  }

  /**
   An entry asked for by its own method, path and query, while no other variant is
   met and no later entry is as plain, is the one selected, exactly unless its query
   repeats a key with different first and last values or gives a key no value.
   */
  lemma EntryFindsItself(table: seq<Operation>, at: Lookup, i: nat)
    requires i < |table| && OnRoute(table[i], at)
    requires Cut(table[i].path, '?').1 != "" ==> at.parse(Cut(table[i].path, '?').1) == Some(at.query)
    requires forall j :: 0 <= j < |table| && j != i ==> !MetVariant(table[j], at)
    requires PlainEntry(table[i], at) ==> forall j :: i < j < |table| ==> !PlainEntry(table[j], at)
    ensures Selected(table, at) == Some(table[i]) <==>
            PlainEntry(table[i], at)
            || forall key :: key in at.query ==> at.query[key] != [] && at.query[key][0] == at.query[key][|at.query[key]| - 1]
  {
    SelectionMeaning(table, at);
    OwnQuery(at.query);
    if !PlainEntry(table[i], at) && !MetVariant(table[i], at) {
      NoneMet(table, at);
      LastPlainIsPlain(table, at);
    }
  }

  predicate AtMostOne(table: seq<Operation>, holds: Operation -> bool) {
    forall i, j :: 0 <= i < j < |table| ==> !(holds(table[i]) && holds(table[j]))
  }

  /** Where a table holds an entry once, so does any permutation of it, and nowhere else. */
  lemma OnlyOneElsewhere(table: seq<Operation>, other: seq<Operation>, holds: Operation -> bool, i: nat, k: nat)
    requires multiset(table) == multiset(other) && AtMostOne(table, holds)
    requires i < |table| && holds(table[i]) && k < |other| && holds(other[k])
    ensures other[k] == table[i]
    ensures forall j :: 0 <= j < |other| && j != k ==> !holds(other[j])
  {
    OccursOnce(table, holds, i);
    forall j | 0 <= j < |other| && holds(other[j])
      ensures other[j] == table[i]
    {
      assert other[j] in multiset(other);
      assert other[j] in table;
    }
    forall j | 0 <= j < |other| && j != k
      ensures !holds(other[j])
    {
      if holds(other[j]) {
        TwiceCounts(other, if j < k then j else k, if j < k then k else j);
      }
    }
  }

  lemma OccursOnce(table: seq<Operation>, holds: Operation -> bool, i: nat)
    requires AtMostOne(table, holds) && i < |table| && holds(table[i])
    ensures multiset(table)[table[i]] == 1
  {
    var x := table[i];
    assert table == table[..i] + [x] + table[i + 1..];
    assert x !in table[..i] && x !in table[i + 1..];
  }

  lemma TwiceCounts(table: seq<Operation>, i: nat, j: nat)
    requires i < j < |table| && table[i] == table[j]
    ensures multiset(table)[table[i]] >= 2
  {
    assert table == table[..i] + [table[i]] + table[i + 1..j] + [table[j]] + table[j + 1..];
  }

  lemma FirstMetIn(table: seq<Operation>, at: Lookup)
    requires FirstMet(table, at).Some?
    ensures exists i :: 0 <= i < |table| && MetVariant(table[i], at) && FirstMet(table, at) == Some(table[i])
  {
  }

  /** With at most one variant met and at most one plain entry, the order of the table does not matter. */
  lemma SelectionIgnoresOrder(table: seq<Operation>, other: seq<Operation>, at: Lookup)
    requires multiset(table) == multiset(other)
    requires AtMostOne(table, op => MetVariant(op, at)) && AtMostOne(table, op => PlainEntry(op, at))
    ensures Selected(table, at) == Selected(other, at)
  {
    SameEntry(table, other, at, op => MetVariant(op, at));
    SameEntry(table, other, at, op => PlainEntry(op, at));
    SelectionMeaning(table, at);
    SelectionMeaning(other, at);
  }

  /** Either neither order has such an entry, or both have the same one, once. */
  lemma SameEntry(table: seq<Operation>, other: seq<Operation>, at: Lookup, holds: Operation -> bool)
    requires multiset(table) == multiset(other) && AtMostOne(table, holds)
    ensures || ((forall i :: 0 <= i < |table| ==> !holds(table[i])) && (forall i :: 0 <= i < |other| ==> !holds(other[i])))
            || exists i, k :: 0 <= i < |table| && 0 <= k < |other| && holds(table[i]) && other[k] == table[i]
                 && (forall j :: 0 <= j < |table| && j != i ==> !holds(table[j]))
                 && (forall j :: 0 <= j < |other| && j != k ==> !holds(other[j]))
  {
    if i: nat :| i < |table| && holds(table[i]) {
      assert table[i] in multiset(other);
      var k: nat :| k < |other| && other[k] == table[i];
      OnlyOneElsewhere(table, other, holds, i, k);
    } else {
      forall k | 0 <= k < |other|
        ensures !holds(other[k])
      {
        assert other[k] in multiset(table);
      }
    }
  }

  // ---- Indexes filled on first use ----

  function FirstById(table: seq<Operation>, id: string): Option<Operation> {
    if table == [] then None
    else if table[0].id == id then Some(table[0])
    else FirstById(table[1..], id)
  }

  predicate DistinctIds(table: seq<Operation>) {
    forall i, j :: 0 <= i < j < |table| ==> table[i].id != table[j].id
  }

  /** The map filled from the table: the last entry for an id wins. */
  function Index(table: seq<Operation>): map<string, Operation> {
    if table == [] then map[] else Index(table[..|table| - 1])[table[|table| - 1].id := table[|table| - 1]]
  }

  function ById(table: seq<Operation>, id: string): Option<Operation> {
    if id in Index(table) then Some(Index(table)[id]) else None
  }

  /** An id is found exactly when the table has it, and what is found is an entry with that id. */
  lemma {:induction false} ByIdMeaning(table: seq<Operation>, id: string)
    ensures ById(table, id).Some? <==> exists i :: 0 <= i < |table| && table[i].id == id
    ensures ById(table, id).Some? ==> ById(table, id).value in table && ById(table, id).value.id == id
    ensures forall i :: 0 <= i < |table| && table[i].id == id && (forall j :: i < j < |table| ==> table[j].id != id) ==>
              ById(table, id) == Some(table[i])
  {
    if table != [] {
      var n := |table| - 1;
      ByIdMeaning(table[..n], id);
      assert table == table[..n] + [table[n]];
      if i :| 0 <= i < |table| && table[i].id == id {
        if i < n {
          assert table[..n][i].id == id;
        }
      }
    }
  }

  lemma {:induction false} ScanMeaning(table: seq<Operation>, id: string)
    ensures FirstById(table, id).Some? <==> exists i :: 0 <= i < |table| && table[i].id == id
    ensures FirstById(table, id).Some? ==> FirstById(table, id).value in table && FirstById(table, id).value.id == id
  {
    if table != [] {
      ScanMeaning(table[1..], id);
      assert table == [table[0]] + table[1..];
      if i :| 0 <= i < |table| && table[i].id == id {
        if i > 0 {
          assert table[1..][i - 1].id == id;
        }
      }
    }
  }

  /** With pairwise distinct ids the index is a linear search. */
  lemma IndexIsScan(table: seq<Operation>, id: string)
    requires DistinctIds(table)
    ensures ById(table, id) == FirstById(table, id)
  {
    ByIdMeaning(table, id);
    ScanMeaning(table, id);
    if ById(table, id).Some? {
      var i :| 0 <= i < |table| && table[i] == ById(table, id).value;
      var j :| 0 <= j < |table| && table[j] == FirstById(table, id).value;
      assert i == j;
    }
  }

  const SEPARATOR := "\0"

  function EventKey(surface: string, direction: string, kind: string): string {
    surface + SEPARATOR + direction + SEPARATOR + kind
  }

  predicate NulFree(s: string) {
    '\0' !in s
  }

  lemma SplitAtNul(a: string, b: string, c: string, d: string)
    requires NulFree(a) && NulFree(b) && a + SEPARATOR + c == b + SEPARATOR + d
    ensures a == b && c == d
  {
    var left, right := a + SEPARATOR + c, b + SEPARATOR + d;
    assert left[|a|] == '\0' && right[|b|] == '\0';
    forall i | 0 <= i < |a|
      ensures left[i] != '\0'
    {
      assert left[i] == a[i];
    }
    forall i | 0 <= i < |b|
      ensures right[i] != '\0'
    {
      assert right[i] == b[i];
    }
    assert left[..|a|] == a && right[..|b|] == b;
    assert left[|a| + 1..] == c && right[|b| + 1..] == d;
  }

  /** The joined key tells triples apart whatever the event type contains, if the other two parts hold no NUL. */
  lemma EventKeyInjective(s: string, d: string, k: string, s': string, d': string, k': string)
    requires NulFree(s) && NulFree(d) && NulFree(s') && NulFree(d')
    ensures EventKey(s, d, k) == EventKey(s', d', k') <==> s == s' && d == d' && k == k'
  {
    if EventKey(s, d, k) == EventKey(s', d', k') {
      assert EventKey(s, d, k) == s + SEPARATOR + (d + SEPARATOR + k);
      assert EventKey(s', d', k') == s' + SEPARATOR + (d' + SEPARATOR + k');
      SplitAtNul(s, s', d + SEPARATOR + k, d' + SEPARATOR + k');
      SplitAtNul(d, d', k, k');
    }
  }

  class Profile {
    const operations: seq<Operation>
    const events: seq<EventEntry>
    var operationsReady: bool
    var operationsById: map<string, Operation>
    var eventsReady: bool
    var eventSet: set<string>

    /** An index that has been filled was filled from its table. */
    ghost predicate Valid()
      reads this
    {
      && (operationsReady ==> operationsById == Index(operations))
      && (eventsReady ==> eventSet == EventKeys(events))
    }

    constructor (operations: seq<Operation>, events: seq<EventEntry>)
      ensures Valid() && this.operations == operations && this.events == events
      ensures !operationsReady && !eventsReady
    {
      this.operations, this.events := operations, events;
      operationsReady, operationsById, eventsReady, eventSet := false, map[], false, {};
    }

    method OperationByID(id: string) returns (found: Option<Operation>)
      requires Valid()
      modifies this
      ensures Valid() && operationsReady && eventsReady == old(eventsReady) && eventSet == old(eventSet)
      ensures found == ById(operations, id)
      ensures DistinctIds(operations) ==> found == FirstById(operations, id)
    {
      if !operationsReady {
        operationsReady := true;
        operationsById := map[];
        for i := 0 to |operations|
          invariant operationsById == Index(operations[..i])
          invariant operationsReady && eventsReady == old(eventsReady) && eventSet == old(eventSet)
        {
          assert operations[..i + 1][..i] == operations[..i];
          operationsById := operationsById[operations[i].id := operations[i]];
        }
        assert operations[..|operations|] == operations;
      }
      found := if id in operationsById then Some(operationsById[id]) else None;
      if DistinctIds(operations) {
        IndexIsScan(operations, id);
      }
    }

    method EventAllowed(surface: string, direction: string, kind: string) returns (allowed: bool)
      requires Valid()
      modifies this
      ensures Valid() && eventsReady && operationsReady == old(operationsReady) && operationsById == old(operationsById)
      ensures old(eventsReady) ==> eventSet == old(eventSet)
      ensures allowed <==> EventKey(surface, direction, kind) in EventKeys(events)
      ensures NulFree(surface) && NulFree(direction) && (forall e :: e in events ==> NulFree(e.surface) && NulFree(e.direction)) ==>
                (allowed <==> EventEntry(surface, direction, kind) in events)
    {
      if !eventsReady {
        eventsReady := true;
        eventSet := {};
        for i := 0 to |events|
          invariant eventSet == EventKeys(events[..i])
          invariant eventsReady && operationsReady == old(operationsReady) && operationsById == old(operationsById)
        {
          eventSet := eventSet + {EventKey(events[i].surface, events[i].direction, events[i].kind)};
          assert events[..i + 1] == events[..i] + [events[i]];
        }
        assert events[..|events|] == events;
      }
      allowed := EventKey(surface, direction, kind) in eventSet;
      if NulFree(surface) && NulFree(direction) && forall e :: e in events ==> NulFree(e.surface) && NulFree(e.direction) {
        KeyMembership(events, surface, direction, kind);
      }
    }

    /** The event types a WebSocket surface accepts: realtime also speaks the translation protocol. */
    method SurfaceAllows(surface: string, direction: string, kind: string) returns (allowed: bool)
      requires Valid()
      modifies this
      ensures Valid()
      ensures NulFree(direction) && (forall e :: e in events ==> NulFree(e.surface) && NulFree(e.direction)) ==>
                (allowed <==> exists name :: name in SurfaceNames(surface) && EventEntry(name, direction, kind) in events)
    {
      if surface == "realtime" {
        allowed := EventAllowed("realtime", direction, kind);
        if !allowed {
          allowed := EventAllowed("realtime_translation", direction, kind);
        }
      } else if surface == "responses_websocket" {
        allowed := EventAllowed("responses_websocket", direction, kind);
      } else {
        allowed := false;
      }
    }
  }

  function SurfaceNames(surface: string): set<string> {
    if surface == "realtime" then {"realtime", "realtime_translation"}
    else if surface == "responses_websocket" then {"responses_websocket"}
    else {}
  }

  function EventKeys(events: seq<EventEntry>): set<string> {
    set e | e in events :: EventKey(e.surface, e.direction, e.kind)
  }

  lemma KeyMembership(events: seq<EventEntry>, surface: string, direction: string, kind: string)
    requires NulFree(surface) && NulFree(direction) && forall e :: e in events ==> NulFree(e.surface) && NulFree(e.direction)
    ensures EventKey(surface, direction, kind) in EventKeys(events) <==> EventEntry(surface, direction, kind) in events
  {
    if EventKey(surface, direction, kind) in EventKeys(events) {
      var e :| e in events && EventKey(e.surface, e.direction, e.kind) == EventKey(surface, direction, kind);
      EventKeyInjective(e.surface, e.direction, e.kind, surface, direction, kind);
    }
    if EventEntry(surface, direction, kind) in events {
      var e := EventEntry(surface, direction, kind);
      assert EventKey(e.surface, e.direction, e.kind) in EventKeys(events);
    }
  }

  ghost predicate NulFreeTable(events: seq<EventEntry>) {
    forall e :: e in events ==> NulFree(e.surface) && NulFree(e.direction)
  }

  /** Asking for the joined key is asking for the triple, whatever the table and the event type. */
  ghost predicate KeysAgree(surface: string, direction: string) {
    forall events, kind :: NulFreeTable(events) ==>
      (EventKey(surface, direction, kind) in EventKeys(events) <==> EventEntry(surface, direction, kind) in events)
  }

  lemma {:induction false} CutAtNul(s: string)
    requires !NulFree(s)
    ensures var (before, after) := Cut(s, '\0'); s == before + SEPARATOR + after && NulFree(before)
  {
    if s[0] != '\0' {
      assert s == [s[0]] + s[1..];
      CutAtNul(s[1..]);
    }
  }

  /** The entry a joined key reads as when it is split at its first two NULs. */
  function ReadKey(key: string): EventEntry {
    var (surface, rest) := Cut(key, '\0');
    var (direction, kind) := Cut(rest, '\0');
    EventEntry(surface, direction, kind)
  }

  lemma ReadKeyMeaning(surface: string, direction: string, kind: string)
    ensures var e := ReadKey(EventKey(surface, direction, kind));
            NulFree(e.surface) && NulFree(e.direction) && EventKey(e.surface, e.direction, e.kind) == EventKey(surface, direction, kind)
  {
    var key := EventKey(surface, direction, kind);
    assert key[|surface|] == '\0';
    CutAtNul(key);
    var (before, rest) := Cut(key, '\0');
    assert forall i :: 0 <= i < |before| ==> key[i] == before[i] && before[i] in before;
    var j := |surface| + 1 + |direction|;
    assert key[j] == '\0' && rest[j - |before| - 1] == key[j];
    CutAtNul(rest);
    var (direction', kind') := Cut(rest, '\0');
    assert before + SEPARATOR + (direction' + SEPARATOR + kind') == before + SEPARATOR + direction' + SEPARATOR + kind';
  }

  /** The joined key tells exactly the triples whose surface and direction hold no NUL from all others. */
  lemma KeysAgreeExactly(surface: string, direction: string)
    ensures KeysAgree(surface, direction) <==> NulFree(surface) && NulFree(direction)
  {
    if NulFree(surface) && NulFree(direction) {
      forall events, kind | NulFreeTable(events)
        ensures EventKey(surface, direction, kind) in EventKeys(events) <==> EventEntry(surface, direction, kind) in events
      {
        KeyMembership(events, surface, direction, kind);
      }
    } else {
      var e := ReadKey(EventKey(surface, direction, ""));
      ReadKeyMeaning(surface, direction, "");
      assert e in [e] && NulFreeTable([e]);
      assert EventKey(e.surface, e.direction, e.kind) in EventKeys([e]);
      assert EventEntry(surface, direction, "") !in [e];
      assert !KeysAgree(surface, direction);
    }
  }
}
