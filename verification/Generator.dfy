/**
 The generator of the operation and event tables.

 It walks maps, whose iteration order is arbitrary, and sorts what it collects.
 Each walk below takes keys in whatever order the choice produces; the contracts
 determine the result all the same.
 */
module Generator {
  import opened Wrappers
  import opened Ordering
  import OperationTable

  // ---- The decoded specification ----

  /** Media types are the keys of content maps; `places` says where each parameter goes. */
  datatype SpecOperation = SpecOperation(
    operationId: string,
    tags: seq<string>,
    places: seq<string>,
    requestMedia: Option<set<string>>,
    responses: map<string, set<string>>)

  type Document = map<string, map<string, SpecOperation>>

  datatype Surface = Surface(client: seq<string>, server: seq<string>)

  type Inventory = map<string, Surface>

  /** The fixed tables of the generator; `capability` has no answer where the generator gives up. */
  datatype Tables = Tables(
    rawOnly: set<string>,
    capability: (string, seq<string>) -> Option<string>,
    live: string -> (string, string))

  datatype Generated = Generated(
    httpMethod: string,
    path: string,
    id: string,
    capability: string,
    requestMedia: seq<string>,
    responseMedia: seq<string>,
    successStatus: int,
    sdkCall: string,
    localCase: string,
    transports: seq<string>,
    schemaCases: seq<string>,
    liveProfile: string,
    liveReason: string,
    hasQuery: bool)

  // ---- Sorted keys ----

  method SortedKeys(keys: set<string>) returns (r: seq<string>)
    ensures r == Arranged(keys)
  {
    var collected: seq<string> := [];
    var pending := keys;
    while pending != {}
      invariant pending <= keys
      invariant multiset(collected) == multiset(keys - pending)
    {
      var key :| key in pending;
      collected := collected + [key];
      pending := pending - {key};
      assert keys - pending == (keys - pending - {key}) + {key};
    }
    assert keys - pending == keys;
    StringOrder();
    r := Sort(StringLeq, collected);
    ArrangedIsUnique(keys, r);
  }

  // ---- Media, status and transports of one operation ----

  function AppendUnique(values: seq<string>, candidate: string): seq<string> {
    if candidate in values then values else values + [candidate]
  }

  /** All media of all responses. */
  function AllMedia(responses: map<string, set<string>>): set<string> {
    set code, media | code in responses && media in responses[code] :: media
  }

  ghost predicate NoRepeats(s: seq<string>) {
    forall i, j :: 0 <= i < j < |s| ==> s[i] != s[j]
  }

  lemma {:induction false} NoRepeatsMultiset(s: seq<string>, elements: set<string>)
    requires NoRepeats(s) && forall x :: x in s <==> x in elements
    ensures multiset(s) == multiset(elements)
    decreases |s|
  {
    if s != [] {
      MultisetTail(s);
      assert s == [s[0]] + s[1..];
      assert s[0] !in s[1..];
      NoRepeatsMultiset(s[1..], elements - {s[0]});
      assert elements == {s[0]} + (elements - {s[0]});
    } else {
      assert elements == {};
    }
  }

  method ResponseMedia(responses: map<string, set<string>>) returns (r: seq<string>)
    ensures r == Arranged(AllMedia(responses))
  {
    var collected: seq<string> := [];
    var codes := responses.Keys;
    while codes != {}
      invariant codes <= responses.Keys && NoRepeats(collected)
      invariant forall m :: m in collected <==> exists code :: code in responses.Keys - codes && m in responses[code]
    {
      var code :| code in codes;
      var pending := responses[code];
      ghost var before := collected;
      while pending != {}
        invariant pending <= responses[code] && NoRepeats(collected)
        invariant forall m :: m in collected <==> m in before || m in responses[code] - pending
      {
        var media :| media in pending;
        collected := AppendUnique(collected, media);
        pending := pending - {media};
      }
      codes := codes - {code};
    }
    NoRepeatsMultiset(collected, AllMedia(responses));
    StringOrder();
    r := Sort(StringLeq, collected);
    ArrangedIsUnique(AllMedia(responses), r);
  }

  function WithDigit(earlier: Option<nat>, c: char): Option<nat> {
    if earlier.None? || !('0' <= c <= '9') then None else Some(earlier.value * 10 + (c - '0') as int)
  }

  function DigitsValue(s: string): Option<nat> {
    if s == "" then Some(0) else WithDigit(DigitsValue(s[..|s| - 1]), s[|s| - 1])
  }

  /** Decimal with an optional sign; out-of-range numbers fail in the source and are never successes here. */
  function Atoi(s: string): Option<int> {
    if s == "" then None
    else if s[0] == '-' || s[0] == '+' then
      var digits := DigitsValue(s[1..]);
      if |s| == 1 || digits.None? then None
      else
        var n: int := digits.value;
        Some(if s[0] == '-' then -n else n)
    else DigitsValue(s)
  }

  predicate IsSuccess(code: string) {
    Atoi(code).Some? && 200 <= Atoi(code).value < 300
  }

  /** The least success status among the codes, or 200 when there is none. */
  predicate IsSuccessStatus(codes: set<string>, status: int) {
    if exists code :: code in codes && IsSuccess(code) then
      && (exists code :: code in codes && IsSuccess(code) && Atoi(code).value == status)
      && (forall code :: code in codes && IsSuccess(code) ==> status <= Atoi(code).value)
    else status == 200
  }

  method SuccessStatus(responses: map<string, set<string>>) returns (status: int)
    ensures IsSuccessStatus(responses.Keys, status)
  {
    var result := 0;
    var pending := responses.Keys;
    while pending != {}
      invariant pending <= responses.Keys
      invariant result == 0 ==> forall code :: code in responses.Keys - pending ==> !IsSuccess(code)
      invariant result != 0 ==>
                  && (exists code :: code in responses.Keys - pending && IsSuccess(code) && Atoi(code).value == result)
                  && (forall code :: code in responses.Keys - pending && IsSuccess(code) ==> result <= Atoi(code).value)
    {
      var code :| code in pending;
      ghost var seen := responses.Keys - pending;
      var parsed := Atoi(code);
      pending := pending - {code};
      assert responses.Keys - pending == seen + {code};
      if parsed.Some? && 200 <= parsed.value < 300 && (result == 0 || parsed.value < result) {
        result := parsed.value;
        assert code in responses.Keys - pending && IsSuccess(code);
      }
    }
    return if result == 0 then 200 else result;
  }

  predicate Contains(s: string, part: string) {
    part <= s || (s != "" && Contains(s[1..], part))
  }

  lemma {:induction false} ContainsMeaning(s: string, part: string)
    ensures Contains(s, part) <==> exists i :: 0 <= i <= |s| && part <= s[i..]
    decreases |s|
  {
    assert s[0..] == s;
    if s != "" {
      ContainsMeaning(s[1..], part);
      if i :| 0 <= i <= |s[1..]| && part <= s[1..][i..] {
        assert s[i + 1..] == s[1..][i..];
      }
      if i :| 0 <= i <= |s| && part <= s[i..] {
        if i > 0 {
          assert s[1..][i - 1..] == s[i..];
        }
      }
    }
  }

  function TransportOf(media: string): string {
    if media == "multipart/form-data" then "multipart"
    else if media == "text/event-stream" then "sse"
    else if Contains(media, "json") then "json"
    else "binary"
  }

  /** First occurrences only, in order. */
  function Distinct(s: seq<string>): seq<string> {
    if s == [] then [] else AppendUnique(Distinct(s[..|s| - 1]), s[|s| - 1])
  }

  function PathEvidence(path: string, hasQuery: bool): seq<string> {
    (if Contains(path, "{") then ["path"] else []) + (if hasQuery || Contains(path, "?") then ["query"] else [])
  }

  function MediaEvidence(media: seq<string>): seq<string> {
    seq(|media|, i requires 0 <= i < |media| => TransportOf(media[i]))
  }

  /** Every transport an operation shows evidence of, with repeats. */
  function TransportEvidence(path: string, hasQuery: bool, media: seq<string>): seq<string> {
    PathEvidence(path, hasQuery) + MediaEvidence(media)
  }

  lemma DistinctNext(s: seq<string>, x: string)
    ensures Distinct(s + [x]) == AppendUnique(Distinct(s), x)
  {
  }

  lemma DistinctPath(path: string, hasQuery: bool)
    ensures Distinct(PathEvidence(path, hasQuery)) == PathEvidence(path, hasQuery)
  {
    DistinctNext([], "path");
    DistinctNext([], "query");
    DistinctNext(["path"], "query");
    assert [] + ["path"] == ["path"] && [] + ["query"] == ["query"] && ["path"] + ["query"] == ["path", "query"];
  }

  method PathTransports(path: string, hasQuery: bool) returns (transports: seq<string>)
    ensures transports == PathEvidence(path, hasQuery)
  {
    transports := [];
    if Contains(path, "{") {
      transports := AppendUnique(transports, "path");
    }
    if hasQuery || Contains(path, "?") {
      transports := AppendUnique(transports, "query");
    }
  }

  lemma EvidenceNext(head: seq<string>, media: seq<string>, i: nat)
    requires i < |media|
    ensures Distinct(head + MediaEvidence(media[..i + 1]))
         == AppendUnique(Distinct(head + MediaEvidence(media[..i])), TransportOf(media[i]))
  {
    assert MediaEvidence(media[..i + 1]) == MediaEvidence(media[..i]) + [TransportOf(media[i])];
    assert head + MediaEvidence(media[..i + 1]) == (head + MediaEvidence(media[..i])) + [TransportOf(media[i])];
    DistinctNext(head + MediaEvidence(media[..i]), TransportOf(media[i]));
  }

  method OperationTransports(path: string, hasQuery: bool, media: seq<string>) returns (transports: seq<string>)
    ensures transports == Distinct(TransportEvidence(path, hasQuery, media))
  {
    ghost var head := PathEvidence(path, hasQuery);
    transports := PathTransports(path, hasQuery);
    DistinctPath(path, hasQuery);
    assert head + MediaEvidence(media[..0]) == head;
    for i := 0 to |media|
      invariant transports == Distinct(head + MediaEvidence(media[..i]))
    {
      EvidenceNext(head, media, i);
      transports := AppendUnique(transports, TransportOf(media[i]));
    }
    assert media[..|media|] == media;
  }

  /** `x` occurs in `s` before any `y` does. */
  ghost predicate Precedes(s: seq<string>, x: string, y: string) {
    exists k :: 0 <= k < |s| && s[k] == x && y !in s[..k + 1]
  }

  lemma PrecedesLonger(s: seq<string>, last: string, x: string, y: string)
    requires Precedes(s, x, y)
    ensures Precedes(s + [last], x, y)
  {
    var k :| 0 <= k < |s| && s[k] == x && y !in s[..k + 1];
    assert (s + [last])[..k + 1] == s[..k + 1];
    assert (s + [last])[k] == x;
  }

  lemma PrecedesNew(s: seq<string>, x: string, y: string)
    requires x in s && y !in s
    ensures Precedes(s + [y], x, y)
  {
    var k :| 0 <= k < |s| && s[k] == x;
    assert (s + [y])[..k + 1] == s[..k + 1];
    assert forall z :: z in s[..k + 1] ==> z in s;
    assert (s + [y])[k] == x;
  }

  /** Without repeats, the same values, each where it first occurred. */
  lemma {:induction false} DistinctMeaning(s: seq<string>)
    ensures NoRepeats(Distinct(s))
    ensures forall x :: x in Distinct(s) <==> x in s
    ensures forall i, j :: 0 <= i < j < |Distinct(s)| ==> Precedes(s, Distinct(s)[i], Distinct(s)[j])
  {
    if s != [] {
      var shorter, last := s[..|s| - 1], s[|s| - 1];
      var earlier := Distinct(shorter);
      DistinctMeaning(shorter);
      assert s == shorter + [last];
      forall i, j | 0 <= i < j < |Distinct(s)|
        ensures Precedes(s, Distinct(s)[i], Distinct(s)[j])
      {
        if j < |earlier| {
          PrecedesLonger(shorter, last, earlier[i], earlier[j]);
        } else {
          PrecedesNew(shorter, earlier[i], last);
        }
      }
    }
  }

  /** Media that are neither forms nor event streams. */
  predicate OtherMedia(media: string) {
    media != "multipart/form-data" && media != "text/event-stream"
  }

  lemma TransportListed(path: string, hasQuery: bool, media: seq<string>, transport: string)
    ensures transport in Distinct(TransportEvidence(path, hasQuery, media)) <==>
            transport in PathEvidence(path, hasQuery) || exists m :: m in media && TransportOf(m) == transport
  {
    DistinctMeaning(TransportEvidence(path, hasQuery, media));
    var kinds := MediaEvidence(media);
    if transport in kinds {
      var i :| 0 <= i < |kinds| && kinds[i] == transport;
      assert media[i] in media;
    }
    if m :| m in media && TransportOf(m) == transport {
      var i :| 0 <= i < |media| && media[i] == m;
      assert kinds[i] == transport;
    }
  }

  lemma PathEvidenceMeaning(path: string, hasQuery: bool)
    ensures "path" in PathEvidence(path, hasQuery) <==> exists i :: 0 <= i <= |path| && "{" <= path[i..]
    ensures "query" in PathEvidence(path, hasQuery) <==> hasQuery || exists i :: 0 <= i <= |path| && "?" <= path[i..]
    ensures forall x :: x in PathEvidence(path, hasQuery) ==> x in {"path", "query"}
  {
    ContainsMeaning(path, "{");
    ContainsMeaning(path, "?");
  }

  lemma TransportOfMeaning(media: string)
    ensures TransportOf(media) == "multipart" <==> media == "multipart/form-data"
    ensures TransportOf(media) == "sse" <==> media == "text/event-stream"
    ensures TransportOf(media) == "json" <==> OtherMedia(media) && Contains(media, "json")
    ensures TransportOf(media) == "binary" <==> OtherMedia(media) && !Contains(media, "json")
    ensures TransportOf(media) in {"multipart", "sse", "json", "binary"}
  {
  }

  lemma {:induction false} DistinctBegins(a: seq<string>, b: seq<string>)
    ensures Distinct(a) <= Distinct(a + b)
    decreases |b|
  {
    if b == [] {
      assert a + b == a;
    } else {
      var shorter := b[..|b| - 1];
      DistinctBegins(a, shorter);
      assert a + b == (a + shorter) + [b[|b| - 1]];
      DistinctNext(a + shorter, b[|b| - 1]);
    }
  }

  /** Path comes first, then query, then the media. */
  lemma TransportsOrder(path: string, hasQuery: bool, media: seq<string>)
    ensures var listed := Distinct(TransportEvidence(path, hasQuery, media));
            && ((exists i :: 0 <= i <= |path| && "{" <= path[i..]) ==> listed != [] && listed[0] == "path")
            && ((hasQuery || exists i :: 0 <= i <= |path| && "?" <= path[i..]) ==>
                  if exists i :: 0 <= i <= |path| && "{" <= path[i..] then |listed| > 1 && listed[1] == "query"
                  else listed != [] && listed[0] == "query")
  {
    ContainsMeaning(path, "{");
    ContainsMeaning(path, "?");
    DistinctPath(path, hasQuery);
    DistinctBegins(PathEvidence(path, hasQuery), MediaEvidence(media));
  }

  /** Transports of the path, in terms of the path. */
  lemma PathTransportsMeaning(path: string, hasQuery: bool, media: seq<string>)
    ensures var listed := Distinct(TransportEvidence(path, hasQuery, media));
            && ("path" in listed <==> exists i :: 0 <= i <= |path| && "{" <= path[i..])
            && ("query" in listed <==> hasQuery || exists i :: 0 <= i <= |path| && "?" <= path[i..])
  {
    PathEvidenceMeaning(path, hasQuery);
    TransportListed(path, hasQuery, media, "path");
    TransportListed(path, hasQuery, media, "query");
    forall m | m in media
      ensures TransportOf(m) in {"multipart", "sse", "json", "binary"}
    {
      TransportOfMeaning(m);
    }
  }

  /** Transports of the media, in terms of the media; there are no others. */
  lemma MediaTransportsMeaning(path: string, hasQuery: bool, media: seq<string>, transport: string)
    ensures transport in Distinct(TransportEvidence(path, hasQuery, media)) && transport !in {"path", "query"} <==>
            || (transport == "multipart" && "multipart/form-data" in media)
            || (transport == "sse" && "text/event-stream" in media)
            || (transport == "json" && exists m :: m in media && OtherMedia(m) && Contains(m, "json"))
            || (transport == "binary" && exists m :: m in media && OtherMedia(m) && !Contains(m, "json"))
  {
    PathEvidenceMeaning(path, hasQuery);
    TransportListed(path, hasQuery, media, transport);
    TransportOfMeaning("multipart/form-data");
    TransportOfMeaning("text/event-stream");
    forall m | m in media
      ensures TransportOf(m) == transport <==>
              || (transport == "multipart" && m == "multipart/form-data")
              || (transport == "sse" && m == "text/event-stream")
              || (transport == "json" && OtherMedia(m) && Contains(m, "json"))
              || (transport == "binary" && OtherMedia(m) && !Contains(m, "json"))
    {
      TransportOfMeaning(m);
    }
  }

  // ---- Numbers ----

  predicate Digits(s: string) {
    forall c :: c in s ==> '0' <= c <= '9'
  }

  lemma {:induction false} DigitsRead(s: string)
    ensures DigitsValue(s).Some? <==> Digits(s)
  {
    if s != "" {
      var earlier, last := s[..|s| - 1], s[|s| - 1];
      DigitsRead(earlier);
      assert s == earlier + [last];
      if Digits(s) {
        assert last in s && forall c :: c in earlier ==> c in s;
      }
    }
  }

  function DigitChar(d: nat): (c: char)
    requires d < 10
    ensures '0' <= c <= '9' && (c - '0') as int == d
  {
    '0' + d as char
  }

  function Decimal(n: nat): string {
    if n < 10 then [DigitChar(n)] else Decimal(n / 10) + [DigitChar(n % 10)]
  }

  lemma DigitsLonger(s: string, c: char)
    requires '0' <= c <= '9' && Digits(s)
    ensures Digits(s + [c])
  {
  }

  lemma DigitAppended(s: string, c: char)
    ensures DigitsValue(s + [c]) == WithDigit(DigitsValue(s), c)
  {
    var longer := s + [c];
    assert longer != "" && longer[|longer| - 1] == c && longer[..|longer| - 1] == s;
  }

  lemma {:induction false} DecimalRead(n: nat)
    ensures Decimal(n) != "" && Digits(Decimal(n)) && DigitsValue(Decimal(n)) == Some(n)
  {
    if n < 10 {
      DigitAppended("", DigitChar(n));
      assert "" + [DigitChar(n)] == [DigitChar(n)];
    } else {
      DecimalRead(n / 10);
      DigitsLonger(Decimal(n / 10), DigitChar(n % 10));
      DigitAppended(Decimal(n / 10), DigitChar(n % 10));
    }
  }

  /** A number is an optional sign and at least one digit. */
  lemma AtoiAccepts(s: string)
    ensures Atoi(s).Some? <==>
            (s != "" && Digits(s)) || (|s| > 1 && (s[0] == '-' || s[0] == '+') && Digits(s[1..]))
  {
    DigitsRead(s);
    if s != "" {
      DigitsRead(s[1..]);
      assert s[0] in s;
    }
  }

  lemma SignedRead(s: string)
    requires s != "" && Digits(s)
    ensures Atoi(s) == DigitsValue(s) && Atoi("+" + s) == DigitsValue(s)
    ensures forall k: int :: DigitsValue(s).Some? && k + DigitsValue(s).value == 0 ==> Atoi("-" + s) == Some(k)
  {
    DigitsRead(s);
    assert s[0] in s;
    assert ("+" + s)[1..] == s && ("-" + s)[1..] == s;
  }

  /** Every number is read as itself. */
  lemma AtoiReads(n: nat)
    ensures Atoi(Decimal(n)) == Some(n) && Atoi("+" + Decimal(n)) == Some(n)
    ensures forall k: int :: k + n == 0 ==> Atoi("-" + Decimal(n)) == Some(k)
  {
    DecimalRead(n);
    SignedRead(Decimal(n));
  }

  // ---- One operation ----

  function LowerChar(c: char): char {
    if 'A' <= c <= 'Z' then c + ' ' else c
  }

  function UpperChar(c: char): char {
    if 'a' <= c <= 'z' then c - ' ' else c
  }

  function ToLower(s: string): string {
    seq(|s|, i requires 0 <= i < |s| => LowerChar(s[i]))
  }

  function ToUpper(s: string): string {
    seq(|s|, i requires 0 <= i < |s| => UpperChar(s[i]))
  }

  /** The small letter itself or its capital. */
  predicate SameLetter(c: char, small: char) {
    c == small || c as int + 32 == small as int
  }

  lemma LetterCases(c: char, small: char)
    requires 'a' <= small <= 'z'
    ensures LowerChar(c) == small <==> SameLetter(c, small)
    ensures SameLetter(c, small) ==> UpperChar(c) as int + 32 == small as int
  {
  }

  /** In which spellings a word of small letters is matched, and that they all become its capitals. */
  lemma CaseMeaning(s: string, word: string)
    requires forall i :: 0 <= i < |word| ==> 'a' <= word[i] <= 'z'
    ensures ToLower(s) == word <==> |s| == |word| && forall i :: 0 <= i < |s| ==> SameLetter(s[i], word[i])
    ensures ToLower(s) == word ==> |ToUpper(s)| == |s| && forall i :: 0 <= i < |s| ==> ToUpper(s)[i] as int + 32 == word[i] as int
  {
    if |s| == |word| {
      forall i | 0 <= i < |s|
        ensures ToLower(s)[i] == word[i] <==> SameLetter(s[i], word[i])
        ensures SameLetter(s[i], word[i]) ==> ToUpper(s)[i] as int + 32 == word[i] as int
      {
        LetterCases(s[i], word[i]);
      }
    }
  }

  const METHODS := {"get", "post", "put", "patch", "delete"}

  /** A path and one of the method keys under it. */
  type Entry = (string, string)

  /** The entries of the document that describe operations. */
  function Entries(doc: Document): set<Entry> {
    set path, verb | path in doc && verb in doc[path] && ToLower(verb) in METHODS :: (path, verb)
  }

  predicate Acceptable(tables: Tables, path: string, op: SpecOperation) {
    op.operationId != "" && tables.capability(path, op.tags).Some?
  }

  predicate HasQuery(op: SpecOperation) {
    "query" in op.places
  }

  /** Every field the generator derives for one entry. */
  ghost predicate Describes(tables: Tables, doc: Document, entry: Entry, item: Generated) {
    && entry in Entries(doc)
    && var op := doc[entry.0][entry.1];
    && tables.capability(entry.0, op.tags) == Some(item.capability)
    && item.httpMethod == ToUpper(entry.1) && item.path == entry.0 && item.id == op.operationId
    && item.requestMedia == (if op.requestMedia.Some? then Arranged(op.requestMedia.value) else [])
    && item.responseMedia == Arranged(AllMedia(op.responses))
    && IsSuccessStatus(op.responses.Keys, item.successStatus)
    && item.sdkCall == (if op.operationId in tables.rawOnly then "raw_sdk_exception" else "resource_helper")
    && item.localCase == "http." + item.capability + "." + item.id
    && item.transports == Distinct(TransportEvidence(entry.0, HasQuery(op), item.requestMedia + item.responseMedia))
    && item.schemaCases == ["minimal_valid_request", "valid_success_response"]
    && (item.liveProfile, item.liveReason) == tables.live(op.operationId)
    && item.hasQuery == HasQuery(op)
  }

  lemma DescribesOne(tables: Tables, doc: Document, entry: Entry, a: Generated, b: Generated)
    requires Describes(tables, doc, entry, a) && Describes(tables, doc, entry, b)
    ensures a == b
  {
  }

  method DescribeOperation(tables: Tables, doc: Document, path: string, verb: string) returns (item: Generated)
    requires (path, verb) in Entries(doc) && Acceptable(tables, path, doc[path][verb])
    ensures Describes(tables, doc, (path, verb), item)
  {
    var op := doc[path][verb];
    var capability := tables.capability(path, op.tags).value;
    var status := SuccessStatus(op.responses);
    var hasQuery := false;
    for i := 0 to |op.places|
      invariant hasQuery <==> "query" in op.places[..i]
    {
      if op.places[i] == "query" {
        hasQuery := true;
        assert op.places[i] in op.places;
        break;
      }
    }
    assert hasQuery == HasQuery(op);
    var requestMedia: seq<string> := [];
    if op.requestMedia.Some? {
      requestMedia := SortedKeys(op.requestMedia.value);
    }
    var responseMedia := ResponseMedia(op.responses);
    var transports := OperationTransports(path, hasQuery, requestMedia + responseMedia);
    var (profile, reason) := tables.live(op.operationId);
    item := Generated(ToUpper(verb), path, op.operationId, capability, requestMedia, responseMedia, status,
      if op.operationId in tables.rawOnly then "raw_sdk_exception" else "resource_helper",
      "http." + capability + "." + op.operationId, transports,
      ["minimal_valid_request", "valid_success_response"], profile, reason, hasQuery);
  }

  // ---- All operations ----

  predicate OperationLeq(a: Generated, b: Generated) {
    if a.path == b.path then StringLeq(a.httpMethod, b.httpMethod) else StringLeq(a.path, b.path)
  }

  lemma OperationOrder()
    ensures TotalPreorder(OperationLeq)
  {
    StringOrder();
    forall x: Generated, y, z | OperationLeq(x, y) && OperationLeq(y, z)
      ensures OperationLeq(x, z)
    {
      if x.path == z.path && x.path != y.path {
        StringTotal(x.path, y.path);
        assert false;
      }
    }
  }

  /** `r` is a sorted arrangement of one description per entry. */
  ghost predicate IsListing(tables: Tables, doc: Document, r: seq<Generated>) {
    && SortedBy(OperationLeq, r)
    && exists keys: seq<Entry>, items: seq<Generated> ::
         Lists(tables, doc, keys, items) && multiset(keys) == multiset(Entries(doc)) && multiset(items) == multiset(r)
  }

  ghost predicate Lists(tables: Tables, doc: Document, keys: seq<Entry>, items: seq<Generated>) {
    |keys| == |items| && forall i :: 0 <= i < |keys| ==> Describes(tables, doc, keys[i], items[i])
  }

  /** No two method keys of one path differ only in case. */
  predicate MethodsDistinct(doc: Document) {
    forall path, a, b :: path in doc && a in doc[path] && b in doc[path] && ToLower(a) in METHODS && ToUpper(a) == ToUpper(b) ==> a == b
  }

  function PathEntries(doc: Document, path: string): set<Entry> {
    set e | e in Entries(doc) && e.0 == path
  }

  ghost predicate AllAcceptable(tables: Tables, doc: Document, entries: set<Entry>) {
    forall e :: e in entries ==> e in Entries(doc) && Acceptable(tables, e.0, doc[e.0][e.1])
  }

  /** The descriptions collected so far, for the entries in `done`. */
  ghost predicate Collected(tables: Tables, doc: Document, keys: seq<Entry>, items: seq<Generated>, done: set<Entry>) {
    Lists(tables, doc, keys, items) && multiset(keys) == multiset(done) && AllAcceptable(tables, doc, done)
  }

  lemma ListsBoth(tables: Tables, doc: Document, keys: seq<Entry>, items: seq<Generated>, keys': seq<Entry>, items': seq<Generated>)
    requires Lists(tables, doc, keys, items) && Lists(tables, doc, keys', items')
    ensures Lists(tables, doc, keys + keys', items + items')
  {
    var n := |keys|;
    forall i | 0 <= i < |keys + keys'|
      ensures Describes(tables, doc, (keys + keys')[i], (items + items')[i])
    {
      if i < n {
        assert Describes(tables, doc, keys[i], items[i]);
      } else {
        assert Describes(tables, doc, keys'[i - n], items'[i - n]);
      }
    }
  }

  lemma AcceptableBoth(tables: Tables, doc: Document, done: set<Entry>, done': set<Entry>)
    requires AllAcceptable(tables, doc, done) && AllAcceptable(tables, doc, done')
    ensures AllAcceptable(tables, doc, done + done')
  {
  }

  lemma CollectedBoth(tables: Tables, doc: Document, keys: seq<Entry>, items: seq<Generated>, done: set<Entry>,
                      keys': seq<Entry>, items': seq<Generated>, done': set<Entry>)
    requires Collected(tables, doc, keys, items, done) && Collected(tables, doc, keys', items', done') && done !! done'
    ensures Collected(tables, doc, keys + keys', items + items', done + done')
  {
    ListsBoth(tables, doc, keys, items, keys', items');
    AcceptableBoth(tables, doc, done, done');
    assert multiset(done + done') == multiset(done) + multiset(done');
  }

  /** The entries of a path whose method keys have been visited. */
  ghost predicate Visited(doc: Document, path: string, verbs: set<string>, done: set<Entry>) {
    forall e :: e in done <==> e in PathEntries(doc, path) && e.1 !in verbs
  }

  lemma VisitNext(doc: Document, path: string, verbs: set<string>, done: set<Entry>, verb: string)
    requires path in doc && verb in verbs && verbs <= doc[path].Keys && Visited(doc, path, verbs, done)
    ensures (path, verb) !in done
    ensures Visited(doc, path, verbs - {verb}, if ToLower(verb) in METHODS then done + {(path, verb)} else done)
  {
  }

  method CollectPath(tables: Tables, doc: Document, path: string) returns (r: Option<seq<Generated>>, ghost keys: seq<Entry>)
    requires path in doc
    ensures r.None? ==> !AllAcceptable(tables, doc, PathEntries(doc, path))
    ensures r.Some? ==> Collected(tables, doc, keys, r.value, PathEntries(doc, path))
  {
    keys := [];
    var items: seq<Generated> := [];
    var verbs := doc[path].Keys;
    ghost var done: set<Entry> := {};
    while verbs != {}
      invariant verbs <= doc[path].Keys
      invariant Collected(tables, doc, keys, items, done)
      invariant Visited(doc, path, verbs, done)
    {
      var verb :| verb in verbs;
      VisitNext(doc, path, verbs, done, verb);
      verbs := verbs - {verb};
      if ToLower(verb) in METHODS {
        var item := CollectEntry(tables, doc, path, verb);
        if item.None? {
          return None, keys;
        }
        CollectedBoth(tables, doc, keys, items, done, [(path, verb)], [item.value], {(path, verb)});
        keys, items, done := keys + [(path, verb)], items + [item.value], done + {(path, verb)};
      }
    }
    assert done == PathEntries(doc, path);
    r := Some(items);
  }

  method CollectEntry(tables: Tables, doc: Document, path: string, verb: string) returns (item: Option<Generated>)
    requires path in doc && verb in doc[path] && ToLower(verb) in METHODS
    ensures item.None? ==> !AllAcceptable(tables, doc, PathEntries(doc, path))
    ensures item.Some? ==> Collected(tables, doc, [(path, verb)], [item.value], {(path, verb)})
  {
    assert (path, verb) in PathEntries(doc, path);
    if doc[path][verb].operationId == "" || tables.capability(path, doc[path][verb].tags).None? {
      Unacceptable(tables, doc, path, verb);
      return None;
    }
    var described := DescribeOperation(tables, doc, path, verb);
    AcceptableOne(tables, doc, (path, verb));
    ListsOne(tables, doc, (path, verb), described);
    CollectedOne(tables, doc, (path, verb), described);
    item := Some(described);
  }

  lemma Unacceptable(tables: Tables, doc: Document, path: string, verb: string)
    requires (path, verb) in Entries(doc) && !Acceptable(tables, path, doc[path][verb])
    ensures !AllAcceptable(tables, doc, PathEntries(doc, path))
  {
    assert (path, verb) in PathEntries(doc, path);
  }

  lemma AcceptableOne(tables: Tables, doc: Document, entry: Entry)
    requires entry in Entries(doc) && Acceptable(tables, entry.0, doc[entry.0][entry.1])
    ensures AllAcceptable(tables, doc, {entry})
  {
  }

  lemma ListsOne(tables: Tables, doc: Document, entry: Entry, item: Generated)
    requires Describes(tables, doc, entry, item)
    ensures Lists(tables, doc, [entry], [item])
  {
  }

  lemma CollectedOne(tables: Tables, doc: Document, entry: Entry, item: Generated)
    requires Lists(tables, doc, [entry], [item]) && AllAcceptable(tables, doc, {entry})
    ensures Collected(tables, doc, [entry], [item], {entry})
  {
    assert multiset([entry]) == multiset({entry});
  }

  method CollectOperations(tables: Tables, doc: Document) returns (r: Option<seq<Generated>>)
    ensures r.Some? <==> AllAcceptable(tables, doc, Entries(doc))
    ensures r.Some? ==> IsListing(tables, doc, r.value)
  {
    ghost var keys: seq<Entry> := [];
    var items: seq<Generated> := [];
    var paths := doc.Keys;
    ghost var done: set<Entry> := {};
    while paths != {}
      invariant paths <= doc.Keys
      invariant Collected(tables, doc, keys, items, done)
      invariant forall e :: e in done <==> e in Entries(doc) && e.0 !in paths
    {
      var path :| path in paths;
      var onPath, pathKeys := CollectPath(tables, doc, path);
      if onPath.None? {
        return None;
      }
      CollectedBoth(tables, doc, keys, items, done, pathKeys, onPath.value, PathEntries(doc, path));
      keys, items, done := keys + pathKeys, items + onPath.value, done + PathEntries(doc, path);
      paths := paths - {path};
    }
    assert done == Entries(doc);
    OperationOrder();
    var sorted := Sort(OperationLeq, items);
    r := Some(sorted);
  }

  // ---- The listing does not depend on iteration order ----

  const NOTHING := Generated("", "", "", "", [], [], 0, "", "", [], [], "", "", false)

  /** The description of an entry, if it has one. */
  ghost function DescriptionOf(tables: Tables, doc: Document, entry: Entry): Generated {
    if exists item :: Describes(tables, doc, entry, item) then
      var item :| Describes(tables, doc, entry, item); item
    else NOTHING
  }

  lemma DescriptionIs(tables: Tables, doc: Document, entry: Entry, item: Generated)
    requires Describes(tables, doc, entry, item)
    ensures DescriptionOf(tables, doc, entry) == item
  {
    DescribesOne(tables, doc, entry, item, DescriptionOf(tables, doc, entry));
  }

  lemma ItemsAreSum(tables: Tables, doc: Document, keys: seq<Entry>, items: seq<Generated>)
    requires Lists(tables, doc, keys, items)
    ensures multiset(items) == SumOver(e => multiset{DescriptionOf(tables, doc, e)}, keys)
  {
    forall i | 0 <= i < |keys|
      ensures DescriptionOf(tables, doc, keys[i]) == items[i]
    {
      DescriptionIs(tables, doc, keys[i], items[i]);
    }
    SumOfSingles(e => multiset{DescriptionOf(tables, doc, e)}, keys, items);
  }

  lemma ItemSource(tables: Tables, doc: Document, keys: seq<Entry>, items: seq<Generated>, r: seq<Generated>, x: Generated)
    requires Lists(tables, doc, keys, items) && multiset(items) == multiset(r) && x in r
    ensures exists e :: Describes(tables, doc, e, x)
  {
    assert x in multiset(r);
    var i :| 0 <= i < |items| && items[i] == x;
    assert Describes(tables, doc, keys[i], x);
  }

  /** Entries the order cannot tell apart have the same description. */
  ghost predicate NoTiedEntries(tables: Tables, doc: Document) {
    forall e, e', x, y :: Describes(tables, doc, e, x) && Describes(tables, doc, e', y) && SamePlace(x, y) ==> x == y
  }

  predicate SamePlace(x: Generated, y: Generated) {
    x.path == y.path && x.httpMethod == y.httpMethod
  }

  lemma TiedPlaces(x: Generated, y: Generated)
    ensures OperationLeq(x, y) && OperationLeq(y, x) <==> SamePlace(x, y)
  {
    StringTotal(x.path, y.path);
    StringTotal(x.httpMethod, y.httpMethod);
  }

  lemma ListingHasNoTies(tables: Tables, doc: Document, r: seq<Generated>)
    requires IsListing(tables, doc, r) && NoTiedEntries(tables, doc)
    ensures NoTies(OperationLeq, r)
  {
    var keys, items :| Lists(tables, doc, keys, items) && multiset(keys) == multiset(Entries(doc)) && multiset(items) == multiset(r);
    forall x, y | x in r && y in r && OperationLeq(x, y) && OperationLeq(y, x)
      ensures x == y
    {
      TiedPlaces(x, y);
      ItemSource(tables, doc, keys, items, r, x);
      ItemSource(tables, doc, keys, items, r, y);
    }
  }

  lemma UntiedListings(tables: Tables, doc: Document, a: seq<Generated>, b: seq<Generated>)
    requires IsListing(tables, doc, a) && IsListing(tables, doc, b) && NoTiedEntries(tables, doc)
    ensures a == b
  {
    var keys, items :| Lists(tables, doc, keys, items) && multiset(keys) == multiset(Entries(doc)) && multiset(items) == multiset(a);
    var keys', items' :| Lists(tables, doc, keys', items') && multiset(keys') == multiset(Entries(doc)) && multiset(items') == multiset(b);
    ItemsAreSum(tables, doc, keys, items);
    ItemsAreSum(tables, doc, keys', items');
    SumIgnoresOrder(e => multiset{DescriptionOf(tables, doc, e)}, keys, keys');
    ListingHasNoTies(tables, doc, a);
    OperationOrder();
    SortedIsUnique(OperationLeq, a, b);
  }

  /** Every description of an entry is in every listing. */
  lemma DescriptionListed(tables: Tables, doc: Document, r: seq<Generated>, e: Entry, x: Generated)
    requires IsListing(tables, doc, r) && Describes(tables, doc, e, x)
    ensures x in r
  {
    var keys, items :| Lists(tables, doc, keys, items) && multiset(keys) == multiset(Entries(doc)) && multiset(items) == multiset(r);
    assert e in multiset(keys);
    var i :| 0 <= i < |keys| && keys[i] == e;
    DescribesOne(tables, doc, e, x, items[i]);
    assert items[i] in multiset(r);
  }

  function Swapped(r: seq<Generated>, i: nat, j: nat): seq<Generated>
    requires i < |r| && j < |r|
  {
    r[i := r[j]][j := r[i]]
  }

  lemma SwappedElements(r: seq<Generated>, i: nat, j: nat)
    requires i < j < |r|
    ensures multiset(Swapped(r, i, j)) == multiset(r)
  {
  }

  /** Exchanging two elements in the same place leaves a listing a listing. */
  lemma SwappedListing(tables: Tables, doc: Document, r: seq<Generated>, i: nat, j: nat)
    requires IsListing(tables, doc, r) && i < j < |r| && SamePlace(r[i], r[j])
    ensures IsListing(tables, doc, Swapped(r, i, j))
  {
    SwappedElements(r, i, j);
    var s := Swapped(r, i, j);
    forall p, q | 0 <= p < q < |s|
      ensures OperationLeq(s[p], s[q])
    {
      assert SamePlace(s[p], r[p]) && SamePlace(s[q], r[q]) && OperationLeq(r[p], r[q]);
    }
  }

  lemma SwapDiffers(r: seq<Generated>, i: nat, j: nat)
    requires i < j < |r| && r[i] != r[j]
    ensures Swapped(r, i, j) != r
  {
    assert Swapped(r, i, j)[i] == r[j];
  }

  lemma TwoPlaces(r: seq<Generated>, x: Generated, y: Generated) returns (i: nat, j: nat)
    requires x in r && y in r && x != y && SamePlace(x, y)
    ensures i < j < |r| && SamePlace(r[i], r[j]) && r[i] != r[j]
  {
    i :| 0 <= i < |r| && r[i] == x;
    j :| 0 <= j < |r| && r[j] == y;
    if j < i {
      i, j := j, i;
    }
  }

  lemma TwoListings(tables: Tables, doc: Document, r: seq<Generated>, x: Generated, y: Generated) returns (other: seq<Generated>)
    requires IsListing(tables, doc, r) && x in r && y in r && SamePlace(x, y) && x != y
    ensures IsListing(tables, doc, other) && other != r
  {
    var i, j := TwoPlaces(r, x, y);
    SwappedListing(tables, doc, r, i, j);
    SwapDiffers(r, i, j);
    other := Swapped(r, i, j);
  }

  lemma TiedListings(tables: Tables, doc: Document, r: seq<Generated>) returns (other: seq<Generated>)
    requires IsListing(tables, doc, r) && !NoTiedEntries(tables, doc)
    ensures IsListing(tables, doc, other) && other != r
  {
    var e, e', x, y :| Describes(tables, doc, e, x) && Describes(tables, doc, e', y) && SamePlace(x, y) && x != y;
    DescriptionListed(tables, doc, r, e, x);
    DescriptionListed(tables, doc, r, e', y);
    other := TwoListings(tables, doc, r, x, y);
  }

  ghost predicate OnlyListing(tables: Tables, doc: Document, r: seq<Generated>) {
    forall other :: IsListing(tables, doc, other) ==> other == r
  }

  /**
   Generation is deterministic exactly when the order tells all descriptions apart:
   given one listing of a document, every walk of the maps and every sort produces it,
   if and only if entries in the same place have the same description.
   */
  lemma ListingUniqueExactly(tables: Tables, doc: Document, r: seq<Generated>)
    requires IsListing(tables, doc, r)
    ensures OnlyListing(tables, doc, r) <==> NoTiedEntries(tables, doc)
  {
    if NoTiedEntries(tables, doc) {
      forall other | IsListing(tables, doc, other)
        ensures other == r
      {
        UntiedListings(tables, doc, r, other);
      }
    } else {
      var other := TiedListings(tables, doc, r);
    }
  }

  /** In particular it is deterministic if no path has two methods differing in case only. */
  lemma ListingIsUnique(tables: Tables, doc: Document, a: seq<Generated>, b: seq<Generated>)
    requires IsListing(tables, doc, a) && IsListing(tables, doc, b) && MethodsDistinct(doc)
    ensures a == b
  {
    forall e, e', x, y | Describes(tables, doc, e, x) && Describes(tables, doc, e', y) && SamePlace(x, y)
      ensures x == y
    {
      assert e.1 in doc[e.0] && e'.1 in doc[e'.0];
      assert e == e';
      DescribesOne(tables, doc, e, x, y);
    }
    UntiedListings(tables, doc, a, b);
  }

  /** Listed by path, and by method under one path, each in byte order. */
  lemma ListingOrder(tables: Tables, doc: Document, r: seq<Generated>, i: nat, j: nat)
    requires IsListing(tables, doc, r) && i < j < |r|
    ensures if r[i].path == r[j].path then StringLeq(r[i].httpMethod, r[j].httpMethod) else StringLeq(r[i].path, r[j].path)
  {
    assert OperationLeq(r[i], r[j]);
  }

  // ---- Events ----

  type EventEntry = OperationTable.EventEntry

  predicate EventLeq(a: EventEntry, b: EventEntry) {
    if a.surface != b.surface then StringLeq(a.surface, b.surface)
    else if a.direction != b.direction then StringLeq(a.direction, b.direction)
    else StringLeq(a.kind, b.kind)
  }

  lemma EventOrder()
    ensures TotalPreorder(EventLeq)
    ensures forall x, y :: EventLeq(x, y) && EventLeq(y, x) ==> x == y
  {
    StringOrder();
    forall x: EventEntry, y, z | EventLeq(x, y) && EventLeq(y, z)
      ensures EventLeq(x, z)
    {
      StringTotal(x.surface, y.surface);
      StringTotal(x.direction, y.direction);
    }
  }

  function EventsIn(direction: string, kinds: seq<string>, surface: string): seq<EventEntry> {
    seq(|kinds|, i requires 0 <= i < |kinds| => OperationTable.EventEntry(surface, direction, kinds[i]))
  }

  function SurfaceEvents(inventory: Inventory, surface: string): seq<EventEntry> {
    if surface in inventory then
      EventsIn("client", inventory[surface].client, surface) + EventsIn("server", inventory[surface].server, surface)
    else []
  }

  /** The events of the surfaces in `done`, which were visited in the order `surfaces`. */
  ghost predicate EventsOver(inventory: Inventory, done: set<string>, surfaces: seq<string>, events: seq<EventEntry>) {
    && multiset(surfaces) == multiset(done)
    && multiset(events) == SumOver(surface => multiset(SurfaceEvents(inventory, surface)), surfaces)
  }

  ghost predicate IsEventListing(inventory: Inventory, r: seq<EventEntry>) {
    && SortedBy(EventLeq, r)
    && exists surfaces :: EventsOver(inventory, inventory.Keys, surfaces, r)
  }

  lemma AddSurface(inventory: Inventory, done: set<string>, surfaces: seq<string>, events: seq<EventEntry>, surface: string)
    requires EventsOver(inventory, done, surfaces, events) && surface !in done
    ensures EventsOver(inventory, done + {surface}, surfaces + [surface], events + SurfaceEvents(inventory, surface))
  {
    var f := (name: string) => multiset(SurfaceEvents(inventory, name));
    SumConcat(f, surfaces, [surface]);
    assert [surface][1..] == [];
    assert SumOver(f, [surface]) == f(surface);
  }

  /** The events of one more surface, appended as the loops append them. */
  lemma AddListed(inventory: Inventory, done: set<string>, surfaces: seq<string>, events: seq<EventEntry>, surface: string)
    requires EventsOver(inventory, done, surfaces, events) && surface !in done && surface in inventory
    ensures EventsOver(inventory, done + {surface}, surfaces + [surface],
              events + EventsIn("client", inventory[surface].client, surface) + EventsIn("server", inventory[surface].server, surface))
  {
    AddSurface(inventory, done, surfaces, events, surface);
    var client, server := EventsIn("client", inventory[surface].client, surface), EventsIn("server", inventory[surface].server, surface);
    Associative(events, client, server);
  }

  method CollectEvents(inventory: Inventory) returns (r: seq<EventEntry>)
    ensures IsEventListing(inventory, r)
  {
    var result: seq<EventEntry> := [];
    ghost var surfaces: seq<string> := [];
    ghost var done: set<string> := {};
    var pending := inventory.Keys;
    while pending != {}
      invariant pending <= inventory.Keys && done == inventory.Keys - pending
      invariant EventsOver(inventory, done, surfaces, result)
    {
      var surface :| surface in pending;
      AddListed(inventory, done, surfaces, result, surface);
      var client := EventsIn("client", inventory[surface].client, surface);
      var server := EventsIn("server", inventory[surface].server, surface);
      result := result + client + server;
      surfaces, done := surfaces + [surface], done + {surface};
      pending := pending - {surface};
    }
    assert done == inventory.Keys;
    EventOrder();
    r := Sort(EventLeq, result);
    assert EventsOver(inventory, inventory.Keys, surfaces, r);
  }

  /** Listed by surface, then direction, then type, each in byte order. */
  lemma EventListingOrder(inventory: Inventory, r: seq<EventEntry>, i: nat, j: nat)
    requires IsEventListing(inventory, r) && i < j < |r|
    ensures StringLeq(r[i].surface, r[j].surface)
    ensures r[i].surface == r[j].surface ==> StringLeq(r[i].direction, r[j].direction)
    ensures r[i].surface == r[j].surface && r[i].direction == r[j].direction ==> StringLeq(r[i].kind, r[j].kind)
  {
    assert EventLeq(r[i], r[j]);
    StringTotal(r[i].surface, r[j].surface);
    StringTotal(r[i].direction, r[j].direction);
  }

  /** The event listing is the same sequence for every order of the surfaces, repeats included. */
  lemma EventListingIsUnique(inventory: Inventory, a: seq<EventEntry>, b: seq<EventEntry>)
    requires IsEventListing(inventory, a) && IsEventListing(inventory, b)
    ensures a == b
  {
    var surfaces :| EventsOver(inventory, inventory.Keys, surfaces, a);
    var surfaces' :| EventsOver(inventory, inventory.Keys, surfaces', b);
    SumIgnoresOrder((surface: string) => multiset(SurfaceEvents(inventory, surface)), surfaces, surfaces');
    EventOrder();
    SortedIsUnique(EventLeq, a, b);
  }

  // ---- Evidence checks, and what they buy at run time ----

  predicate CompleteEvidence(op: Generated) {
    && op.localCase != ""
    && op.sdkCall in {"resource_helper", "raw_sdk_exception"}
    && op.transports != [] && op.schemaCases != []
    && op.liveProfile in {"safe", "paid", "mutation", "unavailable"}
  }

  ghost predicate UniqueEvidence(operations: seq<Generated>) {
    forall i, j :: 0 <= i < j < |operations| ==>
      operations[i].id != operations[j].id && operations[i].localCase != operations[j].localCase
  }

  /** Every exception the generator knows of is one of the operations. */
  ghost predicate ExceptionsSeen(rawOnly: set<string>, operations: seq<Generated>) {
    forall id :: id in rawOnly ==>
      exists i :: 0 <= i < |operations| && operations[i].id == id && operations[i].sdkCall == "raw_sdk_exception"
  }

  function EvidenceKey(e: EventEntry): string {
    e.surface + "/" + e.direction + "/" + e.kind
  }

  predicate SlashFree(s: string) {
    '/' !in s
  }

  /** The joined key tells events apart whatever their type holds, if surfaces and directions hold no slash. */
  lemma EvidenceKeysApart(a: EventEntry, b: EventEntry)
    requires SlashFree(a.surface) && SlashFree(b.surface) && SlashFree(a.direction) && SlashFree(b.direction)
    ensures EvidenceKey(a) == EvidenceKey(b) <==> a == b
  {
    if EvidenceKey(a) == EvidenceKey(b) {
      assert EvidenceKey(a) == a.surface + "/" + (a.direction + "/" + a.kind);
      assert EvidenceKey(b) == b.surface + "/" + (b.direction + "/" + b.kind);
      SplitAtSlash(a.surface, b.surface, a.direction + "/" + a.kind, b.direction + "/" + b.kind);
      SplitAtSlash(a.direction, b.direction, a.kind, b.kind);
    }
  }

  lemma SplitAtSlash(a: string, b: string, c: string, d: string)
    requires SlashFree(a) && SlashFree(b) && a + "/" + c == b + "/" + d
    ensures a == b && c == d
  {
    var left, right := a + "/" + c, b + "/" + d;
    assert left[|a|] == '/' && right[|b|] == '/';
    assert forall i :: 0 <= i < |a| ==> left[i] == a[i] && a[i] in a;
    assert forall i :: 0 <= i < |b| ==> right[i] == b[i] && b[i] in b;
    assert left[..|a|] == a && right[..|b|] == b;
    assert left[|a| + 1..] == c && right[|b| + 1..] == d;
  }

  lemma ListedSlashFree(inventory: Inventory, events: seq<EventEntry>)
    requires IsEventListing(inventory, events) && forall name :: name in inventory ==> SlashFree(name)
    ensures forall i :: 0 <= i < |events| ==> SlashFree(events[i].surface) && SlashFree(events[i].direction)
  {
    forall i | 0 <= i < |events|
      ensures SlashFree(events[i].surface) && SlashFree(events[i].direction)
    {
      ListedParts(inventory, events, events[i]);
    }
  }

  lemma ListedParts(inventory: Inventory, events: seq<EventEntry>, e: EventEntry)
    requires IsEventListing(inventory, events) && e in events
    ensures e.surface in inventory && e.direction in {"client", "server"}
  {
    ListedEvents(inventory, events, e);
  }

  /** On an inventory without slashes in its surfaces, the check refuses exactly repeated events. */
  lemma UniqueEventsMeaning(inventory: Inventory, events: seq<EventEntry>)
    requires IsEventListing(inventory, events) && forall name :: name in inventory ==> SlashFree(name)
    ensures UniqueEvents(events) <==> forall i, j :: 0 <= i < j < |events| ==> events[i] != events[j]
  {
    ListedSlashFree(inventory, events);
    forall i, j | 0 <= i < j < |events|
      ensures EvidenceKey(events[i]) == EvidenceKey(events[j]) <==> events[i] == events[j]
    {
      EvidenceKeysApart(events[i], events[j]);
    }
  }

  ghost predicate UniqueEvents(events: seq<EventEntry>) {
    forall i, j :: 0 <= i < j < |events| ==> EvidenceKey(events[i]) != EvidenceKey(events[j])
  }

  /** What the checks have seen of the first `i` operations. */
  function IdsBefore(operations: seq<Generated>, i: nat): set<string>
    requires i <= |operations|
  {
    set j | 0 <= j < i :: operations[j].id
  }

  function CasesBefore(operations: seq<Generated>, i: nat): set<string>
    requires i <= |operations|
  {
    set j | 0 <= j < i :: operations[j].localCase
  }

  function RawBefore(operations: seq<Generated>, i: nat): set<string>
    requires i <= |operations|
  {
    set j | 0 <= j < i && operations[j].sdkCall == "raw_sdk_exception" :: operations[j].id
  }

  ghost predicate GoodBefore(operations: seq<Generated>, i: nat)
    requires i <= |operations|
  {
    && (forall j :: 0 <= j < i ==> CompleteEvidence(operations[j]))
    && forall j, k :: 0 <= j < k < i ==>
         operations[j].id != operations[k].id && operations[j].localCase != operations[k].localCase
  }

  lemma SeenNext(operations: seq<Generated>, i: nat)
    requires i < |operations|
    ensures IdsBefore(operations, i + 1) == IdsBefore(operations, i) + {operations[i].id}
    ensures CasesBefore(operations, i + 1) == CasesBefore(operations, i) + {operations[i].localCase}
    ensures RawBefore(operations, i + 1) ==
            RawBefore(operations, i) + (if operations[i].sdkCall == "raw_sdk_exception" then {operations[i].id} else {})
  {
  }

  lemma GoodNext(operations: seq<Generated>, i: nat)
    requires i < |operations| && GoodBefore(operations, i)
    ensures GoodBefore(operations, i + 1) <==>
            && CompleteEvidence(operations[i])
            && operations[i].id !in IdsBefore(operations, i) && operations[i].localCase !in CasesBefore(operations, i)
  {
  }

  lemma GoodPrefix(operations: seq<Generated>, i: nat)
    requires i <= |operations| && GoodBefore(operations, |operations|)
    ensures GoodBefore(operations, i)
  {
  }

  /** The checks on operations, which also note the exceptions they meet. */
  method ValidateOperations(operations: seq<Generated>) returns (valid: bool, rawSeen: set<string>)
    ensures valid <==> GoodBefore(operations, |operations|)
    ensures valid ==> rawSeen == RawBefore(operations, |operations|)
  {
    var ids: set<string>, cases: set<string> := {}, {};
    rawSeen := {};
    valid := false;
    for i := 0 to |operations|
      invariant ids == IdsBefore(operations, i) && cases == CasesBefore(operations, i)
      invariant rawSeen == RawBefore(operations, i)
      invariant GoodBefore(operations, i) && !valid
    {
      var op := operations[i];
      SeenNext(operations, i);
      GoodNext(operations, i);
      if GoodBefore(operations, |operations|) {
        GoodPrefix(operations, i + 1);
      }
      if op.id in ids {
        return;
      }
      ids := ids + {op.id};
      if op.localCase == "" || op.localCase in cases {
        return;
      }
      cases := cases + {op.localCase};
      if op.sdkCall != "resource_helper" && op.sdkCall != "raw_sdk_exception" {
        return;
      }
      if op.sdkCall == "raw_sdk_exception" {
        rawSeen := rawSeen + {op.id};
      }
      if |op.transports| == 0 || |op.schemaCases| == 0 || op.liveProfile !in {"safe", "paid", "mutation", "unavailable"} {
        return;
      }
    }
    valid := true;
  }

  method ValidateEvidence(rawOnly: set<string>, operations: seq<Generated>, events: seq<EventEntry>) returns (valid: bool)
    ensures valid <==>
            && (forall i :: 0 <= i < |operations| ==> CompleteEvidence(operations[i]))
            && UniqueEvidence(operations) && ExceptionsSeen(rawOnly, operations) && UniqueEvents(events)
  {
    var complete, rawSeen := ValidateOperations(operations);
    if !complete {
      return false;
    }
    ExceptionsAreSeen(rawOnly, operations);
    if exists id :: id in rawOnly && id !in rawSeen {
      return false;
    }
    valid := UniqueKeys(events);
  }

  lemma ExceptionsAreSeen(rawOnly: set<string>, operations: seq<Generated>)
    ensures ExceptionsSeen(rawOnly, operations) <==> rawOnly <= RawBefore(operations, |operations|)
  {
  }

  method UniqueKeys(events: seq<EventEntry>) returns (unique: bool)
    ensures unique <==> UniqueEvents(events)
  {
    var keys: set<string> := {};
    for i := 0 to |events|
      invariant forall key :: key in keys <==> exists j :: 0 <= j < i && EvidenceKey(events[j]) == key
      invariant UniqueEvents(events[..i])
    {
      if EvidenceKey(events[i]) in keys {
        return false;
      }
      keys := keys + {EvidenceKey(events[i])};
    }
    assert events[..|events|] == events;
    return true;
  }

  /** The row rendered for one operation. */
  function Row(op: Generated): OperationTable.Operation {
    OperationTable.Operation(op.httpMethod, op.path, op.id, op.capability, op.requestMedia, op.responseMedia, op.successStatus)
  }

  function Rows(operations: seq<Generated>): seq<OperationTable.Operation> {
    seq(|operations|, i requires 0 <= i < |operations| => Row(operations[i]))
  }

  /** The inventory names the event's type for its surface and direction. */
  predicate InInventory(inventory: Inventory, e: EventEntry) {
    && e.surface in inventory
    && ((e.direction == "client" && e.kind in inventory[e.surface].client)
        || (e.direction == "server" && e.kind in inventory[e.surface].server))
  }

  lemma InEventsIn(direction: string, kinds: seq<string>, surface: string, e: EventEntry)
    ensures e in EventsIn(direction, kinds, surface) <==> e.surface == surface && e.direction == direction && e.kind in kinds
  {
    if e.surface == surface && e.direction == direction && e.kind in kinds {
      var i :| 0 <= i < |kinds| && kinds[i] == e.kind;
      assert EventsIn(direction, kinds, surface)[i] == e;
    }
  }

  lemma InSurface(inventory: Inventory, surface: string, e: EventEntry)
    requires surface in inventory
    ensures e in multiset(SurfaceEvents(inventory, surface)) <==> e.surface == surface && InInventory(inventory, e)
  {
    InEventsIn("client", inventory[surface].client, surface, e);
    InEventsIn("server", inventory[surface].server, surface, e);
    assert e in SurfaceEvents(inventory, surface) <==> e in multiset(SurfaceEvents(inventory, surface));
  }

  /** The listing has exactly the inventory's events. */
  lemma ListedEvents(inventory: Inventory, events: seq<EventEntry>, e: EventEntry)
    requires IsEventListing(inventory, events)
    ensures e in events <==> InInventory(inventory, e)
  {
    var surfaces :| EventsOver(inventory, inventory.Keys, surfaces, events);
    var f := (surface: string) => multiset(SurfaceEvents(inventory, surface));
    SumMember(f, surfaces, e);
    assert e in events <==> e in multiset(events);
    if e in events {
      var surface :| surface in surfaces && e in f(surface);
      assert surface in multiset(surfaces);
      InSurface(inventory, surface, e);
    }
    if InInventory(inventory, e) {
      InSurface(inventory, e.surface, e);
      assert e.surface in multiset(surfaces);
      assert e in f(e.surface);
    }
  }

  lemma ListedNulFree(inventory: Inventory, events: seq<EventEntry>)
    requires IsEventListing(inventory, events) && forall name :: name in inventory ==> OperationTable.NulFree(name)
    ensures forall x :: x in events ==> OperationTable.NulFree(x.surface) && OperationTable.NulFree(x.direction)
  {
    forall x | x in events
      ensures OperationTable.NulFree(x.surface) && OperationTable.NulFree(x.direction)
    {
      ListedParts(inventory, events, x);
    }
  }

  /**
   What validation buys at run time: the rows have pairwise distinct ids, so the
   index by id is a linear search, and the events are pairwise distinct triples.
   The joined-key index then answers exactly what the inventory says, for every
   event type, as long as surfaces and directions hold no NUL.
   */
  lemma ValidatedIndexes(operations: seq<Generated>, inventory: Inventory, events: seq<EventEntry>, e: EventEntry)
    requires UniqueEvidence(operations) && UniqueEvents(events) && IsEventListing(inventory, events)
    requires OperationTable.NulFree(e.surface) && OperationTable.NulFree(e.direction)
    requires forall name :: name in inventory ==> OperationTable.NulFree(name)
    ensures OperationTable.DistinctIds(Rows(operations))
    ensures forall i, j :: 0 <= i < j < |events| ==> events[i] != events[j]
    ensures OperationTable.EventKey(e.surface, e.direction, e.kind) in OperationTable.EventKeys(events) <==> InInventory(inventory, e)
  {
    ListedNulFree(inventory, events);
    ListedEvents(inventory, events, e);
    OperationTable.KeyMembership(events, e.surface, e.direction, e.kind);
  }
}
