/** The writer of server-sent events, and the proof that every event arrives. */
module SseWriter {
  import opened Wrappers
  import opened EventStream
  import opened Ordering

  datatype Event = Event(kind: string, id: string, data: string)

  // ---- What is written for one event ----

  function Sanitize(s: string): string {
    if s == "" then ""
    else (if s[0] == '\r' || s[0] == '\n' then "" else [s[0]]) + Sanitize(s[1..])
  }

  /** Splitting at every LF; the empty string is one empty line. */
  function Split(s: string): seq<string>
    decreases |s|
  {
    var i := IndexOf(s, '\n');
    if i == |s| then [s] else [s[..i]] + Split(s[i + 1..])
  }

  function DataLine(line: string): string {
    "data: " + line + "\n"
  }

  function DataLines(lines: seq<string>): string {
    if lines == [] then "" else DataLine(lines[0]) + DataLines(lines[1..])
  }

  function HexDigit(n: nat): char
    requires n < 16
  {
    "0123456789abcdef"[n]
  }

  /** One character inside a JSON string, with the HTML-safe escapes of the encoder. */
  function EscapedChar(c: char): string {
    if c == '"' then "\\\""
    else if c == '\\' then "\\\\"
    else if c == '\n' then "\\n"
    else if c == '\r' then "\\r"
    else if c == '\t' then "\\t"
    else if c as int == 8 then "\\b"
    else if c as int == 12 then "\\f"
    else if c as int < 32 || c == '<' || c == '>' || c == '&' then
      "\\u00" + [HexDigit(c as int / 16), HexDigit(c as int % 16)]
    else if c == '\U{2028}' then "\\u2028"
    else if c == '\U{2029}' then "\\u2029"
    else [c]
  }

  function Escaped(s: string): string {
    if s == "" then "" else EscapedChar(s[0]) + Escaped(s[1..])
  }

  /** The object sent when an event has no data. */
  function TypeObject(kind: string): string {
    "{\"type\":\"" + Escaped(kind) + "\"}"
  }

  function Payload(e: Event): string {
    if e.data == "" then TypeObject(e.kind) else e.data
  }

  function IdLine(e: Event): string {
    if e.id == "" then "" else "id: " + Sanitize(e.id) + "\n"
  }

  function EventLine(e: Event): string {
    if e.kind == "" then "" else "event: " + Sanitize(e.kind) + "\n"
  }

  function Frame(e: Event): string {
    IdLine(e) + EventLine(e) + DataLines(Split(Payload(e))) + "\n"
  }

  function Frames(events: seq<Event>): string {
    if events == [] then "" else Frame(events[0]) + Frames(events[1..])
  }

  // ---- What a reader is meant to receive ----

  /** `s` without each CR that precedes LF or ends it. */
  function DropReturns(s: string): string {
    if s == "" then ""
    else if s[0] == '\r' && (|s| == 1 || s[1] == '\n') then DropReturns(s[1..])
    else [s[0]] + DropReturns(s[1..])
  }

  /** Some CR neither precedes LF nor ends the string. */
  predicate StrayReturn(s: string) {
    exists i :: 0 <= i < |s| - 1 && s[i] == '\r' && s[i + 1] != '\n'
  }

  /** The last id is sticky: an event without one keeps the previous. */
  function Received(e: Event, lastId: string): Message {
    Message(if Sanitize(e.kind) == "" then "message" else Sanitize(e.kind),
            DropReturns(Payload(e)),
            if e.id == "" then lastId else Sanitize(e.id))
  }

  function ReceivedAll(events: seq<Event>, lastId: string): seq<Message> {
    if events == [] then []
    else
      var first := Received(events[0], lastId);
      [first] + ReceivedAll(events[1..], first.lastEventId)
  }

  predicate Deliverable(e: Event) {
    !StrayReturn(e.data) && NUL !in e.id
  }

  // ---- Lemmas about the pieces ----

  lemma {:induction false} SanitizeMeaning(s: string)
    ensures SingleLine(Sanitize(s))
    ensures NUL in Sanitize(s) <==> NUL in s
  {
    if s != "" {
      SanitizeMeaning(s[1..]);
      assert s == [s[0]] + s[1..];
    }
  }

  /** Exactly CR and LF are removed, and the rest stays in order: text between them is kept as it is. */
  lemma {:induction false} SanitizeExactly(a: string, b: string)
    ensures SingleLine(a) ==> Sanitize(a) == a
    ensures Sanitize("\r") == Sanitize("\n") == ""
    ensures Sanitize(a + b) == Sanitize(a) + Sanitize(b)
    decreases |a|
  {
    assert "\r"[1..] == "" && "\n"[1..] == "";
    if a == "" {
      assert a + b == b;
    } else {
      assert a == [a[0]] + a[1..];
      assert (a + b)[0] == a[0] && (a + b)[1..] == a[1..] + b;
      SanitizeExactly(a[1..], b);
    }
  }

  // ---- The object sent for an event without data ----

  function HexValue(c: char): Option<nat> {
    if '0' <= c <= '9' then Some((c - '0') as nat)
    else if 'a' <= c <= 'f' then Some((c - 'a') as nat + 10)
    else if 'A' <= c <= 'F' then Some((c - 'A') as nat + 10)
    else None
  }

  function HexNumber(s: string): Option<nat> {
    if s == "" then Some(0)
    else
      var earlier, digit := HexNumber(s[..|s| - 1]), HexValue(s[|s| - 1]);
      if earlier.None? || digit.None? then None else Some(earlier.value * 16 + digit.value)
  }

  /** The character a JSON escape stands for, and how many characters the escape has (section 7 of RFC 8259). */
  function ReadEscape(s: string): (r: Option<(char, nat)>)
    requires s != "" && s[0] == '\\'
    ensures r.Some? ==> 0 < r.value.1 <= |s|
  {
    if |s| < 2 then None
    else match s[1]
      case '"' => Some(('"', 2))
      case '\\' => Some(('\\', 2))
      case '/' => Some(('/', 2))
      case 'b' => Some((8 as char, 2))
      case 'f' => Some((12 as char, 2))
      case 'n' => Some(('\n', 2))
      case 'r' => Some(('\r', 2))
      case 't' => Some(('\t', 2))
      case 'u' =>
        if |s| < 6 then None
        else
          var code := HexNumber(s[2..6]);
          if code.Some? && code.value < 0xD800 then Some((code.value as char, 6)) else None
      case _ => None
  }

  /** Reads a JSON string up to its closing quote: the text and what follows the quote. */
  function ReadString(s: string): Option<(string, string)>
    decreases |s|
  {
    if s == "" || (s[0] as int) < 32 then None
    else if s[0] == '"' then Some(("", s[1..]))
    else
      var read := if s[0] == '\\' then ReadEscape(s) else Some((s[0], 1));
      if read.None? then None else WithChar(read.value.0, ReadString(s[read.value.1..]))
  }

  function WithChar(c: char, read: Option<(string, string)>): Option<(string, string)> {
    if read.None? then None else Some(([c] + read.value.0, read.value.1))
  }

  const TYPE_HEAD := "{\"type\":\""

  /** The type a JSON object names, if that is all the object has. */
  function ReadTypeObject(s: string): Option<string> {
    if !(TYPE_HEAD <= s) then None
    else
      var read := ReadString(s[|TYPE_HEAD|..]);
      if read.Some? && read.value.1 == "}" then Some(read.value.0) else None
  }

  lemma HexDigitValue(n: nat)
    requires n < 16
    ensures HexValue(HexDigit(n)) == Some(n)
  {
  }

  lemma FourDigits(a: char, b: char, c: char, d: char)
    requires HexValue(a).Some? && HexValue(b).Some? && HexValue(c).Some? && HexValue(d).Some?
    ensures HexNumber([a, b, c, d]) ==
            Some(((HexValue(a).value * 16 + HexValue(b).value) * 16 + HexValue(c).value) * 16 + HexValue(d).value)
  {
    assert [a, b, c, d][..3] == [a, b, c] && [a, b, c][..2] == [a, b] && [a, b][..1] == [a] && [a][..0] == "";
    assert HexNumber("") == Some(0);
    assert HexNumber([a]) == Some(HexValue(a).value);
    assert HexNumber([a, b]) == Some(HexValue(a).value * 16 + HexValue(b).value);
    assert HexNumber([a, b, c]) == Some((HexValue(a).value * 16 + HexValue(b).value) * 16 + HexValue(c).value);
  }

  lemma ReadUnicodeEscape(a: char, b: char, c: char, d: char, rest: string)
    requires HexNumber([a, b, c, d]).Some? && HexNumber([a, b, c, d]).value < 0xD800
    ensures ReadEscape("\\u" + [a, b, c, d] + rest) == Some((HexNumber([a, b, c, d]).value as char, 6))
  {
    var s := "\\u" + [a, b, c, d] + rest;
    assert s[1] == 'u' && s[2..6] == [a, b, c, d];
  }

  lemma ReadControl(c: char, rest: string)
    requires c as int < 128
    ensures ReadEscape("\\u00" + [HexDigit(c as int / 16), HexDigit(c as int % 16)] + rest) == Some((c, 6))
  {
    var high, low := HexDigit(c as int / 16), HexDigit(c as int % 16);
    HexDigitValue(c as int / 16);
    HexDigitValue(c as int % 16);
    FourDigits('0', '0', high, low);
    ReadUnicodeEscape('0', '0', high, low, rest);
    assert "\\u00" + [high, low] + rest == "\\u" + ['0', '0', high, low] + rest;
  }

  lemma ReadSeparators(rest: string)
    ensures ReadEscape("\\u2028" + rest) == Some(('\U{2028}', 6)) && ReadEscape("\\u2029" + rest) == Some(('\U{2029}', 6))
  {
    FourDigits('2', '0', '2', '8');
    FourDigits('2', '0', '2', '9');
    ReadUnicodeEscape('2', '0', '2', '8', rest);
    ReadUnicodeEscape('2', '0', '2', '9', rest);
    assert "\\u2028" + rest == "\\u" + ['2', '0', '2', '8'] + rest;
    assert "\\u2029" + rest == "\\u" + ['2', '0', '2', '9'] + rest;
  }

  lemma ReadPlain(c: char, rest: string)
    requires c as int >= 32 && c != '"' && c != '\\'
    ensures ReadString([c] + rest) == WithChar(c, ReadString(rest))
  {
    assert ([c] + rest)[1..] == rest;
  }

  lemma ReadAfterEscape(e: string, c: char, rest: string)
    requires e != "" && e[0] == '\\' && ReadEscape(e + rest) == Some((c, |e|))
    ensures ReadString(e + rest) == WithChar(c, ReadString(rest))
  {
    assert (e + rest)[|e|..] == rest;
  }

  lemma ReadShortEscape(c: char, rest: string)
    requires |EscapedChar(c)| == 2
    ensures ReadEscape(EscapedChar(c) + rest) == Some((c, 2))
  {
    var s := EscapedChar(c) + rest;
    assert s[0] == EscapedChar(c)[0] && s[1] == EscapedChar(c)[1];
  }

  lemma ReadLongEscape(c: char, rest: string)
    requires |EscapedChar(c)| > 2
    ensures |EscapedChar(c)| == 6 && ReadEscape(EscapedChar(c) + rest) == Some((c, 6))
  {
    if c as int < 128 {
      ReadControl(c, rest);
    } else {
      ReadSeparators(rest);
    }
  }

  /** One escaped character is read back as itself. */
  lemma ReadEscapedChar(c: char, rest: string)
    ensures ReadString(EscapedChar(c) + rest) == WithChar(c, ReadString(rest))
  {
    if EscapedChar(c) == [c] {
      ReadPlain(c, rest);
    } else {
      if |EscapedChar(c)| == 2 {
        ReadShortEscape(c, rest);
      } else {
        ReadLongEscape(c, rest);
      }
      ReadAfterEscape(EscapedChar(c), c, rest);
    }
  }

  lemma {:induction false} ReadEscaped(text: string, rest: string)
    ensures ReadString(Escaped(text) + "\"" + rest) == Some((text, rest))
    decreases |text|
  {
    if text == "" {
      assert Escaped(text) + "\"" + rest == "\"" + rest;
      assert ("\"" + rest)[1..] == rest;
    } else {
      assert Escaped(text) + "\"" + rest == EscapedChar(text[0]) + (Escaped(text[1..]) + "\"" + rest);
      ReadEscapedChar(text[0], Escaped(text[1..]) + "\"" + rest);
      ReadEscaped(text[1..], rest);
      assert text == [text[0]] + text[1..];
    }
  }

  /** The object sent for an event without data names the event's type, whatever characters the type has. */
  lemma TypeObjectNamesType(kind: string)
    ensures ReadTypeObject(TypeObject(kind)) == Some(kind)
  {
    assert TypeObject(kind) == TYPE_HEAD + (Escaped(kind) + "\"" + "}");
    ReadEscaped(kind, "}");
    assert TypeObject(kind)[|TYPE_HEAD|..] == Escaped(kind) + "\"" + "}";
  }

  lemma EscapedCharSingleLine(c: char)
    ensures SingleLine(EscapedChar(c))
  {
    assert SingleLine("0123456789abcdef");
  }

  lemma {:induction false} EscapedSingleLine(s: string)
    ensures SingleLine(Escaped(s))
  {
    if s != "" {
      EscapedCharSingleLine(s[0]);
      EscapedSingleLine(s[1..]);
    }
  }

  lemma TypeObjectSingleLine(kind: string)
    ensures SingleLine(TypeObject(kind))
  {
    EscapedSingleLine(kind);
  }

  lemma PayloadStray(e: Event)
    ensures StrayReturn(Payload(e)) <==> StrayReturn(e.data)
  {
    if e.data == "" {
      TypeObjectSingleLine(e.kind);
      assert forall i :: 0 <= i < |Payload(e)| ==> Payload(e)[i] in Payload(e);
    }
  }

  /** A stray CR is kept, so it shows in the text a reader should receive. */
  lemma {:induction false} StrayShows(s: string)
    requires StrayReturn(s)
    ensures '\r' in DropReturns(s)
  {
    var i :| 0 <= i < |s| - 1 && s[i] == '\r' && s[i + 1] != '\n';
    if i == 0 {
      assert DropReturns(s)[0] == '\r';
    } else {
      assert s[1..][i - 1] == '\r' && s[1..][i] != '\n';
      StrayShows(s[1..]);
    }
  }

  /** The text of a line up to a CR that ends it. */
  function Trimmed(line: string): string {
    if line != "" && line[|line| - 1] == '\r' then line[..|line| - 1] else line
  }

  lemma TrimmedTail(line: string)
    requires |line| > 1
    ensures Trimmed(line) == [line[0]] + Trimmed(line[1..])
  {
  }

  /** A CR is dropped right before LF or the end, and nothing else is. */
  lemma DropReturnsHead(c: char, rest: string)
    ensures DropReturns([c] + rest) ==
            if c == '\r' && (rest == "" || rest[0] == '\n') then DropReturns(rest) else [c] + DropReturns(rest)
  {
    assert ([c] + rest)[1..] == rest;
  }

  lemma DropReturnsOne(c: char, rest: string)
    requires c != '\n' && (rest == "" || rest[0] == '\n')
    ensures DropReturns([c] + rest) == Trimmed([c]) + DropReturns(rest)
  {
    DropReturnsHead(c, rest);
  }

  lemma DropReturnsInside(line: string, rest: string)
    requires |line| > 1 && '\r' !in Trimmed(line)
    ensures DropReturns(line + rest) == [line[0]] + DropReturns(line[1..] + rest)
    ensures '\r' !in Trimmed(line[1..])
  {
    assert line + rest == [line[0]] + (line[1..] + rest);
    DropReturnsHead(line[0], line[1..] + rest);
    TrimmedTail(line);
    assert line[0] in Trimmed(line) && forall c :: c in Trimmed(line[1..]) ==> c in Trimmed(line);
  }

  lemma {:induction false} DropReturnsOfLine(line: string, rest: string)
    requires '\n' !in line && '\r' !in Trimmed(line)
    requires rest == "" || rest[0] == '\n'
    ensures DropReturns(line + rest) == Trimmed(line) + DropReturns(rest)
    decreases |line|
  {
    if line == "" {
      assert line + rest == rest;
    } else if |line| == 1 {
      assert line == [line[0]];
      DropReturnsOne(line[0], rest);
    } else {
      DropReturnsInside(line, rest);
      DropReturnsOfLine(line[1..], rest);
      TrimmedTail(line);
      Associative([line[0]], Trimmed(line[1..]), DropReturns(rest));
    }
  }

  lemma DropReturnsLastLine(line: string)
    requires '\n' !in line && '\r' !in Trimmed(line)
    ensures DropReturns(line) == Trimmed(line)
  {
    assert line + "" == line;
    DropReturnsOfLine(line, "");
  }

  lemma DropReturnsFirstLine(line: string, rest: string)
    requires '\n' !in line && '\r' !in Trimmed(line)
    ensures DropReturns(line + ("\n" + rest)) == Trimmed(line) + ("\n" + DropReturns(rest))
  {
    DropReturnsOfLine(line, "\n" + rest);
    DropReturnsHead('\n', rest);
  }

  lemma LineReturns(s: string)
    requires !StrayReturn(s)
    ensures '\r' !in Trimmed(s[..IndexOf(s, '\n')])
  {
  }

  lemma LaterReturns(s: string)
    requires !StrayReturn(s) && IndexOf(s, '\n') < |s|
    ensures !StrayReturn(s[IndexOf(s, '\n') + 1..])
  {
  }

  // ---- Parsing what is written ----

  lemma FeedField(p: Parser, name: string, value: string, withReturn: bool)
    requires AtLineStart(p) && SingleLine(name) && SingleLine(value) && name != "" && ':' !in name
    ensures FeedAll(p, name + ": " + value + (if withReturn then "\r\n" else "\n")) == WithField(p, name, value)
  {
    var line := name + ": " + value;
    assert line[|name|] == ':' && line[..|name|] == name;
    FirstIndex(line, ':', |name|);
    var colon := |name|;
    assert line[..colon] == name;
    assert line[colon + 1..] == " " + value;
    assert (" " + value)[1..] == value;
    FeedLine(p, line, withReturn);
  }

  /** A data line whose text ends in CR is a line ended by CR LF. */
  lemma DataLineText(line: string)
    ensures DataLine(line) ==
            "data" + ": " + Trimmed(line) + (if line != "" && line[|line| - 1] == '\r' then "\r\n" else "\n")
  {
  }

  lemma FeedDataLine(p: Parser, line: string)
    requires AtLineStart(p) && '\n' !in line && '\r' !in Trimmed(line)
    ensures FeedAll(p, DataLine(line)) == p.(data := p.data + Trimmed(line) + "\n")
  {
    DataLineText(line);
    assert forall c :: c in Trimmed(line) ==> c in line;
    FeedField(p, "data", Trimmed(line), line != "" && line[|line| - 1] == '\r');
  }

  lemma SplitAtFirst(s: string)
    ensures var i := IndexOf(s, '\n');
            if i < |s| then DataLines(Split(s)) == DataLine(s[..i]) + DataLines(Split(s[i + 1..]))
            else s[..i] == s && DataLines(Split(s)) == DataLine(s)
  {
  }

  lemma CutAtNewline(s: string, i: nat)
    requires i < |s| && s[i] == '\n'
    ensures s == s[..i] + ("\n" + s[i + 1..])
  {
  }

  lemma DropReturnsAt(s: string, i: nat)
    requires i < |s| && s[i] == '\n' && '\n' !in s[..i] && '\r' !in Trimmed(s[..i])
    ensures DropReturns(s) == Trimmed(s[..i]) + ("\n" + DropReturns(s[i + 1..]))
  {
    CutAtNewline(s, i);
    DropReturnsFirstLine(s[..i], s[i + 1..]);
  }

  lemma DropReturnsAtFirst(s: string)
    requires !StrayReturn(s)
    ensures var i := IndexOf(s, '\n');
            DropReturns(s) == Trimmed(s[..i]) + (if i < |s| then "\n" + DropReturns(s[i + 1..]) else "")
  {
    var i := IndexOf(s, '\n');
    LineReturns(s);
    if i == |s| {
      assert s[..i] == s;
      DropReturnsLastLine(s);
      assert Trimmed(s) + "" == Trimmed(s);
    } else {
      DropReturnsAt(s, i);
    }
  }

  lemma FeedTwo(p: Parser, a: string, b: string, x: string, y: string)
    requires FeedAll(p, a) == p.(data := p.data + x + "\n")
    requires var q := p.(data := p.data + x + "\n"); FeedAll(q, b) == q.(data := q.data + y + "\n")
    ensures FeedAll(p, a + b) == p.(data := p.data + (x + ("\n" + y)) + "\n")
  {
    FeedConcat(p, a, b);
    assert p.data + x + "\n" + y == p.data + (x + ("\n" + y));
  }

  lemma {:induction false} FeedDataLines(p: Parser, s: string)
    requires AtLineStart(p) && !StrayReturn(s)
    ensures FeedAll(p, DataLines(Split(s))) == p.(data := p.data + DropReturns(s) + "\n")
    decreases |s|
  {
    var i := IndexOf(s, '\n');
    LineReturns(s);
    SplitAtFirst(s);
    DropReturnsAtFirst(s);
    FeedDataLine(p, s[..i]);
    if i == |s| {
      assert Trimmed(s) + "" == Trimmed(s);
    } else {
      var q := p.(data := p.data + Trimmed(s[..i]) + "\n");
      LaterReturns(s);
      FeedDataLines(q, s[i + 1..]);
      FeedTwo(p, DataLine(s[..i]), DataLines(Split(s[i + 1..])), Trimmed(s[..i]), DropReturns(s[i + 1..]));
    }
  }

  /** Ready for the next event, with `lastId` the id that sticks. */
  predicate Between(p: Parser, lastId: string) {
    AtLineStart(p) && p.data == "" && p.event == "" && p.id == lastId
  }

  lemma FeedIdLine(p: Parser, e: Event, lastId: string)
    requires Between(p, lastId) && Deliverable(e)
    ensures FeedAll(p, IdLine(e)) == p.(id := Received(e, lastId).lastEventId)
  {
    SanitizeMeaning(e.id);
    if e.id != "" {
      FeedField(p, "id", Sanitize(e.id), false);
      assert IdLine(e) == "id" + ": " + Sanitize(e.id) + "\n";
    }
  }

  lemma FeedEventLine(p: Parser, e: Event)
    requires AtLineStart(p) && p.event == ""
    ensures FeedAll(p, EventLine(e)) == p.(event := Sanitize(e.kind))
  {
    SanitizeMeaning(e.kind);
    if e.kind != "" {
      FeedField(p, "event", Sanitize(e.kind), false);
      assert EventLine(e) == "event" + ": " + Sanitize(e.kind) + "\n";
    }
  }

  lemma FeedHead(p: Parser, e: Event, lastId: string)
    requires Between(p, lastId) && Deliverable(e)
    ensures FeedAll(p, IdLine(e) + EventLine(e))
         == p.(id := Received(e, lastId).lastEventId, event := Sanitize(e.kind))
  {
    FeedConcat(p, IdLine(e), EventLine(e));
    FeedIdLine(p, e, lastId);
    FeedEventLine(FeedAll(p, IdLine(e)), e);
  }

  lemma FeedBlank(p: Parser, text: string)
    requires AtLineStart(p) && p.data == text + "\n"
    ensures FeedAll(p, "\n") == p.(data := "", event := "", dispatched := p.dispatched +
              [Message(if p.event == "" then "message" else p.event, text, p.id)])
  {
    FeedLine(p, "", false);
    assert "" + "\n" == "\n";
    assert p.data[..|p.data| - 1] == text;
  }

  lemma FeedBody(p: Parser, e: Event)
    requires AtLineStart(p) && p.data == "" && Deliverable(e)
    ensures FeedAll(p, DataLines(Split(Payload(e))) + "\n") == p.(data := "", event := "", dispatched := p.dispatched +
              [Message(if p.event == "" then "message" else p.event, DropReturns(Payload(e)), p.id)])
  {
    var lines, text := DataLines(Split(Payload(e))), DropReturns(Payload(e));
    FeedConcat(p, lines, "\n");
    PayloadStray(e);
    FeedDataLines(p, Payload(e));
    assert p.data + text + "\n" == text + "\n";
    FeedBlank(p.(data := text + "\n"), text);
  }

  lemma FeedFrame(p: Parser, e: Event, lastId: string)
    requires Between(p, lastId) && Deliverable(e)
    ensures var q := FeedAll(p, Frame(e));
            && Between(q, Received(e, lastId).lastEventId)
            && q.dispatched == p.dispatched + [Received(e, lastId)]
  {
    var head, body := IdLine(e) + EventLine(e), DataLines(Split(Payload(e))) + "\n";
    Associative(head, DataLines(Split(Payload(e))), "\n");
    FeedConcat(p, head, body);
    FeedHead(p, e, lastId);
    FeedBody(FeedAll(p, head), e);
  }

  lemma FeedBoth(p: Parser, q: Parser, frame: string, rest: string, m: Message, more: seq<Message>)
    requires FeedAll(p, frame) == q && q.dispatched == p.dispatched + [m]
    requires FeedAll(q, rest).dispatched == q.dispatched + more
    ensures FeedAll(p, frame + rest).dispatched == p.dispatched + ([m] + more)
  {
    FeedConcat(p, frame, rest);
    Associative(p.dispatched, [m], more);
  }

  lemma {:induction false} FeedFrames(p: Parser, events: seq<Event>, lastId: string)
    requires Between(p, lastId) && forall e :: e in events ==> Deliverable(e)
    ensures FeedAll(p, Frames(events)).dispatched == p.dispatched + ReceivedAll(events, lastId)
    decreases |events|
  {
    if events != [] {
      var first := Received(events[0], lastId);
      FeedFrame(p, events[0], lastId);
      var q := FeedAll(p, Frame(events[0]));
      FeedFrames(q, events[1..], first.lastEventId);
      FeedBoth(p, q, Frame(events[0]), Frames(events[1..]), first, ReceivedAll(events[1..], first.lastEventId));
    }
  }

  lemma NoByteOrderMark(events: seq<Event>)
    ensures Frames(events) == "" || Frames(events)[0] != BYTE_ORDER_MARK
  {
  }

  lemma {:induction false} UndeliverableShows(events: seq<Event>, lastId: string, k: nat)
    requires k < |events| && !Deliverable(events[k])
    ensures exists m :: m in ReceivedAll(events, lastId) && !CleanMessage(m)
    decreases |events|
  {
    var first := Received(events[0], lastId);
    if k == 0 {
      var e := events[0];
      PayloadStray(e);
      if StrayReturn(e.data) {
        StrayShows(Payload(e));
      } else {
        SanitizeMeaning(e.id);
      }
      assert first in ReceivedAll(events, lastId) && !CleanMessage(first);
    } else {
      UndeliverableShows(events[1..], first.lastEventId, k - 1);
      var m :| m in ReceivedAll(events[1..], first.lastEventId) && !CleanMessage(m);
      assert m in ReceivedAll(events, lastId);
    }
  }

  /**
   The round trip.  A conforming reader receives exactly one message per event, in
   order, with the sanitised type, the sticky id and the data less its line-ending
   CRs, exactly when no id holds a NUL and no data holds any other CR.
   */
  lemma RoundTrip(events: seq<Event>)
    ensures Decode(Frames(events)) == ReceivedAll(events, "") <==> forall e :: e in events ==> Deliverable(e)
  {
    NoByteOrderMark(events);
    if forall e :: e in events ==> Deliverable(e) {
      FeedFrames(START, events, "");
    } else {
      var k :| 0 <= k < |events| && !Deliverable(events[k]);
      UndeliverableShows(events, "", k);
      StaysClean(START, Frames(events));
    }
  }

  // ---- What arrives, in terms of the events alone ----

  /** Type and id on one line, an id without NUL, data without CR. */
  predicate Ordinary(e: Event) {
    SingleLine(e.kind) && SingleLine(e.id) && NUL !in e.id && '\r' !in e.data
  }

  /** The message that carries event `i`: its own type, its data or an object naming its type, and the last id given. */
  predicate Carries(m: Message, e: Event, previousId: string) {
    && m.event == (if e.kind == "" then "message" else e.kind)
    && (if e.data != "" then m.data == e.data else ReadTypeObject(m.data) == Some(e.kind))
    && m.lastEventId == (if e.id == "" then previousId else e.id)
  }

  /** The id a reader has before message `i`. */
  function IdBefore(messages: seq<Message>, id: string, i: nat): string
    requires i <= |messages|
  {
    if i == 0 then id else messages[i - 1].lastEventId
  }

  predicate CarryAt(messages: seq<Message>, events: seq<Event>, id: string, i: nat) {
    i < |messages| && i < |events| && Carries(messages[i], events[i], IdBefore(messages, id, i))
  }

  predicate CarryAll(messages: seq<Message>, events: seq<Event>, id: string) {
    |messages| == |events| && forall i: nat :: i < |events| ==> CarryAt(messages, events, id, i)
  }

  lemma CarryNext(m: Message, messages: seq<Message>, e: Event, events: seq<Event>, id: string, i: nat)
    requires CarryAt(messages, events, m.lastEventId, i)
    ensures CarryAt([m] + messages, [e] + events, id, i + 1)
  {
    var all := [m] + messages;
    assert all[i + 1] == messages[i] && ([e] + events)[i + 1] == events[i];
    assert IdBefore(all, id, i + 1) == IdBefore(messages, m.lastEventId, i);
  }

  lemma CarryFirst(m: Message, messages: seq<Message>, e: Event, events: seq<Event>, id: string)
    requires Carries(m, e, id) && CarryAll(messages, events, m.lastEventId)
    ensures CarryAll([m] + messages, [e] + events, id)
  {
    forall i: nat | i < |[e] + events|
      ensures CarryAt([m] + messages, [e] + events, id, i)
    {
      if i > 0 {
        CarryNext(m, messages, e, events, id, i - 1);
      }
    }
  }

  /** The lines written for an ordinary event on one line: its id and type, if it has them, its data and an empty line. */
  lemma OrdinaryFrame(e: Event)
    requires Ordinary(e) && SingleLine(e.data) && e.data != ""
    ensures Frame(e) ==
            (if e.id == "" then "" else "id: " + e.id + "\n") + (if e.kind == "" then "" else "event: " + e.kind + "\n")
            + ("data: " + e.data + "\n") + "\n"
  {
    SanitizeExactly(e.kind, "");
    SanitizeExactly(e.id, "");
    assert Split(e.data) == [e.data];
    assert DataLines([e.data]) == DataLine(e.data) + DataLines([]) == DataLine(e.data);
  }

  lemma {:induction false} NothingDropped(s: string)
    requires '\r' !in s
    ensures DropReturns(s) == s
  {
    if s != "" {
      assert s == [s[0]] + s[1..];
      NothingDropped(s[1..]);
    }
  }

  lemma OrdinaryCarries(e: Event, id: string)
    requires Ordinary(e)
    ensures Deliverable(e) && Carries(Received(e, id), e, id)
  {
    SanitizeExactly(e.kind, "");
    SanitizeExactly(e.id, "");
    if e.data == "" {
      TypeObjectSingleLine(e.kind);
      TypeObjectNamesType(e.kind);
    }
    NothingDropped(Payload(e));
  }

  lemma {:induction false} OrdinaryCarryAll(events: seq<Event>, id: string)
    requires forall e :: e in events ==> Ordinary(e)
    ensures CarryAll(ReceivedAll(events, id), events, id)
    decreases |events|
  {
    if events != [] {
      var first := Received(events[0], id);
      var rest := ReceivedAll(events[1..], first.lastEventId);
      OrdinaryCarries(events[0], id);
      OrdinaryCarryAll(events[1..], first.lastEventId);
      CarryFirst(first, rest, events[0], events[1..], id);
      assert events == [events[0]] + events[1..];
      assert ReceivedAll(events, id) == [first] + rest;
    }
  }

  /**
   For ordinary events a conforming reader receives, one by one and in order, the
   events' own types, data and ids.
   */
  lemma OrdinaryEventsArrive(events: seq<Event>)
    requires forall e :: e in events ==> Ordinary(e)
    ensures CarryAll(Decode(Frames(events)), events, "")
  {
    forall e | e in events
      ensures Deliverable(e)
    {
      OrdinaryCarries(e, "");
    }
    RoundTrip(events);
    OrdinaryCarryAll(events, "");
  }

  // ---- The writing loop ----

  /** One turn of the select: `cut` says how much got through when a flush fails. */
  datatype Turn = Cancelled | Closed | Got(event: Event, cut: Option<nat>)

  /** The text written over `turns`; the request context ends with the last of them. */
  function Written(turns: seq<Turn>): string {
    if turns == [] || !turns[0].Got? then ""
    else
      var frame := Frame(turns[0].event);
      match turns[0].cut
      case None => frame + Written(turns[1..])
      case Some(n) => frame[..if n < |frame| then n else |frame|]
  }

  lemma WrittenAfter(text: string, turns: seq<Turn>, i: nat)
    requires i < |turns| && turns[i].Got? && turns[i].cut.None?
    ensures text + Written(turns[i..]) == (text + Frame(turns[i].event)) + Written(turns[i + 1..])
  {
  }

  /** The writing loop: frames go out one by one until the stream ends, the context ends or a write fails. */
  method WriteTurns(turns: seq<Turn>) returns (text: string)
    ensures text == Written(turns)
  {
    text := "";
    for i := 0 to |turns|
      invariant text + Written(turns[i..]) == Written(turns)
    {
      assert turns[i..][0] == turns[i];
      if !turns[i].Got? {
        return;
      }
      var frame := Frame(turns[i].event);
      if turns[i].cut.Some? {
        var n := turns[i].cut.value;
        text := text + frame[..if n < |frame| then n else |frame|];
        return;
      }
      WrittenAfter(text, turns, i);
      text := text + frame;
    }
  }

  /** The events taken from the stream. */
  function Taken(turns: seq<Turn>): seq<Event> {
    if turns == [] || !turns[0].Got? then []
    else if turns[0].cut.Some? then [turns[0].event]
    else [turns[0].event] + Taken(turns[1..])
  }

  /** As long as the turns yield events and the flushes succeed, every one of the events is taken. */
  lemma {:induction false} TakenMeaning(turns: seq<Turn>, n: nat)
    requires n <= |turns| && forall i :: 0 <= i < n ==> turns[i].Got? && turns[i].cut == None
    ensures |Taken(turns)| >= n && forall i :: 0 <= i < n ==> Taken(turns)[i] == turns[i].event
    ensures n < |turns| && !turns[n].Got? ==> |Taken(turns)| == n
    ensures n < |turns| && turns[n].Got? ==> |Taken(turns)| > n && Taken(turns)[n] == turns[n].event
    ensures n < |turns| && turns[n].Got? && turns[n].cut.Some? ==> |Taken(turns)| == n + 1
    ensures n == |turns| ==> |Taken(turns)| == n
    decreases n
  {
    if n > 0 {
      TakenMeaning(turns[1..], n - 1);
    }
  }

  lemma OneFrame(e: Event)
    ensures Frames([e]) == Frame(e)
  {
    assert [e][1..] == [];
    assert Frame(e) + "" == Frame(e);
  }

  lemma {:induction false} WrittenIsPrefix(turns: seq<Turn>)
    ensures Written(turns) <= Frames(Taken(turns))
    ensures (forall t :: t in turns ==> !(t.Got? && t.cut.Some?)) ==> Written(turns) == Frames(Taken(turns))
  {
    if turns != [] && turns[0].Got? {
      if turns[0].cut.None? {
        WrittenIsPrefix(turns[1..]);
        assert Taken(turns)[1..] == Taken(turns[1..]);
      } else {
        OneFrame(turns[0].event);
        assert turns[0] in turns;
      }
    }
  }

  /**
   However the loop ends, by the stream, by cancellation between events or by a
   write that fails part-way, the reader has received the events taken so far, in
   order, up to some point, and nothing else.
   */
  lemma ReaderSeesPrefix(turns: seq<Turn>)
    requires forall e :: e in Taken(turns) ==> Deliverable(e)
    ensures Decode(Written(turns)) <= ReceivedAll(Taken(turns), "")
    ensures (forall t :: t in turns ==> !(t.Got? && t.cut.Some?)) ==> Decode(Written(turns)) == ReceivedAll(Taken(turns), "")
  {
    WrittenIsPrefix(turns);
    RoundTrip(Taken(turns));
    var whole := Frames(Taken(turns));
    CutStream(whole, |Written(turns)|);
    assert whole[..|Written(turns)|] == Written(turns);
  }
}
