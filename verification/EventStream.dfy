/**
 The event stream format as a browser reads it: sections 9.2.5 (parsing) and
 9.2.6 (interpretation) of the WHATWG HTML Living Standard, over decoded text.
 The reconnection time set by `retry` is not tracked.
 */
module EventStream {

  datatype Message = Message(event: string, data: string, lastEventId: string)

  /** The three buffers of the standard, the line being read, and what has been dispatched. */
  datatype Parser = Parser(
    line: string,
    afterReturn: bool,
    data: string,
    event: string,
    id: string,
    dispatched: seq<Message>)

  const START := Parser("", false, "", "", "", [])

  const BYTE_ORDER_MARK := '\U{FEFF}'
  const NUL := '\0'

  function IndexOf(s: string, c: char): (i: nat)
    ensures i <= |s| && (i < |s| ==> s[i] == c) && c !in s[..i]
  {
    if s == "" || s[0] == c then 0
    else
      var i := 1 + IndexOf(s[1..], c);
      assert s[..i] == [s[0]] + s[1..][..i - 1];
      i
  }

  function WithField(p: Parser, name: string, value: string): Parser {
    if name == "event" then p.(event := value)
    else if name == "data" then p.(data := p.data + value + "\n")
    else if name == "id" && NUL !in value then p.(id := value)
    else p
  }

  function Dispatch(p: Parser): Parser {
    var reset := p.(data := "", event := "");
    if p.data == "" then reset
    else reset.(dispatched := p.dispatched +
      [Message(if p.event == "" then "message" else p.event, p.data[..|p.data| - 1], p.id)])
  }

  function ProcessLine(p: Parser, line: string): Parser {
    var colon := IndexOf(line, ':');
    if line == "" then Dispatch(p)
    else if colon == 0 then p
    else if colon == |line| then WithField(p, line, "")
    else
      var value := line[colon + 1..];
      WithField(p, line[..colon], if value != "" && value[0] == ' ' then value[1..] else value)
  }

  function EndLine(p: Parser): Parser {
    ProcessLine(p, p.line).(line := "", afterReturn := false)
  }

  /** Lines end with CR LF, with LF or with CR. */
  function Feed(p: Parser, c: char): Parser {
    if c == '\n' then (if p.afterReturn then p.(afterReturn := false) else EndLine(p))
    else if c == '\r' then EndLine(p).(afterReturn := true)
    else p.(line := p.line + [c], afterReturn := false)
  }

  function FeedAll(p: Parser, s: string): Parser
    decreases |s|
  {
    if s == "" then p else FeedAll(Feed(p, s[0]), s[1..])
  }

  /** What has been dispatched when the stream ends; an unfinished event is discarded. */
  function Decode(stream: string): seq<Message> {
    FeedAll(START, if stream != "" && stream[0] == BYTE_ORDER_MARK then stream[1..] else stream).dispatched
  }

  lemma {:induction false} FeedConcat(p: Parser, a: string, b: string)
    ensures FeedAll(p, a + b) == FeedAll(FeedAll(p, a), b)
    decreases |a|
  {
    if a == "" {
      assert a + b == b;
    } else {
      assert (a + b)[1..] == a[1..] + b;
      FeedConcat(Feed(p, a[0]), a[1..], b);
    }
  }

  /** Nothing dispatched is ever taken back. */
  lemma {:induction false} DispatchedGrows(p: Parser, s: string)
    ensures p.dispatched <= FeedAll(p, s).dispatched
    decreases |s|
  {
    if s != "" {
      DispatchedGrows(Feed(p, s[0]), s[1..]);
    }
  }

  /** A stream cut short decodes to a prefix of what the whole stream decodes to. */
  lemma CutStream(stream: string, n: nat)
    requires n <= |stream|
    ensures Decode(stream[..n]) <= Decode(stream)
  {
    if n > 0 {
      var skip := if stream[0] == BYTE_ORDER_MARK then 1 else 0;
      assert stream[skip..] == stream[..n][skip..] + stream[n..];
      FeedConcat(START, stream[..n][skip..], stream[n..]);
      DispatchedGrows(FeedAll(START, stream[..n][skip..]), stream[n..]);
    }
  }

  predicate SingleLine(s: string) {
    '\r' !in s && '\n' !in s
  }

  predicate CleanMessage(m: Message) {
    '\r' !in m.data && NUL !in m.lastEventId
  }

  predicate Clean(p: Parser) {
    && SingleLine(p.line) && '\r' !in p.data && NUL !in p.id
    && forall m :: m in p.dispatched ==> CleanMessage(m)
  }

  /** No reader ever sees a carriage return in data or a NUL in an id. */
  lemma {:induction false} StaysClean(p: Parser, s: string)
    requires Clean(p)
    ensures Clean(FeedAll(p, s))
    decreases |s|
  {
    if s != "" {
      FeedKeepsClean(p, s[0]);
      StaysClean(Feed(p, s[0]), s[1..]);
    }
  }

  lemma FieldKeepsClean(p: Parser, name: string, value: string)
    requires Clean(p) && SingleLine(value)
    ensures Clean(WithField(p, name, value))
  {
  }

  lemma DispatchKeepsClean(p: Parser)
    requires Clean(p)
    ensures Clean(Dispatch(p))
  {
  }

  lemma ProcessKeepsClean(p: Parser, line: string)
    requires Clean(p) && SingleLine(line)
    ensures Clean(ProcessLine(p, line))
  {
    DispatchKeepsClean(p);
    var colon := IndexOf(line, ':');
    if 0 < colon {
      var value := if colon < |line| then line[colon + 1..] else "";
      assert forall x :: x in value ==> x in line;
      assert value != "" ==> forall x :: x in value[1..] ==> x in value;
      var stripped := if value != "" && value[0] == ' ' then value[1..] else value;
      FieldKeepsClean(p, if colon < |line| then line[..colon] else line, stripped);
    }
  }

  lemma FeedKeepsClean(p: Parser, c: char)
    requires Clean(p)
    ensures Clean(Feed(p, c))
  {
    ProcessKeepsClean(p, p.line);
  }

  /** Between lines. */
  predicate AtLineStart(p: Parser) {
    p.line == "" && !p.afterReturn
  }

  lemma {:induction false} FeedText(p: Parser, s: string)
    requires SingleLine(s)
    ensures FeedAll(p, s) == if s == "" then p else p.(line := p.line + s, afterReturn := false)
    decreases |s|
  {
    if s != "" {
      assert s == [s[0]] + s[1..];
      FeedText(Feed(p, s[0]), s[1..]);
      assert p.line + [s[0]] + s[1..] == p.line + s;
    }
  }

  lemma FeedEnd(p: Parser, withReturn: bool)
    requires !p.afterReturn
    ensures FeedAll(p, if withReturn then "\r\n" else "\n") == EndLine(p)
  {
    assert FeedAll(Feed(p, '\n'), "") == Feed(p, '\n');
    assert "\n"[1..] == "" && "\r\n"[1..] == "\n";
    if withReturn {
      var q := Feed(p, '\r');
      assert FeedAll(p, "\r\n") == FeedAll(q, "\n");
      assert FeedAll(q, "\n") == FeedAll(Feed(q, '\n'), "") == Feed(q, '\n');
    }
  }

  /** Processing a line does not depend on the line being read meanwhile. */
  lemma ProcessIgnoresInput(p: Parser, line: string, pending: string)
    ensures ProcessLine(p.(line := pending, afterReturn := false), line).(line := "", afterReturn := false)
         == ProcessLine(p, line).(line := "", afterReturn := false)
  {
  }

  /** A line ended by LF, or by CR LF, is processed once. */
  lemma FeedLine(p: Parser, s: string, withReturn: bool)
    requires AtLineStart(p) && SingleLine(s)
    ensures FeedAll(p, s + (if withReturn then "\r\n" else "\n")) == ProcessLine(p, s).(line := "", afterReturn := false)
  {
    FeedConcat(p, s, if withReturn then "\r\n" else "\n");
    FeedText(p, s);
    assert p.line + s == s;
    FeedEnd(FeedAll(p, s), withReturn);
    ProcessIgnoresInput(p, s, s);
  }

  lemma {:induction false} FirstIndex(s: string, c: char, i: nat)
    requires i < |s| && s[i] == c && c !in s[..i]
    ensures IndexOf(s, c) == i
  {
  }
}
