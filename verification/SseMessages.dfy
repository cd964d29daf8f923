/** The round trip of event streams: what a server sends, message by message, is what the client reads. */
module SseMessages {
  import opened Types
  import opened Text
  import opened Sse

  /** What a server means to send: an optional name and some lines of data. */
  datatype Message = Message(event: Option<string>, data: seq<string>)

  function DataOf(x: string): string { "data:" + x }

  function NameOf(x: string): string { "event:" + x }

  function DataLines(data: seq<string>): seq<string> {
    if data == [] then [] else [DataOf(data[0])] + DataLines(data[1..])
  }

  /** Its lines on the wire: the name, the data, and a blank line. */
  function MessageLines(m: Message): seq<string> {
    FieldLines(m) + [""]
  }

  /** The text fits on a line and does not end like one. */
  predicate IsLine(text: string) {
    '\n' !in text && (text == "" || text[|text| - 1] != '\r')
  }

  ghost predicate CanBeSent(m: Message) {
    && m.data != [] && (forall i | 0 <= i < |m.data| :: IsLine(m.data[i]))
    && (m.event.Some? ==> IsLine(m.event.value))
  }

  function TrimAll(data: seq<string>): seq<string> {
    if data == [] then [] else [Trim(data[0])] + TrimAll(data[1..])
  }

  /** The event is the message: its name, and its data with newlines between the lines, white space at their ends aside. */
  ghost predicate IsReceived(m: Message, e: SseEvent) {
    && e.event == (if m.event.Some? then Some(Trim(m.event.value)) else None)
    && e.data + "\n" == Unlines(TrimAll(m.data))
  }

  lemma {:induction false} JoinedIsUnlined(lines: seq<string>)
    requires lines != []
    ensures Join(lines) + "\n" == Unlines(lines)
  {
    if |lines| > 1 {
      JoinedIsUnlined(lines[1..]);
      assert lines[0] + "\n" + Join(lines[1..]) + "\n" == lines[0] + "\n" + (Join(lines[1..]) + "\n");
    } else {
      assert lines[1..] == [];
    }
  }

  lemma {:induction false} UnlinedLines(lines: seq<string>)
    requires forall i | 0 <= i < |lines| :: '\n' !in lines[i]
    ensures CompleteLines(Unlines(lines)) == lines
  {
    if lines != [] {
      var text, rest := Unlines(lines), Unlines(lines[1..]);
      FirstNewline(lines[0], rest);
      assert text[..|lines[0]|] == lines[0] && text[|lines[0]| + 1..] == rest;
      UnlinedLines(lines[1..]);
      assert lines == [lines[0]] + lines[1..];
    }
  }

  lemma FieldLine(prefix: string, x: string)
    requires IsLine(x) && |prefix| > 0 && prefix[|prefix| - 1] == ':' && '\n' !in prefix
    ensures TrimCarriageReturns(prefix + x) == prefix + x && (prefix + x)[|prefix|..] == x && '\n' !in prefix + x
    ensures prefix <= prefix + x && prefix + x != ""
  {
    var line := prefix + x;
    assert line[|line| - 1] == if x == "" then ':' else x[|x| - 1];
  }

  /** A line of data adds to what has been collected. */
  lemma DataLine(p: Pending, x: string)
    requires IsLine(x)
    ensures AfterLine(p, DataOf(x)) == p.(data := p.data + [Trim(x)]) && LineEvents(p, DataOf(x)) == []
    ensures '\n' !in DataOf(x)
  {
    FieldLine("data:", x);
    assert ("data:" + x)[0] == 'd' && "event:"[0] == 'e';
  }

  /** A line with a name replaces the name. */
  lemma EventLine(p: Pending, x: string)
    requires IsLine(x)
    ensures AfterLine(p, NameOf(x)) == p.(event := Some(Trim(x))) && LineEvents(p, NameOf(x)) == []
    ensures '\n' !in NameOf(x)
  {
    FieldLine("event:", x);
  }

  // ----- Reading lines -----

  /** What has been collected after the lines. */
  function AfterAll(p: Pending, lines: seq<string>): Pending
    decreases |lines|
  {
    if lines == [] then p else AfterAll(AfterLine(p, lines[0]), lines[1..])
  }

  /** None of the lines ends an event. */
  predicate Silent(p: Pending, lines: seq<string>)
    decreases |lines|
  {
    lines == [] || (LineEvents(p, lines[0]) == [] && Silent(AfterLine(p, lines[0]), lines[1..]))
  }

  lemma {:induction false} SilentLines(p: Pending, lines: seq<string>, rest: seq<string>, ends: bool)
    requires Silent(p, lines)
    ensures EventsOf(p, lines + rest, ends) == EventsOf(AfterAll(p, lines), rest, ends)
    decreases |lines|
  {
    if lines == [] {
      assert lines + rest == rest;
    } else {
      var q, tail := AfterLine(p, lines[0]), lines[1..];
      SilentLines(q, tail, rest, ends);
      HeadFirst(lines, rest);
      SilentFirst(p, lines[0], q, lines + rest, tail + rest, ends);
    }
  }

  lemma HeadFirst(a: seq<string>, b: seq<string>)
    requires a != []
    ensures a + b == [a[0]] + (a[1..] + b)
  {
  }

  lemma SilentFirst(p: Pending, line: string, q: Pending, lines: seq<string>, rest: seq<string>, ends: bool)
    requires LineEvents(p, line) == [] && AfterLine(p, line) == q && lines == [line] + rest
    ensures EventsOf(p, lines, ends) == EventsOf(q, rest, ends)
  {
    assert lines[0] == line && lines[1..] == rest;
  }

  lemma OneSilent(p: Pending, line: string, q: Pending, lines: seq<string>)
    requires LineEvents(p, line) == [] && AfterLine(p, line) == q && Silent(q, lines)
    ensures Silent(p, [line] + lines) && AfterAll(p, [line] + lines) == AfterAll(q, lines)
  {
    assert ([line] + lines)[0] == line && ([line] + lines)[1..] == lines;
  }

  lemma {:induction false} DataSilent(p: Pending, data: seq<string>)
    requires forall i | 0 <= i < |data| :: IsLine(data[i])
    ensures Silent(p, DataLines(data)) && AfterAll(p, DataLines(data)) == p.(data := p.data + TrimAll(data))
    decreases |data|
  {
    if data == [] {
      assert p.data + TrimAll(data) == p.data;
    } else {
      var next := p.(data := p.data + [Trim(data[0])]);
      DataLine(p, data[0]);
      DataSilent(next, data[1..]);
      OneSilent(p, DataOf(data[0]), next, DataLines(data[1..]));
      TrimFirst(p.data, data);
    }
  }

  lemma TrimFirst(before: seq<string>, data: seq<string>)
    requires data != []
    ensures before + [Trim(data[0])] + TrimAll(data[1..]) == before + TrimAll(data)
  {
  }

  /** All lines of a message but the last. */
  function FieldLines(m: Message): seq<string> {
    if m.event.Some? then [NameOf(m.event.value)] + DataLines(m.data) else DataLines(m.data)
  }

  lemma FieldsSilent(m: Message)
    requires CanBeSent(m)
    ensures Silent(Pending(None, []), FieldLines(m))
    ensures AfterAll(Pending(None, []), FieldLines(m))
            == Pending(if m.event.Some? then Some(Trim(m.event.value)) else None, TrimAll(m.data))
  {
    var none: Pending := Pending(None, []);
    assert [] + TrimAll(m.data) == TrimAll(m.data);
    if m.event.Some? {
      var named := Pending(Some(Trim(m.event.value)), []);
      EventLine(none, m.event.value);
      DataSilent(named, m.data);
      OneSilent(none, NameOf(m.event.value), named, DataLines(m.data));
    } else {
      DataSilent(none, m.data);
    }
  }

  lemma BlankLine(p: Pending, rest: seq<string>, ends: bool)
    requires p.data != []
    ensures EventsOf(p, [""] + rest, ends) == [SseEvent(p.event, Join(p.data))] + EventsOf(Pending(None, []), rest, ends)
  {
    assert ([""] + rest)[0] == "" && ([""] + rest)[1..] == rest && TrimCarriageReturns("") == "";
  }

  /** Reading the lines of a message gives the message, and then whatever follows. */
  lemma MessageIsReceived(m: Message, rest: seq<string>, ends: bool) returns (e: SseEvent)
    requires CanBeSent(m)
    ensures IsReceived(m, e)
    ensures EventsOf(Pending(None, []), MessageLines(m) + rest, ends) == [e] + EventsOf(Pending(None, []), rest, ends)
  {
    var p := Pending(if m.event.Some? then Some(Trim(m.event.value)) else None, TrimAll(m.data));
    FieldsSilent(m);
    SilentLines(Pending(None, []), FieldLines(m), [""] + rest, ends);
    assert MessageLines(m) + rest == FieldLines(m) + ([""] + rest);
    BlankLine(p, rest, ends);
    JoinedIsUnlined(p.data);
    e := SseEvent(p.event, Join(p.data));
  }

  // ----- Whole streams -----

  function AllLines(messages: seq<Message>): seq<string> {
    if messages == [] then [] else MessageLines(messages[0]) + AllLines(messages[1..])
  }

  ghost predicate AllReceived(messages: seq<Message>, events: seq<SseEvent>) {
    |events| == |messages| && forall i | 0 <= i < |messages| :: IsReceived(messages[i], events[i])
  }

  lemma {:induction false} AllAreReceived(messages: seq<Message>) returns (events: seq<SseEvent>)
    requires forall i | 0 <= i < |messages| :: CanBeSent(messages[i])
    ensures AllReceived(messages, events) && EventsOf(Pending(None, []), AllLines(messages), true) == events
    decreases |messages|
  {
    events := [];
    if messages != [] {
      var e := MessageIsReceived(messages[0], AllLines(messages[1..]), true);
      var rest := AllAreReceived(messages[1..]);
      events := [e] + rest;
    }
  }

  lemma {:induction false} DataAreLines(data: seq<string>)
    requires forall i | 0 <= i < |data| :: IsLine(data[i])
    ensures forall k | 0 <= k < |DataLines(data)| :: '\n' !in DataLines(data)[k]
    decreases |data|
  {
    if data != [] {
      DataLine(Pending(None, []), data[0]);
      DataAreLines(data[1..]);
    }
  }

  /** No line contains a newline. */
  ghost predicate AreLines(lines: seq<string>) {
    forall k | 0 <= k < |lines| :: '\n' !in lines[k]
  }

  lemma MessageIsLines(m: Message)
    requires CanBeSent(m)
    ensures AreLines(MessageLines(m))
  {
    if m.event.Some? {
      EventLine(Pending(None, []), m.event.value);
    }
    DataAreLines(m.data);
  }

  lemma BothAreLines(a: seq<string>, b: seq<string>)
    requires AreLines(a) && AreLines(b)
    ensures AreLines(a + b)
  {
  }

  lemma {:induction false} LinesAreLines(messages: seq<Message>)
    requires forall i | 0 <= i < |messages| :: CanBeSent(messages[i])
    ensures AreLines(AllLines(messages))
    decreases |messages|
  {
    if messages != [] {
      MessageIsLines(messages[0]);
      LinesAreLines(messages[1..]);
      BothAreLines(MessageLines(messages[0]), AllLines(messages[1..]));
    }
  }

  /** Whatever messages are sent, one after the other, exactly these are received. */
  lemma StreamIsReceived(messages: seq<Message>) returns (events: seq<SseEvent>)
    requires forall i | 0 <= i < |messages| :: CanBeSent(messages[i])
    ensures AllReceived(messages, events) && StreamEvents(Unlines(AllLines(messages)), true) == events
  {
    LinesAreLines(messages);
    UnlinedLines(AllLines(messages));
    events := AllAreReceived(messages);
  }

  // ----- What makes no difference -----

  /** The lines mean the same whatever has been collected before. */
  ghost predicate SameAnywhere(u: seq<string>, v: seq<string>, ends: bool) {
    forall q :: EventsOf(q, u, ends) == EventsOf(q, v, ends)
  }

  lemma {:induction false} SameAfter(p: Pending, a: seq<string>, u: seq<string>, v: seq<string>, ends: bool)
    requires SameAnywhere(u, v, ends)
    ensures EventsOf(p, a + u, ends) == EventsOf(p, a + v, ends)
    decreases |a|
  {
    if a == [] {
      assert a + u == u && a + v == v;
    } else {
      SameAfter(AfterLine(p, a[0]), a[1..], u, v, ends);
      HeadFirst(a, u);
      HeadFirst(a, v);
      OneLine(p, a[0], a + u, a[1..] + u, ends);
      OneLine(p, a[0], a + v, a[1..] + v, ends);
    }
  }

  lemma OneLine(p: Pending, line: string, lines: seq<string>, rest: seq<string>, ends: bool)
    requires lines == [line] + rest
    ensures EventsOf(p, lines, ends) == LineEvents(p, line) + EventsOf(AfterLine(p, line), rest, ends)
  {
    assert lines[0] == line && lines[1..] == rest;
  }

  /** A line that is neither blank nor a name nor data, such as a comment. */
  predicate IsNoise(line: string) {
    var text := TrimCarriageReturns(line);
    text != "" && !("event:" <= text) && !("data:" <= text)
  }

  /** Other lines are ignored, wherever they are. */
  lemma NoiseIsIgnored(before: seq<string>, line: string, after: seq<string>, ends: bool)
    requires IsNoise(line)
    ensures EventsOf(Pending(None, []), before + ([line] + after), ends)
            == EventsOf(Pending(None, []), before + after, ends)
  {
    forall q ensures EventsOf(q, [line] + after, ends) == EventsOf(q, after, ends) {
      SilentFirst(q, line, q, [line] + after, after, ends);
    }
    SameAfter(Pending(None, []), before, [line] + after, after, ends);
  }

  /** Lines may end in a carriage return as well. */
  lemma ReturnsAreIgnored(before: seq<string>, line: string, after: seq<string>, ends: bool)
    ensures EventsOf(Pending(None, []), before + ([line + "\r"] + after), ends)
            == EventsOf(Pending(None, []), before + ([line] + after), ends)
  {
    assert (line + "\r")[..|line|] == line;
    assert TrimCarriageReturns(line + "\r") == TrimCarriageReturns(line);
    forall q ensures EventsOf(q, [line + "\r"] + after, ends) == EventsOf(q, [line] + after, ends) {
      assert ([line + "\r"] + after)[1..] == after && ([line] + after)[1..] == after;
    }
    SameAfter(Pending(None, []), before, [line + "\r"] + after, [line] + after, ends);
  }

  /** A second blank line adds nothing. */
  lemma BlanksAreIgnored(before: seq<string>, after: seq<string>, ends: bool)
    ensures EventsOf(Pending(None, []), before + (["", ""] + after), ends)
            == EventsOf(Pending(None, []), before + ([""] + after), ends)
  {
    forall q ensures EventsOf(q, ["", ""] + after, ends) == EventsOf(q, [""] + after, ends) {
      TwoBlanks(q, after, ends);
    }
    SameAfter(Pending(None, []), before, ["", ""] + after, [""] + after, ends);
  }

  lemma TwoBlanks(q: Pending, after: seq<string>, ends: bool)
    ensures EventsOf(q, ["", ""] + after, ends) == EventsOf(q, [""] + after, ends)
  {
    assert TrimCarriageReturns("") == "" && (["", ""] + after)[1..] == [""] + after && ([""] + after)[1..] == after;
    var r := AfterLine(q, "");
    assert LineEvents(r, "") == [] && AfterLine(r, "") == r;
    SilentFirst(r, "", r, [""] + after, after, ends);
  }

  /** A message without its blank line is received exactly if the stream comes to its end. */
  lemma LastIsReceivedIff(m: Message, ends: bool) returns (e: SseEvent)
    requires CanBeSent(m)
    ensures IsReceived(m, e)
    ensures EventsOf(Pending(None, []), FieldLines(m), ends) == if ends then [e] else []
  {
    var p := Pending(if m.event.Some? then Some(Trim(m.event.value)) else None, TrimAll(m.data));
    FieldsSilent(m);
    SilentLines(Pending(None, []), FieldLines(m), [], ends);
    assert FieldLines(m) + [] == FieldLines(m);
    JoinedIsUnlined(p.data);
    e := SseEvent(p.event, Join(p.data));
  }
}
