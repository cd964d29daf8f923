/**
 The client's parser for server-sent events, reading a response body chunk by chunk. Each chunk is
 decoded on its own; the events are those of a fold over the complete lines of the decoded text.
 */
module Sse {
  import opened Types
  import opened Text
  import opened Utf8

  datatype SseEvent = SseEvent(event: Option<string>, data: string)

  /** The fields collected since the last event. */
  datatype Pending = Pending(event: Option<string>, data: seq<string>)

  /** What reading the next chunk gives: some bytes, or an error of the connection. */
  datatype Chunk = Data(bytes: Bytes) | Broken

  predicate Breaks(chunks: seq<Chunk>) {
    Broken in chunks
  }

  /** The chunks that arrive before the connection breaks, if it does. */
  function Arriving(chunks: seq<Chunk>): seq<Bytes> {
    if chunks == [] || chunks[0].Broken? then [] else [chunks[0].bytes] + Arriving(chunks[1..])
  }

  /** The text they are decoded to. */
  function TextOf(chunks: seq<Chunk>): string {
    DecodeEach(Arriving(chunks))
  }

  /** The lines joined with newlines between them. */
  function Join(lines: seq<string>): string {
    if lines == [] then ""
    else if |lines| == 1 then lines[0]
    else lines[0] + "\n" + Join(lines[1..])
  }

  function TrimCarriageReturns(s: string): string {
    if s != "" && s[|s| - 1] == '\r' then TrimCarriageReturns(s[..|s| - 1]) else s
  }

  function FindNewline(s: string): (found: Option<nat>)
    ensures found.Some? ==> found.value < |s|
  {
    if s == "" then None
    else if s[0] == '\n' then Some(0)
    else
      match FindNewline(s[1..])
      case None => None
      case Some(i) => Some(i + 1)
  }

  /** The event the collected fields make up, if they hold any data. */
  function Flush(p: Pending): seq<SseEvent> {
    if p.data == [] then [] else [SseEvent(p.event, Join(p.data))]
  }

  /** What a line adds; a blank line ends an event only if data has been collected. */
  function AfterFields(p: Pending, line: string): Pending {
    if line == "" then (if p.data == [] then p else Pending(None, []))
    else if "event:" <= line then p.(event := Some(Trim(line[6..])))
    else if "data:" <= line then p.(data := p.data + [Trim(line[5..])])
    else p
  }

  function AfterLine(p: Pending, rawLine: string): Pending {
    AfterFields(p, TrimCarriageReturns(rawLine))
  }

  function LineEvents(p: Pending, rawLine: string): seq<SseEvent> {
    if TrimCarriageReturns(rawLine) == "" then Flush(p) else []
  }

  /** The lines of a text that are ended by a newline. */
  function CompleteLines(text: string): seq<string> {
    match FindNewline(text)
    case None => []
    case Some(i) => [text[..i]] + CompleteLines(text[i + 1..])
  }

  /** The events of a list of lines and, if the stream comes to its end, of the fields left over. */
  function EventsOf(p: Pending, lines: seq<string>, ends: bool): seq<SseEvent>
    decreases |lines|
  {
    if lines == [] then (if ends then Flush(p) else [])
    else LineEvents(p, lines[0]) + EventsOf(AfterLine(p, lines[0]), lines[1..], ends)
  }

  /** The events of a stream of characters. */
  function StreamEvents(text: string, ends: bool): seq<SseEvent> {
    EventsOf(Pending(None, []), CompleteLines(text), ends)
  }

  function Unlines(lines: seq<string>): string {
    if lines == [] then "" else lines[0] + "\n" + Unlines(lines[1..])
  }

  lemma {:induction false} FindNewlineIsFirst(s: string)
    ensures FindNewline(s).None? ==> '\n' !in s
    ensures FindNewline(s).Some? ==> s[FindNewline(s).value] == '\n' && '\n' !in s[..FindNewline(s).value]
  {
    if s != "" && s[0] != '\n' {
      FindNewlineIsFirst(s[1..]);
      assert s == [s[0]] + s[1..];
      if FindNewline(s).Some? {
        var n := FindNewline(s).value;
        assert s[..n] == [s[0]] + s[1..][..n - 1];
      }
    }
  }

  /** The complete lines contain no newline and, with a last partial line, make up the text. */
  lemma {:induction false} LinesCoverText(text: string) returns (tail: string)
    ensures Unlines(CompleteLines(text)) + tail == text && '\n' !in tail
    ensures forall line | line in CompleteLines(text) :: '\n' !in line
    decreases |text|
  {
    FindNewlineIsFirst(text);
    if FindNewline(text).None? {
      tail := text;
    } else {
      var i := FindNewline(text).value;
      tail := LinesCoverText(text[i + 1..]);
      LineCovers(text, i, CompleteLines(text[i + 1..]), tail);
    }
  }

  lemma LineCovers(text: string, i: nat, lines: seq<string>, tail: string)
    requires i < |text| && text[i] == '\n' && Unlines(lines) + tail == text[i + 1..]
    ensures Unlines([text[..i]] + lines) + tail == text
  {
    assert ([text[..i]] + lines)[1..] == lines;
    assert text == text[..i] + "\n" + text[i + 1..];
    assert text[..i] + "\n" + Unlines(lines) + tail == text[..i] + "\n" + (Unlines(lines) + tail);
  }

  lemma {:induction false} FindNewlineExtends(s: string, t: string)
    ensures FindNewline(s).Some? ==> FindNewline(s + t) == FindNewline(s)
  {
    if s != "" {
      assert (s + t)[1..] == s[1..] + t;
      FindNewlineExtends(s[1..], t);
    }
  }

  /** Taking the first line of the buffer off takes its events off the front. */
  lemma FirstLine(p: Pending, buf: string, later: string, newline: nat, ends: bool)
    requires FindNewline(buf) == Some(newline)
    ensures EventsOf(p, CompleteLines(buf + later), ends)
            == LineEvents(p, buf[..newline])
               + EventsOf(AfterLine(p, buf[..newline]), CompleteLines(buf[newline + 1..] + later), ends)
  {
    var all := buf + later;
    FindNewlineExtends(buf, later);
    assert all[..newline] == buf[..newline] && all[newline + 1..] == buf[newline + 1..] + later;
    var rest := CompleteLines(buf[newline + 1..] + later);
    assert CompleteLines(all) == [buf[..newline]] + rest;
    assert ([buf[..newline]] + rest)[1..] == rest;
  }

  datatype ReadError = ConnectionBroken

  class SseStream {
    var chunks: seq<Chunk>
    var buf: string
    var currentEvent: Option<string>
    var currentData: seq<string>

    /** What will be read: the events of the buffer followed by the chunks still to come. */
    ghost function Remaining(): seq<SseEvent>
      reads this
    {
      EventsOf(Pending(currentEvent, currentData), CompleteLines(buf + TextOf(chunks)), !Breaks(chunks))
    }

    constructor (body: seq<Chunk>)
      ensures chunks == body && Remaining() == StreamEvents(TextOf(body), !Breaks(body))
    {
      chunks, buf, currentEvent, currentData := body, "", None, [];
      new;
      assert buf + TextOf(body) == TextOf(body);
    }

    /** The next event, or none at the end of the stream, or an error when the connection breaks. */
    method NextEvent() returns (r: Result<Option<SseEvent>, ReadError>)
      modifies this
      ensures r.Ok? && r.value.Some? ==>
                old(Remaining()) == [r.value.value] + Remaining() && Breaks(chunks) == old(Breaks(chunks))
      ensures r.Ok? && r.value.None? ==> old(Remaining()) == [] && !old(Breaks(chunks))
      ensures r.Err? ==> old(Remaining()) == [] && old(Breaks(chunks))
    {
      while true
        invariant Remaining() == old(Remaining()) && Breaks(chunks) == old(Breaks(chunks))
        decreases |chunks|
      {
        var event := ProcessBufferedLines();
        if event.Some? {
          return Ok(event);
        }
        if chunks == [] {
          assert buf + TextOf(chunks) == buf;
          if currentData != [] {
            event := Some(SseEvent(currentEvent, Join(currentData)));
            currentEvent, currentData := None, [];
          }
          return Ok(event);
        }
        if chunks[0].Broken? {
          assert buf + TextOf(chunks) == buf;
          chunks := chunks[1..];
          return Err(ConnectionBroken);
        }
        NextChunk(chunks, buf);
        buf, chunks := buf + DecodeLossy(chunks[0].bytes), chunks[1..];
      }
    }

    /** Consume complete lines of the buffer up to the next event; none if more input is needed. */
    method ProcessBufferedLines() returns (event: Option<SseEvent>)
      modifies this
      ensures chunks == old(chunks)
      ensures event.Some? ==> old(Remaining()) == [event.value] + Remaining()
      ensures event.None? ==> old(Remaining()) == Remaining() && FindNewline(buf).None?
    {
      event := None;
      var newline := FindNewline(buf);
      while newline.Some? && event.None?
        invariant chunks == old(chunks) && newline == FindNewline(buf)
        invariant if event.Some? then old(Remaining()) == [event.value] + Remaining() else old(Remaining()) == Remaining()
        decreases |buf|
      {
        event := TakeLine(newline.value);
        newline := FindNewline(buf);
      }
    }

    /** Consume the first line of the buffer; a blank one may end an event. */
    method TakeLine(newline: nat) returns (event: Option<SseEvent>)
      requires FindNewline(buf) == Some(newline)
      modifies this
      ensures chunks == old(chunks) && |buf| < |old(buf)|
      ensures if event.Some? then old(Remaining()) == [event.value] + Remaining() else old(Remaining()) == Remaining()
    {
      FirstLine(Pending(currentEvent, currentData), buf, TextOf(chunks), newline, !Breaks(chunks));
      var line := TrimCarriageReturns(buf[..newline]);
      buf := buf[newline + 1..];
      event := TakeFields(line);
    }

    /** Collect the field of a line; a blank one ends an event if there is data. */
    method TakeFields(line: string) returns (event: Option<SseEvent>)
      modifies this`currentEvent, this`currentData
      ensures var p := old(Pending(currentEvent, currentData));
              && Pending(currentEvent, currentData) == AfterFields(p, line)
              && (if event.Some? then [event.value] else []) == if line == "" then Flush(p) else []
    {
      event := None;
      if line == "" {
        if currentData != [] {
          event := Some(SseEvent(currentEvent, Join(currentData)));
          currentEvent, currentData := None, [];
        }
      } else if "event:" <= line {
        currentEvent := Some(Trim(line[6..]));
      } else if "data:" <= line {
        currentData := currentData + [Trim(line[5..])];
      }
    }

    /** All events to the end of the stream, or until the connection breaks. */
    method ReadAll() returns (events: seq<SseEvent>, ok: bool)
      modifies this
      ensures events == old(Remaining()) && (ok <==> !old(Breaks(chunks)))
    {
      events := [];
      while true
        invariant events + Remaining() == old(Remaining()) && Breaks(chunks) == old(Breaks(chunks))
        decreases |Remaining()|
      {
        var r := NextEvent();
        if r.Err? || r.value.None? {
          ok := r.Ok?;
          return;
        }
        events := events + [r.value.value];
      }
    }
  }

  lemma NextChunk(chunks: seq<Chunk>, buf: string)
    requires chunks != [] && chunks[0].Data?
    ensures buf + DecodeLossy(chunks[0].bytes) + TextOf(chunks[1..]) == buf + TextOf(chunks)
    ensures Breaks(chunks[1..]) == Breaks(chunks)
  {
    assert Arriving(chunks)[1..] == Arriving(chunks[1..]);
    assert chunks == [chunks[0]] + chunks[1..];
  }

  /** The events read are those of the text that the chunks, each on its own, are decoded to. */
  method ReadEvents(body: seq<Chunk>) returns (events: seq<SseEvent>, ok: bool)
    ensures events == StreamEvents(TextOf(body), ok) && (ok <==> !Breaks(body))
  {
    var stream := new SseStream(body);
    events, ok := stream.ReadAll();
  }

  // ----- Chunks -----

  function Whole(chunks: seq<Bytes>): seq<Chunk> {
    seq(|chunks|, i requires 0 <= i < |chunks| => Data(chunks[i]))
  }

  lemma {:induction false} WholeArrives(chunks: seq<Bytes>)
    ensures !Breaks(Whole(chunks)) && Arriving(Whole(chunks)) == chunks
  {
    if chunks != [] {
      WholeArrives(chunks[1..]);
      assert Whole(chunks)[1..] == Whole(chunks[1..]);
      assert [chunks[0]] + chunks[1..] == chunks;
    }
  }

  /**
   Chunk invariance: a text that is sent in chunks is received as it was sent exactly if no chunk
   ends inside a character, and then its events are those of the text.
   */
  lemma TextArrivesIff(text: string, chunks: seq<Bytes>)
    requires Joined(chunks) == Encode(text)
    ensures TextOf(Whole(chunks)) == text <==> CutsClean(chunks)
    ensures CutsClean(chunks) ==> StreamEvents(TextOf(Whole(chunks)), true) == StreamEvents(text, true)
  {
    WholeArrives(chunks);
    EncodedIsDecoded(text);
    ChunksDecodeIff(chunks);
  }

  lemma OneLine(line: string)
    requires '\n' !in line
    ensures CompleteLines(line + "\n\n") == [line, ""]
  {
    var text := line + "\n\n";
    FirstNewline(line, "\n");
    assert text == line + "\n" + "\n" && text[|line| + 1..] == "\n" && text[..|line|] == line;
    assert CompleteLines("\n") == [""] by { assert "\n"[..0] == "" && "\n"[1..] == ""; }
  }

  /** The events of one line of data and a blank line. */
  lemma OneDataLine(x: string)
    requires x != "" && '\n' !in x && x[|x| - 1] != '\r'
    ensures StreamEvents("data:" + x + "\n\n", true) == [SseEvent(None, Trim(x))]
  {
    OneLine("data:" + x);
    DataField(x);
    TwoLines("data:" + x, Trim(x));
  }

  lemma DataField(x: string)
    requires x != "" && x[|x| - 1] != '\r'
    ensures AfterLine(Pending(None, []), "data:" + x) == Pending(None, [Trim(x)])
    ensures LineEvents(Pending(None, []), "data:" + x) == []
  {
    var line := "data:" + x;
    assert line[|line| - 1] == x[|x| - 1] && line[5..] == x;
    assert TrimCarriageReturns(line) == line;
    assert line[0] == 'd' && "event:"[0] == 'e';
  }

  lemma TwoLines(line: string, data: string)
    requires AfterLine(Pending(None, []), line) == Pending(None, [data]) && LineEvents(Pending(None, []), line) == []
    ensures EventsOf(Pending(None, []), [line, ""], true) == [SseEvent(None, data)]
  {
    var p := Pending(None, [data]);
    assert [line, ""][1..] == [""] && [""][1..] == [];
    assert EventsOf(p, [""], true) == LineEvents(p, "") + EventsOf(AfterLine(p, ""), [], true);
    assert TrimCarriageReturns("") == "" && Join([data]) == data;
  }

  lemma {:induction false} FirstNewline(line: string, rest: string)
    requires '\n' !in line
    ensures FindNewline(line + "\n" + rest) == Some(|line|)
  {
    if line != "" {
      assert (line + "\n" + rest)[1..] == line[1..] + "\n" + rest;
      FirstNewline(line[1..], rest);
    }
  }

  /** A character of two bytes. */
  function Accent(): string {
    ['\U{E9}']
  }

  /** An event that holds it, cut inside it. */
  function CutBody(): seq<Bytes> {
    [Encode("data:") + [0xC3], [0xA9] + Encode("\n\n")]
  }

  lemma CutBodyIsSent()
    ensures Joined(CutBody()) == Encode("data:" + Accent() + "\n\n")
  {
    var chunks := CutBody();
    EncodeConcat("data:", Accent());
    EncodeConcat("data:" + Accent(), "\n\n");
    assert Encode(Accent()) == [0xC3, 0xA9] by { assert Accent()[1..] == ""; }
    assert Joined(chunks[1..]) == chunks[1] + [] == chunks[1];
    assert Encode("data:") + [0xC3] + ([0xA9] + Encode("\n\n")) == Encode("data:") + [0xC3, 0xA9] + Encode("\n\n");
  }

  lemma CutBodyText()
    ensures TextOf(Whole(CutBody())) == "data:" + [REPLACEMENT, REPLACEMENT] + "\n\n"
  {
    var chunks := CutBody();
    WholeArrives(chunks);
    EncodedPrefix("data:", [0xC3]);
    assert DecodeLossy([0xC3]) == [REPLACEMENT];
    LooseByte("\n\n");
    assert DecodeEach(chunks[1..]) == DecodeLossy(chunks[1]) + "";
    assert "data:" + [REPLACEMENT] + ([REPLACEMENT] + "\n\n") == "data:" + [REPLACEMENT, REPLACEMENT] + "\n\n";
  }

  lemma LooseByte(s: string)
    ensures DecodeLossy([0xA9] + Encode(s)) == [REPLACEMENT] + s
  {
    var bytes: Bytes := [0xA9] + Encode(s);
    assert bytes[1..] == Encode(s);
    EncodedIsDecoded(s);
  }

  /** The character is lost: the event holds two replacement characters instead. */
  lemma CutChangesEvents()
    ensures Joined(CutBody()) == Encode("data:" + Accent() + "\n\n")
    ensures StreamEvents("data:" + Accent() + "\n\n", true) == [SseEvent(None, Accent())]
    ensures StreamEvents(TextOf(Whole(CutBody())), true) == [SseEvent(None, [REPLACEMENT, REPLACEMENT])]
  {
    CutBodyIsSent();
    SentEvents();
    CutBodyEvents();
  }

  lemma SentEvents()
    ensures StreamEvents("data:" + Accent() + "\n\n", true) == [SseEvent(None, Accent())]
  {
    OneDataLine(Accent());
  }

  lemma CutBodyEvents()
    ensures StreamEvents(TextOf(Whole(CutBody())), true) == [SseEvent(None, [REPLACEMENT, REPLACEMENT])]
  {
    CutBodyText();
    ReplacedEvents();
  }

  lemma ReplacedEvents()
    ensures StreamEvents("data:" + [REPLACEMENT, REPLACEMENT] + "\n\n", true) == [SseEvent(None, [REPLACEMENT, REPLACEMENT])]
  {
    OneDataLine([REPLACEMENT, REPLACEMENT]);
    assert !IsWhitespace(REPLACEMENT);
  }

  /** A comment line that holds the character, cut inside it. */
  function CutComment(): seq<Bytes> {
    [Encode(":") + [0xC3], [0xA9] + Encode("\n")]
  }

  lemma CommentLine(x: string)
    requires '\n' !in x && x != "" && x[|x| - 1] != '\r'
    ensures StreamEvents(":" + x + "\n", true) == []
  {
    var line, text := ":" + x, ":" + x + "\n";
    FirstNewline(line, "");
    assert text == line + "\n" + "" && text[..|line|] == line && text[|line| + 1..] == "";
    assert CompleteLines(text) == [line] + [];
    assert line[|line| - 1] != '\r' && line[0] == ':' && "event:"[0] == 'e' && "data:"[0] == 'd';
    assert TrimCarriageReturns(line) == line;
    var p := Pending(None, []);
    assert EventsOf(p, [line], true) == LineEvents(p, line) + EventsOf(AfterLine(p, line), [], true);
  }

  lemma CutCommentText()
    ensures Joined(CutComment()) == Encode(":" + Accent() + "\n")
    ensures TextOf(Whole(CutComment())) == ":" + [REPLACEMENT, REPLACEMENT] + "\n"
  {
    var chunks := CutComment();
    EncodeConcat(":", Accent());
    EncodeConcat(":" + Accent(), "\n");
    assert Encode(Accent()) == [0xC3, 0xA9] by { assert Accent()[1..] == ""; }
    assert Joined(chunks[1..]) == chunks[1] + [] == chunks[1];
    assert Encode(":") + [0xC3] + ([0xA9] + Encode("\n")) == Encode(":") + [0xC3, 0xA9] + Encode("\n");
    WholeArrives(chunks);
    EncodedPrefix(":", [0xC3]);
    assert DecodeLossy([0xC3]) == [REPLACEMENT];
    LooseByte("\n");
    assert DecodeEach(chunks[1..]) == DecodeLossy(chunks[1]) + "";
    assert ":" + [REPLACEMENT] + ([REPLACEMENT] + "\n") == ":" + [REPLACEMENT, REPLACEMENT] + "\n";
  }

  /** A cut can also go unnoticed: the text is not the one that was sent, but its events are. */
  lemma CutMayNotMatter()
    ensures Joined(CutComment()) == Encode(":" + Accent() + "\n")
    ensures TextOf(Whole(CutComment())) != ":" + Accent() + "\n"
    ensures StreamEvents(TextOf(Whole(CutComment())), true) == StreamEvents(":" + Accent() + "\n", true)
  {
    CutCommentText();
    CommentLine(Accent());
    CommentLine([REPLACEMENT, REPLACEMENT]);
    assert |":" + Accent() + "\n"| == 3 && |":" + [REPLACEMENT, REPLACEMENT] + "\n"| == 4;
  }
}
