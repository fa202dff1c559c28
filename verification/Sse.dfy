/**
 The wire format of the two streams: the printers of the controllers, the line loop of the SDK, and
 the interpretation of an event stream in section 9.2.6 of the HTML Living Standard.

 That section starts every stream with an empty last-event-ID buffer; browsers start it with the last
 event ID they have.  The reader here takes the buffer to start with as a parameter.

 Payloads are already-printed JSON; decoding them is not part of this model.
 */
module Sse {
  import opened Basics
  import opened Text

  /** A frame to print; `id` is the optional id line. */
  datatype Frame = Frame(event: string, id: Option<nat>, data: string)

  /** What a reader gets out of one frame. */
  datatype Message = Message(event: string, data: string)

  function HeadLines(f: Frame): seq<string> {
    ["event: " + f.event] + if f.id.None? then [] else ["id: " + Decimal(f.id.value)]
  }

  function FrameLines(f: Frame): seq<string> {
    HeadLines(f) + ["data: " + f.data, ""]
  }

  /** Every line is followed by a line feed. */
  function Terminated(lines: seq<string>): string {
    if |lines| == 0 then "" else lines[0] + "\n" + Terminated(lines[1..])
  }

  function Print(f: Frame): string {
    Terminated(FrameLines(f))
  }

  function PrintAll(frames: seq<Frame>): string {
    if |frames| == 0 then "" else Print(frames[0]) + PrintAll(frames[1..])
  }

  // ---------------------------------------------------------------------------------------------
  // Lines
  // ---------------------------------------------------------------------------------------------

  /**
   Line boundaries: the three of the standard, or those of `str.splitlines`, which the SDK's HTTP
   client uses.
   */
  datatype Boundaries = Standard | SplitLines

  predicate IsBreak(c: char, b: Boundaries) {
    || c == '\n' || c == '\r'
    || (b.SplitLines?
        && (c == '\U{000B}' || c == '\U{000C}' || '\U{001C}' <= c <= '\U{001E}'
            || c == '\U{0085}' || c == '\U{2028}' || c == '\U{2029}'))
  }

  /** The lines of a text; `line` is the part of the current line already read. */
  function Lines(text: string, line: string, b: Boundaries): seq<string>
    decreases |text|
  {
    if |text| == 0 then (if |line| == 0 then [] else [line])
    else if !IsBreak(text[0], b) then Lines(text[1..], line + [text[0]], b)
    else if text[0] == '\r' && |text| > 1 && text[1] == '\n' then [line] + Lines(text[2..], "", b)
    else [line] + Lines(text[1..], "", b)
  }

  /** No character of `s` ends a line, under either reading. */
  predicate OneLine(s: string) {
    forall i :: 0 <= i < |s| ==> !IsBreak(s[i], SplitLines)
  }

  lemma {:induction false} LinesOfText(part: string, rest: string, line: string, b: Boundaries)
    requires OneLine(part)
    ensures Lines(part + rest, line, b) == Lines(rest, line + part, b)
    decreases |part|
  {
    if |part| == 0 {
      assert part + rest == rest && line + part == line;
    } else {
      assert (part + rest)[1..] == part[1..] + rest;
      assert line + [part[0]] + part[1..] == line + part;
      LinesOfText(part[1..], rest, line + [part[0]], b);
    }
  }

  lemma LinesOfOne(line: string, rest: string, b: Boundaries)
    requires OneLine(line)
    ensures Lines(line + "\n" + rest, "", b) == [line] + Lines(rest, "", b)
  {
    var tail := "\n" + rest;
    assert line + "\n" + rest == line + tail && tail[1..] == rest;
    LinesOfText(line, tail, "", b);
    assert "" + line == line;
  }

  lemma {:induction false} LinesOfTerminated(lines: seq<string>, rest: string, b: Boundaries)
    requires forall i :: 0 <= i < |lines| ==> OneLine(lines[i])
    ensures Lines(Terminated(lines) + rest, "", b) == lines + Lines(rest, "", b)
    decreases |lines|
  {
    if |lines| == 0 {
      assert Terminated(lines) + rest == rest;
    } else {
      var below := Terminated(lines[1..]) + rest;
      assert Terminated(lines) + rest == lines[0] + "\n" + below;
      LinesOfOne(lines[0], below, b);
      LinesOfTerminated(lines[1..], rest, b);
      assert lines == [lines[0]] + lines[1..];
    }
  }

  // ---------------------------------------------------------------------------------------------
  // The SDK's reader
  // ---------------------------------------------------------------------------------------------

  predicate StartsWith(s: string, prefix: string) {
    prefix <= s
  }

  datatype Sdk = Sdk(event: string, data: seq<string>, out: seq<Message>)

  const SDK_START := Sdk("message", [], [])

  function JoinLines(lines: seq<string>): string {
    if |lines| == 0 then ""
    else if |lines| == 1 then lines[0]
    else JoinLines(lines[..|lines| - 1]) + "\n" + lines[|lines| - 1]
  }

  function EventName(line: string): string
    requires StartsWith(line, "event:")
  {
    var name := Strip(line[6..]);
    if name == "" then "message" else name
  }

  function SdkLine(s: Sdk, line: string): Sdk {
    if line == "" then
      Sdk("message", [], if |s.data| > 0 then s.out + [Message(s.event, JoinLines(s.data))] else s.out)
    else if StartsWith(line, ":") then s
    else if StartsWith(line, "event:") then s.(event := EventName(line))
    else if StartsWith(line, "data:") then s.(data := s.data + [LStrip(line[5..])])
    else s
  }

  function SdkLines(s: Sdk, lines: seq<string>): Sdk
    decreases |lines|
  {
    if |lines| == 0 then s else SdkLines(SdkLine(s, lines[0]), lines[1..])
  }

  /** A payload's own cursor if it has one, else the number of messages before it. */
  predicate CursorsAre(cursors: seq<int>, messages: seq<Message>, cursorIn: string -> Option<int>) {
    |cursors| == |messages|
    && forall k :: 0 <= k < |cursors| ==>
         cursors[k] == match cursorIn(messages[k].data) case Some(c) => c case None => k
  }

  /**
   The line loop of `_sse`, and of `query_stream`, which finds no cursor in any payload; `cursorIn` is
   what decoding a payload finds.
   */
  method ReadStream(lines: seq<string>, cursorIn: string -> Option<int>) returns (messages: seq<Message>, cursors: seq<int>)
    ensures messages == SdkLines(SDK_START, lines).out
    ensures CursorsAre(cursors, messages, cursorIn)
  {
    var eventType, dataLines, cursorCounter := "message", [], 0;
    messages, cursors := [], [];
    var n := 0;
    assert lines[0..] == lines;
    while n < |lines|
      invariant 0 <= n <= |lines|
      invariant SdkLines(Sdk(eventType, dataLines, messages), lines[n..]) == SdkLines(SDK_START, lines)
      invariant CursorsAre(cursors, messages, cursorIn) && cursorCounter == |messages|
    {
      var line := lines[n];
      assert lines[n..][1..] == lines[n + 1..];
      n := n + 1;
      if line == "" {
        if |dataLines| > 0 {
          var raw := JoinLines(dataLines);
          cursors := cursors + [match cursorIn(raw) case Some(c) => c case None => cursorCounter];
          cursorCounter := cursorCounter + 1;
          messages := messages + [Message(eventType, raw)];
        }
        eventType, dataLines := "message", [];
        continue;
      }
      if StartsWith(line, ":") {
        continue;
      }
      if StartsWith(line, "event:") {
        eventType := EventName(line);
      } else if StartsWith(line, "data:") {
        dataLines := dataLines + [LStrip(line[5..])];
      }
    }
  }

  lemma {:induction false} SdkAppends(s: Sdk, a: seq<string>, b: seq<string>)
    ensures SdkLines(s, a + b) == SdkLines(SdkLines(s, a), b)
    decreases |a|
  {
    if |a| == 0 {
      assert a + b == b;
    } else {
      assert (a + b)[1..] == a[1..] + b;
      SdkAppends(SdkLine(s, a[0]), a[1..], b);
    }
  }

  // ---------------------------------------------------------------------------------------------
  // The standard's reader
  // ---------------------------------------------------------------------------------------------

  /** Buffers of section 9.2.6: event type, data, last event ID, and the ID already committed. */
  datatype Html = Html(event: string, data: string, idBuffer: string, lastId: string, out: seq<Message>)

  /** A new stream, with this ID buffer, of a reader whose last event ID is `lastId`. */
  function HtmlStart(idBuffer: string, lastId: string): Html {
    Html("", "", idBuffer, lastId, [])
  }

  function Colon(line: string): (i: nat)
    ensures i <= |line|
    ensures forall j :: 0 <= j < i ==> line[j] != ':'
    ensures i < |line| ==> line[i] == ':'
  {
    if |line| == 0 || line[0] == ':' then 0 else 1 + Colon(line[1..])
  }

  function FieldName(line: string): string {
    line[..Colon(line)]
  }

  /** What follows the colon, without one leading space. */
  function FieldValue(line: string): string {
    if Colon(line) == |line| then ""
    else
      var value := line[Colon(line) + 1..];
      if |value| > 0 && value[0] == ' ' then value[1..] else value
  }

  function HtmlField(s: Html, name: string, value: string): Html {
    if name == "event" then s.(event := value)
    else if name == "data" then s.(data := s.data + value + "\n")
    else if name == "id" && '\0' !in value then s.(idBuffer := value)
    else s
  }

  function HtmlDispatch(s: Html): Html {
    var sent :=
      if s.data == "" then s.out
      else s.out + [Message(if s.event == "" then "message" else s.event, s.data[..|s.data| - 1])];
    Html("", "", s.idBuffer, s.idBuffer, sent)
  }

  function HtmlLine(s: Html, line: string): Html {
    if line == "" then HtmlDispatch(s)
    else if line[0] == ':' then s
    else HtmlField(s, FieldName(line), FieldValue(line))
  }

  function HtmlLines(s: Html, lines: seq<string>): Html
    decreases |lines|
  {
    if |lines| == 0 then s else HtmlLines(HtmlLine(s, lines[0]), lines[1..])
  }

  lemma {:induction false} HtmlAppends(s: Html, a: seq<string>, b: seq<string>)
    ensures HtmlLines(s, a + b) == HtmlLines(HtmlLines(s, a), b)
    decreases |a|
  {
    if |a| == 0 {
      assert a + b == b;
    } else {
      assert (a + b)[1..] == a[1..] + b;
      HtmlAppends(HtmlLine(s, a[0]), a[1..], b);
    }
  }

  // ---------------------------------------------------------------------------------------------
  // Printable frames
  // ---------------------------------------------------------------------------------------------

  predicate Trimmed(s: string) {
    |s| > 0 ==> !IsSpace(s[0]) && !IsSpace(s[|s| - 1])
  }

  /** One line each, a name without blanks around it, a payload without leading blanks. */
  predicate Printable(f: Frame) {
    && OneLine(f.event) && OneLine(f.data)
    && |f.event| > 0 && Trimmed(f.event)
    && (|f.data| > 0 ==> !IsSpace(f.data[0]))
  }

  predicate AllPrintable(frames: seq<Frame>) {
    forall i :: 0 <= i < |frames| ==> Printable(frames[i])
  }

  /** What `json.dumps` of an object looks like: printable ASCII, starting with a brace. */
  predicate JsonObject(data: string) {
    |data| > 0 && data[0] == '{' && forall i :: 0 <= i < |data| ==> ' ' <= data[i] <= '~'
  }

  lemma JsonFramesArePrintable(event: string, id: Option<nat>, data: string)
    requires event in {"status", "event", "hit", "final", "error"} && JsonObject(data)
    ensures Printable(Frame(event, id, data))
  {
  }

  function Messages(frames: seq<Frame>): seq<Message> {
    if |frames| == 0 then []
    else [Message(frames[0].event, frames[0].data)] + Messages(frames[1..])
  }

  /** The id line printed last, or the one known before. */
  function LastId(frames: seq<Frame>, before: string): string {
    if |frames| == 0 then before
    else LastId(frames[1..], if frames[0].id.None? then before else Decimal(frames[0].id.value))
  }

  lemma PrintedLinesAreSingle(f: Frame)
    requires Printable(f)
    ensures forall i :: 0 <= i < |FrameLines(f)| ==> OneLine(FrameLines(f)[i])
  {
    if f.id.Some? { DecimalIsDigits(f.id.value); }
  }

  lemma SdkTwo(s: Sdk, a: string, b: string)
    ensures SdkLines(s, [a]) == SdkLine(s, a)
    ensures SdkLines(s, [a, b]) == SdkLine(SdkLine(s, a), b)
  {
    assert [a][1..] == [] && [a, b][1..] == [b] && [b][1..] == [];
    assert SdkLines(SdkLine(s, a), [b]) == SdkLines(SdkLine(SdkLine(s, a), b), []);
  }

  lemma SdkFields(s: Sdk, f: Frame)
    requires Printable(f)
    ensures SdkLine(s, "event: " + f.event) == s.(event := f.event)
    ensures SdkLine(s, "data: " + f.data) == s.(data := s.data + [f.data])
    ensures f.id.Some? ==> SdkLine(s, "id: " + Decimal(f.id.value)) == s
  {
    var name, data := "event: " + f.event, "data: " + f.data;
    assert name[0] == 'e' && name[..6] == "event:" && name[6..] == " " + f.event;
    assert data[0] == 'd' && data[..5] == "data:" && data[5..] == " " + f.data;
    LStripBlank(f.event);
    StripKeeps(f.event);
    LStripBlank(f.data);
    if f.id.Some? { assert ("id: " + Decimal(f.id.value))[0] == 'i'; }
  }

  /** The SDK reads a printed frame back, and is then in its start state again. */
  lemma SdkReadsFrame(f: Frame, out: seq<Message>)
    requires Printable(f)
    ensures SdkLines(SDK_START.(out := out), FrameLines(f)) == SDK_START.(out := out + [Message(f.event, f.data)])
  {
    var s0 := SDK_START.(out := out);
    var s1 := s0.(event := f.event);
    SdkFields(s0, f);
    SdkFields(s1, f);
    SdkAppends(s0, HeadLines(f), ["data: " + f.data, ""]);
    SdkTwo(s0, "event: " + f.event, if f.id.None? then "" else "id: " + Decimal(f.id.value));
    SdkTwo(s1, "data: " + f.data, "");
  }

  lemma LStripBlank(s: string)
    requires |s| > 0 ==> !IsSpace(s[0])
    ensures LStrip(" " + s) == s
  {
    assert (" " + s)[1..] == s;
  }

  lemma ColonIs(line: string, name: string, value: string)
    requires line == name + ": " + value && ':' !in name
    ensures FieldName(line) == name && FieldValue(line) == value
  {
    assert line[|name|] == ':';
    assert forall j :: 0 <= j < |name| ==> line[j] == name[j];
    assert Colon(line) == |name|;
    assert line[|name| + 1..] == " " + value;
  }

  lemma HtmlTwo(s: Html, a: string, b: string)
    ensures HtmlLines(s, [a]) == HtmlLine(s, a)
    ensures HtmlLines(s, [a, b]) == HtmlLine(HtmlLine(s, a), b)
  {
    assert [a][1..] == [] && [a, b][1..] == [b] && [b][1..] == [];
    assert HtmlLines(HtmlLine(s, a), [b]) == HtmlLines(HtmlLine(HtmlLine(s, a), b), []);
  }

  lemma HtmlFields(s: Html, f: Frame)
    ensures HtmlLine(s, "event: " + f.event) == s.(event := f.event)
    ensures HtmlLine(s, "data: " + f.data) == s.(data := s.data + f.data + "\n")
    ensures f.id.Some? ==> HtmlLine(s, "id: " + Decimal(f.id.value)) == s.(idBuffer := Decimal(f.id.value))
  {
    ColonIs("event: " + f.event, "event", f.event);
    ColonIs("data: " + f.data, "data", f.data);
    if f.id.Some? {
      ColonIs("id: " + Decimal(f.id.value), "id", Decimal(f.id.value));
      DecimalIsDigits(f.id.value);
    }
  }

  /** The lines before the payload set the event type and, if there is an id line, the ID buffer. */
  lemma HtmlReadsHead(s: Html, f: Frame)
    requires Printable(f)
    ensures HtmlLines(s, HeadLines(f)) == s.(event := f.event, idBuffer := LastId([f], s.idBuffer))
  {
    var name, idLine := "event: " + f.event, if f.id.None? then "" else "id: " + Decimal(f.id.value);
    HtmlFields(s, f);
    HtmlFields(s.(event := f.event), f);
    HtmlTwo(s, name, idLine);
    assert [f][1..] == [];
    if f.id.None? { assert HeadLines(f) == [name]; } else { assert HeadLines(f) == [name, idLine]; }
  }

  lemma HtmlDispatches(s: Html, data: string)
    requires s.data == data + "\n" && s.event != ""
    ensures HtmlDispatch(s) == HtmlStart(s.idBuffer, s.idBuffer).(out := s.out + [Message(s.event, data)])
  {
    assert (data + "\n")[..|data|] == data;
  }

  lemma HtmlDataLine(s: Html, data: string)
    requires s.data == ""
    ensures HtmlLine(s, "data: " + data) == s.(data := data + "\n")
  {
    ColonIs("data: " + data, "data", data);
    assert "" + data + "\n" == data + "\n";
  }

  /** The payload and the blank line after it dispatch one message. */
  lemma HtmlReadsPayload(s: Html, f: Frame)
    requires Printable(f) && s.event == f.event && s.data == ""
    ensures HtmlLines(s, ["data: " + f.data, ""])
            == HtmlStart(s.idBuffer, s.idBuffer).(out := s.out + [Message(f.event, f.data)])
  {
    HtmlDataLine(s, f.data);
    HtmlDispatches(s.(data := f.data + "\n"), f.data);
    HtmlTwo(s, "data: " + f.data, "");
  }

  /** The standard reads the same message, and takes over the id line if there is one. */
  lemma HtmlReadsFrame(f: Frame, idBuffer: string, lastId: string, out: seq<Message>)
    requires Printable(f)
    ensures var id := LastId([f], idBuffer);
            HtmlLines(HtmlStart(idBuffer, lastId).(out := out), FrameLines(f))
            == HtmlStart(id, id).(out := out + [Message(f.event, f.data)])
  {
    var s0 := HtmlStart(idBuffer, lastId).(out := out);
    HtmlAppends(s0, HeadLines(f), ["data: " + f.data, ""]);
    HtmlReadsHead(s0, f);
    HtmlReadsPayload(HtmlLines(s0, HeadLines(f)), f);
  }

  // ---------------------------------------------------------------------------------------------
  // Round trip, also of a stream that breaks off anywhere
  // ---------------------------------------------------------------------------------------------

  /** How many frames are complete in the first `n` characters of their printed form. */
  function Whole(frames: seq<Frame>, n: nat): (k: nat)
    ensures k <= |frames|
    decreases |frames|
  {
    if |frames| == 0 || n < |Print(frames[0])| then 0
    else 1 + Whole(frames[1..], n - |Print(frames[0])|)
  }

  /** No two line breaks in a row: then no line but perhaps the first is empty. */
  predicate NoBlankLine(text: string) {
    forall i :: 0 <= i < |text| - 1 ==> !(IsBreak(text[i], SplitLines) && IsBreak(text[i + 1], SplitLines))
  }

  lemma {:induction false} NoEmptyLines(text: string, line: string, b: Boundaries)
    requires NoBlankLine(text)
    requires |line| > 0 || |text| == 0 || !IsBreak(text[0], SplitLines)
    ensures "" !in Lines(text, line, b)
    decreases |text|
  {
    if |text| > 0 {
      forall i | 0 <= i < |text[1..]| - 1
        ensures !(IsBreak(text[1..][i], SplitLines) && IsBreak(text[1..][i + 1], SplitLines))
      {
        assert text[1..][i] == text[i + 1] && text[1..][i + 1] == text[i + 2];
      }
      if !IsBreak(text[0], b) {
        NoEmptyLines(text[1..], line + [text[0]], b);
      } else {
        if |text| > 1 { assert !IsBreak(text[0 + 1], SplitLines); }
        NoEmptyLines(text[1..], "", b);
      }
    }
  }

  /** Lines that are single and not empty leave no blank line when printed. */
  lemma {:induction false} TerminatedHasNoBlankLine(lines: seq<string>)
    requires forall i :: 0 <= i < |lines| ==> OneLine(lines[i]) && |lines[i]| > 0
    ensures NoBlankLine(Terminated(lines))
    ensures |lines| > 0 ==> !IsBreak(Terminated(lines)[0], SplitLines)
    decreases |lines|
  {
    if |lines| > 0 {
      TerminatedHasNoBlankLine(lines[1..]);
      var text, tail, n := Terminated(lines), Terminated(lines[1..]), |lines[0]|;
      forall i | 0 <= i < |text| - 1 ensures !(IsBreak(text[i], SplitLines) && IsBreak(text[i + 1], SplitLines)) {
        if i < n {
          assert text[i] == lines[0][i];
        } else {
          assert text[i + 1] == tail[i - n];
          if i > n { assert text[i] == tail[i - n - 1]; }
        }
      }
    }
  }

  /** The frame without its final blank line. */
  lemma PrintIsBodyAndBlank(f: Frame)
    requires Printable(f)
    ensures var body := Terminated(HeadLines(f) + ["data: " + f.data]);
            Print(f) == body + "\n" && NoBlankLine(body) && !IsBreak(body[0], SplitLines)
  {
    var lines := HeadLines(f) + ["data: " + f.data];
    assert FrameLines(f) == lines + [""];
    TerminatedAppends(lines, [""]);
    assert Terminated([""]) == "\n" by { assert [""][1..] == []; }
    PrintedLinesAreSingle(f);
    forall i | 0 <= i < |lines| ensures OneLine(lines[i]) && |lines[i]| > 0 {
      assert lines[i] == FrameLines(f)[i];
    }
    TerminatedHasNoBlankLine(lines);
  }

  lemma {:induction false} TerminatedAppends(a: seq<string>, b: seq<string>)
    ensures Terminated(a + b) == Terminated(a) + Terminated(b)
    decreases |a|
  {
    if |a| == 0 {
      assert a + b == b;
    } else {
      assert (a + b)[1..] == a[1..] + b;
      TerminatedAppends(a[1..], b);
    }
  }

  /** A frame that breaks off has no empty line, whatever the reader counts as a line break. */
  lemma BrokenFrame(f: Frame, n: nat, b: Boundaries)
    requires Printable(f) && n < |Print(f)|
    ensures "" !in Lines(Print(f)[..n], "", b)
  {
    PrintIsBodyAndBlank(f);
    var body := Terminated(HeadLines(f) + ["data: " + f.data]);
    var text := Print(f)[..n];
    assert text == body[..n];
    assert NoBlankLine(text);
    NoEmptyLines(text, "", b);
  }

  lemma {:induction false} NothingDispatched(lines: seq<string>, s: Sdk, h: Html)
    requires "" !in lines
    ensures SdkLines(s, lines).out == s.out
    ensures HtmlLines(h, lines).out == h.out && HtmlLines(h, lines).lastId == h.lastId
    decreases |lines|
  {
    if |lines| > 0 {
      NothingDispatched(lines[1..], SdkLine(s, lines[0]), HtmlLine(h, lines[0]));
    }
  }

  function ReadSdk(text: string): seq<Message> {
    SdkLines(SDK_START, Lines(text, "", SplitLines)).out
  }

  function ReadHtml(text: string, idBuffer: string, lastId: string): Html {
    HtmlLines(HtmlStart(idBuffer, lastId), Lines(text, "", Standard))
  }

  /** Both readers pass a complete frame, whatever follows it. */
  lemma WholeFrameReads(f: Frame, tail: string, out: seq<Message>, idBuffer: string, lastId: string)
    requires Printable(f)
    ensures SdkLines(SDK_START.(out := out), Lines(Print(f) + tail, "", SplitLines))
            == SdkLines(SDK_START.(out := out + [Message(f.event, f.data)]), Lines(tail, "", SplitLines))
    ensures var id := LastId([f], idBuffer);
            HtmlLines(HtmlStart(idBuffer, lastId).(out := out), Lines(Print(f) + tail, "", Standard))
            == HtmlLines(HtmlStart(id, id).(out := out + [Message(f.event, f.data)]), Lines(tail, "", Standard))
  {
    PrintedLinesAreSingle(f);
    LinesOfTerminated(FrameLines(f), tail, SplitLines);
    LinesOfTerminated(FrameLines(f), tail, Standard);
    SdkAppends(SDK_START.(out := out), FrameLines(f), Lines(tail, "", SplitLines));
    HtmlAppends(HtmlStart(idBuffer, lastId).(out := out), FrameLines(f), Lines(tail, "", Standard));
    SdkReadsFrame(f, out);
    HtmlReadsFrame(f, idBuffer, lastId, out);
  }

  /** Neither reader gets anything out of a frame that breaks off. */
  lemma BrokenFrameReads(f: Frame, n: nat, out: seq<Message>, idBuffer: string, lastId: string)
    requires Printable(f) && n < |Print(f)|
    ensures BothRead(Print(f)[..n], out, idBuffer, lastId, [])
  {
    BrokenFrame(f, n, SplitLines);
    BrokenFrame(f, n, Standard);
    BothReadNothing(Print(f)[..n], out, idBuffer, lastId);
  }

  lemma LastIdFirst(f: Frame, rest: seq<Frame>, lastId: string)
    ensures LastId([f] + rest, lastId) == LastId(rest, LastId([f], lastId))
    ensures Messages([f] + rest) == [Message(f.event, f.data)] + Messages(rest)
  {
    assert ([f] + rest)[1..] == rest && [f][1..] == [];
  }

  lemma PrefixOfConcat(a: string, b: string, n: nat)
    requires n <= |a| + |b|
    ensures n < |a| ==> (a + b)[..n] == a[..n]
    ensures n >= |a| ==> (a + b)[..n] == a + b[..n - |a|]
  {
  }

  /** The last event ID of a reader once it has read `frames`; only a complete frame sets it. */
  function IdAfter(frames: seq<Frame>, idBuffer: string, lastId: string): string {
    if |frames| == 0 then lastId else LastId(frames, idBuffer)
  }

  /** Both readers have read `frames`, after `out` and with `lastId` from before. */
  ghost predicate BothRead(text: string, out: seq<Message>, idBuffer: string, lastId: string, frames: seq<Frame>) {
    var sdk := SdkLines(SDK_START.(out := out), Lines(text, "", SplitLines));
    var html := HtmlLines(HtmlStart(idBuffer, lastId).(out := out), Lines(text, "", Standard));
    sdk.out == html.out == out + Messages(frames) && html.lastId == IdAfter(frames, idBuffer, lastId)
  }

  lemma MessagesFirst(out: seq<Message>, f: Frame, rest: seq<Frame>)
    ensures (out + [Message(f.event, f.data)]) + Messages(rest) == out + Messages([f] + rest)
  {
    assert ([f] + rest)[1..] == rest;
  }

  lemma IdAfterFirst(f: Frame, rest: seq<Frame>, idBuffer: string, lastId: string)
    ensures IdAfter([f] + rest, idBuffer, lastId) == IdAfter(rest, LastId([f], idBuffer), LastId([f], idBuffer))
  {
    LastIdFirst(f, rest, idBuffer);
  }

  lemma BothReadFirst(f: Frame, tail: string, out: seq<Message>, idBuffer: string, lastId: string, rest: seq<Frame>)
    requires Printable(f)
    requires BothRead(tail, out + [Message(f.event, f.data)], LastId([f], idBuffer), LastId([f], idBuffer), rest)
    ensures BothRead(Print(f) + tail, out, idBuffer, lastId, [f] + rest)
  {
    MessagesFirst(out, f, rest);
    IdAfterFirst(f, rest, idBuffer, lastId);
    WholeFrameReads(f, tail, out, idBuffer, lastId);
  }

  lemma BothReadNothing(text: string, out: seq<Message>, idBuffer: string, lastId: string)
    requires "" !in Lines(text, "", SplitLines) && "" !in Lines(text, "", Standard)
    ensures BothRead(text, out, idBuffer, lastId, [])
  {
    NothingDispatched(Lines(text, "", SplitLines), SDK_START.(out := out), HtmlStart(idBuffer, lastId));
    NothingDispatched(Lines(text, "", Standard), SDK_START, HtmlStart(idBuffer, lastId).(out := out));
  }

  lemma {:induction false} TruncatedReads(frames: seq<Frame>, n: nat, out: seq<Message>, idBuffer: string, lastId: string)
    requires AllPrintable(frames) && n <= |PrintAll(frames)|
    ensures BothRead(PrintAll(frames)[..n], out, idBuffer, lastId, frames[..Whole(frames, n)])
    decreases |frames|
  {
    if |frames| > 0 {
      var f, rest, size := frames[0], frames[1..], |Print(frames[0])|;
      var id := LastId([f], idBuffer);
      PrefixOfConcat(Print(f), PrintAll(rest), n);
      if n < size {
        BrokenFrameReads(f, n, out, idBuffer, lastId);
      } else {
        TruncatedReads(rest, n - size, out + [Message(f.event, f.data)], id, id);
        BothReadFirst(f, PrintAll(rest)[..n - size], out, idBuffer, lastId, rest[..Whole(rest, n - size)]);
        assert frames[..Whole(frames, n)] == [f] + rest[..Whole(rest, n - size)];
      }
    } else {
      BothReadNothing("", out, idBuffer, lastId);
    }
  }

  /**
   Wherever a printed stream breaks off, the SDK reads the frames that are complete and never a part
   of one; the standard's reader reads the same messages, and its last event ID stays if no frame is
   complete, and is otherwise the id printed last in a complete frame, or the buffer it started with.
   */
  lemma TruncatedRoundTrip(frames: seq<Frame>, n: nat, idBuffer: string, lastId: string)
    requires AllPrintable(frames) && n <= |PrintAll(frames)|
    ensures
      var text, k := PrintAll(frames)[..n], Whole(frames, n);
      && ReadSdk(text) == Messages(frames[..k])
      && ReadHtml(text, idBuffer, lastId).out == ReadSdk(text)
      && ReadHtml(text, idBuffer, lastId).lastId == IdAfter(frames[..k], idBuffer, lastId)
  {
    TruncatedReads(frames, n, [], idBuffer, lastId);
  }

  lemma {:induction false} WholeOfAll(frames: seq<Frame>)
    ensures Whole(frames, |PrintAll(frames)|) == |frames|
  {
    if |frames| > 0 { WholeOfAll(frames[1..]); }
  }

  /** Parsing the concatenation of any list of printed frames gives back exactly those frames. */
  lemma RoundTrip(frames: seq<Frame>)
    requires AllPrintable(frames)
    ensures ReadSdk(PrintAll(frames)) == Messages(frames)
  {
    WholeOfAll(frames);
    TruncatedRoundTrip(frames, |PrintAll(frames)|, "", "");
    assert frames[..|frames|] == frames;
    assert PrintAll(frames)[..|PrintAll(frames)|] == PrintAll(frames);
  }

  /**
   Off the printed image the two readers part: on a data line they agree exactly when no blank is
   left once one leading space is gone.
   */
  lemma DataLinesAgreeIff(rest: string)
    ensures
      var line := "data:" + rest;
      var kept := FieldValue(line);
      SdkLine(SDK_START, line).data == [kept] <==> |kept| > 0 ==> !IsSpace(kept[0])
  {
    var line := "data:" + rest;
    assert line[4] == ':' && line[0] == 'd' && line[..5] == "data:" && line[5..] == rest;
    assert forall j :: 0 <= j < 4 ==> line[j] == "data"[j];
    assert Colon(line) == 4;
    var kept := FieldValue(line);
    LStripShortens(kept);
    assert kept == if |rest| > 0 && rest[0] == ' ' then rest[1..] else rest;
    assert LStrip(rest) == LStrip(kept);
    assert SdkLine(SDK_START, line).data == [LStrip(rest)];
    assert [LStrip(rest)][0] == LStrip(rest) && [kept][0] == kept;
  }

  lemma LStripShortens(s: string)
    ensures LStrip(s) == s <==> (|s| > 0 ==> !IsSpace(s[0]))
  {
    if |s| > 0 && IsSpace(s[0]) { LStripNoLonger(s[1..]); }
  }

  lemma {:induction false} LStripNoLonger(s: string)
    ensures |LStrip(s)| <= |s|
  {
    if |s| > 0 && IsSpace(s[0]) { LStripNoLonger(s[1..]); }
  }

  // ---------------------------------------------------------------------------------------------
  // The two readers on streams that this program did not print
  // ---------------------------------------------------------------------------------------------

  /** A line both readers take alike: no field name without a colon, and no blanks that only one of them strips. */
  predicate Common(line: string) {
    && line != "event" && line != "data"
    && (StartsWith(line, "event:") ==> Trimmed(FieldValue(line)))
    && (StartsWith(line, "data:") ==> |FieldValue(line)| > 0 ==> !IsSpace(FieldValue(line)[0]))
  }

  predicate InStep(s: Sdk, h: Html) {
    s.out == h.out && h.data == Terminated(s.data) && s.event == if h.event == "" then "message" else h.event
  }

  lemma {:induction false} JoinIsTerminated(lines: seq<string>)
    requires |lines| > 0
    ensures Terminated(lines) == JoinLines(lines) + "\n"
  {
    var init, last := lines[..|lines| - 1], lines[|lines| - 1];
    assert lines == init + [last];
    TerminatedAppends(init, [last]);
    TerminatedOne(last);
    if |lines| > 1 { JoinIsTerminated(init); }
  }

  lemma TerminatedOne(line: string)
    ensures Terminated([line]) == line + "\n"
  {
    assert [line][1..] == [];
  }

  lemma PrefixIsField(line: string, name: string)
    requires name in {"event", "data"}
    ensures StartsWith(line, name + ":") <==> FieldName(line) == name && line != name
    ensures StartsWith(line, name + ":") ==>
              FieldValue(line) == if |line| > |name| + 1 && line[|name| + 1] == ' ' then line[|name| + 2..] else line[|name| + 1..]
  {
    if StartsWith(line, name + ":") {
      assert line[..|name| + 1] == name + ":";
      assert line[|name|] == line[..|name| + 1][|name|] == ':';
      forall j | 0 <= j < |name| ensures line[j] != ':' {
        assert line[j] == line[..|name| + 1][j] == name[j] && name[j] in name;
      }
      assert Colon(line) == |name|;
      assert line[..|name|] == name;
    }
    if FieldName(line) == name && line != name {
      assert line[..|name|] == name && line[|name|] == ':';
      assert line[..|name| + 1] == name + ":";
    }
  }

  lemma StripOfField(rest: string)
    ensures var value := if |rest| > 0 && rest[0] == ' ' then rest[1..] else rest;
            && ((|value| > 0 ==> !IsSpace(value[0])) ==> LStrip(rest) == value)
            && (Trimmed(value) ==> Strip(rest) == value)
  {
    var value := if |rest| > 0 && rest[0] == ' ' then rest[1..] else rest;
    assert LStrip(rest) == LStrip(value);
    if Trimmed(value) { StripKeeps(value); }
  }

  lemma EventLinesAgree(s: Sdk, h: Html, line: string)
    requires InStep(s, h) && StartsWith(line, "event:") && Common(line)
    ensures InStep(SdkLine(s, line), HtmlLine(h, line))
  {
    PrefixIsField(line, "event");
    assert "event" + ":" == "event:";
    StripOfField(line[6..]);
    assert line[..6] == "event:" && line[0] == "event:"[0];
    assert FieldValue(line) == if |line[6..]| > 0 && line[6..][0] == ' ' then line[6..][1..] else line[6..];
  }

  lemma DataLinesAgree(s: Sdk, h: Html, line: string)
    requires InStep(s, h) && StartsWith(line, "data:") && Common(line)
    ensures InStep(SdkLine(s, line), HtmlLine(h, line))
  {
    PrefixIsField(line, "data");
    assert "data" + ":" == "data:";
    StripOfField(line[5..]);
    assert line[..5] == "data:" && line[0] == "data:"[0];
    var value := FieldValue(line);
    assert value == if |line[5..]| > 0 && line[5..][0] == ' ' then line[5..][1..] else line[5..];
    assert SdkLine(s, line).data == s.data + [value];
    TerminatedAppends(s.data, [value]);
    TerminatedOne(value);
    assert h.data + value + "\n" == h.data + (value + "\n");
  }

  lemma BlankLinesAgree(s: Sdk, h: Html)
    requires InStep(s, h)
    ensures InStep(SdkLine(s, ""), HtmlLine(h, ""))
  {
    if |s.data| > 0 {
      JoinIsTerminated(s.data);
      assert h.data[..|h.data| - 1] == JoinLines(s.data);
    }
  }

  lemma LinesAgree(s: Sdk, h: Html, line: string)
    requires InStep(s, h) && Common(line)
    ensures InStep(SdkLine(s, line), HtmlLine(h, line))
  {
    if line == "" {
      BlankLinesAgree(s, h);
    } else if StartsWith(line, "event:") {
      EventLinesAgree(s, h, line);
    } else if StartsWith(line, "data:") {
      DataLinesAgree(s, h, line);
    } else {
      PrefixIsField(line, "event");
      PrefixIsField(line, "data");
      assert "event" + ":" == "event:" && "data" + ":" == "data:";
    }
  }

  lemma {:induction false} ReadersInStep(s: Sdk, h: Html, lines: seq<string>)
    requires InStep(s, h) && forall i :: 0 <= i < |lines| ==> Common(lines[i])
    ensures InStep(SdkLines(s, lines), HtmlLines(h, lines))
    decreases |lines|
  {
    if |lines| > 0 {
      LinesAgree(s, h, lines[0]);
      ReadersInStep(SdkLine(s, lines[0]), HtmlLine(h, lines[0]), lines[1..]);
    }
  }

  /**
   On any stream of such lines, with comments, unknown fields, repeated and missing fields and frames of
   many data lines, the SDK reads the messages that the standard's reader reads.
   */
  lemma ReadersAgree(lines: seq<string>, idBuffer: string, lastId: string)
    requires forall i :: 0 <= i < |lines| ==> Common(lines[i])
    ensures SdkLines(SDK_START, lines).out == HtmlLines(HtmlStart(idBuffer, lastId), lines).out
  {
    ReadersInStep(SDK_START, HtmlStart(idBuffer, lastId), lines);
  }
}
