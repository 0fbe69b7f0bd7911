/**
 Reading a response that arrives in chunks: the chat stream, line by line, and the event stream between
 server and client, frame by frame.
 */
module Streams {
  import opened Splitting
  import opened Strings
  import opened ThinkFilter
  import opened Values

  // ----- the chat stream -----

  datatype Delta = Delta(content: string, reasoning: string)

  predicate StartsWith(s: string, p: string) {
    p <= s
  }

  /** What one line of the response adds; `json` reads a payload, None where parsing throws. */
  function LineDelta(json: string -> Option<Delta>, line: string): Delta {
    var t := Trim(line);
    if !StartsWith(t, "data:") then Delta("", "")
    else
      var payload := Trim(t[|"data:"|..]);
      if payload == "[DONE]" || json(payload).None? then Delta("", "") else json(payload).value
  }

  function Content(json: string -> Option<Delta>, lines: seq<string>): string {
    if lines == [] then "" else LineDelta(json, lines[0]).content + Content(json, lines[1..])
  }

  function Reasons(json: string -> Option<Delta>, lines: seq<string>): string {
    if lines == [] then "" else LineDelta(json, lines[0]).reasoning + Reasons(json, lines[1..])
  }

  lemma {:induction false} LinesAppend(json: string -> Option<Delta>, a: seq<string>, b: seq<string>)
    ensures Content(json, a + b) == Content(json, a) + Content(json, b)
    ensures Reasons(json, a + b) == Reasons(json, a) + Reasons(json, b)
  {
    hide LineDelta;
    if a == [] {
      assert a + b == b;
    } else {
      assert (a + b)[1..] == a[1..] + b;
      LinesAppend(json, a[1..], b);
    }
  }

  lemma LinesOne(json: string -> Option<Delta>, line: string)
    ensures Content(json, [line]) == LineDelta(json, line).content
    ensures Reasons(json, [line]) == LineDelta(json, line).reasoning
  {
    assert [line][1..] == [];
  }

  /** The text each chunk completes. */
  function Pieces(json: string -> Option<Delta>, chunks: seq<string>): seq<string> {
    if chunks == [] then []
    else
      var init, last := chunks[..|chunks| - 1], chunks[|chunks| - 1];
      Pieces(json, init) + [Content(json, Complete(NL, Remainder(NL, Join(init)) + last))]
  }

  /** The generated text: the contents of all finished lines. */
  function Generated(json: string -> Option<Delta>, response: string): string {
    Content(json, Complete(NL, response))
  }

  lemma JoinSnoc(init: seq<string>, last: string)
    ensures Join(init + [last]) == Join(init) + last
  {
    JoinAppend(init, [last]);
    JoinOne(last);
  }

  /** Chunking does not change the generated text. */
  lemma {:induction false} PiecesJoin(json: string -> Option<Delta>, chunks: seq<string>)
    ensures Join(Pieces(json, chunks)) == Generated(json, Join(chunks))
  {
    if chunks != [] {
      var init, last := chunks[..|chunks| - 1], chunks[|chunks| - 1];
      assert chunks == init + [last];
      PiecesJoin(json, init);
      JoinSnoc(init, last);
      CompleteAppend(NL, Join(init), last);
      LinesAppend(json, Complete(NL, Join(init)), Complete(NL, Remainder(NL, Join(init)) + last));
      JoinSnoc(Pieces(json, init), Content(json, Complete(NL, Remainder(NL, Join(init)) + last)));
    }
  }

  /** The answer: the visible text, or what the reasoning channel holds when that is blank. */
  function Fallback(visible: string, reasoning: string): string {
    if Trim(visible) != "" then "" else Trim(StripThink(reasoning))
  }

  function Answer(visible: string, reasoning: string): string {
    if Trim(visible) != "" then Trim(visible) else Fallback(visible, reasoning)
  }

  method Flush(raw: string, final: bool, tokens: seq<string>, emitted: nat)
    returns (tokens': seq<string>, emitted': nat)
    requires emitted == |Join(tokens)|
    ensures Join(tokens') == Extend(Join(tokens), if final then VisibleSoFar(raw) else Held(VisibleSoFar(raw)))
    ensures emitted' == |Join(tokens')|
  {
    hide VisibleSoFar, Held;
    var vis := VisibleSoFar(raw);
    if !final { vis := Held(vis); }
    tokens', emitted' := tokens, emitted;
    if |vis| > emitted {
      JoinSnoc(tokens, vis[emitted..]);
      tokens', emitted' := tokens + [vis[emitted..]], |vis|;
    }
  }

  /** The lines one chunk completes. */
  method ReadLines(json: string -> Option<Delta>, lines: seq<string>, raw: string, reasoning: string)
    returns (raw': string, reasoning': string)
    ensures raw' == raw + Content(json, lines) && reasoning' == reasoning + Reasons(json, lines)
  {
    hide LineDelta;
    raw', reasoning' := raw, reasoning;
    for k := 0 to |lines|
      invariant raw' == raw + Content(json, lines[..k])
      invariant reasoning' == reasoning + Reasons(json, lines[..k])
    {
      assert lines[..k + 1] == lines[..k] + [lines[k]];
      LinesAppend(json, lines[..k], [lines[k]]);
      LinesOne(json, lines[k]);
      var d := LineDelta(json, lines[k]);
      raw', reasoning' := raw' + d.content, reasoning' + d.reasoning;
    }
    assert lines[..|lines|] == lines;
  }

  method RawChatStream(json: string -> Option<Delta>, chunks: seq<string>)
    returns (tokens: seq<string>, out: string)
    ensures var lines := Complete(NL, Join(chunks));
            var visible, reasoning := VisibleSoFar(Content(json, lines)), Reasons(json, lines);
            && Join(tokens) == Emitted(Pieces(json, chunks)) + Fallback(visible, reasoning)
            && out == Answer(visible, reasoning)
    ensures forall response ::
              Readable(response) && Join(chunks) == ResponseOf(response) ==>
              var answer := Trim(VisibleSoFar(Contents(json, response)));
              out == if answer != "" then answer else Trim(StripThink(Reasonings(json, response)))
  {
    hide VisibleSoFar, Held, Extend, Content, Reasons, Complete, Remainder, StripThink, Readable, ResponseOf, Trim;
    hide Contents, Reasonings;
    var buf, raw, reasoning := "", "", "";
    var emitted := 0;
    tokens := [];
    EmptyBuffer(json);
    for k := 0 to |chunks|
      invariant buf == Remainder(NL, Join(chunks[..k]))
      invariant raw == Join(Pieces(json, chunks[..k])) == Content(json, Complete(NL, Join(chunks[..k])))
      invariant reasoning == Reasons(json, Complete(NL, Join(chunks[..k])))
      invariant Join(tokens) == Streamed(Pieces(json, chunks[..k])) && emitted == |Join(tokens)|
    {
      ghost var sofar := chunks[..k];
      buf := buf + chunks[k];
      var lines := Complete(NL, buf);
      ChunkStep(json, sofar, chunks[k]);
      assert chunks[..k + 1] == sofar + [chunks[k]];
      buf := Remainder(NL, buf);
      raw, reasoning := ReadLines(json, lines, raw, reasoning);
      tokens, emitted := Flush(raw, false, tokens, emitted);
    }
    assert chunks[..|chunks|] == chunks;
    forall response | Readable(response) && Join(chunks) == ResponseOf(response)
      ensures raw == Contents(json, response) && reasoning == Reasonings(json, response)
    {
      ResponseRead(json, response);
    }
    tokens, emitted := Flush(raw, true, tokens, emitted);
    out := Trim(VisibleSoFar(raw));
    if out != "" {
      assert Join(tokens) + "" == Join(tokens);
      return;
    }
    var r := Trim(StripThink(reasoning));
    if r != "" {
      JoinSnoc(tokens, r);
      tokens := tokens + [r];
    } else {
      assert Join(tokens) + "" == Join(tokens);
    }
    out := r;
  }

  lemma EmptyBuffer(json: string -> Option<Delta>)
    ensures Remainder(NL, "") == "" && Content(json, Complete(NL, "")) == "" && Reasons(json, Complete(NL, "")) == ""
  {
  }

  /** What one more chunk adds to the specification. */
  lemma ChunkStep(json: string -> Option<Delta>, sofar: seq<string>, chunk: string)
    ensures var lines := Complete(NL, Remainder(NL, Join(sofar)) + chunk);
            var all := sofar + [chunk];
            && Pieces(json, all) == Pieces(json, sofar) + [Content(json, lines)]
            && Join(Pieces(json, all)) == Join(Pieces(json, sofar)) + Content(json, lines)
            && Join(Pieces(json, all)) == Content(json, Complete(NL, Join(all)))
            && Reasons(json, Complete(NL, Join(all))) == Reasons(json, Complete(NL, Join(sofar))) + Reasons(json, lines)
            && Remainder(NL, Join(all)) == Remainder(NL, Remainder(NL, Join(sofar)) + chunk)
            && Streamed(Pieces(json, all)) ==
               Extend(Streamed(Pieces(json, sofar)), Held(VisibleSoFar(Join(Pieces(json, all)))))
  {
    hide VisibleSoFar, Held, Extend, Content, Reasons, Complete, Remainder;
    var lines := Complete(NL, Remainder(NL, Join(sofar)) + chunk);
    var all := sofar + [chunk];
    assert all[..|sofar|] == sofar;
    assert Pieces(json, all) == Pieces(json, sofar) + [Content(json, lines)];
    assert Pieces(json, all)[..|Pieces(json, sofar)|] == Pieces(json, sofar);
    JoinSnoc(Pieces(json, sofar), Content(json, lines));
    JoinSnoc(sofar, chunk);
    CompleteAppend(NL, Join(sofar), chunk);
    LinesAppend(json, Complete(NL, Join(sofar)), lines);
    PiecesJoin(json, all);
  }

  /** However the response is cut into chunks, the tokens spell exactly the visible text of the whole. */
  lemma StreamFaithful(json: string -> Option<Delta>, chunks: seq<string>, tag: Tag)
    requires OneKind(tag, Generated(json, Join(chunks))) && NoJoined(tag, Generated(json, Join(chunks)))
    ensures Emitted(Pieces(json, chunks)) == VisibleSoFar(Generated(json, Join(chunks)))
  {
    hide VisibleSoFar, OneKind, NoJoined, Emitted;
    PiecesJoin(json, chunks);
    EmittedExactly(tag, Pieces(json, chunks));
  }

  /** A last line without its line end is not read: with the line end it would add its content. */
  lemma UnfinishedLineLost(json: string -> Option<Delta>, response: string)
    ensures Generated(json, response + NL) ==
            Generated(json, response) + LineDelta(json, Remainder(NL, response)).content
  {
    hide LineDelta, FindSep, Complete, Content;
    var rest := Remainder(NL, response);
    CompleteAppend(NL, response, NL);
    NoSepLeft(NL, response);
    assert rest + NL + "" == rest + NL;
    EndsWithSep(rest, NL);
    forall j: nat | j < |rest| ensures !SepAt(rest + NL, j, NL) { SepAppend(rest, NL, j, NL); }
    CompleteOne(NL, rest, "");
    NothingComplete(NL);
    assert [rest] + [] == [rest];
    LinesAppend(json, Complete(NL, response), [rest]);
    LinesOne(json, rest);
  }

  // ----- what a response says -----

  /** A line of a response: a payload after `data:`, with blanks around, or something else. */
  datatype Line =
    | Fragment(before: string, gap: string, payload: string, after: string)
    | Other(text: string)

  predicate Written(l: Line) {
    match l
    case Fragment(before, gap, payload, after) => Gap(before) && Gap(gap) && Gap(after) && Trimmed(payload)
    case Other(text) => !("data:" <= Trim(text))
  }

  function TextOf(l: Line): string {
    match l
    case Fragment(before, gap, payload, after) => before + "data:" + gap + payload + after
    case Other(text) => text
  }

  /** The lines, each with its end. */
  function ResponseOf(lines: seq<Line>): string {
    if lines == [] then "" else TextOf(lines[0]) + NL + ResponseOf(lines[1..])
  }

  /** Each line is on one line. */
  predicate Readable(lines: seq<Line>) {
    forall k :: 0 <= k < |lines| ==> Written(lines[k]) && OneLine(TextOf(lines[k]))
  }

  /** A payload that is read: not the end mark, and it parses. */
  predicate Counts(json: string -> Option<Delta>, l: Line) {
    l.Fragment? && l.payload != "[DONE]" && json(l.payload).Some?
  }

  function Contents(json: string -> Option<Delta>, lines: seq<Line>): string {
    if lines == [] then ""
    else (if Counts(json, lines[0]) then json(lines[0].payload).value.content else "") + Contents(json, lines[1..])
  }

  function Reasonings(json: string -> Option<Delta>, lines: seq<Line>): string {
    if lines == [] then ""
    else (if Counts(json, lines[0]) then json(lines[0].payload).value.reasoning else "") + Reasonings(json, lines[1..])
  }

  lemma DataTrimmed(before: string, gap: string, payload: string, after: string)
    requires Gap(before) && Gap(gap) && Gap(after) && Trimmed(payload)
    ensures Trim(before + "data:" + gap + payload + after) == "data:" + if payload == "" then "" else gap + payload
  {
    hide Trim, IsSpace;
    var s := "data:" + if payload == "" then "" else gap + payload;
    assert s[0] == 'd' && (payload == "" ==> s == "data:") && (payload != "" ==> s[|s| - 1] == payload[|payload| - 1]);
    assert Trimmed(s) by { LettersAreInk(); }
    if payload == "" {
      assert Gap(gap + after);
      TrimGaps(before, s, gap + after);
      assert before + "data:" + gap + "" + after == before + s + (gap + after);
    } else {
      TrimGaps(before, s, after);
      assert before + "data:" + gap + payload + after == before + s + after;
    }
  }

  lemma LettersAreInk()
    ensures !IsSpace('d') && !IsSpace(':')
  {
  }

  lemma FragmentRead(json: string -> Option<Delta>, before: string, gap: string, payload: string, after: string)
    requires Gap(before) && Gap(gap) && Gap(after) && Trimmed(payload)
    ensures LineDelta(json, before + "data:" + gap + payload + after)
         == if payload != "[DONE]" && json(payload).Some? then json(payload).value else Delta("", "")
  {
    hide Trim, Gap, Trimmed;
    var rest := if payload == "" then "" else gap + payload;
    var s := "data:" + rest;
    DataTrimmed(before, gap, payload, after);
    if payload == "" { NothingToTrim(); } else { TrimGaps(gap, payload, after); }
    assert s[|"data:"|..] == rest && s[..|"data:"|] == "data:";
  }

  lemma NothingToTrim()
    ensures Trim("") == ""
  {
  }

  lemma LineRead(json: string -> Option<Delta>, l: Line)
    requires Written(l)
    ensures LineDelta(json, TextOf(l)) == if Counts(json, l) then json(l.payload).value else Delta("", "")
  {
    hide Trim, Gap, Trimmed, IsSpace;
    if l.Fragment? {
      hide LineDelta;
      FragmentRead(json, l.before, l.gap, l.payload, l.after);
    }
  }

  lemma LineEnds(first: string, more: string)
    requires OneLine(first)
    ensures Complete(NL, first + NL + more) == [first] + Complete(NL, more)
  {
    hide SepAt, Complete, Remainder;
    var s := first + NL + more;
    assert forall j :: 0 <= j < |first| ==> s[j] == first[j];
    assert s[|first|] == '\n';
    forall j | 0 <= j <= |first| ensures SepAt(s, j, NL) <==> j == |first| { SepNewline(s, j); }
    CompleteOne(NL, first, more);
  }

  /**
   A response is read line by line: its generated text is the contents of the payloads that parse, in order, its
   reasoning text their reasonings. The end mark, other lines and payloads that do not parse add nothing.
   */
  lemma {:induction false} ResponseRead(json: string -> Option<Delta>, lines: seq<Line>)
    requires Readable(lines)
    ensures Generated(json, ResponseOf(lines)) == Contents(json, lines)
    ensures Reasons(json, Complete(NL, ResponseOf(lines))) == Reasonings(json, lines)
  {
    hide LineDelta, Complete, Written, TextOf, Counts;
    if lines == [] {
      NothingComplete(NL);
    } else {
      var more := ResponseOf(lines[1..]);
      LineEnds(TextOf(lines[0]), more);
      LineRead(json, lines[0]);
      ResponseRead(json, lines[1..]);
      LinesAppend(json, [TextOf(lines[0])], Complete(NL, more));
      LinesOne(json, TextOf(lines[0]));
    }
  }

  // ----- the event stream from server to client -----

  datatype Event = Event(name: string, data: string)

  const FRAME_END := "\n\n"

  /** A frame as the server's `send` writes it, without its end. */
  function Frame(e: Event): string {
    EventLine(e.name) + NL + DataLine(e.data)
  }

  function EventLine(name: string): string { "event: " + name }
  function DataLine(data: string): string { "data: " + data }

  /** One line of a frame, as the client reads it. */
  function LineEvent(line: string, e: Event): Event {
    if StartsWith(line, "event:") then e.(name := Trim(line[|"event:"|..]))
    else if StartsWith(line, "data:") then e.(data := e.data + Trim(line[|"data:"|..]))
    else e
  }

  function LinesEvent(lines: seq<string>): Event {
    if lines == [] then Event("message", "")
    else LineEvent(lines[|lines| - 1], LinesEvent(lines[..|lines| - 1]))
  }

  /** The events of a list of frames; a frame without data, or whose data does not parse, is dropped. */
  function Events<T>(json: string -> Option<T>, frames: seq<string>): seq<(string, T)> {
    if frames == [] then []
    else
      var before := Events(json, frames[..|frames| - 1]);
      var e := LinesEvent(AllLines(frames[|frames| - 1]));
      if e.data == "" || json(e.data).None? then before else before + [(e.name, json(e.data).value)]
  }

  method ReadFrame(frame: string) returns (e: Event)
    ensures e == LinesEvent(AllLines(frame))
  {
    e := Event("message", "");
    var lines := AllLines(frame);
    for k := 0 to |lines|
      invariant e == LinesEvent(lines[..k])
    {
      assert lines[..k + 1][..k] == lines[..k];
      e := LineEvent(lines[k], e);
    }
    assert lines[..|lines|] == lines;
  }

  lemma EventsSnoc<T>(json: string -> Option<T>, frames: seq<string>, frame: string)
    ensures var e := LinesEvent(AllLines(frame));
            Events(json, frames + [frame]) ==
            if e.data == "" || json(e.data).None? then Events(json, frames)
            else Events(json, frames) + [(e.name, json(e.data).value)]
  {
    hide LinesEvent, AllLines;
    assert (frames + [frame])[..|frames|] == frames;
  }

  /** The reading loop of the client, handing events on as their frames become complete. */
  method ConsumeSSE<T>(json: string -> Option<T>, chunks: seq<string>) returns (events: seq<(string, T)>)
    ensures events == Events(json, Complete(FRAME_END, Join(chunks)))
  {
    hide Complete, Remainder, LinesEvent, AllLines, Join, Events;
    var buf := "";
    events := [];
    NothingRead(json);
    for k := 0 to |chunks|
      invariant buf == Remainder(FRAME_END, Join(chunks[..k]))
      invariant events == Events(json, Complete(FRAME_END, Join(chunks[..k])))
    {
      ghost var before := Join(chunks[..k]);
      assert chunks[..k + 1] == chunks[..k] + [chunks[k]];
      JoinSnoc(chunks[..k], chunks[k]);
      CompleteAppend(FRAME_END, before, chunks[k]);
      buf := buf + chunks[k];
      var parts := Complete(FRAME_END, buf);
      buf := Remainder(FRAME_END, buf);
      ghost var done := Complete(FRAME_END, before);
      assert done + parts[..0] == done;
      for m := 0 to |parts|
        invariant events == Events(json, done + parts[..m])
      {
        EventsSnoc(json, done + parts[..m], parts[m]);
        assert done + parts[..m + 1] == done + parts[..m] + [parts[m]];
        var e := ReadFrame(parts[m]);
        if e.data != "" && json(e.data).Some? {
          events := events + [(e.name, json(e.data).value)];
        }
      }
      assert parts[..|parts|] == parts;
    }
    assert chunks[..|chunks|] == chunks;
  }

  lemma NothingRead<T>(json: string -> Option<T>)
    ensures Join([]) == "" && Remainder(FRAME_END, "") == "" && Events(json, Complete(FRAME_END, "")) == []
  {
  }

  // ----- what the server sends is what the client gets -----

  predicate OneLine(s: string) {
    forall k :: 0 <= k < |s| ==> s[k] != '\n'
  }

  /** An event name and a JSON text: both on one line and without blanks at their ends. */
  predicate Sendable(e: Event) {
    OneLine(e.name) && OneLine(e.data) && Trimmed(e.name) && Trimmed(e.data) && e.data != ""
  }

  function Sent(es: seq<Event>): string {
    if es == [] then "" else Frame(es[0]) + FRAME_END + Sent(es[1..])
  }

  lemma SentText(e: Event)
    ensures Sent([e]) == "event: " + e.name + "\ndata: " + e.data + "\n\n"
  {
    assert [e][1..] == [];
  }

  /** The events whose data parses. */
  function Received<T>(json: string -> Option<T>, es: seq<Event>): seq<(string, T)> {
    if es == [] then []
    else
      var before, e := Received(json, es[..|es| - 1]), es[|es| - 1];
      if json(e.data).None? then before else before + [(e.name, json(e.data).value)]
  }

  lemma TrimStartAfterBlank(s: string)
    ensures TrimStart(" " + s) == TrimStart(s)
  {
    assert (" " + s)[1..] == s;
  }

  lemma TrimAfterBlank(s: string)
    requires Trimmed(s)
    ensures Trim(" " + s) == s
  {
    TrimStartAfterBlank(s);
    TrimKeeps(s);
    hide TrimStart, TrimEnd, IsSpace;
  }

  lemma SepNewline(s: string, j: int)
    ensures SepAt(s, j, NL) <==> 0 <= j < |s| && s[j] == '\n'
    ensures SepAt(s, j, FRAME_END) <==> 0 <= j < |s| - 1 && s[j] == '\n' && s[j + 1] == '\n'
  {
    if 0 <= j < |s| { assert s[j..j + 1] == [s[j]] && NL == ['\n']; }
    if 0 <= j < |s| - 1 {
      var two := s[j..j + 2];
      assert two == [s[j], s[j + 1]] && two[0] == s[j] && two[1] == s[j + 1];
      assert FRAME_END == ['\n', '\n'];
    }
  }

  lemma LinesOneLine(e: Event)
    requires Sendable(e)
    ensures OneLine(EventLine(e.name)) && OneLine(DataLine(e.data)) && DataLine(e.data)[0] == 'd'
  {
  }

  lemma FrameLines(e: Event)
    requires Sendable(e)
    ensures AllLines(Frame(e)) == [EventLine(e.name), DataLine(e.data)]
  {
    LinesOneLine(e);
    hide Complete, Remainder, EventLine, DataLine, SepAt;
    var first, second := EventLine(e.name), DataLine(e.data);
    var s := first + NL + second;
    assert forall j :: 0 <= j < |first| ==> s[j] == first[j];
    assert s[|first|] == '\n';
    forall j | 0 <= j <= |first| ensures SepAt(s, j, NL) <==> j == |first| { SepNewline(s, j); }
    CompleteOne(NL, first, second);
    OneLineRest(second);
  }

  lemma OneLineRest(s: string)
    requires OneLine(s)
    ensures Complete(NL, s) == [] && Remainder(NL, s) == s
  {
    hide SepAt;
    forall j: int ensures !SepAt(s, j, NL) { SepNewline(s, j); }
  }

  lemma ReadEventLine(name: string, e: Event)
    requires Trimmed(name)
    ensures LineEvent(EventLine(name), e) == e.(name := name)
  {
    hide Trim;
    assert EventLine(name)[|"event:"|..] == " " + name;
    TrimAfterBlank(name);
  }

  /** What follows `event:` is the name and what follows `data:` is added to the data, also when it is nothing. */
  lemma FieldsRead(text: string, e: Event)
    ensures LineEvent("event:" + text, e) == Event(Trim(text), e.data)
    ensures LineEvent("data:" + text, e) == Event(e.name, e.data + Trim(text))
  {
    hide Trim;
    assert ("event:" + text)[|"event:"|..] == text && ("data:" + text)[|"data:"|..] == text;
    assert ("data:" + text)[0] != "event:"[0];
  }

  lemma ReadDataLine(data: string, e: Event)
    requires Trimmed(data)
    ensures LineEvent(DataLine(data), e) == e.(data := e.data + data)
  {
    hide Trim;
    assert DataLine(data)[|"data:"|..] == " " + data;
    assert DataLine(data)[0] != "event:"[0];
    TrimAfterBlank(data);
  }

  lemma LinesEventTwo(a: string, b: string)
    ensures LinesEvent([a, b]) == LineEvent(b, LineEvent(a, Event("message", "")))
  {
    hide LineEvent;
    assert [a, b][..1] == [a] && [a][..0] == [];
    assert LinesEvent([a]) == LineEvent(a, Event("message", ""));
  }

  lemma TwoLinesRead(name: string, data: string, e: Event)
    requires Trimmed(name) && Trimmed(data) && e.data == ""
    ensures LineEvent(DataLine(data), LineEvent(EventLine(name), e)) == Event(name, data)
  {
    hide Trim, LineEvent, EventLine, DataLine;
    ReadEventLine(name, e);
    ReadDataLine(data, Event(name, ""));
    assert "" + data == data;
  }

  lemma FrameRead(e: Event)
    requires Sendable(e)
    ensures LinesEvent(AllLines(Frame(e))) == e
  {
    FrameLines(e);
    LinesEventTwo(EventLine(e.name), DataLine(e.data));
    TwoLinesRead(e.name, e.data, Event("message", ""));
    hide *;
  }

  lemma FrameEndsOnce(e: Event, more: string, j: nat)
    requires Sendable(e) && j <= |Frame(e)|
    ensures SepAt(Frame(e) + FRAME_END + more, j, FRAME_END) <==> j == |Frame(e)|
  {
    LinesOneLine(e);
    hide EventLine, DataLine, SepAt;
    var s := Frame(e) + FRAME_END + more;
    var first, second := EventLine(e.name), DataLine(e.data);
    assert s == first + NL + second + FRAME_END + more;
    assert forall k :: 0 <= k < |first| ==> s[k] == first[k];
    assert forall k :: 0 <= k < |second| ==> s[|first| + 1 + k] == second[k];
    assert s[|first| + 1] == second[0];
    assert j > |first| && j < |Frame(e)| ==> s[j] == second[j - |first| - 1];
    SepNewline(s, j);
  }

  lemma SentFrame(e: Event, more: string)
    requires Sendable(e)
    ensures Complete(FRAME_END, Frame(e) + FRAME_END + more) == [Frame(e)] + Complete(FRAME_END, more)
  {
    hide Frame, SepAt, Complete, Remainder;
    forall j | 0 <= j <= |Frame(e)| ensures SepAt(Frame(e) + FRAME_END + more, j, FRAME_END) <==> j == |Frame(e)| {
      FrameEndsOnce(e, more, j);
    }
    CompleteOne(FRAME_END, Frame(e), more);
  }

  lemma {:induction false} SentFrames(es: seq<Event>) returns (frames: seq<string>)
    requires forall e :: e in es ==> Sendable(e)
    ensures frames == Complete(FRAME_END, Sent(es)) && |frames| == |es|
    ensures forall k :: 0 <= k < |es| ==> frames[k] == Frame(es[k])
  {
    hide Frame, Complete, Sendable;
    if es == [] {
      NothingComplete(FRAME_END);
      frames := [];
    } else {
      var e, more := es[0], Sent(es[1..]);
      var rest := SentFrames(es[1..]);
      SentFrame(e, more);
      frames := [Frame(e)] + rest;
    }
  }

  lemma {:induction false} FramesReceived<T>(json: string -> Option<T>, es: seq<Event>, frames: seq<string>)
    requires (forall e :: e in es ==> Sendable(e)) && |frames| == |es|
    requires forall k :: 0 <= k < |es| ==> frames[k] == Frame(es[k])
    ensures Events(json, frames) == Received(json, es)
  {
    hide Frame, LinesEvent, AllLines, Sendable;
    if es != [] {
      var n := |es| - 1;
      FramesReceived(json, es[..n], frames[..n]);
      FrameRead(es[n]);
      assert es[n].data != "" by { SendableHasData(es[n]); }
    }
  }

  lemma SendableHasData(e: Event)
    requires Sendable(e)
    ensures e.data != ""
  {
  }

  /** However the server's frames are cut into chunks, the client receives exactly the events sent. */
  lemma SentIsReceived<T>(json: string -> Option<T>, es: seq<Event>, chunks: seq<string>)
    requires (forall e :: e in es ==> Sendable(e)) && Join(chunks) == Sent(es)
    ensures Events(json, Complete(FRAME_END, Join(chunks))) == Received(json, es)
  {
    var frames := SentFrames(es);
    FramesReceived(json, es, frames);
  }
}
