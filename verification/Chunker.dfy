/** The two ways of cutting a document into chunks: along its structure, and by fixed windows. */
module Chunker {
  import opened Emission
  import opened Outline
  import opened Packing
  import opened Sections
  import opened Splitting
  import opened Strings
  import opened TextInk
  import opened Values

  /** Every line end, and every carriage return on its own, becomes a line feed. */
  function Unix(s: string): string {
    if s == "" then ""
    else if s[0] != '\r' then [s[0]] + Unix(s[1..])
    else "\n" + Unix(if |s| > 1 && s[1] == '\n' then s[2..] else s[1..])
  }

  /** Only carriage returns change, and with a line feed after them they are one line end. */
  lemma {:induction false} UnixIs(a: string, b: string)
    requires '\r' !in a
    ensures Unix(a) == a
    ensures Unix(a + "\r\n" + b) == a + "\n" + Unix(b)
    ensures (b == "" || b[0] != '\n') ==> Unix(a + "\r" + b) == a + "\n" + Unix(b)
  {
    var t, u := a + "\r\n" + b, a + "\r" + b;
    if a == "" {
      assert t[2..] == b && t[1] == '\n' && u[1..] == b;
      if b != "" { assert u[1] == b[0]; }
    } else {
      assert a == [a[0]] + a[1..] && a[0] != '\r';
      assert t[1..] == a[1..] + "\r\n" + b && u[1..] == a[1..] + "\r" + b;
      UnixIs(a[1..], b);
    }
  }

  /** The text is the same but for white space, and holds no carriage return. */
  lemma {:induction false} UnixInk(s: string)
    ensures Ink(Unix(s)) == Ink(s) && '\r' !in Unix(s)
  {
    hide IsSpace, Mark;
    if s != "" {
      var rest := if s[0] == '\r' && |s| > 1 && s[1] == '\n' then s[2..] else s[1..];
      UnixInk(rest);
      if s[0] == '\r' {
        LineEndsNoInk();
        InkFirst('\n', Unix(rest));
        InkFirst('\r', s[1..]);
        assert s == ['\r'] + s[1..];
        if |rest| < |s[1..]| {
          assert s[1..] == ['\n'] + rest;
          InkFirst('\n', rest);
        }
      } else {
        InkFirst(s[0], Unix(rest));
      }
    }
  }

  lemma LineEndsNoInk()
    ensures Mark('\n') == "" && Mark('\r') == ""
  {
  }

  // ----- paragraphs -----

  datatype Paragraphs = Paragraphs(blocks: seq<string>, buf: seq<string>)

  function EndBlock(p: Paragraphs): seq<string> {
    if p.buf == [] then p.blocks else p.blocks + [Trim(JoinLines(p.buf))]
  }

  function ReadLine(p: Paragraphs, line: string): Paragraphs {
    if IsGap(line) then Paragraphs(EndBlock(p), []) else p.(buf := p.buf + [TrimEnd(line)])
  }

  function ReadLines(lines: seq<string>): Paragraphs {
    if lines == [] then Paragraphs([], []) else ReadLine(ReadLines(lines[..|lines| - 1]), lines[|lines| - 1])
  }

  /** The paragraphs of a text, headings or not. */
  function BlocksOf(text: string): seq<string> {
    EndBlock(ReadLines(AllLines(text)))
  }

  method ParagraphBlocks(text: string) returns (blocks: seq<string>)
    ensures blocks == BlocksOf(text)
  {
    hide IsGap, AllLines, Trim, TrimEnd;
    blocks := [];
    var buf: seq<string> := [];
    var lines := AllLines(text);
    for i := 0 to |lines|
      invariant ReadLines(lines[..i]) == Paragraphs(blocks, buf)
    {
      assert lines[..i + 1][..i] == lines[..i];
      if IsGap(lines[i]) {
        if buf != [] { blocks := blocks + [Trim(JoinLines(buf))]; }
        buf := [];
      } else {
        buf := buf + [TrimEnd(lines[i])];
      }
    }
    assert lines[..|lines|] == lines;
    if buf != [] { blocks := blocks + [Trim(JoinLines(buf))]; }
  }

  lemma EndBlockInk(p: Paragraphs)
    ensures Ink(Join(EndBlock(p))) == Ink(Join(p.blocks)) + Ink(Join(p.buf))
  {
    hide Ink, Join, JoinLines, Trim;
    EmptyInk();
    InkSnoc(p.blocks, Trim(JoinLines(p.buf)));
    InkTrim(JoinLines(p.buf));
    InkJoinLines(p.buf);
  }

  lemma {:induction false} ReadLinesInk(lines: seq<string>)
    ensures Ink(Join(ReadLines(lines).blocks)) + Ink(Join(ReadLines(lines).buf)) == Ink(Join(Kept(lines)))
  {
    hide Ink, Join, EndBlock, IsGap, TrimEnd;
    EmptyInk();
    if lines != [] {
      var before, line := lines[..|lines| - 1], lines[|lines| - 1];
      var p := ReadLines(before);
      ReadLinesInk(before);
      if IsGap(line) {
        EndBlockInk(p);
        assert Kept(lines) == Kept(before);
      } else {
        InkSnoc(p.buf, TrimEnd(line));
        InkTrimEnd(line);
        InkSnoc(Kept(before), line);
      }
    }
  }

  /** The paragraphs hold every line that is neither blank nor a rule, once and in order, up to white space. */
  lemma BlocksKeepText(text: string)
    ensures Ink(Join(BlocksOf(text))) == Ink(Join(Kept(AllLines(text))))
  {
    hide Ink, Join, EndBlock, ReadLines, Kept;
    ReadLinesInk(AllLines(text));
    EndBlockInk(ReadLines(AllLines(text)));
  }

  // ----- the entry point -----

  function Headings(ss: seq<Section>): nat {
    if ss == [] then 0 else Headings(ss[..|ss| - 1]) + if ss[|ss| - 1].heading != "" then 1 else 0
  }

  function Stops(s: string): nat {
    if s == "" then 0 else Stops(s[..|s| - 1]) + if Stop(s[|s| - 1]) then 1 else 0
  }

  function Size(chunkSize: int): nat {
    if chunkSize < 100 then 100 else chunkSize
  }

  /** `None` is the source's `null`: no structure, so the caller falls back to fixed windows. */
  function Structured(detect: Detector, title: string, chunkSize: int, text: string): Option<seq<Chunk>> {
    var clean := Unix(text);
    var ss := SectionsOf(detect, clean);
    if Trim(clean) == "" then Some([])
    else if Headings(ss) >= 2 then
      var out := EmitFrom(title, ss, 0, Size(chunkSize));
      if out == [] then None else Some(out)
    else if |BlocksOf(clean)| < 2 && Stops(clean) < 2 then None
    else Some(ToChunks(title, [], "", PackedBlocks(BlocksOf(clean), Size(chunkSize))))
  }

  method CountHeadings(ss: seq<Section>) returns (n: nat)
    ensures n == Headings(ss)
  {
    n := 0;
    for i := 0 to |ss|
      invariant n == Headings(ss[..i])
    {
      assert ss[..i + 1][..i] == ss[..i];
      if ss[i].heading != "" { n := n + 1; }
    }
    assert ss[..|ss|] == ss;
  }

  method CountStops(s: string) returns (n: nat)
    ensures n == Stops(s)
  {
    n := 0;
    for i := 0 to |s|
      invariant n == Stops(s[..i])
    {
      assert s[..i + 1][..i] == s[..i];
      if Stop(s[i]) { n := n + 1; }
    }
    assert s[..|s|] == s;
  }

  method ChunkStructured(detect: Detector, title: string, chunkSize: int, text: string) returns (r: Option<seq<Chunk>>)
    ensures r == Structured(detect, title, chunkSize, text)
  {
    hide Trim, EmitFrom, PackedBlocks, BlocksOf, SectionsOf, Unix, Headings, Stops, ToChunk;
    var clean := Unix(text);
    if Trim(clean) == "" { return Some([]); }
    var ss := ParseSections(detect, clean);
    var headings := CountHeadings(ss);
    if headings >= 2 {
      var out := EmitSections(title, ss, chunkSize);
      return if out == [] then None else Some(out);
    }
    var blocks := ParagraphBlocks(clean);
    var stops := CountStops(clean);
    if |blocks| < 2 && stops < 2 { return None; }
    var pieces := PackBlocks(blocks, Size(chunkSize));
    r := Some(ToChunks(title, [], "", pieces));
  }

  // ----- what the chunks hold -----

  lemma {:induction false} AllTexts(ss: seq<Section>, n: nat)
    requires n <= |ss|
    ensures Ink(Join(Texts(ss, 0, n))) == Ink(AllText(ss[..n]))
  {
    hide Ink, Join, SectionText;
    if n > 0 {
      AllTexts(ss, n - 1);
      var s := ss[n - 1];
      assert ss[..n][..n - 1] == ss[..n - 1];
      InkSnoc(Texts(ss, 0, n - 1), SectionText(s));
      InkConcat(AllText(ss[..n - 1]), Join(SectionLines(s)));
      SectionLinesInk(s);
    } else {
      EmptyInk();
    }
  }

  lemma SectionLinesInk(s: Section)
    ensures Ink(Join(SectionLines(s))) == Ink(SectionText(s))
  {
    hide Ink, Join, SectionText;
    SectionInk(s);
    EmptyInk();
    InkAppend(if s.heading == "" then [] else [s.heading], s.blocks);
    JoinOne(s.heading);
  }

  /** All section texts together are the document. */
  lemma TextsAreDocument(detect: Detector, text: string)
    ensures var ss := SectionsOf(detect, text); Ink(Join(TextsBut(ss, 0, {}))) == Ink(Join(Kept(AllLines(text))))
  {
    hide Ink, Join, SectionsOf, AllText, Kept, Texts;
    var ss := SectionsOf(detect, text);
    TextsButRun(ss, 0, |ss|, {});
    assert Texts(ss, 0, |ss|) + [] == Texts(ss, 0, |ss|);
    AllTexts(ss, |ss|);
    assert ss[..|ss|] == ss;
    SectionsKeepText(detect, text);
  }

  // ----- when there is no structure -----

  lemma {:induction false} EmitGives(title: string, ss: seq<Section>, i: nat, size: nat)
    requires size > 0 && Nested(ss) && i < |ss| && 1 < |ss|
    ensures EmitFrom(title, ss, i, size) != []
    decreases |ss| - i
  {
    hide GroupAt, Nested, Bodies, ToChunk, HasChild;
    var next := i + Width(GroupAt(ss, i, size));
    if !GroupAt(ss, i, size).Skip? {
      GroupGives(ss, i, size);
    } else {
      LastGives(ss, i, size);
      EmitGives(title, ss, next, size);
    }
  }

  lemma LastGives(ss: seq<Section>, i: nat, size: nat)
    requires Nested(ss) && i < |ss| && 1 < |ss| && GroupAt(ss, i, size).Skip?
    ensures i + 1 < |ss|
  {
    hide SectionText, Trim, Tidy, RunEnd;
    if i > 0 { HeadingShows(ss[i]); }
  }

  lemma {:induction false} HeadingsAtMost(ss: seq<Section>)
    ensures Headings(ss) <= |ss|
  {
    if ss != [] { HeadingsAtMost(ss[..|ss| - 1]); }
  }

  /** `null` means exactly this: text with at most one heading, at most one paragraph and at most one sentence stop. */
  lemma NoStructureExactly(detect: Detector, title: string, chunkSize: int, text: string)
    ensures Structured(detect, title, chunkSize, text).None? <==>
      && Trim(Unix(text)) != ""
      && Headings(SectionsOf(detect, Unix(text))) < 2
      && |BlocksOf(Unix(text))| < 2 && Stops(Unix(text)) < 2
  {
    hide Trim, EmitFrom, PackedBlocks, BlocksOf, SectionsOf, Unix, Headings, Stops, ToChunk, Nested;
    var ss := SectionsOf(detect, Unix(text));
    if Headings(ss) >= 2 {
      HeadingsAtMost(ss);
      SectionsNested(detect, Unix(text));
      EmitGives(title, ss, 0, Size(chunkSize));
    }
  }

  // ----- the document in the chunks -----

  /**
   With two headings or more: all section texts together are the document, and the chunks that are returned
   hold in turn the text of every section that is not skipped, once and in order, up to white space.
   */
  lemma DocumentInChunks(detect: Detector, title: string, chunkSize: int, text: string)
    requires Trim(Unix(text)) != "" && Headings(SectionsOf(detect, Unix(text))) >= 2
    ensures var ss, size := SectionsOf(detect, Unix(text)), Size(chunkSize);
      var chunks, own := Structured(detect, title, chunkSize, text), FreshFrom(ss, 0, size);
      && chunks.Some?
      && InTurn(SlotsFrom(ss, 0, size)) && AllIn(title, ss, size, SlotsFrom(ss, 0, size), own, chunks.value)
      && Ink(Join(own)) == Ink(Join(TextsBut(ss, 0, Dropped(ss, 0, size))))
      && Ink(Join(TextsBut(ss, 0, {}))) == Ink(Join(Kept(AllLines(Unix(text)))))
  {
    hide Ink, Join, SectionsOf, Kept, FreshFrom, TextsBut, Dropped, Trim, Unix, AllLines, Headings, EmitFrom, AllIn, InTurn;
    hide BlocksOf, Stops, PackedBlocks, ToChunk, SlotsFrom;
    var ss, size := SectionsOf(detect, Unix(text)), Size(chunkSize);
    NoStructureExactly(detect, title, chunkSize, text);
    ChunksHoldFresh(title, ss, 0, size);
    SlotsLater(ss, 0, size);
    EmitKeepsText(ss, 0, size);
    TextsAreDocument(detect, Unix(text));
  }

  /** Otherwise, where chunks are returned: their bodies are the packed paragraphs, and these are the document. */
  lemma DocumentInParagraphs(detect: Detector, title: string, chunkSize: int, text: string)
    requires Trim(Unix(text)) != "" && Headings(SectionsOf(detect, Unix(text))) < 2
    requires Structured(detect, title, chunkSize, text).Some?
    ensures var size := Size(chunkSize);
      var chunks, bodies := Structured(detect, title, chunkSize, text).value, PackedBlocks(BlocksOf(Unix(text)), size);
      && |chunks| == |bodies|
      && (forall k :: 0 <= k < |chunks| ==> chunks[k] == ToChunk(title, [], "", bodies[k]))
      && Ink(Join(bodies)) == Ink(Join(Kept(AllLines(Unix(text))))) && Fits(bodies, Limit(size))
  {
    hide Ink, Join, BlocksOf, PackedBlocks, Kept, Fits, Trim, Unix, AllLines, Headings, SectionsOf, EmitFrom, Stops, ToChunk;
    PackedBlocksFit(BlocksOf(Unix(text)), Size(chunkSize));
    BlocksKeepText(Unix(text));
  }

  /**
   Every chunk that is returned: with two headings or more it carries the title, breadcrumb and label of its group;
   otherwise it is a packed paragraph under the title and has neither path nor label.
   */
  lemma ChunksFramed(detect: Detector, title: string, chunkSize: int, text: string, k: nat)
    requires Structured(detect, title, chunkSize, text).Some? && k < |Structured(detect, title, chunkSize, text).value|
    ensures var c, ss, size := Structured(detect, title, chunkSize, text).value[k], SectionsOf(detect, Unix(text)), Size(chunkSize);
      if Headings(ss) < 2 then
        var bodies := PackedBlocks(BlocksOf(Unix(text)), size);
        k < |bodies| && Frames(c, title, [], None, bodies[k])
      else
        var slots, own := SlotsFrom(ss, 0, size), FreshFrom(ss, 0, size);
        && k < |slots| && k < |own| && slots[k].group < |ss|
        && var s := ss[slots[k].group];
           var body := if slots[k].place == 0 || s.heading == "" then own[k]
                       else if own[k] == "" then s.heading else s.heading + "\n" + own[k];
           Frames(c, title, s.parent, RunLabel(ss, slots[k].group, size), body)
  {
    hide SectionsOf, Unix, Headings, BlocksOf, Stops, PackedBlocks, ToChunk, EmitFrom, SlotsFrom, FreshFrom, Frames, RunLabel;
    hide Trim;
    var ss, size := SectionsOf(detect, Unix(text)), Size(chunkSize);
    if Headings(ss) >= 2 {
      ChunkFramed(title, ss, size, k);
    } else {
      ToChunkFrames(title, [], "", PackedBlocks(BlocksOf(Unix(text)), size)[k]);
    }
  }
}
