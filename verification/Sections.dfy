/** Cutting a document into sections at its headings, with the path of open headings above each. */
module Sections {
  import opened TextInk
  import opened Splitting
  import opened Strings
  import opened Values

  /** Smaller levels are higher in the outline. */
  datatype Heading = Heading(level: int, name: string)

  datatype Section = Section(parent: seq<string>, name: string, level: int, heading: string, blocks: seq<string>)

  /** Which lines are headings is for the host's patterns to say: a function of the trimmed line. */
  type Detector = string -> Option<Heading>

  const LOWEST := 9007199254740991
  const PREAMBLE := Section([], "", LOWEST, "", [])

  predicate RuleChar(c: char) {
    || c == '-' || c == '=' || c == '\U{FF1D}' || c == '*' || c == '\U{FF0A}' || c == '_' || c == '\U{FF3F}'
    || c == '\U{2500}' || c == '\U{2015}' || c == '\U{30FC}' || c == '\U{2501}'
  }

  /** A rule drawn with at least three strokes. */
  predicate IsSeparator(line: string) {
    var t := Trim(line);
    |t| >= 3 && forall k :: 0 <= k < |t| ==> RuleChar(t[k])
  }

  predicate IsGap(raw: string) {
    Trim(raw) == "" || IsSeparator(raw)
  }

  /** The strokes a rule may be drawn with. */
  const STROKES := "-=*_\U{FF1D}\U{FF0A}\U{FF3F}\U{2500}\U{2015}\U{30FC}\U{2501}"

  predicate Drawn(s: string) {
    forall k :: 0 <= k < |s| ==> s[k] in STROKES
  }

  /** A rule, with nothing but white space around it. */
  predicate RuledAt(line: string, i: int, j: int) {
    0 <= i && i + 3 <= j <= |line| && Gap(line[..i]) && Drawn(line[i..j]) && Gap(line[j..])
  }

  /** Exactly the blank lines and the rules of three strokes or more are left out. */
  lemma GapExactly(line: string)
    ensures IsGap(line) <==> Gap(line) || exists i, j :: RuledAt(line, i, j)
  {
    hide Trim, Gap, Drawn;
    if Gap(line) {
      GapTrims(line);
    } else if i, j :| RuledAt(line, i, j) {
      RuledIsGap(line, i, j);
    } else if IsGap(line) {
      var i, j := GapIsRuled(line);
    }
  }

  lemma RuledIsGap(line: string, i: int, j: int)
    requires RuledAt(line, i, j)
    ensures IsSeparator(line)
  {
    hide Trim, Gap;
    var t := line[i..j];
    assert line == line[..i] + t + line[j..];
    StrokesAreInk(t);
    TrimGaps(line[..i], t, line[j..]);
    assert forall k :: 0 <= k < |t| ==> t[k] in STROKES;
  }

  lemma GapIsRuled(line: string) returns (i: nat, j: nat)
    requires IsGap(line) && !Gap(line)
    ensures RuledAt(line, i, j)
  {
    hide Trim;
    i, j := TrimParts(line);
    var t := line[i..j];
    assert line == line[..i] + t + line[j..];
    assert forall k :: 0 <= k < |t| ==> t[k] in STROKES;
  }

  lemma GapTrims(s: string)
    requires Gap(s)
    ensures Trim(s) == ""
  {
    TrimStartGap(s, "");
    assert s + "" == s;
  }

  lemma StrokesAreInk(s: string)
    requires Drawn(s) && s != ""
    ensures Trimmed(s)
  {
    assert s[0] in STROKES && s[|s| - 1] in STROKES;
    assert forall c :: c in STROKES ==> !IsSpace(c);
  }

  predicate IsTitle(detect: Detector, raw: string) {
    !IsGap(raw) && detect(Trim(raw)).Some?
  }

  // ----- the parser as a fold over the lines -----

  datatype State = State(sections: seq<Section>, stack: seq<Heading>, buf: seq<string>)

  const START := State([PREAMBLE], [], [])

  function Labels(hs: seq<Heading>): (r: seq<string>)
    ensures |r| == |hs| && forall k :: 0 <= k < |hs| ==> r[k] == hs[k].name
  {
    seq(|hs|, k requires 0 <= k < |hs| => hs[k].name)
  }

  function AddBlock(sections: seq<Section>, buf: seq<string>): (r: seq<Section>)
    requires sections != []
    ensures |r| == |sections|
  {
    var b := Trim(JoinLines(buf));
    if b == "" then sections
    else
      var n := |sections| - 1;
      sections[n := sections[n].(blocks := sections[n].blocks + [b])]
  }

  /** The open headings above a new one. */
  function Above(stack: seq<Heading>, level: int): (r: seq<Heading>)
    ensures |r| <= |stack| && r == stack[..|r|]
  {
    if stack != [] && stack[|stack| - 1].level >= level then Above(stack[..|stack| - 1], level) else stack
  }

  function Opened(stack: seq<Heading>, h: Heading, raw: string): Section {
    Section(Labels(stack), h.name, h.level, Trim(raw), [])
  }

  function Step(detect: Detector, s: State, raw: string): (r: State)
    requires s.sections != []
    ensures r.sections != []
  {
    if IsGap(raw) then State(AddBlock(s.sections, s.buf), s.stack, [])
    else match detect(Trim(raw))
      case Some(h) =>
        var up := Above(s.stack, h.level);
        State(AddBlock(s.sections, s.buf) + [Opened(up, h, raw)], up + [h], [])
      case None => s.(buf := s.buf + [TrimEnd(raw)])
  }

  function After(detect: Detector, lines: seq<string>): (r: State)
    ensures r.sections != []
  {
    if lines == [] then START else Step(detect, After(detect, lines[..|lines| - 1]), lines[|lines| - 1])
  }

  function SectionsOf(detect: Detector, text: string): seq<Section> {
    var s := After(detect, AllLines(text));
    AddBlock(s.sections, s.buf)
  }

  method Flush(sections: seq<Section>, buf: seq<string>) returns (r: seq<Section>)
    requires sections != []
    ensures r == AddBlock(sections, buf)
  {
    r := sections;
    var b := Trim(JoinLines(buf));
    if b != "" {
      var n := |sections| - 1;
      r := sections[n := sections[n].(blocks := sections[n].blocks + [b])];
    }
  }

  method CloseTo(stack: seq<Heading>, level: int) returns (up: seq<Heading>)
    ensures up == Above(stack, level)
  {
    up := stack;
    while up != [] && up[|up| - 1].level >= level
      invariant Above(up, level) == Above(stack, level)
    {
      up := up[..|up| - 1];
    }
  }

  method ParseSections(detect: Detector, text: string) returns (sections: seq<Section>)
    ensures sections == SectionsOf(detect, text)
  {
    hide AddBlock, IsGap, Above, Opened, AllLines, After, Trim, TrimEnd;
    sections := [PREAMBLE];
    var stack: seq<Heading> := [];
    var buf: seq<string> := [];
    var lines := AllLines(text);
    AfterNone(detect, lines);
    for i := 0 to |lines|
      invariant sections != []
      invariant After(detect, lines[..i]) == State(sections, stack, buf)
    {
      var raw := lines[i];
      AfterOne(detect, lines, i);
      if IsGap(raw) {
        sections := Flush(sections, buf);
        buf := [];
      } else {
        var h := detect(Trim(raw));
        if h.Some? {
          sections := Flush(sections, buf);
          buf := [];
          stack := CloseTo(stack, h.value.level);
          sections := sections + [Opened(stack, h.value, raw)];
          stack := stack + [h.value];
        } else {
          buf := buf + [TrimEnd(raw)];
        }
      }
    }
    assert lines[..|lines|] == lines;
    sections := Flush(sections, buf);
  }

  lemma AfterNone(detect: Detector, lines: seq<string>)
    ensures After(detect, lines[..0]) == START
  {
  }

  lemma AfterOne(detect: Detector, lines: seq<string>, i: nat)
    requires i < |lines|
    ensures After(detect, lines[..i + 1]) == Step(detect, After(detect, lines[..i]), lines[i])
  {
    assert lines[..i + 1][..i] == lines[..i];
  }

  // ----- nothing is lost -----

  /** The text of a section: its heading line and its blocks. */
  function SectionLines(s: Section): seq<string> {
    (if s.heading == "" then [] else [s.heading]) + s.blocks
  }

  function AllText(sections: seq<Section>): string {
    if sections == [] then "" else AllText(sections[..|sections| - 1]) + Join(SectionLines(sections[|sections| - 1]))
  }

  /** The lines that are neither blank nor drawn rules. */
  function Kept(lines: seq<string>): seq<string> {
    if lines == [] then []
    else
      var raw := lines[|lines| - 1];
      Kept(lines[..|lines| - 1]) + if IsGap(raw) then [] else [raw]
  }

  lemma TextOfOne(sections: seq<Section>, s: Section)
    ensures Ink(AllText(sections + [s])) == Ink(AllText(sections)) + Ink(Join(SectionLines(s)))
  {
    assert (sections + [s])[..|sections|] == sections;
    InkConcat(AllText(sections), Join(SectionLines(s)));
  }

  lemma GrownInk(s: Section, block: string)
    ensures Ink(Join(SectionLines(s.(blocks := s.blocks + [block])))) == Ink(Join(SectionLines(s))) + Ink(block)
  {
    hide Ink, Join;
    assert SectionLines(s.(blocks := s.blocks + [block])) == SectionLines(s) + [block];
    InkSnoc(SectionLines(s), block);
  }

  lemma AddBlockShape(sections: seq<Section>, buf: seq<string>)
    requires sections != []
    ensures var n, block := |sections| - 1, Trim(JoinLines(buf));
      AddBlock(sections, buf) == if block == "" then sections
                                 else sections[..n] + [sections[n].(blocks := sections[n].blocks + [block])]
  {
    hide Trim, JoinLines;
  }

  lemma BlockInk(sections: seq<Section>, buf: seq<string>)
    requires sections != []
    ensures Ink(AllText(AddBlock(sections, buf))) == Ink(AllText(sections)) + Ink(Join(buf))
  {
    hide Ink, Trim, Join, JoinLines, AllText, SectionLines, AddBlock;
    var block := Trim(JoinLines(buf));
    AddBlockShape(sections, buf);
    BlockOfBuffer(buf);
    var n := |sections| - 1;
    var before, last := sections[..n], sections[n];
    assert sections == before + [last];
    TextOfOne(before, last);
    TextOfOne(before, last.(blocks := last.blocks + [block]));
    GrownInk(last, block);
  }

  lemma BlockOfBuffer(buf: seq<string>)
    ensures Ink(Trim(JoinLines(buf))) == Ink(Join(buf))
    ensures Trim(JoinLines(buf)) == "" ==> Ink(Join(buf)) == ""
  {
    hide Ink, Trim, Join, JoinLines;
    InkTrim(JoinLines(buf));
    InkOfBlank(JoinLines(buf));
    InkJoinLines(buf);
  }

  lemma StepInk(detect: Detector, s: State, raw: string)
    requires s.sections != []
    ensures var r := Step(detect, s, raw);
      Ink(AllText(r.sections)) + Ink(Join(r.buf))
      == Ink(AllText(s.sections)) + Ink(Join(s.buf)) + if IsGap(raw) then "" else Ink(raw)
  {
    hide Ink, Trim, TrimEnd, JoinLines, AllText, AddBlock, IsSeparator, Above;
    BlockInk(s.sections, s.buf);
    InkEmpty();
    if !IsGap(raw) {
      match detect(Trim(raw))
      case Some(h) =>
        var s' := Opened(Above(s.stack, h.level), h, raw);
        TextOfOne(AddBlock(s.sections, s.buf), s');
        InkTrim(raw);
        assert SectionLines(s') == [Trim(raw)];
        JoinOne(Trim(raw));
      case None =>
        InkSnoc(s.buf, TrimEnd(raw));
        InkTrimEnd(raw);
    }
  }

  lemma InkEmpty()
    ensures Ink("") == "" && Join([]) == ""
  {
  }

  lemma {:induction false} AfterInk(detect: Detector, lines: seq<string>)
    ensures var s := After(detect, lines); Ink(AllText(s.sections)) + Ink(Join(s.buf)) == Ink(Join(Kept(lines)))
  {
    hide Step, Ink, Join, IsGap;
    if lines == [] {
      InkEmpty();
      StartInk();
    } else {
      var before, raw := lines[..|lines| - 1], lines[|lines| - 1];
      AfterInk(detect, before);
      StepInk(detect, After(detect, before), raw);
      InkSnoc(Kept(before), raw);
      assert IsGap(raw) ==> Kept(lines) == Kept(before);
    }
  }

  lemma StartInk()
    ensures Ink(AllText(START.sections)) == ""
  {
    assert AllText([PREAMBLE]) == AllText([PREAMBLE][..0]) + Join(SectionLines(PREAMBLE));
    assert SectionLines(PREAMBLE) == [];
  }

  /** The sections hold every line that is neither blank nor a rule, once and in order, up to white space. */
  lemma SectionsKeepText(detect: Detector, text: string)
    ensures Ink(AllText(SectionsOf(detect, text))) == Ink(Join(Kept(AllLines(text))))
  {
    hide Ink, Join, AllText, Kept, AllLines, AddBlock, After;
    var s := After(detect, AllLines(text));
    AfterInk(detect, AllLines(text));
    BlockInk(s.sections, s.buf);
  }
}
