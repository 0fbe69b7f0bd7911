/** The path above a section is its true breadcrumb: the earlier headings that nothing has closed. */
module Outline {
  import opened Sections
  import opened Splitting
  import opened Strings
  import opened Values

  function Titles(detect: Detector, lines: seq<string>): seq<Heading> {
    if lines == [] then []
    else
      var raw := lines[|lines| - 1];
      Titles(detect, lines[..|lines| - 1]) + if IsTitle(detect, raw) then [detect(Trim(raw)).value] else []
  }

  /** Heading `j` is still open before heading `n`: all headings between are deeper. */
  predicate Open(hs: seq<Heading>, n: nat, j: nat)
    requires n <= |hs|
  {
    j < n && forall k :: j < k < n ==> hs[j].level < hs[k].level
  }

  /** Of the first `m` headings, those open before heading `n`. */
  function OpenHeads(hs: seq<Heading>, n: nat, m: nat): seq<Heading>
    requires m <= n <= |hs|
  {
    if m == 0 then []
    else OpenHeads(hs, n, m - 1) + if Open(hs, n, m - 1) then [hs[m - 1]] else []
  }

  /** The headings above heading `n`: open before it, and not closed by it. */
  function Path(hs: seq<Heading>, n: nat): seq<Heading>
    requires n < |hs|
  {
    OpenHeads(hs, n + 1, n)
  }

  lemma OpenStep(hs: seq<Heading>, n: nat, j: nat)
    requires j < n < |hs|
    ensures Open(hs, n + 1, j) <==> Open(hs, n, j) && hs[j].level < hs[n].level
  {
  }

  lemma {:induction false} SameOpen(hs: seq<Heading>, n: nat, m: nat)
    requires m <= n < |hs| && forall j: nat :: j < m ==> (Open(hs, n + 1, j) <==> Open(hs, n, j))
    ensures OpenHeads(hs, n + 1, m) == OpenHeads(hs, n, m)
  {
    hide Open;
    if m > 0 { SameOpen(hs, n, m - 1); }
  }

  /** Popping the stack at a new heading leaves the headings above it. */
  lemma {:induction false} PopLeavesPath(hs: seq<Heading>, n: nat, m: nat)
    requires m <= n < |hs|
    ensures Above(OpenHeads(hs, n, m), hs[n].level) == OpenHeads(hs, n + 1, m)
  {
    hide Above, Open, OpenHeads;
    var s := OpenHeads(hs, n, m);
    AboveStep(s, hs[n].level);
    HeadsStep(hs, n, m);
    HeadsStep(hs, n + 1, m);
    if m > 0 {
      var j := m - 1;
      OpenStep(hs, n, j);
      PopLeavesPath(hs, n, j);
      if Open(hs, n, j) && hs[j].level < hs[n].level {
        forall i: nat | i < m ensures Open(hs, n + 1, i) <==> Open(hs, n, i) {
          OpenStep(hs, n, i);
          if Open(hs, n, i) { OpenOrder(hs, n, i, j); }
        }
        SameOpen(hs, n, m);
      } else if Open(hs, n, j) {
        assert s[..|s| - 1] == OpenHeads(hs, n, j);
      }
    }
  }

  lemma AboveStep(stack: seq<Heading>, level: int)
    ensures Above(stack, level) ==
      if stack != [] && stack[|stack| - 1].level >= level then Above(stack[..|stack| - 1], level) else stack
  {
  }

  lemma HeadsStep(hs: seq<Heading>, n: nat, m: nat)
    requires m <= n <= |hs|
    ensures OpenHeads(hs, n, m) ==
      if m == 0 then [] else if Open(hs, n, m - 1) then OpenHeads(hs, n, m - 1) + [hs[m - 1]] else OpenHeads(hs, n, m - 1)
  {
  }

  lemma OpenOrder(hs: seq<Heading>, n: nat, i: nat, j: nat)
    requires i <= j < n <= |hs| && Open(hs, n, i)
    ensures hs[i].level <= hs[j].level
  {
  }

  lemma {:induction false} OpenPrefix(hs: seq<Heading>, h: Heading, n: nat, m: nat)
    requires m <= n <= |hs|
    ensures OpenHeads(hs + [h], n, m) == OpenHeads(hs, n, m)
  {
    if m > 0 {
      OpenPrefix(hs, h, n, m - 1);
      assert Open(hs + [h], n, m - 1) <==> Open(hs, n, m - 1) by {
        assert forall k :: 0 <= k < n ==> (hs + [h])[k] == hs[k];
      }
    }
  }

  /** Opening a heading makes it the innermost open one. */
  lemma OpenSelf(hs: seq<Heading>, n: nat)
    requires n < |hs|
    ensures OpenHeads(hs, n + 1, n + 1) == Path(hs, n) + [hs[n]]
  {
    assert Open(hs, n + 1, n);
  }

  predicate Rising(hs: seq<Heading>) {
    forall i, j :: 0 <= i < j < |hs| ==> hs[i].level < hs[j].level
  }

  /** The open headings get strictly deeper. */
  lemma {:induction false} OpenRises(hs: seq<Heading>, n: nat, m: nat)
    requires m <= n <= |hs|
    ensures Rising(OpenHeads(hs, n, m))
  {
    if m > 0 {
      OpenRises(hs, n, m - 1);
      OpenBelow(hs, n, m - 1);
    }
  }

  lemma {:induction false} OpenBelow(hs: seq<Heading>, n: nat, m: nat)
    requires m <= n <= |hs|
    ensures m < n ==> forall h :: h in OpenHeads(hs, n, m) ==> h.level < hs[m].level
  {
    if 0 < m < n {
      forall h | h in OpenHeads(hs, n, m) ensures h.level < hs[m].level { OpenWitness(hs, n, m, h); }
    }
  }

  lemma {:induction false} OpenWitness(hs: seq<Heading>, n: nat, m: nat, h: Heading)
    requires m <= n <= |hs| && h in OpenHeads(hs, n, m)
    ensures exists j: nat :: j < m && Open(hs, n, j) && hs[j] == h
  {
    if h in OpenHeads(hs, n, m - 1) {
      OpenWitness(hs, n, m - 1, h);
    } else {
      assert Open(hs, n, m - 1);
    }
  }

  // ----- the parser's state -----

  /** A trimmed, non-empty text. */
  predicate Tidy(s: string) {
    s != "" && Trimmed(s)
  }

  predicate AllTidy(blocks: seq<string>) {
    forall k :: 0 <= k < |blocks| ==> Tidy(blocks[k])
  }

  predicate Titled(hs: seq<Heading>, k: nat, s: Section)
    requires 0 < k <= |hs|
  {
    && s.name == hs[k - 1].name && s.level == hs[k - 1].level
    && s.parent == Labels(Path(hs, k - 1)) && Tidy(s.heading)
  }

  /** One section per heading, in order and each under its breadcrumb, after the preamble. */
  predicate Outlined(hs: seq<Heading>, sections: seq<Section>) {
    && |sections| == |hs| + 1
    && sections[0].parent == [] && sections[0].name == "" && sections[0].heading == ""
    && (forall k: nat :: 0 < k <= |hs| ==> Titled(hs, k, sections[k]))
    && (forall k: nat :: k < |sections| ==> AllTidy(sections[k].blocks))
  }

  lemma BlockKeepsOutline(hs: seq<Heading>, sections: seq<Section>, buf: seq<string>)
    requires Outlined(hs, sections)
    ensures Outlined(hs, AddBlock(sections, buf))
  {
    hide Path, JoinLines, Trim;
    var b := Trim(JoinLines(buf));
    if b != "" {
      var n := |sections| - 1;
      var r := AddBlock(sections, buf);
      assert r == sections[n := sections[n].(blocks := sections[n].blocks + [b])];
      assert Tidy(b);
      assert AllTidy(r[n].blocks);
      forall k: nat | 0 < k <= |hs| ensures Titled(hs, k, r[k]) { assert Titled(hs, k, sections[k]); }
    }
  }

  lemma NoBlocksTidy()
    ensures AllTidy([])
  {
  }

  lemma StillTitled(hs: seq<Heading>, h: Heading, k: nat, s: Section)
    requires 0 < k <= |hs| && Titled(hs, k, s)
    ensures Titled(hs + [h], k, s)
  {
    hide OpenHeads;
    OpenPrefix(hs, h, k, k - 1);
  }

  lemma TitleKeepsOutline(hs: seq<Heading>, sections: seq<Section>, h: Heading, raw: string)
    requires Outlined(hs, sections) && Tidy(Trim(raw))
    ensures Outlined(hs + [h], sections + [Opened(Path(hs + [h], |hs|), h, raw)])
  {
    hide Path, Trim, AllTidy, Titled, Labels;
    var gs := hs + [h];
    var s := Opened(Path(gs, |hs|), h, raw);
    var r := sections + [s];
    assert Titled(gs, |gs|, s) by { OpenedTitled(gs, |hs|, raw); }
    forall k: nat | 0 < k <= |gs| ensures Titled(gs, k, r[k]) {
      if k <= |hs| { StillTitled(hs, h, k, sections[k]); }
    }
    NoBlocksTidy();
  }

  lemma OpenedTitled(gs: seq<Heading>, n: nat, raw: string)
    requires n < |gs| && Tidy(Trim(raw))
    ensures Titled(gs, n + 1, Opened(Path(gs, n), gs[n], raw))
  {
  }

  predicate Tracks(hs: seq<Heading>, s: State) {
    s.sections != [] && Outlined(hs, s.sections) && s.stack == OpenHeads(hs, |hs|, |hs|)
  }

  lemma StepOutlined(detect: Detector, hs: seq<Heading>, s: State, raw: string)
    requires Tracks(hs, s)
    ensures Tracks(hs + if IsTitle(detect, raw) then [detect(Trim(raw)).value] else [], Step(detect, s, raw))
  {
    hide Outlined, AddBlock, OpenHeads, Above, IsSeparator, Trim;
    BlockKeepsOutline(hs, s.sections, s.buf);
    if IsTitle(detect, raw) {
      var h := detect(Trim(raw)).value;
      var gs := hs + [h];
      OpenPrefix(hs, h, |hs|, |hs|);
      PopLeavesPath(gs, |hs|, |hs|);
      TitleKeepsOutline(hs, AddBlock(s.sections, s.buf), h, raw);
      OpenSelf(gs, |hs|);
    } else {
      assert hs + [] == hs;
    }
  }

  lemma {:induction false} AfterOutlined(detect: Detector, lines: seq<string>)
    ensures Tracks(Titles(detect, lines), After(detect, lines))
  {
    hide Tracks, Step;
    if lines == [] {
      StartOutlined();
    } else {
      var before := lines[..|lines| - 1];
      AfterOutlined(detect, before);
      StepOutlined(detect, Titles(detect, before), After(detect, before), lines[|lines| - 1]);
    }
  }

  lemma StartOutlined()
    ensures Tracks([], START)
  {
  }

  /** The sections of a text are its headings in order, each under the headings that are open above it. */
  lemma SectionsOutlined(detect: Detector, text: string)
    ensures Outlined(Titles(detect, AllLines(text)), SectionsOf(detect, text))
  {
    hide Outlined, AllLines, After, AddBlock, Titles;
    AfterOutlined(detect, AllLines(text));
    var s := After(detect, AllLines(text));
    BlockKeepsOutline(Titles(detect, AllLines(text)), s.sections, s.buf);
  }

  // ----- children -----

  /** `hasChild`: the next section's path goes through this one's label. */
  predicate HasChild(sections: seq<Section>, i: nat)
    requires i < |sections|
  {
    && i + 1 < |sections|
    && |sections[i + 1].parent| > |sections[i].parent|
    && sections[i + 1].parent[|sections[i].parent|] == sections[i].name
  }

  lemma NextPath(hs: seq<Heading>, n: nat)
    requires n + 1 < |hs|
    ensures hs[n].level < hs[n + 1].level ==> Path(hs, n + 1) == Path(hs, n) + [hs[n]]
    ensures hs[n].level >= hs[n + 1].level ==> |Path(hs, n + 1)| <= |Path(hs, n)|
  {
    hide OpenHeads, Above;
    PopLeavesPath(hs, n + 1, n + 1);
    OpenSelf(hs, n);
    PopOne(Path(hs, n), hs[n], hs[n + 1].level);
  }

  lemma PopOne(stack: seq<Heading>, h: Heading, level: int)
    ensures h.level < level ==> Above(stack + [h], level) == stack + [h]
    ensures h.level >= level ==> Above(stack + [h], level) == Above(stack, level)
  {
    assert (stack + [h])[..|stack|] == stack;
  }

  /** Comparing labels decides exactly whether the next heading is deeper, and then its path is this one's plus this. */
  lemma ChildExactly(detect: Detector, text: string, i: nat)
    requires i < |SectionsOf(detect, text)|
    ensures var ss := SectionsOf(detect, text);
      && (HasChild(ss, i) <==> 0 < i < |ss| - 1 && ss[i].level < ss[i + 1].level)
      && (HasChild(ss, i) ==> ss[i + 1].parent == ss[i].parent + [ss[i].name])
  {
    hide SectionsOf, Titles, Path, Tidy, AllTidy, AllLines;
    var ss, hs := SectionsOf(detect, text), Titles(detect, AllLines(text));
    SectionsOutlined(detect, text);
    if i + 1 < |ss| {
      assert Titled(hs, i + 1, ss[i + 1]);
      if i == 0 {
        FirstPath(hs);
      } else {
        assert Titled(hs, i, ss[i]);
        NextPath(hs, i - 1);
      }
    }
  }

  lemma FirstPath(hs: seq<Heading>)
    requires hs != []
    ensures Path(hs, 0) == []
  {
  }
}
