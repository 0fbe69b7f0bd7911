/** Turning sections into chunks: small neighbours are merged, large sections are cut, bare containers are skipped. */
module Emission {
  import opened Outline
  import opened Packing
  import opened Sections
  import opened Splitting
  import opened Strings
  import opened TextInk
  import opened Values

  datatype Chunk = Chunk(content: string, path: Option<string>, name: Option<string>)

  const LABEL_MAX := 24

  function Filled(texts: seq<string>): seq<string> {
    if texts == [] then [] else (if texts[0] == "" then [] else [texts[0]]) + Filled(texts[1..])
  }

  function SectionText(s: Section): string {
    JoinLines(Filled([s.heading] + s.blocks))
  }

  function WithHeading(heading: string, piece: string): string {
    JoinLines(Filled([heading, piece]))
  }

  function MergeLabel(first: string, last: string): string {
    var joined := first + "\U{301C}" + last;
    if |joined| <= LABEL_MAX + 6 then joined else first + " \U{307B}\U{304B}"
  }

  function Slashed(parts: seq<string>): string {
    if parts == [] then "" else if |parts| == 1 then parts[0] else parts[0] + " / " + Slashed(parts[1..])
  }

  function Header(title: string): string {
    if title == "" then "" else "\U{3010}" + title + "\U{3011}"
  }

  function PathLine(parts: seq<string>): string {
    if Slashed(parts) == "" then "" else "[" + Slashed(parts) + "]"
  }

  function Known(s: string): Option<string> {
    if s == "" then None else Some(s)
  }

  function ToChunk(title: string, parts: seq<string>, name: string, body: string): Chunk {
    Chunk(Trim(JoinLines(Filled([Header(title), PathLine(parts), body]))), Known(Slashed(parts)), Known(name))
  }

  lemma {:induction false} InkFilled(texts: seq<string>)
    ensures Ink(Join(Filled(texts))) == Ink(Join(texts))
  {
    hide Ink;
    if texts != [] {
      InkFilled(texts[1..]);
      InkConcat(texts[0], Join(texts[1..]));
      var first: seq<string> := if texts[0] == "" then [] else [texts[0]];
      InkAppend(first, Filled(texts[1..]));
      JoinOne(texts[0]);
      EmptyInk();
    }
  }

  lemma InkJoinFilled(texts: seq<string>)
    ensures Ink(JoinLines(Filled(texts))) == Ink(Join(texts))
  {
    InkJoinLines(Filled(texts));
    InkFilled(texts);
  }

  /** A chunk's text is its document title, its path and its body. */
  lemma ContentIs(title: string, parts: seq<string>, name: string, body: string)
    ensures Ink(ToChunk(title, parts, name, body).content) == Ink(Header(title)) + Ink(PathLine(parts)) + Ink(body)
  {
    hide Ink, Join, JoinLines, Filled, Trim, Header, PathLine;
    var texts := [Header(title), PathLine(parts), body];
    InkTrim(JoinLines(Filled(texts)));
    InkJoinFilled(texts);
    InkSnoc([Header(title), PathLine(parts)], body);
    InkSnoc([Header(title)], PathLine(parts));
    JoinOne(Header(title));
    assert texts == [Header(title), PathLine(parts)] + [body];
    assert [Header(title), PathLine(parts)] == [Header(title)] + [PathLine(parts)];
  }

  // ----- the plan -----

  datatype Group = Skip | Merge(count: nat) | Cut

  /** Extends a merge that has reached `j` with `total` characters. */
  function RunEnd(ss: seq<Section>, i: nat, j: nat, total: nat, size: nat): (r: nat)
    requires i < j <= |ss|
    ensures j <= r <= |ss|
    decreases |ss| - j
  {
    if j < |ss| && ss[j].name != "" && ss[j].parent == ss[i].parent && total + 1 + |SectionText(ss[j])| <= size
    then RunEnd(ss, i, j + 1, total + 1 + |SectionText(ss[j])|, size)
    else j
  }

  function GroupAt(ss: seq<Section>, i: nat, size: nat): (g: Group)
    requires i < |ss|
    ensures g.Merge? ==> 0 < g.count <= |ss| - i
  {
    var own := SectionText(ss[i]);
    if Trim(own) == "" then Skip
    else if ss[i].blocks == [] && ss[i].heading != "" && HasChild(ss, i) then Skip
    else if ss[i].name != "" && |own| <= size then Merge(RunEnd(ss, i, i + 1, |own|, size) - i)
    else Cut
  }

  function Width(g: Group): nat {
    if g.Merge? then g.count else 1
  }

  function Texts(ss: seq<Section>, i: nat, j: nat): (r: seq<string>)
    requires i <= j <= |ss|
    ensures |r| == j - i
    decreases j - i
  {
    if i == j then [] else Texts(ss, i, j - 1) + [SectionText(ss[j - 1])]
  }

  /** The pieces of a section that is cut; a heading with nothing under it has one, empty. */
  function Pieces(s: Section, size: nat): seq<string>
    requires size > 0
  {
    var pieces := PackedBlocks(s.blocks, size);
    if pieces == [] && s.heading != "" then [""] else pieces
  }

  function WithHeadings(heading: string, pieces: seq<string>): (r: seq<string>)
    ensures |r| == |pieces| && forall k :: 0 <= k < |pieces| ==> r[k] == WithHeading(heading, pieces[k])
  {
    seq(|pieces|, k requires 0 <= k < |pieces| => WithHeading(heading, pieces[k]))
  }

  /** The bodies of the chunks that the group at `i` gives. */
  function Bodies(ss: seq<Section>, i: nat, size: nat): seq<string>
    requires i < |ss| && size > 0
  {
    match GroupAt(ss, i, size)
    case Skip => []
    case Merge(n) => [JoinLines(Texts(ss, i, i + n))]
    case Cut => WithHeadings(ss[i].heading, Pieces(ss[i], size))
  }

  function GroupName(ss: seq<Section>, i: nat, size: nat): string
    requires i < |ss|
  {
    match GroupAt(ss, i, size)
    case Merge(n) => if n >= 2 then MergeLabel(ss[i].name, ss[i + n - 1].name) else ss[i].name
    case _ => ss[i].name
  }

  /** The path of the group's chunks: the breadcrumb and the name. A section without a name has none. */
  function GroupPath(ss: seq<Section>, i: nat, size: nat): seq<string>
    requires i < |ss|
  {
    if ss[i].name == "" then [] else ss[i].parent + [GroupName(ss, i, size)]
  }

  function ToChunks(title: string, parts: seq<string>, name: string, bodies: seq<string>): (r: seq<Chunk>)
    ensures |r| == |bodies| && forall k :: 0 <= k < |bodies| ==> r[k] == ToChunk(title, parts, name, bodies[k])
  {
    seq(|bodies|, k requires 0 <= k < |bodies| => ToChunk(title, parts, name, bodies[k]))
  }

  function GroupChunks(title: string, ss: seq<Section>, i: nat, size: nat): seq<Chunk>
    requires i < |ss| && size > 0
  {
    ToChunks(title, GroupPath(ss, i, size), GroupName(ss, i, size), Bodies(ss, i, size))
  }

  function EmitFrom(title: string, ss: seq<Section>, i: nat, size: nat): seq<Chunk>
    requires i <= |ss| && size > 0
    decreases |ss| - i
  {
    if i == |ss| then [] else GroupChunks(title, ss, i, size) + EmitFrom(title, ss, i + Width(GroupAt(ss, i, size)), size)
  }

  // ----- the loops -----

  method MergeRun(ss: seq<Section>, i: nat, size: nat) returns (texts: seq<string>, j: nat)
    requires i < |ss|
    ensures j == RunEnd(ss, i, i + 1, |SectionText(ss[i])|, size)
    ensures texts == Texts(ss, i, j)
  {
    hide SectionText;
    var own := SectionText(ss[i]);
    texts := [own];
    var total: nat := |own|;
    j := i + 1;
    while j < |ss|
      invariant i < j <= |ss| && texts == Texts(ss, i, j)
      invariant RunEnd(ss, i, j, total, size) == RunEnd(ss, i, i + 1, |own|, size)
    {
      var t := ss[j];
      if t.name == "" || t.parent != ss[i].parent { break; }
      var tx := SectionText(t);
      if total + 1 + |tx| > size { break; }
      texts := texts + [tx];
      total := total + 1 + |tx|;
      j := j + 1;
    }
  }

  method CutSection(title: string, s: Section, size: nat) returns (out: seq<Chunk>)
    requires size > 0
    ensures out == ToChunks(title, if s.name == "" then [] else s.parent + [s.name], s.name,
                            WithHeadings(s.heading, Pieces(s, size)))
  {
    hide PackedBlocks, ToChunk, WithHeading;
    var pieces := PackBlocks(s.blocks, size);
    if pieces == [] && s.heading != "" { pieces := [""]; }
    var parts := if s.name == "" then [] else s.parent + [s.name];
    out := [];
    for k := 0 to |pieces|
      invariant |out| == k
      invariant forall n :: 0 <= n < k ==> out[n] == ToChunk(title, parts, s.name, WithHeading(s.heading, pieces[n]))
    {
      out := out + [ToChunk(title, parts, s.name, WithHeading(s.heading, pieces[k]))];
    }
  }

  method EmitGroup(title: string, ss: seq<Section>, i: nat, size: nat) returns (out: seq<Chunk>, next: nat)
    requires i < |ss| && size > 0
    ensures out == GroupChunks(title, ss, i, size) && next == i + Width(GroupAt(ss, i, size))
  {
    hide SectionText, ToChunk, Pieces, WithHeadings, Texts, Trim, HasChild, MergeLabel, RunEnd;
    var s := ss[i];
    var own := SectionText(s);
    next := i + 1;
    if Trim(own) == "" {
      out := [];
    } else if s.blocks == [] && s.heading != "" && HasChild(ss, i) {
      out := [];
    } else if s.name != "" && |own| <= size {
      var texts, j := MergeRun(ss, i, size);
      if j - i >= 2 {
        var name := MergeLabel(s.name, ss[j - 1].name);
        out := [ToChunk(title, s.parent + [name], name, JoinLines(texts))];
      } else {
        OneText(ss, i);
        out := [ToChunk(title, s.parent + [s.name], s.name, own)];
      }
      next := if j > i + 1 then j else i + 1;
    } else {
      out := CutSection(title, s, size);
    }
  }

  method EmitSections(title: string, ss: seq<Section>, chunkSize: int) returns (out: seq<Chunk>)
    ensures out == EmitFrom(title, ss, 0, if chunkSize < 100 then 100 else chunkSize)
  {
    hide GroupChunks, GroupAt, EmitFrom;
    var size := if chunkSize < 100 then 100 else chunkSize;
    out := [];
    var i: nat := 0;
    while i < |ss|
      invariant i <= |ss| && out + EmitFrom(title, ss, i, size) == EmitFrom(title, ss, 0, size)
    {
      EmitStep(title, ss, i, size, out);
      var chunks, next := EmitGroup(title, ss, i, size);
      out := out + chunks;
      i := next;
    }
    EmitEnd(title, ss, size);
  }

  lemma EmitEnd(title: string, ss: seq<Section>, size: nat)
    requires size > 0
    ensures EmitFrom(title, ss, |ss|, size) == []
  {
  }

  lemma OneText(ss: seq<Section>, i: nat)
    requires i < |ss|
    ensures JoinLines(Texts(ss, i, i + 1)) == SectionText(ss[i])
  {
  }

  lemma EmitStep(title: string, ss: seq<Section>, i: nat, size: nat, out: seq<Chunk>)
    requires i < |ss| && size > 0
    ensures out + EmitFrom(title, ss, i, size)
         == out + GroupChunks(title, ss, i, size) + EmitFrom(title, ss, i + Width(GroupAt(ss, i, size)), size)
  {
    hide GroupChunks, GroupAt;
  }

  // ----- every section is used once -----

  /** The sections that the plan from `i` on skips. */
  function Dropped(ss: seq<Section>, i: nat, size: nat): (r: set<nat>)
    requires i <= |ss|
    ensures forall k: nat :: k in r ==> i <= k < |ss|
    decreases |ss| - i
  {
    if i == |ss| then {}
    else
      var g := GroupAt(ss, i, size);
      (if g.Skip? then {i} else {}) + Dropped(ss, i + Width(g), size)
  }

  /** A section whose only content is the heading of what follows under it. */
  predicate Container(ss: seq<Section>, i: nat)
    requires i < |ss|
  {
    ss[i].blocks == [] && ss[i].heading != "" && HasChild(ss, i)
  }

  lemma {:induction false} DroppedOnly(ss: seq<Section>, i: nat, size: nat, k: nat)
    requires i <= |ss| && k in Dropped(ss, i, size)
    ensures Trim(SectionText(ss[k])) == "" || Container(ss, k)
    decreases |ss| - i
  {
    hide SectionText, Trim, HasChild;
    if k != i { DroppedOnly(ss, i + Width(GroupAt(ss, i, size)), size, k); }
  }

  /** The texts of the sections from `i` on that are not in `drop`. */
  function TextsBut(ss: seq<Section>, i: nat, drop: set<nat>): seq<string>
    requires i <= |ss|
    decreases |ss| - i
  {
    if i == |ss| then [] else (if i in drop then [] else [SectionText(ss[i])]) + TextsBut(ss, i + 1, drop)
  }

  lemma {:induction false} TextsButSame(ss: seq<Section>, i: nat, d: set<nat>, e: set<nat>)
    requires i <= |ss| && forall k: nat :: i <= k ==> (k in d <==> k in e)
    ensures TextsBut(ss, i, d) == TextsBut(ss, i, e)
    decreases |ss| - i
  {
    if i < |ss| { TextsButSame(ss, i + 1, d, e); }
  }

  lemma {:induction false} TextsButRun(ss: seq<Section>, i: nat, j: nat, d: set<nat>)
    requires i <= j <= |ss| && forall k: nat :: i <= k < j ==> k !in d
    ensures TextsBut(ss, i, d) == Texts(ss, i, j) + TextsBut(ss, j, d)
    decreases j
  {
    hide SectionText;
    if i < j { TextsButRun(ss, i, j - 1, d); }
  }

  /** The bodies of a group without the heading that every later piece of a cut section repeats. */
  function Fresh(ss: seq<Section>, i: nat, size: nat): seq<string>
    requires i < |ss| && size > 0
  {
    var pieces := Pieces(ss[i], size);
    if GroupAt(ss, i, size).Cut? && pieces != [] then [WithHeading(ss[i].heading, pieces[0])] + pieces[1..]
    else Bodies(ss, i, size)
  }

  lemma FreshAreBodies(ss: seq<Section>, i: nat, size: nat)
    requires i < |ss| && size > 0
    ensures var own, bodies := Fresh(ss, i, size), Bodies(ss, i, size);
      && |own| == |bodies|
      && (bodies != [] ==> bodies[0] == own[0])
      && (forall k :: 0 < k < |bodies| ==> bodies[k] == WithHeading(ss[i].heading, own[k]))
  {
    hide Pieces, GroupAt, WithHeading, JoinLines, Texts, SectionText;
    var pieces := Pieces(ss[i], size);
    if GroupAt(ss, i, size).Cut? && pieces != [] {
      assert Bodies(ss, i, size) == WithHeadings(ss[i].heading, pieces);
      assert forall k :: 0 < k < |pieces| ==> pieces[1..][k - 1] == pieces[k];
    } else {
      assert |Bodies(ss, i, size)| <= 1;
    }
  }

  function FreshFrom(ss: seq<Section>, i: nat, size: nat): seq<string>
    requires i <= |ss| && size > 0
    decreases |ss| - i
  {
    if i == |ss| then [] else Fresh(ss, i, size) + FreshFrom(ss, i + Width(GroupAt(ss, i, size)), size)
  }

  lemma SectionInk(s: Section)
    ensures Ink(SectionText(s)) == Ink(s.heading) + Ink(Join(s.blocks))
  {
    hide Ink, Join, Filled, JoinLines;
    InkJoinFilled([s.heading] + s.blocks);
    InkAppend([s.heading], s.blocks);
    JoinOne(s.heading);
  }

  lemma CutInk(s: Section, size: nat)
    requires size > 0 && Pieces(s, size) != []
    ensures var pieces := Pieces(s, size);
      Ink(Join([WithHeading(s.heading, pieces[0])] + pieces[1..])) == Ink(SectionText(s))
  {
    hide Ink, Join, Filled, JoinLines, PackedBlocks, SectionText;
    var pieces := Pieces(s, size);
    var first, rest := pieces[0], pieces[1..];
    SectionInk(s);
    PackedBlocksFit(s.blocks, size);
    assert Ink(Join(pieces)) == Ink(Join(s.blocks)) by {
      JoinOne("");
      EmptyInk();
    }
    InkJoinFilled([s.heading, first]);
    InkSnoc([s.heading], first);
    JoinOne(s.heading);
    assert [s.heading, first] == [s.heading] + [first];
    InkAppend([WithHeading(s.heading, first)], rest);
    JoinOne(WithHeading(s.heading, first));
    InkAppend([first], rest);
    JoinOne(first);
    assert pieces == [first] + rest;
  }

  lemma GroupInk(ss: seq<Section>, i: nat, size: nat)
    requires i < |ss| && size > 0
    ensures Ink(Join(Fresh(ss, i, size)))
         == if GroupAt(ss, i, size).Skip? then "" else Ink(Join(Texts(ss, i, i + Width(GroupAt(ss, i, size)))))
  {
    hide Ink, Join, JoinLines, WithHeading, Pieces, SectionText, Trim, HasChild;
    EmptyInk();
    match GroupAt(ss, i, size)
    case Skip =>
    case Merge(n) =>
      var texts := Texts(ss, i, i + n);
      JoinOne(JoinLines(texts));
      InkJoinLines(texts);
    case Cut =>
      PiecesOfCut(ss, i, size);
      CutInk(ss[i], size);
      assert Texts(ss, i, i + 1) == [SectionText(ss[i])];
      JoinOne(SectionText(ss[i]));
  }

  lemma PiecesOfCut(ss: seq<Section>, i: nat, size: nat)
    requires i < |ss| && size > 0 && GroupAt(ss, i, size).Cut?
    ensures Pieces(ss[i], size) != []
  {
    hide Ink, Trim, SectionText, HasChild, PackedBlocks, Join;
    if Pieces(ss[i], size) == [] {
      SectionInk(ss[i]);
      PackedBlocksFit(ss[i].blocks, size);
      EmptyInk();
      InkOfBlank(SectionText(ss[i]));
    }
  }

  /** The bodies hold the text of every section that is not skipped, once and in order, up to white space. */
  lemma {:induction false} EmitKeepsText(ss: seq<Section>, i: nat, size: nat)
    requires i <= |ss| && size > 0
    ensures Ink(Join(FreshFrom(ss, i, size))) == Ink(Join(TextsBut(ss, i, Dropped(ss, i, size))))
    decreases |ss| - i
  {
    hide Ink, Join, Fresh, GroupAt, SectionText;
    if i < |ss| {
      var g := GroupAt(ss, i, size);
      var next := i + Width(g);
      var drop, later := Dropped(ss, i, size), Dropped(ss, next, size);
      EmitKeepsText(ss, next, size);
      GroupInk(ss, i, size);
      InkAppend(Fresh(ss, i, size), FreshFrom(ss, next, size));
      TextsButSame(ss, next, drop, later);
      if !g.Skip? {
        TextsButRun(ss, i, next, drop);
        InkAppend(Texts(ss, i, next), TextsBut(ss, next, drop));
      } else {
        assert TextsBut(ss, i, drop) == TextsBut(ss, next, drop);
      }
    }
  }

  // ----- from the fresh text to the chunks -----

  /** Where a chunk comes from: the group, by its first section, and the place among the group's chunks. */
  datatype Slot = Slot(group: nat, place: nat)

  function SlotsAt(ss: seq<Section>, i: nat, size: nat): (r: seq<Slot>)
    requires i < |ss| && size > 0
    ensures |r| == |Bodies(ss, i, size)| && forall p :: 0 <= p < |r| ==> r[p] == Slot(i, p)
  {
    seq(|Bodies(ss, i, size)|, p requires 0 <= p < |Bodies(ss, i, size)| => Slot(i, p))
  }

  function SlotsFrom(ss: seq<Section>, i: nat, size: nat): seq<Slot>
    requires i <= |ss| && size > 0
    decreases |ss| - i
  {
    if i == |ss| then [] else SlotsAt(ss, i, size) + SlotsFrom(ss, i + Width(GroupAt(ss, i, size)), size)
  }

  /** The chunk in a slot: its body is its fresh text, after the first of a group under the repeated heading. */
  function ChunkIn(title: string, ss: seq<Section>, size: nat, slot: Slot, own: string): Chunk
    requires slot.group < |ss|
  {
    ToChunk(title, GroupPath(ss, slot.group, size), GroupName(ss, slot.group, size),
            if slot.place == 0 then own else WithHeading(ss[slot.group].heading, own))
  }

  /** One group after the other, and within a group one place after the other. */
  predicate InTurn(slots: seq<Slot>) {
    && (slots != [] ==> slots[0].place == 0)
    && (forall k :: 0 < k < |slots| ==>
          || slots[k] == Slot(slots[k - 1].group, slots[k - 1].place + 1)
          || (slots[k].place == 0 && slots[k].group > slots[k - 1].group))
  }

  predicate AllIn(title: string, ss: seq<Section>, size: nat, slots: seq<Slot>, own: seq<string>, chunks: seq<Chunk>) {
    && |slots| == |own| == |chunks|
    && forall k :: 0 <= k < |chunks| ==>
      slots[k].group < |ss| && chunks[k] == ChunkIn(title, ss, size, slots[k], own[k])
  }

  lemma GroupChunksIn(title: string, ss: seq<Section>, i: nat, size: nat)
    requires i < |ss| && size > 0
    ensures AllIn(title, ss, size, SlotsAt(ss, i, size), Fresh(ss, i, size), GroupChunks(title, ss, i, size))
  {
    hide Bodies, Fresh, ToChunk, GroupPath, GroupName, WithHeading;
    FreshAreBodies(ss, i, size);
  }

  lemma AllInAppend(title: string, ss: seq<Section>, size: nat, s: seq<Slot>, f: seq<string>, c: seq<Chunk>,
                    s': seq<Slot>, f': seq<string>, c': seq<Chunk>)
    requires AllIn(title, ss, size, s, f, c) && AllIn(title, ss, size, s', f', c')
    ensures AllIn(title, ss, size, s + s', f + f', c + c')
  {
    hide ChunkIn;
  }

  /** In turn, and none before group `i`. */
  predicate InTurnFrom(slots: seq<Slot>, i: nat) {
    InTurn(slots) && forall k :: 0 <= k < |slots| ==> slots[k].group >= i
  }

  lemma InTurnAppend(a: seq<Slot>, b: seq<Slot>, i: nat, next: nat)
    requires forall p :: 0 <= p < |a| ==> a[p] == Slot(i, p)
    requires InTurnFrom(b, next) && next > i
    ensures InTurnFrom(a + b, i)
  {
  }

  lemma {:induction false} SlotsLater(ss: seq<Section>, i: nat, size: nat)
    requires i <= |ss| && size > 0
    ensures InTurnFrom(SlotsFrom(ss, i, size), i)
    decreases |ss| - i
  {
    hide Bodies, GroupAt, SlotsFrom, InTurnFrom, SlotsAt;
    SlotsUnfold(ss, i, size);
    if i < |ss| {
      var next := i + Width(GroupAt(ss, i, size));
      SlotsLater(ss, next, size);
      InTurnAppend(SlotsAt(ss, i, size), SlotsFrom(ss, next, size), i, next);
    } else {
      InTurnNone(i);
    }
  }

  lemma SlotsUnfold(ss: seq<Section>, i: nat, size: nat)
    requires i <= |ss| && size > 0
    ensures SlotsFrom(ss, i, size) ==
            if i == |ss| then [] else SlotsAt(ss, i, size) + SlotsFrom(ss, i + Width(GroupAt(ss, i, size)), size)
  {
    hide SlotsAt, GroupAt;
  }

  lemma InTurnNone(i: nat)
    ensures InTurnFrom([], i)
  {
  }

  /** Every chunk is its group's title, path and name around its body, and its body is its fresh text. */
  lemma {:induction false} ChunksHoldFresh(title: string, ss: seq<Section>, i: nat, size: nat)
    requires i <= |ss| && size > 0
    ensures AllIn(title, ss, size, SlotsFrom(ss, i, size), FreshFrom(ss, i, size), EmitFrom(title, ss, i, size))
    decreases |ss| - i
  {
    hide AllIn, SlotsAt, Fresh, GroupChunks, GroupAt, SlotsFrom, FreshFrom, EmitFrom;
    FromUnfolds(title, ss, i, size);
    if i < |ss| {
      var next := i + Width(GroupAt(ss, i, size));
      GroupChunksIn(title, ss, i, size);
      ChunksHoldFresh(title, ss, next, size);
      AllInAppend(title, ss, size, SlotsAt(ss, i, size), Fresh(ss, i, size), GroupChunks(title, ss, i, size),
                  SlotsFrom(ss, next, size), FreshFrom(ss, next, size), EmitFrom(title, ss, next, size));
    } else {
      NoneIn(title, ss, size);
    }
  }

  lemma FromUnfolds(title: string, ss: seq<Section>, i: nat, size: nat)
    requires i <= |ss| && size > 0
    ensures if i == |ss| then
              SlotsFrom(ss, i, size) == [] && FreshFrom(ss, i, size) == [] && EmitFrom(title, ss, i, size) == []
            else
              var next := i + Width(GroupAt(ss, i, size));
              && SlotsFrom(ss, i, size) == SlotsAt(ss, i, size) + SlotsFrom(ss, next, size)
              && FreshFrom(ss, i, size) == Fresh(ss, i, size) + FreshFrom(ss, next, size)
              && EmitFrom(title, ss, i, size) == GroupChunks(title, ss, i, size) + EmitFrom(title, ss, next, size)
  {
    hide SlotsAt, Fresh, GroupChunks, GroupAt;
  }

  lemma NoneIn(title: string, ss: seq<Section>, size: nat)
    ensures AllIn(title, ss, size, [], [], [])
  {
  }

  // ----- what a merge holds -----

  lemma {:induction false} LengthOfLines(lines: seq<string>, last: string)
    requires lines != []
    ensures |JoinLines(lines + [last])| == |JoinLines(lines)| + 1 + |last|
  {
    var all := lines + [last];
    if |lines| > 1 {
      assert all[1..] == lines[1..] + [last];
      LengthOfLines(lines[1..], last);
    } else {
      assert all[1..] == [last];
    }
  }

  predicate SameGroup(ss: seq<Section>, i: nat, k: nat)
    requires i < |ss| && k < |ss|
  {
    ss[k].name != "" && ss[k].parent == ss[i].parent
  }

  /** A merge takes neighbours under the same heading for as long as they fit, and stops only where it must. */
  lemma {:induction false} RunExactly(ss: seq<Section>, i: nat, j: nat, total: nat, size: nat)
    requires i < j <= |ss| && total == |JoinLines(Texts(ss, i, j))| <= size
    ensures var r := RunEnd(ss, i, j, total, size);
      && (forall k :: j <= k < r ==> SameGroup(ss, i, k))
      && |JoinLines(Texts(ss, i, r))| <= size
      && (r < |ss| ==> !SameGroup(ss, i, r) || |JoinLines(Texts(ss, i, r + 1))| > size)
    decreases |ss| - j
  {
    hide JoinLines, SectionText, Texts;
    if j < |ss| {
      LengthOfLines(Texts(ss, i, j), SectionText(ss[j]));
      TextsNext(ss, i, j);
      if SameGroup(ss, i, j) && total + 1 + |SectionText(ss[j])| <= size {
        RunExactly(ss, i, j + 1, total + 1 + |SectionText(ss[j])|, size);
      }
    }
  }

  lemma TextsNext(ss: seq<Section>, i: nat, j: nat)
    requires i <= j < |ss|
    ensures Texts(ss, i, j + 1) == Texts(ss, i, j) + [SectionText(ss[j])]
  {
  }

  lemma WithHeadingLength(heading: string, piece: string)
    ensures |WithHeading(heading, piece)| <= |heading| + 1 + |piece|
  {
    assert [heading, piece][1..] == [piece] && [piece][1..] == [];
    assert Filled([piece]) == if piece == "" then [] else [piece];
    if heading != "" && piece != "" {
      assert Filled([heading, piece]) == [heading, piece];
      assert JoinLines([heading, piece]) == heading + NL + JoinLines([piece]);
    } else {
      assert Filled([heading, piece]) == if heading != "" then [heading] else Filled([piece]);
    }
  }

  /** A merged body fits the size; a piece of a cut section is at most half as much again, plus its heading. */
  lemma BodiesFit(ss: seq<Section>, i: nat, size: nat)
    requires i < |ss| && size > 0
    ensures forall k :: 0 <= k < |Bodies(ss, i, size)| ==>
      |Bodies(ss, i, size)[k]| <= if GroupAt(ss, i, size).Merge? then size else |ss[i].heading| + 1 + Limit(size)
  {
    hide JoinLines, SectionText, PackedBlocks, Trim, HasChild, WithHeading, RunEnd, Limit;
    match GroupAt(ss, i, size)
    case Skip =>
    case Merge(n) =>
      OneText(ss, i);
      RunExactly(ss, i, i + 1, |SectionText(ss[i])|, size);
    case Cut =>
      PackedBlocksFit(ss[i].blocks, size);
      var pieces := Pieces(ss[i], size);
      forall k | 0 <= k < |pieces| ensures |WithHeading(ss[i].heading, pieces[k])| <= |ss[i].heading| + 1 + Limit(size) {
        WithHeadingLength(ss[i].heading, pieces[k]);
      }
  }

  // ----- a skipped heading is still named -----

  /** Every group start that is not skipped gives at least one chunk. */
  lemma GroupGives(ss: seq<Section>, i: nat, size: nat)
    requires i < |ss| && size > 0 && !GroupAt(ss, i, size).Skip?
    ensures Bodies(ss, i, size) != []
  {
    hide JoinLines, SectionText, Trim, HasChild, RunEnd, Pieces;
    if GroupAt(ss, i, size).Cut? { PiecesOfCut(ss, i, size); }
  }

  /** The plan reaches section `k` as the start of a group. */
  predicate Starts(ss: seq<Section>, i: nat, size: nat, k: nat)
    requires i <= |ss|
    decreases |ss| - i
  {
    i < |ss| && (k == i || Starts(ss, i + Width(GroupAt(ss, i, size)), size, k))
  }

  lemma {:induction false} DroppedStarts(ss: seq<Section>, i: nat, size: nat, k: nat)
    requires i <= |ss|
    ensures k in Dropped(ss, i, size) <==> Starts(ss, i, size, k) && k < |ss| && GroupAt(ss, k, size).Skip?
    decreases |ss| - i
  {
    hide GroupAt;
    if i < |ss| { DroppedStarts(ss, i + Width(GroupAt(ss, i, size)), size, k); StartsLater(ss, i, size, k); }
  }

  lemma {:induction false} StartsLater(ss: seq<Section>, i: nat, size: nat, k: nat)
    requires i <= |ss|
    ensures Starts(ss, i, size, k) ==> i <= k < |ss|
    decreases |ss| - i
  {
    hide GroupAt;
    if i < |ss| { StartsLater(ss, i + Width(GroupAt(ss, i, size)), size, k); }
  }

  lemma {:induction false} StartsNext(ss: seq<Section>, i: nat, size: nat, k: nat)
    requires i <= |ss| && Starts(ss, i, size, k) && k < |ss|
    ensures k + Width(GroupAt(ss, k, size)) < |ss| ==> Starts(ss, i, size, k + Width(GroupAt(ss, k, size)))
    decreases |ss| - i
  {
    hide GroupAt;
    if k != i { StartsNext(ss, i + Width(GroupAt(ss, i, size)), size, k); }
  }

  predicate IsPrefix(a: seq<string>, b: seq<string>) {
    |a| <= |b| && a == b[..|a|]
  }

  /** The label of section `k` is on the path of the chunks of group `m`. */
  predicate NamedBy(ss: seq<Section>, k: nat, m: nat, size: nat)
    requires k < |ss| && m < |ss|
  {
    IsPrefix(ss[k].parent + [ss[k].name], ss[m].parent) && (ss[m].name != "" ==>
    IsPrefix(ss[k].parent + [ss[k].name], GroupPath(ss, m, size)))
  }

  /** What the parser guarantees about its sections. */
  predicate Nested(ss: seq<Section>) {
    forall n: nat :: n < |ss| ==>
      (n > 0 ==> Tidy(ss[n].heading)) && (HasChild(ss, n) ==> ss[n + 1].parent == ss[n].parent + [ss[n].name])
  }

  lemma SectionsNested(detect: Detector, text: string)
    ensures Nested(SectionsOf(detect, text))
  {
    hide SectionsOf, Titles, AllLines, Tidy, AllTidy, Path;
    var ss, hs := SectionsOf(detect, text), Titles(detect, AllLines(text));
    SectionsOutlined(detect, text);
    forall n: nat | n < |ss|
      ensures (n > 0 ==> Tidy(ss[n].heading)) && (HasChild(ss, n) ==> ss[n + 1].parent == ss[n].parent + [ss[n].name])
    {
      ChildExactly(detect, text, n);
      if n > 0 { assert Titled(hs, n, ss[n]); }
    }
  }

  lemma HeadingShows(s: Section)
    requires Tidy(s.heading)
    ensures Trim(SectionText(s)) != ""
  {
    hide SectionText, Trim;
    SectionInk(s);
    InkOfBlank(SectionText(s));
    assert Ink(s.heading) == [s.heading[0]] + Ink(s.heading[1..]);
  }

  lemma PrefixMore(p: seq<string>, a: seq<string>, more: seq<string>)
    requires IsPrefix(p, a)
    ensures IsPrefix(p, a + more)
  {
    assert (a + more)[..|p|] == a[..|p|];
  }

  lemma {:induction false} NamedBelow(ss: seq<Section>, size: nat, p: seq<string>, n: nat) returns (m: nat)
    requires Nested(ss) && 0 < n < |ss| && Starts(ss, 0, size, n) && IsPrefix(p, ss[n].parent)
    ensures n <= m < |ss| && Starts(ss, 0, size, m) && !GroupAt(ss, m, size).Skip? && IsPrefix(p, ss[m].parent)
    decreases |ss| - n
  {
    hide SectionText, HasChild, RunEnd, Starts, Trim, Tidy, IsPrefix;
    m := n;
    if GroupAt(ss, n, size).Skip? {
      HeadingShows(ss[n]);
      assert HasChild(ss, n);
      ChildNext(ss, n);
      StartsNext(ss, 0, size, n);
      PrefixMore(p, ss[n].parent, [ss[n].name]);
      m := NamedBelow(ss, size, p, n + 1);
    }
  }

  lemma ChildNext(ss: seq<Section>, n: nat)
    requires n < |ss| && HasChild(ss, n)
    ensures n + 1 < |ss|
  {
  }

  /** A heading that is skipped although it has text is on the path of a later chunk, unless that one has no name. */
  lemma SkippedIsNamed(detect: Detector, text: string, size: nat, k: nat) returns (m: nat)
    requires size > 0 && k in Dropped(SectionsOf(detect, text), 0, size)
    requires Trim(SectionText(SectionsOf(detect, text)[k])) != ""
    ensures var ss := SectionsOf(detect, text);
      k < m < |ss| && Starts(ss, 0, size, m) && Bodies(ss, m, size) != [] && NamedBy(ss, k, m, size)
  {
    hide SectionsOf, SectionText, HasChild, RunEnd, Starts, Trim, Tidy, Dropped;
    var ss := SectionsOf(detect, text);
    SectionsNested(detect, text);
    DroppedOnly(ss, 0, size, k);
    DroppedStarts(ss, 0, size, k);
    ChildNext(ss, k);
    StartsNext(ss, 0, size, k);
    var p := ss[k].parent + [ss[k].name];
    m := NamedBelow(ss, size, p, k + 1);
    GroupGives(ss, m, size);
    PrefixMore(p, ss[m].parent, [GroupName(ss, m, size)]);
  }

  // ----- what a chunk says about its place -----

  /** The labels, each but the last followed by " / ". */
  function Crumbs(parents: seq<string>, last: string): string {
    if parents == [] then last else parents[0] + (" / " + Crumbs(parents[1..], last))
  }

  /** The title line and the path line. */
  function Opening(title: string, path: Option<string>): string {
    var head := if title == "" then "" else "\U{3010}" + title + "\U{3011}";
    if path.None? then head
    else if title == "" then "[" + path.value + "]"
    else head + "\n[" + path.value + "]"
  }

  /**
   The chunk names the section `own` under `parents`, or none. Its text begins with the title line and the path
   line, and its body follows on the next line.
   */
  predicate Frames(c: Chunk, title: string, parents: seq<string>, own: Option<string>, body: string) {
    && c.name == own
    && c.path == (if own.Some? then Some(Crumbs(parents, own.value)) else None)
    && c.content == (if Opening(title, c.path) == "" then Trim(body)
                     else if TrimEnd(body) == "" then Opening(title, c.path)
                     else Opening(title, c.path) + "\n" + TrimEnd(body))
  }

  lemma {:induction false} SlashedIs(parents: seq<string>, last: string)
    ensures Slashed(parents + [last]) == Crumbs(parents, last)
  {
    if parents != [] {
      assert (parents + [last])[1..] == parents[1..] + [last];
      SlashedIs(parents[1..], last);
    }
  }

  lemma {:induction false} CrumbsEnd(parents: seq<string>, last: string)
    ensures |Crumbs(parents, last)| >= |last|
  {
    if parents != [] { CrumbsEnd(parents[1..], last); }
  }

  /** `Filled` and `JoinLines` of two lines. */
  lemma TwoLines(a: string, b: string)
    ensures JoinLines(Filled([a, b])) == if a == "" then b else if b == "" then a else a + NL + b
  {
    assert [a, b][1..] == [b] && [b][1..] == [];
    assert Filled([b]) == if b == "" then [] else [b];
    assert Filled([a, b]) == (if a == "" then [] else [a]) + Filled([b]);
    if a != "" && b != "" { assert Filled([a, b]) == [a, b]; }
  }

  lemma ThreeLines(a: string, b: string, c: string)
    ensures JoinLines(Filled([a, b, c])) == JoinLines(Filled([JoinLines(Filled([a, b])), c]))
  {
    FilledCons(a, [b, c]);
    FilledNone(b, c);
    TwoLines(a, b);
    TwoLines(b, c);
    TwoLines(JoinLines(Filled([a, b])), c);
    hide Filled, JoinLines;
    assert [a] + [b, c] == [a, b, c];
  }

  lemma FilledCons(a: string, rest: seq<string>)
    ensures JoinLines(Filled([a] + rest)) ==
            if a == "" then JoinLines(Filled(rest))
            else if Filled(rest) == [] then a else a + NL + JoinLines(Filled(rest))
  {
    assert ([a] + rest)[1..] == rest;
    var more := Filled(rest);
    assert [] + more == more && ([a] + more)[1..] == more;
  }

  lemma FilledNone(b: string, c: string)
    ensures Filled([b, c]) == [] <==> b == "" && c == ""
  {
    assert [b, c][1..] == [c] && [c][1..] == [];
    assert Filled([c]) == if c == "" then [] else [c];
    assert |Filled([b, c])| == (if b == "" then 0 else 1) + |Filled([c])|;
  }

  lemma TrimEndStep(s: string, c: char)
    ensures TrimEnd(s + [c]) == if IsSpace(c) then TrimEnd(s) else s + [c]
  {
    assert (s + [c])[..|s|] == s;
  }

  lemma {:induction false} TrimEndTail(first: string, body: string)
    ensures TrimEnd(first + body) == if TrimEnd(body) == "" then TrimEnd(first) else first + TrimEnd(body)
  {
    if body == "" {
      assert first + body == first;
    } else {
      hide IsSpace, TrimEnd;
      var rest, c := body[..|body| - 1], body[|body| - 1];
      assert body == rest + [c];
      TrimEndTail(first, rest);
      TrimEndStep(rest, c);
      TrimEndStep(first + rest, c);
      assert first + body == first + rest + [c];
    }
  }

  /** White space at the end of what follows a line is cut off, and the line end with it if nothing is left. */
  lemma TrimEndAfter(first: string, body: string)
    requires first != "" && !IsSpace(first[|first| - 1])
    ensures TrimEnd(first + NL + body) == if TrimEnd(body) == "" then first else first + NL + TrimEnd(body)
  {
    NewlineIsSpace();
    TrimEndTail(first + NL, body);
    TrimEndStep(first, '\n');
    assert first + NL == first + ['\n'];
    assert TrimEnd(first) == first;
    hide IsSpace, TrimEnd;
  }

  lemma NewlineIsSpace()
    ensures IsSpace('\n') && !IsSpace('\U{3010}') && !IsSpace('\U{3011}') && !IsSpace('[') && !IsSpace(']')
  {
  }

  lemma TrimAfter(first: string, body: string)
    requires first != "" && Trimmed(first)
    ensures Trim(first) == first
    ensures Trim(first + NL + body) == if TrimEnd(body) == "" then first else first + NL + TrimEnd(body)
  {
    TrimKeeps(first);
    TrimEndAfter(first, body);
    assert (first + NL + body)[0] == first[0];
    hide IsSpace;
  }

  lemma OpeningTrimmed(title: string, path: Option<string>)
    ensures Trimmed(Opening(title, path))
  {
    NewlineIsSpace();
    hide IsSpace;
    var head := "\U{3010}" + title + "\U{3011}";
    assert head[0] == '\U{3010}' && head[|head| - 1] == '\U{3011}';
    if path.Some? {
      var line := "[" + path.value + "]";
      assert line[0] == '[' && line[|line| - 1] == ']';
      var both := head + "\n[" + path.value + "]";
      assert both[0] == head[0] && both[|both| - 1] == ']';
    }
  }

  lemma OpeningIs(title: string, parts: seq<string>)
    ensures Opening(title, Known(Slashed(parts))) == JoinLines(Filled([Header(title), PathLine(parts)]))
  {
    hide Slashed;
    TwoLines(Header(title), PathLine(parts));
    assert NL + ("[" + Slashed(parts) + "]") == "\n[" + Slashed(parts) + "]";
  }

  lemma ContentFramed(title: string, parts: seq<string>, name: string, body: string)
    ensures var c := ToChunk(title, parts, name, body);
      c.content == (if Opening(title, c.path) == "" then Trim(body)
                    else if TrimEnd(body) == "" then Opening(title, c.path)
                    else Opening(title, c.path) + "\n" + TrimEnd(body))
  {
    hide Slashed, Header, PathLine, Opening, Filled, JoinLines, Trim, TrimEnd, Trimmed;
    var opening := Opening(title, Known(Slashed(parts)));
    OpeningIs(title, parts);
    OpeningTrimmed(title, Known(Slashed(parts)));
    ThreeLines(Header(title), PathLine(parts), body);
    TwoLines(opening, body);
    if opening != "" { TrimAfter(opening, body); }
    assert TrimEnd("") == "" by { NothingTrimmed(); }
  }

  lemma NothingTrimmed()
    ensures TrimEnd("") == ""
  {
  }

  lemma ToChunkFrames(title: string, parents: seq<string>, name: string, body: string)
    ensures name != "" ==> Frames(ToChunk(title, parents + [name], name, body), title, parents, Some(name), body)
    ensures Frames(ToChunk(title, [], "", body), title, parents, None, body)
  {
    hide Opening, TrimEnd, Crumbs;
    ContentFramed(title, parents + [name], name, body);
    ContentFramed(title, [], "", body);
    SlashedIs(parents, name);
    CrumbsEnd(parents, name);
    hide Trim, JoinLines, Filled;
  }

  /** The label of a group: that of its section; a merged run has its first label, with the last if that is short enough. */
  function RunLabel(ss: seq<Section>, i: nat, size: nat): Option<string>
    requires i < |ss|
  {
    var g := GroupAt(ss, i, size);
    if ss[i].name == "" then None
    else if g.Merge? && g.count > 1 then
      var range := ss[i].name + "\U{301C}" + ss[i + g.count - 1].name;
      Some(if |range| <= 30 then range else ss[i].name + " \U{307B}\U{304B}")
    else Some(ss[i].name)
  }

  lemma GroupLabel(ss: seq<Section>, i: nat, size: nat)
    requires i < |ss|
    ensures RunLabel(ss, i, size) == Known(GroupName(ss, i, size))
    ensures GroupPath(ss, i, size) == if ss[i].name == "" then [] else ss[i].parent + [GroupName(ss, i, size)]
    ensures ss[i].name == "" ==> GroupName(ss, i, size) == ""
    ensures ss[i].name != "" ==> GroupName(ss, i, size) != ""
  {
    hide SectionText, Trim, HasChild, RunEnd;
  }

  /**
   Every chunk is framed by its group: by title, breadcrumb and label; one without a label has no path either. Its
   body is its fresh text, after the first of a group under the repeated heading.
   */
  lemma ChunkFramed(title: string, ss: seq<Section>, size: nat, k: nat)
    requires size > 0 && k < |EmitFrom(title, ss, 0, size)|
    ensures var slots, own := SlotsFrom(ss, 0, size), FreshFrom(ss, 0, size);
      && k < |slots| && k < |own| && slots[k].group < |ss|
      && var s := ss[slots[k].group];
         var body := if slots[k].place == 0 || s.heading == "" then own[k]
                     else if own[k] == "" then s.heading else s.heading + "\n" + own[k];
         Frames(EmitFrom(title, ss, 0, size)[k], title, s.parent, RunLabel(ss, slots[k].group, size), body)
  {
    hide SlotsFrom, FreshFrom, EmitFrom, ToChunk, Frames, RunLabel, GroupName, GroupPath, WithHeading;
    ChunksHoldFresh(title, ss, 0, size);
    var slot, own := SlotsFrom(ss, 0, size)[k], FreshFrom(ss, 0, size)[k];
    var s := ss[slot.group];
    var body := if slot.place == 0 then own else WithHeading(s.heading, own);
    GroupLabel(ss, slot.group, size);
    ToChunkFrames(title, s.parent, GroupName(ss, slot.group, size), body);
    assert WithHeading(s.heading, own) == if s.heading == "" then own else if own == "" then s.heading else s.heading + NL + own
      by { HeadedLines(s.heading, own); }
  }

  lemma HeadedLines(heading: string, piece: string)
    ensures WithHeading(heading, piece) == if heading == "" then piece else if piece == "" then heading else heading + NL + piece
  {
    TwoLines(heading, piece);
  }
}
