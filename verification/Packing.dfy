/** Cutting text at sentence ends and filling pieces up to a size. */
module Packing {
  import opened Outline
  import opened Splitting
  import opened Strings
  import opened TextInk

  // ----- sentences -----

  predicate Stop(c: char) {
    || c == '\U{3002}' || c == '\U{FF0E}' || c == '\U{FF01}' || c == '\U{FF1F}' || c == '!' || c == '?'
  }

  predicate Closer(c: char) {
    || c == '\U{300D}' || c == '\U{300F}' || c == '\U{FF09}' || c == ')' || c == '\U{201D}' || c == '"' || c == '\''
  }

  function AfterClosers(text: string, e: nat): (r: nat)
    requires e <= |text|
    ensures e <= r <= |text| && (forall k :: e <= k < r ==> Closer(text[k])) && (r < |text| ==> !Closer(text[r]))
    decreases |text| - e
  {
    if e < |text| && Closer(text[e]) then AfterClosers(text, e + 1) else e
  }

  function FirstEnd(text: string, i: nat): (e: nat)
    requires i < |text|
    ensures i < e <= |text|
    decreases |text| - i
  {
    if text[i] == '\n' then i + 1
    else if Stop(text[i]) then AfterClosers(text, i + 1)
    else if i + 1 == |text| then |text|
    else FirstEnd(text, i + 1)
  }

  function SentencesFrom(text: string, start: nat): seq<string>
    requires start <= |text|
    decreases |text| - start
  {
    if start == |text| then []
    else
      var e := FirstEnd(text, start);
      [text[start..e]] + SentencesFrom(text, e)
  }

  function Sentences(text: string): seq<string> {
    SentencesFrom(text, 0)
  }

  /** Where a sentence that is open at `i` ends. */
  function OpenEnd(text: string, i: nat): nat {
    if i < |text| then FirstEnd(text, i) else |text|
  }

  lemma OpenEndStep(text: string, i: nat)
    requires i < |text|
    ensures OpenEnd(text, i) ==
      if text[i] == '\n' then i + 1 else if Stop(text[i]) then AfterClosers(text, i + 1) else OpenEnd(text, i + 1)
  {
  }

  method SkipClosers(text: string, from: nat) returns (end: nat)
    requires from <= |text|
    ensures end == AfterClosers(text, from)
  {
    end := from;
    while end < |text| && Closer(text[end])
      invariant from <= end <= |text| && AfterClosers(text, end) == AfterClosers(text, from)
    {
      end := end + 1;
    }
  }

  method SplitSentences(text: string) returns (out: seq<string>)
    ensures out == Sentences(text)
  {
    hide OpenEnd, FirstEnd, AfterClosers, SentencesFrom, Stop;
    out := [];
    var start, i := 0, 0;
    while i < |text|
      invariant start <= i <= |text| && OpenEnd(text, start) == OpenEnd(text, i)
      invariant out + SentencesFrom(text, start) == Sentences(text)
    {
      OpenEndStep(text, i);
      if text[i] == '\n' {
        SentenceStep(out, text, start);
        out := out + [text[start..i + 1]];
        start := i + 1;
      } else if Stop(text[i]) {
        var end := SkipClosers(text, i + 1);
        SentenceStep(out, text, start);
        out := out + [text[start..end]];
        start := end;
        i := end - 1;
      }
      i := i + 1;
    }
    SentencesEnd(text);
    if start < |text| {
      SentenceStep(out, text, start);
      out := out + [text[start..]];
    }
  }

  lemma SentenceStep(out: seq<string>, text: string, start: nat)
    requires start < |text|
    ensures start < OpenEnd(text, start) <= |text|
    ensures out + SentencesFrom(text, start)
         == out + [text[start..OpenEnd(text, start)]] + SentencesFrom(text, OpenEnd(text, start))
  {
  }

  lemma SentencesEnd(text: string)
    ensures SentencesFrom(text, |text|) == [] && OpenEnd(text, |text|) == |text|
    ensures forall start: nat :: start <= |text| ==> text[start..] == text[start..|text|]
  {
  }

  /** The sentences are the text, cut. */
  lemma {:induction false} SentencesJoin(text: string, start: nat)
    requires start <= |text|
    ensures Join(SentencesFrom(text, start)) == text[start..]
    decreases |text| - start
  {
    if start < |text| {
      var e := FirstEnd(text, start);
      SentencesJoin(text, e);
      assert text[start..] == text[start..e] + text[e..];
    }
  }

  /** A sentence ends after a line end, or after a stop with the closing marks that follow it. */
  ghost predicate Boundary(text: string, e: nat)
    requires e <= |text|
  {
    || (e > 0 && text[e - 1] == '\n')
    || (&& (e < |text| ==> text[e] !in CLOSERS)
        && exists k :: 0 <= k < e && text[k] in STOPS && forall j :: k < j < e ==> text[j] in CLOSERS)
  }

  /** The marks that end a sentence, and those that may close it. */
  const STOPS := "\U{3002}\U{FF0E}\U{FF01}\U{FF1F}!?"
  const CLOSERS := "\U{300D}\U{300F}\U{FF09})\U{201D}\"'"

  lemma Marks(c: char)
    ensures (Stop(c) <==> c in STOPS) && (Closer(c) <==> c in CLOSERS)
  {
  }

  /** `e` is where one of the sentences from `start` on ends. */
  predicate IsCut(text: string, start: nat, e: nat)
    requires start <= |text|
    decreases |text| - start
  {
    start < |text| && (e == FirstEnd(text, start) || IsCut(text, FirstEnd(text, start), e))
  }

  /** Closing marks run from a stop before `i` up to `e`. */
  ghost predicate Trailing(text: string, i: nat, e: nat)
    requires i <= e <= |text|
  {
    exists k :: 0 <= k < i && Stop(text[k]) && forall j :: k < j < e ==> Closer(text[j])
  }

  lemma {:induction false} FirstEndBoundary(text: string, i: nat)
    requires i < |text|
    ensures FirstEnd(text, i) < |text| ==> Boundary(text, FirstEnd(text, i))
    ensures forall e: nat :: i < e < FirstEnd(text, i) && Boundary(text, e) ==> Trailing(text, i, e)
    decreases |text| - i
  {
    if text[i] != '\n' && !Stop(text[i]) && i + 1 < |text| {
      FirstEndBoundary(text, i + 1);
      forall e: nat | i < e < FirstEnd(text, i) && Boundary(text, e) ensures Trailing(text, i, e) {
        if e > i + 1 { assert Trailing(text, i + 1, e); }
      }
    }
  }

  lemma NothingTrails(text: string, start: nat, e: nat)
    requires start < e <= |text| && (start == 0 || Boundary(text, start))
    ensures !Trailing(text, start, e)
  {
  }

  lemma {:induction false} CutsLater(text: string, start: nat, e: nat)
    requires start <= |text| && IsCut(text, start, e)
    ensures start < e <= |text|
    decreases |text| - start
  {
    if e != FirstEnd(text, start) { CutsLater(text, FirstEnd(text, start), e); }
  }

  /** The text is cut at every boundary and nowhere else. */
  lemma {:induction false} CutExactly(text: string, start: nat, e: nat)
    requires start < e < |text| && (start == 0 || Boundary(text, start))
    ensures IsCut(text, start, e) <==> Boundary(text, e)
    decreases |text| - start
  {
    hide FirstEnd, Boundary, Trailing;
    var f := FirstEnd(text, start);
    FirstEndBoundary(text, start);
    if e < f {
      NothingTrails(text, start, e);
      if IsCut(text, f, e) { CutsLater(text, f, e); }
    } else if e > f {
      CutExactly(text, f, e);
    }
  }

  /** The cuts are the ends of the sentences. */
  lemma {:induction false} CutsAreEnds(text: string, start: nat, e: nat)
    requires start <= |text|
    ensures IsCut(text, start, e) <==>
      exists n :: 0 < n <= |SentencesFrom(text, start)| && start + |Join(SentencesFrom(text, start)[..n])| == e
    decreases |text| - start
  {
    hide FirstEnd, Join;
    if start < |text| {
      var f := FirstEnd(text, start);
      var pieces, rest := SentencesFrom(text, start), SentencesFrom(text, f);
      CutsAreEnds(text, f, e);
      PrefixJoin(pieces, 1);
      assert pieces == [text[start..f]] + rest;
      assert Join(pieces[..1]) == text[start..f] by { JoinOne(text[start..f]); assert pieces[..1] == [text[start..f]]; }
      if IsCut(text, f, e) {
        var n :| 0 < n <= |rest| && f + |Join(rest[..n])| == e;
        PrefixJoin(pieces, n + 1);
        assert pieces[1..n + 1] == rest[..n];
      }
      forall n | 0 < n <= |pieces| && start + |Join(pieces[..n])| == e ensures IsCut(text, start, e) {
        PrefixJoin(pieces, n);
        if n > 1 { assert pieces[1..n] == rest[..n - 1]; }
      }
    }
  }

  lemma PrefixJoin(pieces: seq<string>, n: nat)
    requires 0 < n <= |pieces|
    ensures Join(pieces[..n]) == pieces[0] + Join(pieces[1..n])
  {
    assert pieces[..n][1..] == pieces[1..n];
  }

  // ----- pieces up to a size -----

  datatype Pack = Pack(out: seq<string>, buf: string)

  function Closed(p: Pack): seq<string> {
    p.out + Piece(p.buf)
  }

  function Piece(s: string): seq<string> {
    if Trim(s) == "" then [] else [Trim(s)]
  }

  /** The last resort: cut every `size` characters, from `i` on. */
  function Chopped(s: string, i: nat, size: nat): seq<string>
    requires size > 0
    decreases |s| - i
  {
    if i >= |s| then [] else Piece(s[i..if i + size < |s| then i + size else |s|]) + Chopped(s, i + size, size)
  }

  function PutSentence(p: Pack, s: string, size: nat): Pack
    requires size > 0
  {
    if |s| > size then Pack(Closed(p) + Chopped(s, 0, size), "")
    else if p.buf != "" && |p.buf| + |s| > size then Pack(Closed(p), s)
    else Pack(p.out, p.buf + s)
  }

  function PutSentences(sentences: seq<string>, size: nat): Pack
    requires size > 0
  {
    if sentences == [] then Pack([], "")
    else PutSentence(PutSentences(sentences[..|sentences| - 1], size), sentences[|sentences| - 1], size)
  }

  function PackedSentences(text: string, size: nat): seq<string>
    requires size > 0
  {
    Closed(PutSentences(Sentences(text), size))
  }

  /** A block may be half as long again as the size before it is cut at its sentences. */
  function PutBlock(p: Pack, b: string, size: nat): Pack
    requires size > 0
  {
    if 2 * |b| > 3 * size then Pack(Closed(p) + PackedSentences(b, size), "")
    else if p.buf != "" && |p.buf| + 1 + |b| > size then Pack(Closed(p), b)
    else Pack(p.out, if p.buf == "" then b else p.buf + NL + b)
  }

  function PutBlocks(blocks: seq<string>, size: nat): Pack
    requires size > 0
  {
    if blocks == [] then Pack([], "")
    else PutBlock(PutBlocks(blocks[..|blocks| - 1], size), blocks[|blocks| - 1], size)
  }

  function PackedBlocks(blocks: seq<string>, size: nat): seq<string>
    requires size > 0
  {
    Closed(PutBlocks(blocks, size))
  }

  method Flush(out: seq<string>, buf: string) returns (r: seq<string>)
    ensures r == Closed(Pack(out, buf))
  {
    r := out;
    var t := Trim(buf);
    if t != "" { r := r + [t]; }
  }

  method PackSentences(text: string, size: nat) returns (out: seq<string>)
    requires size > 0
    ensures out == PackedSentences(text, size)
  {
    hide Trim, Sentences, Closed, Chopped;
    var sentences := SplitSentences(text);
    out := [];
    var buf := "";
    for n := 0 to |sentences|
      invariant PutSentences(sentences[..n], size) == Pack(out, buf)
    {
      var s := sentences[n];
      assert sentences[..n + 1][..n] == sentences[..n];
      if |s| > size {
        out := Flush(out, buf);
        var pieces := Chop(s, size);
        out, buf := out + pieces, "";
      } else {
        if buf != "" && |buf| + |s| > size {
          out := Flush(out, buf);
          buf := "";
        }
        buf := buf + s;
      }
    }
    assert sentences[..|sentences|] == sentences;
    out := Flush(out, buf);
  }

  method Chop(s: string, size: nat) returns (pieces: seq<string>)
    requires size > 0
    ensures pieces == Chopped(s, 0, size)
  {
    hide Trim, IsSpace, Chopped;
    pieces := [];
    var i := 0;
    while i < |s|
      invariant pieces + Chopped(s, i, size) == Chopped(s, 0, size)
    {
      ChoppedStep(pieces, s, i, size);
      var piece := Trim(s[i..if i + size < |s| then i + size else |s|]);
      if piece != "" { pieces := pieces + [piece]; }
      i := i + size;
    }
    ChoppedEnd(s, i, size);
  }

  lemma ChoppedStep(pieces: seq<string>, s: string, i: nat, size: nat)
    requires size > 0 && i < |s|
    ensures var piece := Trim(s[i..if i + size < |s| then i + size else |s|]);
      pieces + Chopped(s, i, size) == (if piece == "" then pieces else pieces + [piece]) + Chopped(s, i + size, size)
  {
    hide Trim;
  }

  lemma ChoppedEnd(s: string, i: nat, size: nat)
    requires size > 0 && i >= |s|
    ensures Chopped(s, i, size) == []
  {
  }

  method PackBlocks(blocks: seq<string>, size: nat) returns (out: seq<string>)
    requires size > 0
    ensures out == PackedBlocks(blocks, size)
  {
    hide Closed, PackedSentences;
    out := [];
    var buf := "";
    for n := 0 to |blocks|
      invariant PutBlocks(blocks[..n], size) == Pack(out, buf)
    {
      var b := blocks[n];
      assert blocks[..n + 1][..n] == blocks[..n];
      if 2 * |b| > 3 * size {
        out := Flush(out, buf);
        var pieces := PackSentences(b, size);
        out, buf := out + pieces, "";
      } else {
        if buf != "" && |buf| + 1 + |b| > size {
          out := Flush(out, buf);
          buf := "";
        }
        buf := if buf == "" then b else buf + NL + b;
      }
    }
    assert blocks[..|blocks|] == blocks;
    out := Flush(out, buf);
  }

  // ----- nothing is lost, nothing is too long -----

  /** Trimmed, non-empty pieces of at most `limit` characters. */
  predicate Fits(pieces: seq<string>, limit: nat) {
    forall k :: 0 <= k < |pieces| ==> Tidy(pieces[k]) && |pieces[k]| <= limit
  }

  lemma FitsJoin(a: seq<string>, b: seq<string>, limit: nat)
    requires Fits(a, limit) && Fits(b, limit)
    ensures Fits(a + b, limit)
  {
  }

  lemma PieceInk(s: string)
    ensures Ink(Join(Piece(s))) == Ink(s)
  {
    hide Trim, Ink, Join, IsSpace;
    InkOfBlank(s);
    if Trim(s) == "" {
      EmptyInk();
    } else {
      InkTrim(s);
      JoinOne(Trim(s));
    }
  }

  lemma PieceTidy(s: string, limit: nat)
    requires |s| <= limit
    ensures Fits(Piece(s), limit)
  {
    hide Trim, Fits, IsSpace;
    if Trim(s) == "" {
      NoPieces(limit);
    } else {
      FitsOne(Trim(s), limit);
    }
  }

  lemma PieceFits(s: string, limit: nat)
    requires |s| <= limit
    ensures Fits(Piece(s), limit) && Ink(Join(Piece(s))) == Ink(s)
  {
    PieceInk(s);
    PieceTidy(s, limit);
    hide *;
  }

  lemma FitsOne(t: string, limit: nat)
    requires t != "" && !IsSpace(t[0]) && !IsSpace(t[|t| - 1]) && |t| <= limit
    ensures Fits([t], limit)
  {
  }

  lemma EmptyInk()
    ensures Join([]) == "" && Ink("") == ""
  {
  }

  lemma {:induction false} ChoppedFits(s: string, i: nat, size: nat)
    requires size > 0 && i <= |s|
    ensures Fits(Chopped(s, i, size), size) && Ink(Join(Chopped(s, i, size))) == Ink(s[i..])
    decreases |s| - i
  {
    hide Piece, Ink, Join, Fits;
    EmptyInk();
    if i < |s| {
      var end := if i + size < |s| then i + size else |s|;
      var p, rest := Piece(s[i..end]), Chopped(s, end, size);
      ChoppedTail(s, i, size);
      PieceFits(s[i..end], size);
      ChoppedFits(s, end, size);
      FitsJoin(p, rest, size);
      InkAppend(p, rest);
      InkConcat(s[i..end], s[end..]);
      assert s[i..] == s[i..end] + s[end..];
    } else {
      assert Fits([], size) by { PieceFits("", size); NoPieces(size); }
    }
  }

  lemma NoPieces(limit: nat)
    ensures Fits([], limit)
  {
  }

  lemma ChoppedTail(s: string, i: nat, size: nat)
    requires size > 0 && i < |s|
    ensures var end := if i + size < |s| then i + size else |s|;
      Chopped(s, i, size) == Piece(s[i..end]) + Chopped(s, end, size)
  {
  }

  lemma ClosedFits(p: Pack, limit: nat)
    requires Fits(p.out, limit) && |p.buf| <= limit
    ensures Fits(Closed(p), limit) && Ink(Join(Closed(p))) == Ink(Join(p.out)) + Ink(p.buf)
  {
    hide Piece, Ink, Join, Fits;
    PieceFits(p.buf, limit);
    FitsJoin(p.out, Piece(p.buf), limit);
    InkAppend(p.out, Piece(p.buf));
  }

  lemma {:induction false} PutSentencesFit(sentences: seq<string>, size: nat)
    requires size > 0
    ensures var p := PutSentences(sentences, size);
      Fits(p.out, size) && |p.buf| <= size && Ink(Join(p.out)) + Ink(p.buf) == Ink(Join(sentences))
  {
    hide Piece, Ink, Join, Fits, Closed, Chopped;
    EmptyInk();
    NoPieces(size);
    if sentences != [] {
      var before, s := sentences[..|sentences| - 1], sentences[|sentences| - 1];
      var p := PutSentences(before, size);
      PutSentencesFit(before, size);
      ClosedFits(p, size);
      InkSnoc(before, s);
      assert sentences == before + [s];
      if |s| > size {
        ChoppedFits(s, 0, size);
        FitsJoin(Closed(p), Chopped(s, 0, size), size);
        InkAppend(Closed(p), Chopped(s, 0, size));
      } else {
        InkConcat(p.buf, s);
      }
    }
  }

  /** Cutting a text at its sentences loses no ink and leaves trimmed pieces of at most the size. */
  lemma PackedSentencesFit(text: string, size: nat)
    requires size > 0
    ensures Fits(PackedSentences(text, size), size)
    ensures Ink(Join(PackedSentences(text, size))) == Ink(text)
  {
    hide Ink, Join, Fits, Closed, PutSentences, SentencesFrom;
    PutSentencesFit(Sentences(text), size);
    ClosedFits(PutSentences(Sentences(text), size), size);
    SentencesJoin(text, 0);
  }

  /** The longest piece a size allows: half as much again. */
  function Limit(size: nat): nat {
    3 * size / 2
  }

  lemma FitsMore(pieces: seq<string>, low: nat, high: nat)
    requires Fits(pieces, low) && low <= high
    ensures Fits(pieces, high)
  {
  }

  lemma {:induction false} PutBlocksFit(blocks: seq<string>, size: nat)
    requires size > 0
    ensures var p := PutBlocks(blocks, size);
      Fits(p.out, Limit(size)) && |p.buf| <= Limit(size) && Ink(Join(p.out)) + Ink(p.buf) == Ink(Join(blocks))
  {
    hide Piece, Ink, Join, Fits, Closed, PackedSentences;
    EmptyInk();
    NoPieces(Limit(size));
    if blocks != [] {
      var before, b := blocks[..|blocks| - 1], blocks[|blocks| - 1];
      var p := PutBlocks(before, size);
      PutBlocksFit(before, size);
      ClosedFits(p, Limit(size));
      InkSnoc(before, b);
      assert blocks == before + [b];
      if 2 * |b| > 3 * size {
        PackedSentencesFit(b, size);
        FitsMore(PackedSentences(b, size), size, Limit(size));
        FitsJoin(Closed(p), PackedSentences(b, size), Limit(size));
        InkAppend(Closed(p), PackedSentences(b, size));
      } else {
        InkConcat(p.buf, NL + b);
        InkConcat(NL, b);
        InkOfLineEnd();
        assert p.buf + NL + b == p.buf + (NL + b);
      }
    }
  }

  lemma InkOfLineEnd()
    ensures Ink(NL) == ""
  {
    InkOne('\n');
  }

  /** Packing blocks loses no ink and leaves trimmed pieces of at most half as much again as the size. */
  lemma PackedBlocksFit(blocks: seq<string>, size: nat)
    requires size > 0
    ensures Fits(PackedBlocks(blocks, size), Limit(size))
    ensures Ink(Join(PackedBlocks(blocks, size))) == Ink(Join(blocks))
  {
    hide Ink, Join, Fits, Closed, PutBlocks;
    PutBlocksFit(blocks, size);
    ClosedFits(PutBlocks(blocks, size), Limit(size));
  }

  // ----- no needless cuts -----

  /** No two neighbouring pieces would have fitted the size together. */
  predicate Tight(pieces: seq<string>, size: nat) {
    forall k :: 0 < k < |pieces| ==> |pieces[k - 1]| + 1 + |pieces[k]| > size
  }

  predicate Whole(blocks: seq<string>, size: nat) {
    forall k :: 0 <= k < |blocks| ==> Tidy(blocks[k]) && 2 * |blocks[k]| <= 3 * size
  }

  lemma NoTight(size: nat)
    ensures Tight([], size)
  {
  }

  lemma TidyLong(s: string)
    requires Tidy(s)
    ensures s != ""
  {
  }

  lemma TidyTrim(s: string)
    requires Tidy(s)
    ensures Trim(s) == s
  {
    TrimKeeps(s);
  }

  lemma TightSnoc(pieces: seq<string>, last: string, size: nat)
    requires Tight(pieces, size) && (pieces != [] ==> |pieces[|pieces| - 1]| + 1 + |last| > size)
    ensures Tight(pieces + [last], size)
  {
  }

  lemma {:induction false} PutBlocksTight(blocks: seq<string>, size: nat)
    requires size > 0 && Whole(blocks, size)
    ensures var p := PutBlocks(blocks, size);
      && Tight(p.out, size)
      && (blocks == [] ==> p == Pack([], ""))
      && (blocks != [] ==> Tidy(p.buf))
      && (p.out != [] ==> blocks != [] && |p.out[|p.out| - 1]| + 1 + |p.buf| > size)
  {
    hide Trim, Tight, PackedSentences, Limit, Tidy;
    NoTight(size);
    if blocks != [] {
      var before, b := blocks[..|blocks| - 1], blocks[|blocks| - 1];
      var p := PutBlocks(before, size);
      PutBlocksTight(before, size);
      assert Tidy(b);
      TidyLong(b);
      if p.buf != "" {
        TidyTrim(p.buf);
        TightSnoc(p.out, p.buf, size);
        TidyJoin(p.buf, b);
      }
    }
  }

  lemma TidyJoin(a: string, b: string)
    requires Tidy(a) && Tidy(b)
    ensures Tidy(a + NL + b)
  {
  }

  /** Blocks that are not too long are never cut, and never kept apart when they fit together. */
  lemma PackedBlocksTight(blocks: seq<string>, size: nat)
    requires size > 0 && Whole(blocks, size)
    ensures Tight(PackedBlocks(blocks, size), size)
  {
    hide Tight, Trim, PutBlocks, Whole;
    PutBlocksTight(blocks, size);
    var p := PutBlocks(blocks, size);
    if p.buf != "" {
      TidyTrim(p.buf);
      TightSnoc(p.out, p.buf, size);
    } else {
      assert Closed(p) == p.out;
    }
  }
}
