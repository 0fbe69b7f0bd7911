/** Removing script and style blocks from HTML by searching forward for tags. */
module StripBlocks {
  import opened Splitting
  import opened Strings
  import opened Values

  const GT := ">"

  function OpenTag(tag: string): string {
    "<" + tag
  }

  function CloseTag(tag: string): string {
    "</" + tag
  }

  /** An opening tag at `start`, a matching closing tag at `close` after it, and the bracket that ends that. */
  datatype Block = Block(start: nat, close: nat, end: nat)

  predicate IsBlock(low: string, tag: string, b: Block) {
    && SepAt(low, b.start, OpenTag(tag))
    && b.start + |OpenTag(tag)| <= b.close && SepAt(low, b.close, CloseTag(tag))
    && b.close <= b.end && SepAt(low, b.end, GT)
  }

  /** The first block from `at` on, as the three searches find it. */
  function NextBlock(low: string, tag: string, at: nat): Option<Block> {
    match FindSep(low, at, OpenTag(tag))
    case None => None
    case Some(start) =>
      match FindSep(low, start + |OpenTag(tag)|, CloseTag(tag))
      case None => None
      case Some(close) =>
        match FindSep(low, close, GT)
        case None => None
        case Some(end) => Some(Block(start, close, end))
  }

  /** The text from `at` on with every block replaced by a space. */
  function StripFrom(text: string, tag: string, at: nat): string
    requires at <= |text|
    decreases |text| - at
  {
    match NextBlock(Lower(text), tag, at)
    case None => text[at..]
    case Some(b) =>
      BlockBounds(Lower(text), tag, at);
      text[at..b.start] + " " + StripFrom(text, tag, b.end + 1)
  }

  function Strip(text: string, tag: string): string {
    StripFrom(text, tag, 0)
  }

  lemma BlockBounds(low: string, tag: string, at: nat)
    requires NextBlock(low, tag, at).Some?
    ensures var b := NextBlock(low, tag, at).value; at <= b.start < b.close <= b.end < |low| && IsBlock(low, tag, b)
  {
    hide SepAt;
  }

  /** The loop of `stripBlocks`. */
  method StripTag(text: string, tag: string) returns (r: string)
    ensures r == Strip(text, tag)
  {
    hide FindSep, SepAt, OpenTag, CloseTag, StripFrom;
    var lower := Lower(text);
    var open, close := OpenTag(tag), CloseTag(tag);
    var out := "";
    var at := 0;
    while true
      invariant at <= |text| && out + StripFrom(text, tag, at) == Strip(text, tag)
      decreases |text| - at
    {
      StripStep(text, tag, at, out);
      var start := FindSep(lower, at, open);
      if start.None? { break; }
      var closeAt := FindSep(lower, start.value + |open|, close);
      if closeAt.None? { break; }
      var end := FindSep(lower, closeAt.value, GT);
      if end.None? { break; }
      out := out + text[at..start.value] + " ";
      at := end.value + 1;
    }
    r := out + text[at..];
  }

  lemma StripStep(text: string, tag: string, at: nat, out: string)
    requires at <= |text|
    ensures match NextBlock(Lower(text), tag, at)
            case None => StripFrom(text, tag, at) == text[at..]
            case Some(b) =>
              && at <= b.start <= b.end < |text|
              && out + StripFrom(text, tag, at) == out + text[at..b.start] + " " + StripFrom(text, tag, b.end + 1)
  {
    hide NextBlock, IsBlock;
    if NextBlock(Lower(text), tag, at).Some? { BlockBounds(Lower(text), tag, at); }
  }

  // ----- the searches find a block exactly when there is one -----

  ghost predicate HasBlock(low: string, tag: string, at: nat) {
    exists b: Block :: at <= b.start && IsBlock(low, tag, b)
  }

  /** Looking only at the first opening tag, the first closing tag after it and the first bracket misses no block. */
  lemma FoundExactly(low: string, tag: string, at: nat)
    ensures NextBlock(low, tag, at).Some? <==> HasBlock(low, tag, at)
  {
    hide SepAt, OpenTag, CloseTag;
    if NextBlock(low, tag, at).Some? { BlockBounds(low, tag, at); }
    forall b: Block | at <= b.start && IsBlock(low, tag, b) ensures NextBlock(low, tag, at).Some? {
      var start := FindSep(low, at, OpenTag(tag)).value;
      assert start <= b.start;
      var close := FindSep(low, start + |OpenTag(tag)|, CloseTag(tag)).value;
      assert close <= b.close;
      assert FindSep(low, close, GT).Some?;
    }
  }

  // ----- what is left holds no block -----

  lemma {:induction false} LowerAppend(a: string, b: string)
    ensures Lower(a + b) == Lower(a) + Lower(b)
  {
    if a == "" {
      assert a + b == b;
    } else {
      assert (a + b)[1..] == a[1..] + b;
      LowerAppend(a[1..], b);
    }
  }

  lemma {:induction false} LowerAt(s: string, k: nat)
    requires k < |s|
    ensures Lower(s)[k] == LowerChar(s[k])
  {
    if k > 0 { LowerAt(s[1..], k - 1); }
  }

  lemma LowerSliceAt(text: string, piece: string, i: nat, k: nat)
    requires i + |piece| <= |text| && k < |piece| && piece[k] == text[i + k]
    ensures Lower(piece)[k] == Lower(text)[i + k]
  {
    hide Lower, LowerChar;
    LowerAt(piece, k);
    LowerAt(text, i + k);
  }

  lemma LowerSlice(text: string, i: nat, j: nat)
    requires i <= j <= |text|
    ensures Lower(text[i..j]) == Lower(text)[i..j]
  {
    hide Lower, LowerChar;
    var piece := text[i..j];
    var low := Lower(text);
    var part := Lower(piece);
    forall k: nat | k < |part| ensures part[k] == low[i + k] { LowerSliceAt(text, piece, i, k); }
  }

  lemma NoSpaceInside(s: string, i: nat, sep: string, p: nat)
    requires SepAt(s, i, sep) && ' ' !in sep && i <= p < i + |sep|
    ensures s[p] != ' '
  {
    assert s[p] == s[i..i + |sep|][p - i] == sep[p - i];
  }

  lemma SepShift(a: string, b: string, i: nat, sep: string)
    requires i >= |a|
    ensures SepAt(a + b, i, sep) <==> SepAt(b, i - |a|, sep)
  {
    if i + |sep| <= |a + b| { assert (a + b)[i..i + |sep|] == b[i - |a|..i - |a| + |sep|]; }
  }

  /** A block behind a prefix without opening tag, closed off by a space, lies in what follows. */
  lemma BlockBehind(piece: string, rest: string, tag: string)
    requires ' ' !in tag && forall i :: 0 <= i ==> !SepAt(piece, i, OpenTag(tag))
    requires HasBlock(piece + " " + rest, tag, 0)
    ensures HasBlock(rest, tag, 0)
  {
    hide SepAt;
    var low := piece + " " + rest;
    var b: Block :| IsBlock(low, tag, b);
    var n := |piece| + 1;
    assert low == (piece + " ") + rest;
    if b.start + |OpenTag(tag)| <= |piece| {
      assert low == piece + (" " + rest);
      SepAppend(piece, " " + rest, b.start, OpenTag(tag));
      assert false;
    } else if b.start < n {
      assert low[|piece|] == ' ';
      NoSpaceInside(low, b.start, OpenTag(tag), |piece|);
      assert false;
    } else {
      SepShift(piece + " ", rest, b.start, OpenTag(tag));
      SepShift(piece + " ", rest, b.close, CloseTag(tag));
      SepShift(piece + " ", rest, b.end, GT);
      assert IsBlock(rest, tag, Block(b.start - n, b.close - n, b.end - n));
    }
  }

  lemma PieceHasNoTag(low: string, at: nat, start: nat, sep: string)
    requires at <= start <= |low| && sep != "" && forall j :: at <= j < start ==> !SepAt(low, j, sep)
    ensures forall i :: 0 <= i ==> !SepAt(low[at..start], i, sep)
  {
    hide SepAt;
    var piece, rest := low[at..start], low[start..];
    assert low[at..] == piece + rest && low == low[..at] + low[at..];
    forall i | 0 <= i ensures !SepAt(piece, i, sep) {
      if i + |sep| <= |piece| {
        SepAppend(piece, rest, i, sep);
        SepShift(low[..at], low[at..], at + i, sep);
      } else {
        SepTooLong(piece, i, sep);
      }
    }
  }

  lemma SepTooLong(s: string, i: int, sep: string)
    requires i + |sep| > |s|
    ensures !SepAt(s, i, sep)
  {
  }

  lemma TailBlock(low: string, tag: string, at: nat)
    requires at <= |low| && HasBlock(low[at..], tag, 0)
    ensures HasBlock(low, tag, at)
  {
    hide SepAt;
    var b: Block :| IsBlock(low[at..], tag, b);
    assert low == low[..at] + low[at..];
    SepShift(low[..at], low[at..], b.start + at, OpenTag(tag));
    SepShift(low[..at], low[at..], b.close + at, CloseTag(tag));
    SepShift(low[..at], low[at..], b.end + at, GT);
    assert IsBlock(low, tag, Block(b.start + at, b.close + at, b.end + at));
  }

  lemma {:induction false} StrippedFrom(text: string, tag: string, at: nat)
    requires at <= |text| && ' ' !in tag
    ensures !HasBlock(Lower(StripFrom(text, tag, at)), tag, 0)
    decreases |text| - at
  {
    hide SepAt, FindSep, HasBlock, Lower, IsBlock;
    var low := Lower(text);
    FoundExactly(low, tag, at);
    if NextBlock(low, tag, at).Some? {
      BlockBounds(low, tag, at);
      var b := NextBlock(low, tag, at).value;
      var rest := StripFrom(text, tag, b.end + 1);
      StrippedFrom(text, tag, b.end + 1);
      LowerSlice(text, at, b.start);
      LowerOut(text[at..b.start], rest);
      PieceHasNoTag(low, at, b.start, OpenTag(tag));
      if HasBlock(low[at..b.start] + " " + Lower(rest), tag, 0) { BlockBehind(low[at..b.start], Lower(rest), tag); }
    } else {
      LowerSlice(text, at, |text|);
      assert text[at..] == text[at..|text|] && low[at..] == low[at..|low|];
      if HasBlock(low[at..], tag, 0) { TailBlock(low, tag, at); }
    }
  }

  lemma LowerOut(piece: string, rest: string)
    ensures Lower(piece + " " + rest) == Lower(piece) + " " + Lower(rest)
  {
    LowerAppend(piece + " ", rest);
    LowerAppend(piece, " ");
    assert Lower(" ") == " ";
  }

  /** The result holds no opening tag that is followed by a matching closing tag and a bracket. */
  lemma NothingLeft(text: string, tag: string)
    requires ' ' !in tag
    ensures !HasBlock(Lower(Strip(text, tag)), tag, 0)
  {
    StrippedFrom(text, tag, 0);
  }

  lemma StripShortens(text: string, tag: string, at: nat)
    requires at <= |text|
    ensures |StripFrom(text, tag, at)| <= |text| - at
    ensures NextBlock(Lower(text), tag, at).Some? ==> |StripFrom(text, tag, at)| < |text| - at
    decreases |text| - at
  {
    hide NextBlock, IsBlock;
    if NextBlock(Lower(text), tag, at).Some? {
      BlockBounds(Lower(text), tag, at);
      StripShortens(text, tag, NextBlock(Lower(text), tag, at).value.end + 1);
    }
  }

  /** A text is left alone exactly when it holds no block. */
  lemma UnchangedExactly(text: string, tag: string)
    ensures Strip(text, tag) == text <==> !HasBlock(Lower(text), tag, 0)
  {
    hide NextBlock, HasBlock;
    FoundExactly(Lower(text), tag, 0);
    StripShortens(text, tag, 0);
    assert text[0..] == text;
  }

  /** Stripping twice is stripping once. */
  lemma StripTwice(text: string, tag: string)
    requires ' ' !in tag
    ensures Strip(Strip(text, tag), tag) == Strip(text, tag)
  {
    hide HasBlock, StripFrom, Lower;
    NothingLeft(text, tag);
    UnchangedExactly(Strip(text, tag), tag);
  }

  // ----- what is kept -----

  /** The text cut into what is kept and the blocks between, with a block always from its opening tag to its bracket. */
  datatype Parts = Parts(kept: seq<string>, blocks: seq<string>)

  function PartsFrom(text: string, tag: string, at: nat): (r: Parts)
    requires at <= |text|
    ensures |r.kept| == |r.blocks| + 1
    decreases |text| - at
  {
    match NextBlock(Lower(text), tag, at)
    case None => Parts([text[at..]], [])
    case Some(b) =>
      BlockBounds(Lower(text), tag, at);
      var rest := PartsFrom(text, tag, b.end + 1);
      Parts([text[at..b.start]] + rest.kept, [text[b.start..b.end + 1]] + rest.blocks)
  }

  /** Kept parts and blocks in turn. */
  function Woven(kept: seq<string>, blocks: seq<string>): string
    requires |kept| == |blocks| + 1
  {
    if blocks == [] then kept[0] else kept[0] + blocks[0] + Woven(kept[1..], blocks[1..])
  }

  function Spaced(kept: seq<string>): string
    requires kept != []
  {
    if |kept| == 1 then kept[0] else kept[0] + " " + Spaced(kept[1..])
  }

  /** The kept parts and the blocks are the text; the result is the kept parts with a space for each block. */
  lemma {:induction false} StripKeepsRest(text: string, tag: string, at: nat)
    requires at <= |text|
    ensures var p := PartsFrom(text, tag, at);
      Woven(p.kept, p.blocks) == text[at..] && Spaced(p.kept) == StripFrom(text, tag, at)
    decreases |text| - at
  {
    hide NextBlock, IsBlock, Lower;
    if NextBlock(Lower(text), tag, at).Some? {
      BlockBounds(Lower(text), tag, at);
      var b := NextBlock(Lower(text), tag, at).value;
      var p, rest := PartsFrom(text, tag, at), PartsFrom(text, tag, b.end + 1);
      StripKeepsRest(text, tag, b.end + 1);
      assert p.kept[1..] == rest.kept && p.blocks[1..] == rest.blocks;
      assert text[at..] == text[at..b.start] + text[b.start..b.end + 1] + text[b.end + 1..];
    }
  }

  // ----- one kind of block after the other -----

  /** Where a character of the result stands in the text; the space for a block stands where the block begins. */
  function Origin(text: string, tag: string, at: nat, i: nat): (p: nat)
    requires at <= |text|
    decreases |text| - at
  {
    match NextBlock(Lower(text), tag, at)
    case None => at + i
    case Some(b) =>
      BlockBounds(Lower(text), tag, at);
      if i <= b.start - at then at + i else Origin(text, tag, b.end + 1, i - (b.start - at) - 1)
  }

  lemma {:induction false} OriginUp(text: string, tag: string, at: nat, i: nat, j: nat)
    requires at <= |text| && i < j
    ensures at + i <= Origin(text, tag, at, i) < Origin(text, tag, at, j)
    decreases |text| - at
  {
    hide NextBlock, IsBlock, Lower;
    if NextBlock(Lower(text), tag, at).Some? {
      BlockBounds(Lower(text), tag, at);
      var b := NextBlock(Lower(text), tag, at).value;
      var n := b.start - at + 1;
      if i >= n {
        OriginUp(text, tag, b.end + 1, i - n, j - n);
      } else if j >= n {
        OriginUp(text, tag, b.end + 1, j - n, j - n + 1);
      }
    }
  }

  /** What a word without spaces is made of stands together in the text. */
  lemma {:induction false} OriginSep(text: string, tag: string, at: nat, i: nat, sep: string)
    requires at <= |text| && sep != "" && ' ' !in sep && SepAt(StripFrom(text, tag, at), i, sep)
    ensures SepAt(text, Origin(text, tag, at, i), sep)
    ensures Origin(text, tag, at, i + |sep| - 1) == Origin(text, tag, at, i) + |sep| - 1
    decreases |text| - at
  {
    hide NextBlock, IsBlock, Lower, SepAt;
    assert text == text[..at] + text[at..];
    if NextBlock(Lower(text), tag, at).Some? {
      BlockBounds(Lower(text), tag, at);
      var b := NextBlock(Lower(text), tag, at).value;
      var piece, rest := text[at..b.start], StripFrom(text, tag, b.end + 1);
      SepInOne(piece, rest, i, sep);
      if i + |sep| <= |piece| {
        assert text[at..] == piece + text[b.start..];
        SepAppend(piece, text[b.start..], i, sep);
        SepShift(text[..at], text[at..], at + i, sep);
      } else {
        OriginSep(text, tag, b.end + 1, i - |piece| - 1, sep);
      }
    } else {
      SepShift(text[..at], text[at..], at + i, sep);
    }
  }

  lemma SepInOne(piece: string, rest: string, i: nat, sep: string)
    requires ' ' !in sep && sep != "" && SepAt(piece + " " + rest, i, sep)
    ensures if i + |sep| <= |piece| then SepAt(piece, i, sep) else i > |piece| && SepAt(rest, i - |piece| - 1, sep)
  {
    hide SepAt;
    var s := piece + " " + rest;
    assert s == piece + (" " + rest) == (piece + " ") + rest;
    if i + |sep| <= |piece| {
      SepAppend(piece, " " + rest, i, sep);
    } else if i <= |piece| {
      assert s[|piece|] == ' ';
      NoSpaceInside(s, i, sep, |piece|);
      assert false;
    } else {
      SepShift(piece + " ", rest, i, sep);
    }
  }

  lemma OriginBlock(text: string, tag: string, other: string, b: Block)
    requires ' ' !in other && IsBlock(Strip(text, tag), other, b)
    ensures HasBlock(text, other, 0)
  {
    hide StripFrom, Origin, SepAt;
    OriginSep(text, tag, 0, b.start, OpenTag(other));
    OriginSep(text, tag, 0, b.close, CloseTag(other));
    OriginSep(text, tag, 0, b.end, GT);
    var start, close, end := Origin(text, tag, 0, b.start), Origin(text, tag, 0, b.close), Origin(text, tag, 0, b.end);
    OriginUp(text, tag, 0, b.start + |OpenTag(other)| - 1, b.close);
    if b.close < b.end { OriginUp(text, tag, 0, b.close, b.end); }
    assert IsBlock(text, other, Block(start, close, end));
  }

  lemma {:induction false} LowerTwice(s: string)
    ensures Lower(Lower(s)) == Lower(s)
  {
    if s != "" { LowerTwice(s[1..]); }
  }

  lemma {:induction false} LowerStrip(text: string, tag: string, at: nat)
    requires at <= |text|
    ensures Lower(StripFrom(text, tag, at)) == StripFrom(Lower(text), tag, at)
    decreases |text| - at
  {
    hide NextBlock, IsBlock, Lower;
    LowerTwice(text);
    var low := Lower(text);
    if NextBlock(low, tag, at).Some? {
      BlockBounds(low, tag, at);
      var b := NextBlock(low, tag, at).value;
      LowerStrip(text, tag, b.end + 1);
      LowerSlice(text, at, b.start);
      LowerOut(text[at..b.start], StripFrom(text, tag, b.end + 1));
    } else {
      LowerSlice(text, at, |text|);
      assert text[at..] == text[at..|text|] && low[at..] == low[at..|low|];
    }
  }

  /** Removing blocks of one kind never makes a block of another. */
  lemma NoNewBlocks(text: string, tag: string, other: string)
    requires ' ' !in other && HasBlock(Lower(Strip(text, tag)), other, 0)
    ensures HasBlock(Lower(text), other, 0)
  {
    hide StripFrom, IsBlock, Lower;
    LowerStrip(text, tag, 0);
    assert Lower(Strip(text, tag)) == Strip(Lower(text), tag);
    assert HasBlock(Strip(Lower(text), tag), other, 0);
    var b: Block :| IsBlock(Strip(Lower(text), tag), other, b);
    OriginBlock(Lower(text), tag, other, b);
  }

  /** What `htmlToText` goes on with holds neither a script block nor a style block. */
  lemma NeitherIsLeft(html: string)
    ensures var r := Strip(Strip(html, "script"), "style");
      !HasBlock(Lower(r), "script", 0) && !HasBlock(Lower(r), "style", 0)
  {
    hide Strip, HasBlock, Lower;
    var first := Strip(html, "script");
    NothingLeft(html, "script");
    NothingLeft(first, "style");
    if HasBlock(Lower(Strip(first, "style")), "script", 0) { NoNewBlocks(first, "style", "script"); }
  }

  predicate StandsAt(low: string, i: int, word: string) {
    0 <= i && i + |word| <= |low| && low[i..i + |word|] == word
  }

  /** In the text, an opening tag stands at `i`, its closing tag after it at `j`, and a bracket after that at `k`. */
  predicate Encloses(text: string, word: string, i: int, j: int, k: int) {
    var low := Lower(text);
    && StandsAt(low, i, "<" + word) && StandsAt(low, j, "</" + word) && StandsAt(low, k, ">")
    && i + 1 + |word| <= j <= k
  }

  /** A text is left alone exactly when no such tags stand in it; told for every word, in any case of its letters. */
  lemma KeptExactly(text: string, word: string)
    ensures Strip(text, word) == text <==> forall i, j, k :: !Encloses(text, word, i, j, k)
  {
    hide Strip, Lower;
    UnchangedExactly(text, word);
    var low := Lower(text);
    if b: Block :| IsBlock(low, word, b) { assert Encloses(text, word, b.start, b.close, b.end); }
    if i, j, k :| Encloses(text, word, i, j, k) { assert IsBlock(low, word, Block(i, j, k)); }
  }

  /** After both removals no script and no style is left, told in the same words. */
  lemma NoScriptLeft(html: string, i: int, j: int, k: int)
    ensures var r := Strip(Strip(html, "script"), "style"); !Encloses(r, "script", i, j, k) && !Encloses(r, "style", i, j, k)
  {
    hide Strip, Lower;
    NeitherIsLeft(html);
    var r := Strip(Strip(html, "script"), "style");
    forall word: string | Encloses(r, word, i, j, k) ensures IsBlock(Lower(r), word, Block(i, j, k)) {}
  }
}
