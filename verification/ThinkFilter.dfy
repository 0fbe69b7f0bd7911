/**
 Removing the thinking blocks a model writes before its answer, and showing the rest while it still
 streams in. What is shown early must be a part of what will be shown in the end.
 */
module ThinkFilter {
  import opened Strings
  import opened Values

  datatype Tag = Think | Thinking | Reasoning

  function Opener(tag: Tag): string {
    match tag
    case Think => "<think>"
    case Thinking => "<thinking>"
    case Reasoning => "<reasoning>"
  }

  function Closer(tag: Tag): string {
    match tag
    case Think => "</think>"
    case Thinking => "</thinking>"
    case Reasoning => "</reasoning>"
  }

  /** The characters between the angle brackets of a tag. */
  predicate IsTagChar(c: char) {
    'a' <= c <= 'z' || 'A' <= c <= 'Z' || c == '/'
  }

  /** The pattern `pat` occurs in `t` at `i`, in any case. */
  predicate MatchAt(t: string, i: int, pat: string) {
    0 <= i && i + |pat| <= |t| && forall k :: 0 <= k < |pat| ==> LowerChar(t[i + k]) == pat[k]
  }

  /** The first occurrence from `from` on. */
  function Find(t: string, from: nat, pat: string): (r: Option<nat>)
    ensures r.Some? ==> from <= r.value && r.value + |pat| <= |t| && MatchAt(t, r.value, pat)
    ensures r.Some? ==> forall j :: from <= j < r.value ==> !MatchAt(t, j, pat)
    ensures r.None? ==> forall j :: from <= j ==> !MatchAt(t, j, pat)
    decreases |t| - from
  {
    if from > |t| then None
    else if MatchAt(t, from, pat) then Some(from)
    else Find(t, from + 1, pat)
  }

  /** The first complete block of `tag` in `t`: where it starts and where it ends. */
  function Block(tag: Tag, t: string): (r: Option<(nat, nat)>)
    ensures r.Some? ==> r.value.0 < r.value.1 <= |t|
  {
    match Find(t, 0, Opener(tag))
    case None => None
    case Some(i) =>
      match Find(t, i + |Opener(tag)|, Closer(tag))
      case None => None
      case Some(j) => Some((i, j + |Closer(tag)|))
  }

  /** The text without its complete blocks of one kind. */
  function Strip(tag: Tag, t: string): string
    decreases |t|
  {
    match Block(tag, t)
    case None => t
    case Some((i, e)) => t[..i] + Strip(tag, t[e..])
  }

  function StripThink(t: string): string {
    Strip(Reasoning, Strip(Thinking, Strip(Think, t)))
  }

  predicate OpensAt(t: string, i: int) {
    MatchAt(t, i, Opener(Think)) || MatchAt(t, i, Opener(Thinking)) || MatchAt(t, i, Opener(Reasoning))
  }

  /** The text up to the first opener of any kind. */
  function CutFrom(t: string, from: nat): (r: string)
    requires from <= |t|
    ensures from <= |r| <= |t| && r == t[..|r|]
    ensures forall j :: from <= j < |r| ==> !OpensAt(t, j)
    ensures |r| < |t| ==> OpensAt(t, |r|)
    decreases |t| - from
  {
    if from == |t| then t else if OpensAt(t, from) then t[..from] else CutFrom(t, from + 1)
  }

  /** What may be shown of the text received so far. */
  function VisibleSoFar(raw: string): string {
    CutFrom(StripThink(raw), 0)
  }

  function TrailingTagChars(s: string): (n: nat)
    ensures n <= |s| && forall k :: |s| - n <= k < |s| ==> IsTagChar(s[k])
    ensures n < |s| ==> !IsTagChar(s[|s| - n - 1])
  {
    if s == "" || !IsTagChar(s[|s| - 1]) then 0 else 1 + TrailingTagChars(s[..|s| - 1])
  }

  /** The visible text without an unfinished tag at its end: `<` and at most nine tag characters. */
  function Held(vis: string): (r: string)
    ensures |r| <= |vis| && r == vis[..|r|]
  {
    var n := TrailingTagChars(vis);
    if n <= 9 && n < |vis| && vis[|vis| - n - 1] == '<' then vis[..|vis| - n - 1] else vis
  }

  // ----- emission -----

  /** All text passed on, after a flush that would show `shown`. */
  function Extend(out: string, shown: string): string {
    if |shown| > |out| then out + shown[|out|..] else out
  }

  /** The text passed on after the pieces arrived one by one, each followed by a flush. */
  function Streamed(pieces: seq<string>): string {
    if pieces == [] then ""
    else Extend(Streamed(pieces[..|pieces| - 1]), Held(VisibleSoFar(Join(pieces))))
  }

  /** The text passed on in the end. */
  function Emitted(pieces: seq<string>): string {
    Extend(Streamed(pieces), VisibleSoFar(Join(pieces)))
  }

  // ----- the parts of a text -----

  /** The text outside blocks, up to an opener that is never closed. */
  function Residual(tag: Tag, t: string): string
    decreases |t|
  {
    match Block(tag, t)
    case None => (match Find(t, 0, Opener(tag)) case None => t case Some(i) => t[..i])
    case Some((i, e)) => t[..i] + Residual(tag, t[e..])
  }

  /** The unclosed rest. */
  function Tail(tag: Tag, t: string): string
    decreases |t|
  {
    match Block(tag, t)
    case None => (match Find(t, 0, Opener(tag)) case None => "" case Some(i) => t[i..])
    case Some((_, e)) => Tail(tag, t[e..])
  }

  ghost predicate NoOpener(tag: Tag, t: string) {
    forall i :: !MatchAt(t, i, Opener(tag))
  }

  /** The text opens blocks of one kind only. */
  ghost predicate OneKind(tag: Tag, w: string) {
    forall other :: other != tag ==> NoOpener(other, w)
  }

  /** Nothing was joined: the text outside blocks holds no opener of any kind. */
  ghost predicate NoJoined(tag: Tag, w: string) {
    forall any :: NoOpener(any, Residual(tag, w))
  }

  /** The removals of the other kinds find nothing more: no opener that was joined is closed again. */
  predicate Settled(tag: Tag, w: string) {
    StripThink(w) == Strip(tag, w)
  }

  lemma OpenerShape(tag: Tag)
    ensures 2 <= |Opener(tag)| <= 11 && Opener(tag)[0] == '<' && Opener(tag)[|Opener(tag)| - 1] == '>'
    ensures forall k :: 0 < k < |Opener(tag)| - 1 ==> 'a' <= Opener(tag)[k] <= 'z'
  {
  }

  lemma MatchDrop(t: string, i: nat, j: nat, pat: string)
    requires i <= |t|
    ensures MatchAt(t[i..], j, pat) <==> MatchAt(t, i + j, pat)
  {
    assert forall k :: 0 <= k < |t| - i ==> t[i..][k] == t[i + k];
  }

  lemma {:induction false} StripParts(tag: Tag, t: string)
    ensures Strip(tag, t) == Residual(tag, t) + Tail(tag, t)
    ensures |Tail(tag, t)| <= |t| && Tail(tag, t) == t[|t| - |Tail(tag, t)|..]
    ensures Tail(tag, t) != "" ==> MatchAt(Tail(tag, t), 0, Opener(tag))
    decreases |t|
  {
    hide Opener, Closer, MatchAt;
    if Block(tag, t).None? {
      var open := Find(t, 0, Opener(tag));
      if open.Some? {
        MatchDrop(t, open.value, 0, Opener(tag));
        assert |t[open.value..]| <= |t|;
      }
    } else {
      var (i, e) := Block(tag, t).value;
      StripParts(tag, t[e..]);
      TailDrop(t, e, Tail(tag, t[e..]));
    }
  }

  lemma TailDrop(t: string, e: nat, tail: string)
    requires e <= |t| && |tail| <= |t[e..]| && tail == t[e..][|t[e..]| - |tail|..]
    ensures tail == t[|t| - |tail|..]
  {
  }

  lemma StripNothing(tag: Tag, t: string)
    requires NoOpener(tag, t)
    ensures Strip(tag, t) == t
  {
  }

  // ----- a longer text keeps the blocks of a shorter one -----

  lemma MatchAppend(a: string, b: string, i: int, pat: string)
    ensures i + |pat| <= |a| ==> (MatchAt(a + b, i, pat) <==> MatchAt(a, i, pat))
    ensures MatchAt(a, i, pat) ==> MatchAt(a + b, i, pat)
  {
  }

  lemma FindUnique(t: string, from: nat, pat: string, i: nat)
    requires from <= i && MatchAt(t, i, pat) && forall j :: from <= j < i ==> !MatchAt(t, j, pat)
    ensures Find(t, from, pat) == Some(i)
  {
  }

  lemma FindAppend(a: string, b: string, from: nat, pat: string)
    requires Find(a, from, pat).Some?
    ensures Find(a + b, from, pat) == Find(a, from, pat)
  {
    var i := Find(a, from, pat).value;
    forall j | from <= j <= i ensures MatchAt(a + b, j, pat) <==> MatchAt(a, j, pat) {
      MatchAppend(a, b, j, pat);
    }
    FindUnique(a + b, from, pat, i);
  }

  lemma BlockAppend(tag: Tag, a: string, b: string)
    requires Block(tag, a).Some?
    ensures Block(tag, a + b) == Block(tag, a)
  {
    hide Opener, Closer, MatchAt;
    var i := Find(a, 0, Opener(tag)).value;
    FindAppend(a, b, 0, Opener(tag));
    FindAppend(a, b, i + |Opener(tag)|, Closer(tag));
  }

  lemma ResidualStart(tag: Tag, t: string, i: nat)
    requires Find(t, 0, Opener(tag)) == Some(i)
    ensures t[..i] <= Residual(tag, t)
  {
    hide Opener, Closer, MatchAt;
  }

  /** `u` is the beginning, but not all, of an opener. */
  predicate Partial(tag: Tag, u: string) {
    0 < |u| < |Opener(tag)| && forall k :: 0 <= k < |u| ==> LowerChar(u[k]) == Opener(tag)[k]
  }

  /** A longer text keeps the residual of a shorter one, except for an unfinished opener at its end. */
  lemma {:induction false} ResidualGrows(tag: Tag, r: string, s: string) returns (k: nat)
    ensures k <= |Residual(tag, r)| && Residual(tag, r)[..k] <= Residual(tag, r + s)
    ensures k < |Residual(tag, r)| ==> Partial(tag, Residual(tag, r)[k..]) && Tail(tag, r) == ""
    decreases |r|
  {
    if Block(tag, r).Some? {
      k := ResidualGrows(tag, r[Block(tag, r).value.1..], s);
      k := GrowsBlock(tag, r, s, k);
    } else if Find(r, 0, Opener(tag)).Some? {
      k := GrowsClosedOff(tag, r, s);
    } else {
      k := GrowsOpen(tag, r, s);
    }
  }

  lemma BlockParts(tag: Tag, t: string)
    requires Block(tag, t).Some?
    ensures var (i, e) := Block(tag, t).value;
            Residual(tag, t) == t[..i] + Residual(tag, t[e..]) && Tail(tag, t) == Tail(tag, t[e..])
  {
  }

  lemma GrowsBlock(tag: Tag, r: string, s: string, m: nat) returns (k: nat)
    requires Block(tag, r).Some?
    requires var rest := r[Block(tag, r).value.1..];
             && m <= |Residual(tag, rest)| && Residual(tag, rest)[..m] <= Residual(tag, rest + s)
             && (m < |Residual(tag, rest)| ==> Partial(tag, Residual(tag, rest)[m..]) && Tail(tag, rest) == "")
    ensures k <= |Residual(tag, r)| && Residual(tag, r)[..k] <= Residual(tag, r + s)
    ensures k < |Residual(tag, r)| ==> Partial(tag, Residual(tag, r)[k..]) && Tail(tag, r) == ""
  {
    hide Residual, Tail, Block, Partial;
    var (i, e) := Block(tag, r).value;
    var rest := r[e..];
    BlockAppend(tag, r, s);
    BlockParts(tag, r);
    BlockParts(tag, r + s);
    BlockBounds(tag, r);
    assert (r + s)[e..] == rest + s && (r + s)[..i] == r[..i];
    k := i + m;
    GrowsBehind(r[..i], Residual(tag, rest), Residual(tag, rest + s), m);
  }

  lemma BlockBounds(tag: Tag, t: string)
    requires Block(tag, t).Some?
    ensures Block(tag, t).value.0 < Block(tag, t).value.1 <= |t|
  {
  }

  lemma GrowsClosedOff(tag: Tag, r: string, s: string) returns (k: nat)
    requires Block(tag, r).None? && Find(r, 0, Opener(tag)).Some?
    ensures k == |Residual(tag, r)| && Residual(tag, r)[..k] <= Residual(tag, r + s)
  {
    hide Closer, Opener;
    k := Find(r, 0, Opener(tag)).value;
    FindAppend(r, s, 0, Opener(tag));
    ResidualStart(tag, r + s, k);
    assert (r + s)[..k] == r[..k];
  }

  lemma GrowsBehind(p: string, a: string, b: string, k: nat)
    requires k <= |a| && a[..k] <= b
    ensures (p + a)[..|p| + k] <= p + b && (p + a)[|p| + k..] == a[k..]
  {
    assert (p + a)[..|p| + k] == p + a[..k];
  }

  lemma ResidualIsPrefix(tag: Tag, t: string)
    ensures Find(t, 0, Opener(tag)).None? ==> Residual(tag, t) == t
  {
  }

  lemma PartialAtEnd(tag: Tag, r: string, s: string, k: nat)
    requires MatchAt(r + s, k, Opener(tag)) && k < |r| < k + |Opener(tag)|
    ensures Partial(tag, r[k..])
  {
    hide Opener;
    assert forall j :: 0 <= j < |r| - k ==> r[k..][j] == (r + s)[k + j];
  }

  lemma GrowsOpen(tag: Tag, r: string, s: string) returns (k: nat)
    requires Find(r, 0, Opener(tag)).None?
    ensures k <= |r| && Residual(tag, r) == r && Tail(tag, r) == "" && r[..k] <= Residual(tag, r + s)
    ensures k < |r| ==> Partial(tag, r[k..])
  {
    assert Residual(tag, r) == r && Tail(tag, r) == "";
    ResidualIsPrefix(tag, r + s);
    hide Closer, Opener, Residual, Tail, MatchAt, Partial;
    var open := Find(r + s, 0, Opener(tag));
    if open.None? {
      k := |r|;
    } else {
      k := if open.value < |r| then open.value else |r|;
      var start := (r + s)[..open.value];
      assert r[..k] <= start;
      ResidualStart(tag, r + s, open.value);
      if k < |r| {
        MatchAppend(r, s, k, Opener(tag));
        PartialAtEnd(tag, r, s, k);
      }
    }
  }

  /** Holding back removes an unfinished opener, and only that. */
  lemma HeldPartial(tag: Tag, p: string, u: string)
    requires Partial(tag, u)
    ensures Held(p + u) == p
  {
    OpenerShape(tag);
    hide Opener;
    var s := p + u;
    assert u[0] == '<' by { assert LowerChar(u[0]) == Opener(tag)[0]; }
    forall k | |p| < k < |s| ensures IsTagChar(s[k]) {
      assert LowerChar(u[k - |p|]) == Opener(tag)[k - |p|];
    }
    assert s[|p|] == '<' && !IsTagChar('<');
    var n := TrailingTagChars(s);
    assert n == |u| - 1;
    assert s[..|p|] == p;
  }

  // ----- where openers can stand -----

  lemma OpenerChar(tag: Tag, t: string, i: int, k: nat)
    requires MatchAt(t, i, Opener(tag)) && k < |Opener(tag)|
    ensures k == 0 <==> t[i + k] == '<'
    ensures k == |Opener(tag)| - 1 <==> t[i + k] == '>'
  {
    OpenerShape(tag);
    hide Opener;
    assert LowerChar(t[i + k]) == Opener(tag)[k];
  }

  /** An opener does not run across a place where another tag begins. */
  lemma OpenerOnOneSide(tag: Tag, p: string, q: string, i: int)
    requires (q == "" || q[0] == '<') && MatchAt(p + q, i, Opener(tag))
    ensures MatchAt(p, i, Opener(tag)) || (i >= |p| && MatchAt(q, i - |p|, Opener(tag)))
  {
    OpenerShape(tag);
    hide Opener;
    if i < |p| < i + |Opener(tag)| {
      OpenerChar(tag, p + q, i, |p| - i);
    } else if i >= |p| {
      assert (p + q)[|p|..] == q;
      MatchDrop(p + q, |p|, i - |p|, Opener(tag));
    } else {
      MatchAppend(p, q, i, Opener(tag));
    }
  }

  lemma PartialShape(tag: Tag, u: string)
    requires Partial(tag, u)
    ensures u[0] == '<' && forall k :: 0 < k < |u| ==> u[k] != '<' && u[k] != '>'
  {
    OpenerShape(tag);
    hide Opener;
    assert LowerChar(u[0]) == Opener(tag)[0];
    forall k | 0 < k < |u| ensures u[k] != '<' && u[k] != '>' {
      assert LowerChar(u[k]) == Opener(tag)[k];
    }
  }

  lemma PartialNoOpener(tag: Tag, other: Tag, u: string)
    requires Partial(tag, u)
    ensures NoOpener(other, u)
  {
    PartialShape(tag, u);
    OpenerShape(other);
    hide Opener;
    forall i ensures !MatchAt(u, i, Opener(other)) {
      if MatchAt(u, i, Opener(other)) {
        OpenerChar(other, u, i, |Opener(other)| - 1);
      }
    }
  }

  lemma NoOpenerPrefix(tag: Tag, a: string, b: string)
    requires NoOpener(tag, a + b)
    ensures NoOpener(tag, a)
  {
    hide Opener;
    forall i ensures !MatchAt(a, i, Opener(tag)) { MatchAppend(a, b, i, Opener(tag)); }
  }

  lemma NoOpenerSuffix(tag: Tag, t: string, k: nat)
    requires NoOpener(tag, t) && k <= |t|
    ensures NoOpener(tag, t[k..])
  {
    hide Opener;
    forall i ensures !MatchAt(t[k..], i, Opener(tag)) {
      if i >= 0 { MatchDrop(t, k, i, Opener(tag)); }
    }
  }

  lemma NoOpenerJoin(tag: Tag, p: string, q: string)
    requires NoOpener(tag, p) && NoOpener(tag, q) && (q == "" || q[0] == '<')
    ensures NoOpener(tag, p + q)
  {
    hide Opener;
    forall i ensures !MatchAt(p + q, i, Opener(tag)) {
      if MatchAt(p + q, i, Opener(tag)) { OpenerOnOneSide(tag, p, q, i); }
    }
  }

  lemma StartsWithOpener(tag: Tag, t: string)
    requires MatchAt(t, 0, Opener(tag))
    ensures t != "" && t[0] == '<'
  {
    OpenerShape(tag);
    OpenerChar(tag, t, 0, 0);
  }

  // ----- texts of a single kind -----

  /** The residual of a shorter text: what the longer one keeps, and an unfinished opener at most. */
  lemma ResidualPieces(tag: Tag, r: string, s: string) returns (p: string, u: string, more: string)
    ensures Residual(tag, r) == p + u && Residual(tag, r + s) == p + more
    ensures u == "" || (Partial(tag, u) && u[0] == '<' && Tail(tag, r) == "")
  {
    hide Residual, Partial, Tail;
    var k := ResidualGrows(tag, r, s);
    p, u, more := Residual(tag, r)[..k], Residual(tag, r)[k..], Residual(tag, r + s)[k..];
    if u != "" { PartialShape(tag, u); }
  }

  /** Whatever has arrived of a text of one kind is one itself. */
  lemma OneKindPrefix(tag: Tag, r: string, s: string)
    requires OneKind(tag, r + s)
    ensures OneKind(tag, r)
  {
    hide NoOpener;
    forall other | other != tag ensures NoOpener(other, r) { NoOpenerPrefix(other, r, s); }
  }

  /** Where nothing is joined, nothing was joined earlier. */
  lemma NoJoinedPrefix(tag: Tag, r: string, s: string)
    requires NoJoined(tag, r + s)
    ensures NoJoined(tag, r)
  {
    hide Residual, Partial, Tail, NoOpener;
    var p, u, more := ResidualPieces(tag, r, s);
    forall any: Tag ensures NoOpener(any, Residual(tag, r)) {
      NoOpenerPrefix(any, p, more);
      if u == "" {
        assert p + u == p;
      } else {
        PartialNoOpener(tag, any, u);
        NoOpenerJoin(any, p, u);
      }
    }
  }

  /** Without joined openers no other kind is left to remove. */
  lemma NoJoinedSettled(tag: Tag, w: string)
    requires OneKind(tag, w) && NoJoined(tag, w)
    ensures Settled(tag, w)
  {
    hide Strip, NoOpener, Residual, Tail;
    StripParts(tag, w);
    var tail := Tail(tag, w);
    if tail != "" { StartsWithOpener(tag, tail); }
    forall other | other != tag ensures Strip(other, w) == w && Strip(other, Strip(tag, w)) == Strip(tag, w) {
      StripNothing(other, w);
      NoOpenerSuffix(other, w, |w| - |tail|);
      NoOpenerJoin(other, Residual(tag, w), tail);
      StripNothing(other, Strip(tag, w));
    }
    assert Think != Thinking && Think != Reasoning && Thinking != Reasoning;
  }

  lemma NoOpenerAnywhere(t: string, i: int)
    requires forall tag :: !MatchAt(t, i, Opener(tag))
    ensures !OpensAt(t, i)
  {
  }

  /** Before the unclosed rest, an opener stands only where the text outside blocks has one. */
  lemma OpensBeforeTail(tag: Tag, w: string, i: nat)
    requires i < |Residual(tag, w)|
    ensures OpensAt(Strip(tag, w), i) <==> OpensAt(Residual(tag, w), i)
  {
    hide Opener, Residual, Tail, Strip, MatchAt;
    StripParts(tag, w);
    var r, tail := Residual(tag, w), Tail(tag, w);
    if tail != "" { StartsWithOpener(tag, tail); }
    forall any: Tag ensures MatchAt(r + tail, i, Opener(any)) <==> MatchAt(r, i, Opener(any)) {
      MatchAppend(r, tail, i, Opener(any));
      if MatchAt(r + tail, i, Opener(any)) { OpenerOnOneSide(any, r, tail, i); }
    }
  }

  lemma VisibleIsResidual(tag: Tag, w: string)
    requires OneKind(tag, w) && NoJoined(tag, w)
    ensures VisibleSoFar(w) == Residual(tag, w)
  {
    NoJoinedSettled(tag, w);
    hide Opener, Residual, Tail, Strip, OneKind, OpensAt, MatchAt;
    StripParts(tag, w);
    var r, tail := Residual(tag, w), Tail(tag, w);
    forall i: nat | i < |r| ensures !OpensAt(r + tail, i) {
      OpensBeforeTail(tag, w, i);
      forall any: Tag ensures !MatchAt(r, i, Opener(any)) { assert NoOpener(any, r); }
      NoOpenerAnywhere(r, i);
    }
    if tail != "" {
      assert (r + tail)[|r|..] == tail;
      MatchDrop(r + tail, |r|, 0, Opener(tag));
      OpensWith(r + tail, |r|, tag);
    }
    assert (r + tail)[..|r|] == r;
  }

  lemma OpensWith(t: string, i: int, tag: Tag)
    requires MatchAt(t, i, Opener(tag))
    ensures OpensAt(t, i)
  {
  }

  /** What a flush shows early is the beginning of what is shown in the end. */
  lemma ShownEarly(tag: Tag, r: string, s: string)
    requires OneKind(tag, r + s) && NoJoined(tag, r + s)
    ensures Held(VisibleSoFar(r)) <= VisibleSoFar(r + s)
  {
    hide Residual, Partial, Tail, NoJoined, OneKind, VisibleSoFar, Held;
    OneKindPrefix(tag, r, s);
    NoJoinedPrefix(tag, r, s);
    VisibleIsResidual(tag, r + s);
    VisibleIsResidual(tag, r);
    var p, u, more := ResidualPieces(tag, r, s);
    if u == "" {
      assert p + u == p;
      HeldShortens(p);
    } else {
      HeldPartial(tag, p, u);
    }
  }

  lemma HeldShortens(vis: string)
    ensures Held(vis) <= vis
  {
  }

  // ----- main result -----

  lemma ExtendWithin(out: string, shown: string, all: string)
    requires out <= all && shown <= all
    ensures Extend(out, shown) <= all && shown <= Extend(out, shown)
  {
  }

  /** Every flush shows a beginning of the final text. */
  ghost predicate NothingEarly(w: string) {
    forall n :: 0 <= n <= |w| ==> Held(VisibleSoFar(w[..n])) <= VisibleSoFar(w)
  }

  lemma {:induction false} StreamedWithinAll(pieces: seq<string>, rest: string, w: string)
    requires Join(pieces) + rest == w && NothingEarly(w)
    ensures Streamed(pieces) <= VisibleSoFar(w)
  {
    hide VisibleSoFar, Held;
    if pieces != [] {
      var n := |pieces| - 1;
      var init, last := pieces[..n], pieces[n];
      assert pieces == init + [last];
      JoinAppend(init, [last]);
      JoinOne(last);
      assert Join(init) + (last + rest) == w;
      StreamedWithinAll(init, last + rest, w);
      assert w[..|Join(pieces)|] == Join(pieces);
      ExtendWithin(Streamed(init), Held(VisibleSoFar(Join(pieces))), VisibleSoFar(w));
    }
  }

  lemma StreamedStart(r: string, rest: string)
    ensures Streamed([r]) == Held(VisibleSoFar(r)) && Held(VisibleSoFar(r)) <= Emitted([r, rest])
  {
    hide Held, VisibleSoFar;
    var x := Held(VisibleSoFar(r));
    JoinOne(r);
    assert [r][..0] == [];
    assert Streamed([r]) == Extend("", x);
    if x != "" { assert "" + x[0..] == x; }
    assert [r, rest][..1] == [r];
  }

  /** For texts of any kinds: streaming is faithful under every split exactly when no flush shows too much. */
  lemma FaithfulByPrefixes(w: string)
    ensures NothingEarly(w) <==> forall pieces :: Join(pieces) == w ==> Emitted(pieces) == VisibleSoFar(w)
  {
    hide VisibleSoFar, Held, Streamed;
    if NothingEarly(w) {
      forall pieces | Join(pieces) == w ensures Emitted(pieces) == VisibleSoFar(w) {
        assert Join(pieces) + "" == w;
        StreamedWithinAll(pieces, "", w);
      }
    } else {
      var n :| 0 <= n <= |w| && !(Held(VisibleSoFar(w[..n])) <= VisibleSoFar(w));
      var r, rest := w[..n], w[n..];
      StreamedStart(r, rest);
      JoinTwo(r, rest);
      assert r + rest == w;
    }
  }

  lemma JoinTwo(a: string, b: string)
    ensures Join([a, b]) == a + b
  {
    assert [a, b][1..] == [b];
    JoinOne(b);
  }

  lemma NoJoinedNothingEarly(tag: Tag, w: string)
    requires OneKind(tag, w) && NoJoined(tag, w)
    ensures NothingEarly(w)
  {
    hide OneKind, NoJoined, VisibleSoFar, Held;
    forall n | 0 <= n <= |w| ensures Held(VisibleSoFar(w[..n])) <= VisibleSoFar(w) {
      assert w[..n] + w[n..] == w;
      ShownEarly(tag, w[..n], w[n..]);
    }
  }

  /** What has been passed on is at every moment the beginning of the final text. */
  lemma StreamedWithin(tag: Tag, pieces: seq<string>, rest: string)
    requires OneKind(tag, Join(pieces) + rest) && NoJoined(tag, Join(pieces) + rest)
    ensures Streamed(pieces) <= VisibleSoFar(Join(pieces) + rest)
  {
    hide OneKind, NoJoined, VisibleSoFar, Streamed, NothingEarly;
    NoJoinedNothingEarly(tag, Join(pieces) + rest);
    StreamedWithinAll(pieces, rest, Join(pieces) + rest);
  }

  /** However the text is split, exactly its visible part is passed on. */
  lemma EmittedExactly(tag: Tag, pieces: seq<string>)
    requires OneKind(tag, Join(pieces)) && NoJoined(tag, Join(pieces))
    ensures Emitted(pieces) == VisibleSoFar(Join(pieces))
  {
    hide OneKind, NoJoined, VisibleSoFar, Emitted, NothingEarly;
    NoJoinedNothingEarly(tag, Join(pieces));
    FaithfulByPrefixes(Join(pieces));
  }

  // ----- the condition is necessary -----

  lemma BlockOfPrefix(tag: Tag, w: string, n: nat)
    requires Block(tag, w).Some? && Block(tag, w).value.1 <= n <= |w|
    ensures Block(tag, w[..n]) == Block(tag, w)
  {
    hide Opener, Closer, MatchAt;
    assert w == w[..n] + w[n..];
    var i := Find(w, 0, Opener(tag)).value;
    var j := Find(w, i + |Opener(tag)|, Closer(tag)).value;
    FindOfPrefix(w[..n], w[n..], 0, Opener(tag));
    FindOfPrefix(w[..n], w[n..], i + |Opener(tag)|, Closer(tag));
  }

  lemma FindOfPrefix(a: string, b: string, from: nat, pat: string)
    requires Find(a + b, from, pat).Some? && Find(a + b, from, pat).value + |pat| <= |a|
    ensures Find(a, from, pat) == Find(a + b, from, pat)
  {
    hide MatchAt;
    var i := Find(a + b, from, pat).value;
    forall j | from <= j <= i ensures MatchAt(a + b, j, pat) <==> MatchAt(a, j, pat) {
      MatchAppend(a, b, j, pat);
    }
    FindUnique(a, from, pat, i);
  }

  /** Right after the first character of its first block, a text shows everything up to there. */
  lemma ResidualAtBlock(tag: Tag, w: string)
    requires Block(tag, w).Some?
    ensures var i := Block(tag, w).value.0; i < |w| && Residual(tag, w[..i + 1]) == w[..i] + "<"
  {
    hide Opener, Closer;
    var i := Block(tag, w).value.0;
    OpenerShape(tag);
    OpenerChar(tag, w, i, 0);
    var r := w[..i + 1];
    assert w == r + w[i + 1..];
    forall j: nat ensures !MatchAt(r, j, Opener(tag)) { MatchAppend(r, w[i + 1..], j, Opener(tag)); }
    assert r == w[..i] + "<";
  }

  /** `f` is the first place where an opener stands, and it is one of kind `any`. */
  ghost predicate FirstOpener(any: Tag, t: string, f: int) {
    MatchAt(t, f, Opener(any)) && forall other, j :: j < f ==> !MatchAt(t, j, Opener(other))
  }

  /** No opener begins in the text before a text's first block, nor in a text without blocks. */
  lemma NoneBeforeBlock(tag: Tag, any: Tag, p: string, w: string, n: nat, f: int)
    requires n <= |w| && (Find(w, 0, Opener(tag)).Some? ==> n <= Find(w, 0, Opener(tag)).value)
    requires OneKind(tag, w) && MatchAt(p + w[..n], f, Opener(any))
    ensures f < |p|
  {
    OpenerShape(any);
    hide Opener, MatchAt;
    assert any != tag ==> NoOpener(any, w);
    if f >= |p| {
      MatchBehind(p, w[..n], f, Opener(any));
      assert w == w[..n] + w[n..];
      MatchAppend(w[..n], w[n..], f - |p|, Opener(any));
      MatchBounds(w[..n], f - |p|, Opener(any));
    }
  }

  lemma MatchBehind(p: string, q: string, f: int, pat: string)
    requires f >= |p|
    ensures MatchAt(p + q, f, pat) <==> MatchAt(q, f - |p|, pat)
  {
    assert (p + q)[|p|..] == q;
    MatchDrop(p + q, |p|, f - |p|, pat);
  }

  lemma MatchBounds(t: string, i: int, pat: string)
    requires MatchAt(t, i, pat)
    ensures 0 <= i && i + |pat| <= |t|
  {
  }

  /**
   A joined opener runs across a place where a block was removed: `i` is where that block starts in the
   text, and `x` the residual up to there.
   */
  lemma {:induction false} JoinedAcross(tag: Tag, any: Tag, p: string, w: string, f: int) returns (i: nat, x: string)
    requires OneKind(tag, w) && MatchAt(p + Residual(tag, w), f, Opener(any)) && f >= |p|
    ensures i < |w| && Residual(tag, w[..i + 1]) == x + "<"
    ensures x <= Residual(tag, w) && f < |p| + |x| < f + |Opener(any)|
    decreases |w|
  {
    hide Opener, Closer, MatchAt, Residual, Block, OneKind;
    JoinedHasBlock(tag, any, p, w, f);
    BlockBounds(tag, w);
    var (start, e) := Block(tag, w).value;
    var a, rest := w[..start], w[e..];
    BlockParts(tag, w);
    assert p + Residual(tag, w) == (p + a) + Residual(tag, rest);
    if f < |p| + start {
      JoinedHere(tag, any, p, w, f);
      ResidualAtBlock(tag, w);
      i, x := start, a;
    } else {
      OneKindSuffix(tag, w, e);
      i, x := JoinedAcross(tag, any, p + a, rest, f);
      ResidualInside(tag, w, i);
      i, x := e + i, a + x;
    }
  }

  lemma OneKindSuffix(tag: Tag, w: string, n: nat)
    requires OneKind(tag, w) && n <= |w|
    ensures OneKind(tag, w[n..])
  {
    hide NoOpener;
    forall other | other != tag ensures NoOpener(other, w[n..]) { NoOpenerSuffix(other, w, n); }
  }

  /** The residual of a prefix that ends behind the first block. */
  lemma ResidualInside(tag: Tag, w: string, i: nat)
    requires Block(tag, w).Some? && i < |w[Block(tag, w).value.1..]|
    ensures var (start, e) := Block(tag, w).value;
            Residual(tag, w[..e + i + 1]) == w[..start] + Residual(tag, w[e..][..i + 1])
  {
    hide Residual, Block;
    var (start, e) := Block(tag, w).value;
    BlockBounds(tag, w);
    var r := w[..e + i + 1];
    BlockOfPrefix(tag, w, e + i + 1);
    BlockParts(tag, r);
    assert r[e..] == w[e..][..i + 1] && r[..start] == w[..start];
  }

  lemma JoinedHasBlock(tag: Tag, any: Tag, p: string, w: string, f: int)
    requires OneKind(tag, w) && MatchAt(p + Residual(tag, w), f, Opener(any)) && f >= |p|
    ensures Block(tag, w).Some?
  {
    hide Opener, Closer, MatchAt, OneKind;
    if Block(tag, w).None? {
      var n := |Residual(tag, w)|;
      assert Residual(tag, w) == w[..n];
      NoneBeforeBlock(tag, any, p, w, n, f);
    }
  }

  lemma JoinedHere(tag: Tag, any: Tag, p: string, w: string, f: int)
    requires OneKind(tag, w) && Block(tag, w).Some? && MatchAt(p + Residual(tag, w), f, Opener(any))
    requires |p| <= f < |p| + Block(tag, w).value.0
    ensures |p| + Block(tag, w).value.0 < f + |Opener(any)|
  {
    hide Opener, Closer, MatchAt, OneKind;
    var (i, e) := Block(tag, w).value;
    if f + |Opener(any)| <= |p| + i {
      assert p + Residual(tag, w) == (p + w[..i]) + Residual(tag, w[e..]);
      MatchAppend(p + w[..i], Residual(tag, w[e..]), f, Opener(any));
      NoneBeforeBlock(tag, any, p, w, i, f);
    }
  }

  lemma FirstOf(t: string) returns (f: nat, any: Tag)
    requires exists any :: !NoOpener(any, t)
    ensures FirstOpener(any, t, f)
  {
    hide Opener;
    any :| !NoOpener(any, t);
    var i :| MatchAt(t, i, Opener(any));
    f := Find(t, 0, Opener(any)).value;
    var a, b := Find(t, 0, Opener(Think)), Find(t, 0, Opener(Thinking));
    var c := Find(t, 0, Opener(Reasoning));
    if a.Some? && a.value < f { f, any := a.value, Think; }
    if b.Some? && b.value < f { f, any := b.value, Thinking; }
    if c.Some? && c.value < f { f, any := c.value, Reasoning; }
    forall other, j | j < f ensures !MatchAt(t, j, Opener(other)) {
      match other case Think => case Thinking => case Reasoning =>
    }
  }

  /** A text with a joined opener is cut there, unless that opener is closed again. */
  lemma VisibleIsCut(tag: Tag, any: Tag, w: string, f: nat)
    requires Settled(tag, w) && FirstOpener(any, Residual(tag, w), f)
    ensures |VisibleSoFar(w)| == f
  {
    hide Opener, Residual, Tail, Strip, OpensAt, MatchAt;
    var r := Residual(tag, w);
    StripParts(tag, w);
    MatchStarts(r, f, any);
    OpensWith(r, f, any);
    OpensBeforeTail(tag, w, f);
    forall i: nat | i < f ensures !OpensAt(Strip(tag, w), i) {
      OpensBeforeTail(tag, w, i);
      NoOpenerAnywhere(r, i);
    }
  }

  lemma MatchStarts(t: string, f: int, any: Tag)
    requires MatchAt(t, f, Opener(any))
    ensures 0 <= f < |t|
  {
    OpenerShape(any);
  }

  /** Cutting the stream right after that block's `<` lets through a part of the joined tag. */
  lemma JoinedLeaks(tag: Tag, w: string) returns (pieces: seq<string>)
    requires OneKind(tag, w) && !NoJoined(tag, w) && Settled(tag, w)
    ensures Join(pieces) == w && |Emitted(pieces)| > |VisibleSoFar(w)|
  {
    hide Opener, Residual, VisibleSoFar, Held, OneKind, Settled;
    var f, any := FirstOf(Residual(tag, w));
    assert "" + Residual(tag, w) == Residual(tag, w);
    var i, x := JoinedAcross(tag, any, "", w, f);
    var r, rest := w[..i + 1], w[i + 1..];
    assert w == r + rest;
    OneKindPrefix(tag, r, rest);
    NothingJoinedYet(any, Residual(tag, w), f, x);
    VisibleIsResidual(tag, r);
    PartialStart(tag);
    HeldPartial(tag, x, "<");
    VisibleIsCut(tag, any, w, f);
    StreamedStart(r, rest);
    JoinTwo(r, rest);
    pieces := [r, rest];
  }

  lemma PartialStart(tag: Tag)
    ensures Partial(tag, "<")
  {
    OpenerShape(tag);
  }

  /** In front of the end of the first opener there is no whole opener of any kind. */
  lemma NothingJoinedYet(any: Tag, all: string, f: nat, x: string)
    requires FirstOpener(any, all, f) && x <= all && |x| < f + |Opener(any)|
    ensures forall other :: NoOpener(other, x + "<")
  {
    hide Opener;
    assert all == x + all[|x|..];
    forall other: Tag ensures NoOpener(other, x + "<") {
      PartialStart(other);
      PartialNoOpener(other, other, "<");
      forall j ensures !MatchAt(x, j, Opener(other)) {
        MatchAppend(x, all[|x|..], j, Opener(other));
        if MatchAt(x, j, Opener(other)) { WholeInside(any, other, all, f, j); }
      }
      NoOpenerJoin(other, x, "<");
    }
  }

  /** An opener that starts inside the first one ends with it or after it. */
  lemma WholeInside(any: Tag, other: Tag, all: string, f: nat, j: int)
    requires FirstOpener(any, all, f) && MatchAt(all, j, Opener(other))
    ensures j + |Opener(other)| >= f + |Opener(any)|
  {
    OpenerShape(other);
    OpenerShape(any);
    hide Opener;
    var last := j + |Opener(other)| - 1;
    OpenerChar(other, all, j, |Opener(other)| - 1);
    if last < f + |Opener(any)| - 1 { OpenerChar(any, all, f, last - f); }
  }

  /**
   For texts of one kind, where no joined opener is closed again: streaming is faithful under every split
   exactly when removing the blocks joins no opener of any kind.
   */
  lemma FaithfulExactly(tag: Tag, w: string)
    requires OneKind(tag, w) && Settled(tag, w)
    ensures NoJoined(tag, w) <==> forall pieces :: Join(pieces) == w ==> Emitted(pieces) == VisibleSoFar(w)
  {
    hide OneKind, Settled, NoJoined, VisibleSoFar, Emitted, NothingEarly;
    if NoJoined(tag, w) {
      NoJoinedNothingEarly(tag, w);
      FaithfulByPrefixes(w);
    } else {
      var pieces := JoinedLeaks(tag, w);
    }
  }

  /** Texts in which a joined opener of another kind is never closed are settled. */
  lemma UnclosedSettled(tag: Tag, w: string)
    requires OneKind(tag, w) && forall other :: other != tag ==> Block(other, Strip(tag, w)).None?
    ensures Settled(tag, w)
  {
    hide Block, NoOpener;
    forall other | other != tag ensures Strip(other, w) == w && Strip(other, Strip(tag, w)) == Strip(tag, w) {
      StripNothing(other, w);
    }
    assert Think != Thinking && Think != Reasoning && Thinking != Reasoning;
  }

  // ----- texts that leak -----

  const BLOCK := "<think></think>"

  predicate NoAngle(b: string) {
    forall k :: 0 <= k < |b| ==> b[k] != '<'
  }

  /** `w` has a thinking block after its first character, and no other `<` behind that. */
  predicate HasBlock(w: string) {
    && |w| >= 16
    && (forall k :: 0 <= k < 7 ==> w[1 + k] == Opener(Think)[k])
    && (forall k :: 0 <= k < 8 ==> w[8 + k] == Closer(Think)[k])
    && (forall k :: 0 <= k < |w| && w[k] == '<' ==> k == 0 || k == 1 || k == 8)
  }

  lemma AroundChars(b: string)
    requires NoAngle(b)
    ensures var w := "<" + BLOCK + b; HasBlock(w) && w[..1] == "<" && w[16..] == b
  {
    var w := "<" + BLOCK + b;
    assert w == ("<" + BLOCK) + b;
    assert forall k :: 16 <= k < |w| ==> w[k] == b[k - 16];
  }

  lemma HasBlockChars(w: string)
    requires HasBlock(w)
    ensures |w| >= 16 && w[1] == '<' && w[7] == '>' && w[9] == '/'
    ensures MatchAt(w, 1, Opener(Think)) && MatchAt(w, 8, Closer(Think)) && |Opener(Think)| == 7 && |Closer(Think)| == 8
  {
    assert Opener(Think)[0] == '<' && Opener(Think)[6] == '>' && Closer(Think)[1] == '/';
    assert w[1 + 0] == '<' && w[1 + 6] == '>' && w[8 + 1] == '/';
    LowerMatches(w, 1, Opener(Think));
    LowerMatches(w, 8, Closer(Think));
  }

  lemma LowerMatches(t: string, i: nat, pat: string)
    requires i + |pat| <= |t| && forall k :: 0 <= k < |pat| ==> t[i + k] == pat[k]
    requires forall k :: 0 <= k < |pat| ==> LowerChar(pat[k]) == pat[k]
    ensures MatchAt(t, i, pat)
  {
  }

  lemma BlockThere(w: string)
    requires HasBlock(w)
    ensures Block(Think, w) == Some((1, 16))
  {
    HasBlockChars(w);
    hide MatchAt, Opener, Closer, HasBlock;
    forall j | 0 <= j < 1 ensures !MatchAt(w, j, Opener(Think)) {
      if MatchAt(w, 0, Opener(Think)) { OpenerChar(Think, w, 0, 1); }
    }
    FindUnique(w, 0, Opener(Think), 1);
    FindUnique(w, 8, Closer(Think), 8);
  }

  lemma OnlyThink(w: string)
    requires HasBlock(w)
    ensures OneKind(Think, w)
  {
    HasBlockChars(w);
    hide MatchAt, Opener, Closer;
    forall other: Tag, i | other != Think ensures !MatchAt(w, i, Opener(other)) { OtherNotAt(w, other, i); }
  }

  lemma SecondLetter(tag: Tag, t: string, i: int)
    requires MatchAt(t, i, Opener(tag))
    ensures 0 <= i && i + 6 < |t| && t[i + 1] != '/'
  {
    OpenerShape(tag);
    assert LowerChar(t[i + 1]) == Opener(tag)[1];
  }

  lemma OtherNotAt(w: string, other: Tag, i: int)
    requires other != Think && |w| >= 16 && w[1] == '<' && w[7] == '>' && w[9] == '/'
    requires forall k :: 0 <= k < |w| && w[k] == '<' ==> k == 0 || k == 1 || k == 8
    ensures !MatchAt(w, i, Opener(other))
  {
    hide MatchAt;
    if MatchAt(w, i, Opener(other)) {
      SecondLetter(other, w, i);
      OpenerChar(other, w, i, 1);
      OpenerChar(other, w, i, 6);
      OpenerChar(other, w, i, 0);
    }
  }

  lemma NoOpenerIn(tag: Tag, b: string)
    requires NoAngle(b)
    ensures NoOpener(tag, b)
  {
    hide MatchAt;
    forall i ensures !MatchAt(b, i, Opener(tag)) {
      if MatchAt(b, i, Opener(tag)) {
        SecondLetter(tag, b, i);
        OpenerChar(tag, b, i, 0);
      }
    }
  }

  lemma CloserStarts(tag: Tag, t: string, i: int)
    requires MatchAt(t, i, Closer(tag))
    ensures 0 <= i < |t| && t[i] == '<'
  {
    assert Closer(tag)[0] == '<';
    assert LowerChar(t[i + 0]) == Closer(tag)[0];
  }

  lemma NoBlockIn(tag: Tag, b: string)
    requires NoAngle(b)
    ensures Block(tag, "<" + b).None?
  {
    OpenerShape(tag);
    var t := "<" + b;
    assert forall k :: 0 < k < |t| ==> t[k] == b[k - 1];
    hide Opener, Closer, MatchAt;
    forall j | 0 < j ensures !MatchAt(t, j, Closer(tag)) {
      if MatchAt(t, j, Closer(tag)) { CloserStarts(tag, t, j); }
    }
  }

  lemma StripAround(b: string)
    requires NoAngle(b)
    ensures Residual(Think, "<" + BLOCK + b) == "<" + b && Strip(Think, "<" + BLOCK + b) == "<" + b
  {
    var w := "<" + BLOCK + b;
    hide Opener, Closer, Block, MatchAt, Strip, Residual, Tail, HasBlock;
    AroundChars(b);
    BlockThere(w);
    BlockParts(Think, w);
    StripParts(Think, w);
    NoOpenerIn(Think, b);
    NothingOpens(b);
  }

  lemma NothingOpens(b: string)
    requires NoOpener(Think, b)
    ensures Residual(Think, b) == b && Tail(Think, b) == ""
  {
  }

  lemma OpenerParts(any: Tag)
    ensures Opener(any) != "" && NoAngle(Opener(any)[1..]) && "<" + Opener(any)[1..] == Opener(any)
    ensures !NoOpener(any, Opener(any))
  {
    hide Opener, MatchAt;
    OpenerShape(any);
    var b := Opener(any)[1..];
    assert forall k :: 0 <= k < |b| ==> b[k] == Opener(any)[k + 1];
    LowerOpener(any);
    LowerMatches(Opener(any), 0, Opener(any));
  }

  lemma LowerOpener(tag: Tag)
    ensures forall k :: 0 <= k < |Opener(tag)| ==> LowerChar(Opener(tag)[k]) == Opener(tag)[k]
  {
  }

  /**
   A block of one kind inside the two halves of an opener, of that kind or of another: the text is of one kind,
   removing the block joins the opener, and some split leaks.
   */
  lemma JoinedText(any: Tag) returns (w: string, pieces: seq<string>)
    ensures Opener(any) != "" && w == "<" + BLOCK + Opener(any)[1..]
    ensures OneKind(Think, w) && Settled(Think, w) && !NoJoined(Think, w)
    ensures Join(pieces) == w && Emitted(pieces) != VisibleSoFar(w)
  {
    hide Strip, Residual, Block, OneKind, Emitted, VisibleSoFar, Opener, NoOpener, Settled, NoAngle, HasBlock;
    OpenerParts(any);
    var b := Opener(any)[1..];
    w := "<" + BLOCK + b;
    AroundChars(b);
    OnlyThink(w);
    StripAround(b);
    forall other: Tag | other != Think ensures Block(other, Strip(Think, w)).None? { NoBlockIn(other, b); }
    UnclosedSettled(Think, w);
    pieces := JoinedLeaks(Think, w);
  }
}
