/** What the thinking filter shows of plain texts, with the tags spelled out. */
module ThinkTexts {
  import opened Strings
  import opened ThinkFilter
  import opened Values

  predicate Quiet(s: string) {
    forall k :: 0 <= k < |s| ==> s[k] != '<'
  }

  /** The word `s` is `word`, in any case. */
  predicate Spells(s: string, word: string) {
    |s| == |word| && forall k :: 0 <= k < |s| ==> s[k] == word[k] || (s[k] as int + 32 == word[k] as int && 'A' <= s[k] <= 'Z')
  }

  function Word(tag: Tag): string {
    match tag
    case Think => "think"
    case Thinking => "thinking"
    case Reasoning => "reasoning"
  }

  lemma OpenerIs(tag: Tag)
    ensures Opener(tag) == "<" + Word(tag) + ">" && Closer(tag) == "</" + Word(tag) + ">"
    ensures forall k :: 0 <= k < |Word(tag)| ==> 'a' <= Word(tag)[k] <= 'z'
  {
  }

  lemma SpellsAt(s: string, word: string, k: nat)
    requires Spells(s, word) && k < |s| && 'a' <= word[k] <= 'z'
    ensures LowerChar(s[k]) == word[k]
  {
  }

  /** A tag of a text: the word in brackets, perhaps after a slash. */
  lemma TagMatches(a: string, slash: string, word: string, c: string, tag: Tag)
    requires Spells(word, Word(tag)) && (slash == "" || slash == "/")
    ensures MatchAt(a + "<" + slash + word + ">" + c, |a|, "<" + slash + Word(tag) + ">")
  {
    OpenerIs(tag);
    hide Spells, Word;
    var t, pat := a + "<" + slash + word + ">" + c, "<" + slash + Word(tag) + ">";
    assert |word| == |Word(tag)| by { SameLength(word, Word(tag)); }
    forall k | 0 <= k < |pat| ensures LowerChar(t[|a| + k]) == pat[k] {
      var j := k - 1 - |slash|;
      if 0 <= j < |word| {
        assert t[|a| + k] == word[j] && pat[k] == Word(tag)[j];
        SpellsAt(word, Word(tag), j);
      } else if k == 0 {
        assert t[|a|] == '<';
      } else if j < 0 {
        assert t[|a| + 1] == '/' && pat[1] == '/';
      } else {
        assert t[|a| + k] == '>';
      }
    }
  }

  lemma SameLength(s: string, word: string)
    requires Spells(s, word)
    ensures |s| == |word|
  {
  }

  lemma MatchFirst(t: string, i: int, pat: string, k: nat)
    requires MatchAt(t, i, pat) && k < |pat|
    ensures 0 <= i && i + |pat| <= |t| && LowerChar(t[i + k]) == pat[k]
  {
  }

  lemma QuietNoMatch(t: string, i: int, tag: Tag)
    requires 0 <= i < |t| ==> t[i] != '<'
    ensures !MatchAt(t, i, Opener(tag)) && !MatchAt(t, i, Closer(tag))
  {
    OpenerIs(tag);
    hide MatchAt;
    if MatchAt(t, i, Opener(tag)) { MatchFirst(t, i, Opener(tag), 0); }
    if MatchAt(t, i, Closer(tag)) { MatchFirst(t, i, Closer(tag), 0); }
  }

  lemma ClosingNoOpener(t: string, i: nat, tag: Tag)
    requires i + 1 < |t| && t[i + 1] == '/'
    ensures !MatchAt(t, i, Opener(tag))
  {
    OpenerIs(tag);
    hide MatchAt;
    if MatchAt(t, i, Opener(tag)) { MatchFirst(t, i, Opener(tag), 1); }
  }

  /** At one place there is at most one kind of opener. */
  lemma OneOpener(t: string, i: nat, tag: Tag, other: Tag)
    requires MatchAt(t, i, Opener(tag)) && other != tag
    ensures !MatchAt(t, i, Opener(other))
  {
    hide MatchAt;
    if MatchAt(t, i, Opener(other)) {
      MatchFirst(t, i, Opener(tag), 1);
      MatchFirst(t, i, Opener(other), 1);
      MatchFirst(t, i, Opener(tag), 6);
      MatchFirst(t, i, Opener(other), 6);
    }
  }

  lemma QuietStrip(tag: Tag, s: string)
    requires Quiet(s)
    ensures Strip(tag, s) == s
  {
    hide Opener, Closer, MatchAt, Strip;
    forall j ensures !MatchAt(s, j, Opener(tag)) { QuietNoMatch(s, j, tag); }
    StripNothing(tag, s);
  }

  /** A text without `<` is shown as it is. */
  lemma QuietStays(s: string)
    requires Quiet(s)
    ensures StripThink(s) == s && VisibleSoFar(s) == s
  {
    hide Opener, Closer, MatchAt, Strip;
    QuietStrip(Think, s);
    QuietStrip(Thinking, s);
    QuietStrip(Reasoning, s);
    forall j, tag ensures !MatchAt(s, j, Opener(tag)) { QuietNoMatch(s, j, tag); }
    assert CutFrom(s, 0) == s;
  }

  /** A plain text with one tag opened in it, and perhaps closed. */
  function Opened(a: string, word: string, b: string): string {
    a + "<" + word + ">" + b
  }

  function Closed(a: string, word: string, b: string, end: string, c: string): string {
    Opened(a, word, b) + "</" + end + ">" + c
  }

  lemma OpenedPlaces(a: string, word: string, b: string, more: string, tag: Tag, any: Tag, j: int)
    requires Quiet(a) && Quiet(b) && Spells(word, Word(tag)) && j < |Opened(a, word, b)|
    ensures var t := Opened(a, word, b) + more;
      && (MatchAt(t, j, Opener(any)) <==> j == |a| && any == tag) && !MatchAt(t, j, Closer(any))
  {
    OpenerIs(tag);
    hide Opener, Closer, MatchAt, Spells;
    var t := Opened(a, word, b) + more;
    assert t == a + "<" + "" + word + ">" + (b + more);
    TagMatches(a, "", word, b + more, tag);
    assert "<" + "" + Word(tag) + ">" == Opener(tag);
    if j == |a| {
      if any != tag { OneOpener(t, j, tag, any); }
      NotClosing(t, j, tag, any);
    } else {
      if 0 <= j { OpenedQuiet(a, word, b, more, tag, j); }
      QuietNoMatch(t, j, any);
    }
  }

  lemma NotClosing(t: string, i: nat, tag: Tag, any: Tag)
    requires MatchAt(t, i, Opener(tag))
    ensures !MatchAt(t, i, Closer(any))
  {
    OpenerIs(tag);
    OpenerIs(any);
    hide MatchAt;
    MatchFirst(t, i, Opener(tag), 1);
    if MatchAt(t, i, Closer(any)) { MatchFirst(t, i, Closer(any), 1); }
  }

  lemma OpenedQuiet(a: string, word: string, b: string, more: string, tag: Tag, j: nat)
    requires Quiet(a) && Quiet(b) && Spells(word, Word(tag)) && j < |Opened(a, word, b)| && j != |a|
    ensures (Opened(a, word, b) + more)[j] != '<'
  {
    OpenerIs(tag);
    var t := Opened(a, word, b);
    assert (t + more)[j] == t[j];
    if j < |a| {
      assert t[j] == a[j];
    } else if j <= |a| + |word| {
      assert t[j] == word[j - |a| - 1];
    } else if j == |a| + |word| + 1 {
      assert t[j] == '>';
    } else {
      assert t[j] == b[j - |a| - |word| - 2];
    }
  }

  /** An opened tag that is never closed hides all that follows it. */
  lemma OpenedHidden(a: string, word: string, b: string, tag: Tag)
    requires Quiet(a) && Quiet(b) && Spells(word, Word(tag))
    ensures StripThink(Opened(a, word, b)) == Opened(a, word, b) && VisibleSoFar(Opened(a, word, b)) == a
  {
    hide Opener, Closer, MatchAt, Strip, Spells;
    var t := Opened(a, word, b);
    assert t + "" == t;
    forall any: Tag, j: int ensures (MatchAt(t, j, Opener(any)) <==> j == |a| && any == tag) && !MatchAt(t, j, Closer(any)) {
      if j < |t| { OpenedPlaces(a, word, b, "", tag, any, j); } else { QuietNoMatch(t, j, any); }
    }
    forall any: Tag ensures Strip(any, t) == t { StripUnclosed(any, t); }
    var shown := CutFrom(t, 0);
    assert OpensAt(t, |a|);
    assert |shown| == |a|;
    assert t[..|a|] == a;
  }

  lemma StripUnclosed(tag: Tag, t: string)
    requires forall j :: !MatchAt(t, j, Closer(tag))
    ensures Strip(tag, t) == t
  {
    hide Opener, Closer, MatchAt;
  }

  /** A thinking block is hidden, and the text around it shown. */
  lemma BlockHidden(a: string, word: string, b: string, end: string, c: string, tag: Tag)
    requires Quiet(a) && Quiet(b) && Quiet(c) && Spells(word, Word(tag)) && Spells(end, Word(tag))
    ensures StripThink(Closed(a, word, b, end, c)) == a + c && VisibleSoFar(Closed(a, word, b, end, c)) == a + c
  {
    hide Opener, Closer, MatchAt, Strip, Spells, StripThink, VisibleSoFar;
    var t := Closed(a, word, b, end, c);
    StripClosed(a, word, b, end, c, tag);
    forall any: Tag | any != tag ensures Strip(any, t) == t { StripOther(a, word, b, end, c, tag, any); }
    assert Quiet(a + c);
    QuietStrip(Thinking, a + c);
    QuietStrip(Reasoning, a + c);
    QuietStays(a + c);
    assert StripThink(t) == a + c by { StripsInTurn(t, a + c, tag); }
    SameVisible(t, a + c);
  }

  lemma StripsInTurn(t: string, r: string, tag: Tag)
    requires Quiet(r) && Strip(tag, t) == r && forall any :: any != tag ==> Strip(any, t) == t
    ensures StripThink(t) == r
  {
    hide Strip;
    QuietStrip(Thinking, r);
    QuietStrip(Reasoning, r);
  }

  lemma SameVisible(t: string, r: string)
    requires StripThink(t) == r && StripThink(r) == r
    ensures VisibleSoFar(t) == VisibleSoFar(r)
  {
  }

  lemma ClosingAt(a: string, word: string, b: string, end: string, c: string, tag: Tag)
    requires Spells(end, Word(tag))
    ensures var t, q := Closed(a, word, b, end, c), |Opened(a, word, b)|;
      && q + 1 < |t| && t[q] == '<' && t[q + 1] == '/' && MatchAt(t, q, Closer(tag))
      && q + |Closer(tag)| <= |t| && t[q + |Closer(tag)|..] == c
  {
    OpenerIs(tag);
    hide Opener, Closer, MatchAt, Word;
    SameLength(end, Word(tag));
    var head := Opened(a, word, b);
    TagMatches(head, "/", end, c, tag);
    assert "<" + "/" + Word(tag) + ">" == Closer(tag) && "<" + "/" == "</";
    assert head + "<" + "/" + end + ">" + c == Closed(a, word, b, end, c);
  }

  lemma StripClosed(a: string, word: string, b: string, end: string, c: string, tag: Tag)
    requires Quiet(a) && Quiet(b) && Quiet(c) && Spells(word, Word(tag)) && Spells(end, Word(tag))
    ensures Strip(tag, Closed(a, word, b, end, c)) == a + c
  {
    hide Opener, Closer, MatchAt, Spells;
    var t, q := Closed(a, word, b, end, c), |Opened(a, word, b)|;
    ClosingAt(a, word, b, end, c, tag);
    var more := "</" + end + ">" + c;
    assert t == Opened(a, word, b) + more;
    forall j: int | j < q ensures (MatchAt(t, j, Opener(tag)) <==> j == |a|) && !MatchAt(t, j, Closer(tag)) {
      OpenedPlaces(a, word, b, more, tag, tag, j);
    }
    FindUnique(t, 0, Opener(tag), |a|);
    assert |a| + |Opener(tag)| <= q by { OpenerLength(a, word, b, tag); }
    FindUnique(t, |a| + |Opener(tag)|, Closer(tag), q);
    assert t[..|a|] == a;
    QuietStrip(tag, c);
  }

  lemma OpenerLength(a: string, word: string, b: string, tag: Tag)
    requires Spells(word, Word(tag))
    ensures |a| + |Opener(tag)| <= |Opened(a, word, b)|
  {
    OpenerIs(tag);
  }

  lemma StripOther(a: string, word: string, b: string, end: string, c: string, tag: Tag, any: Tag)
    requires Quiet(a) && Quiet(b) && Quiet(c) && Spells(word, Word(tag)) && Spells(end, Word(tag)) && any != tag
    ensures Strip(any, Closed(a, word, b, end, c)) == Closed(a, word, b, end, c)
  {
    hide Opener, Closer, MatchAt;
    var t, q := Closed(a, word, b, end, c), |Opened(a, word, b)|;
    var more := "</" + end + ">" + c;
    assert t == Opened(a, word, b) + more;
    ClosingAt(a, word, b, end, c, tag);
    forall j ensures !MatchAt(t, j, Opener(any)) {
      if j < q {
        OpenedPlaces(a, word, b, more, tag, any, j);
      } else if j == q {
        ClosingNoOpener(t, q, any);
      } else {
        if j < |t| { AfterClosing(Opened(a, word, b), end, c, tag, j); }
        QuietNoMatch(t, j, any);
      }
    }
    StripNothing(any, t);
  }

  lemma AfterClosing(head: string, end: string, c: string, tag: Tag, j: nat)
    requires Quiet(c) && Spells(end, Word(tag)) && |head| < j < |head + "</" + end + ">" + c|
    ensures (head + "</" + end + ">" + c)[j] != '<'
  {
    OpenerIs(tag);
    var t := head + "</" + end + ">" + c;
    var k := j - |head|;
    if k == 1 {
      assert t[j] == '/';
    } else if k < 2 + |end| {
      assert t[j] == end[k - 2];
    } else if k == 2 + |end| {
      assert t[j] == '>';
    } else {
      assert t[j] == c[k - 3 - |end|];
    }
  }

  predicate Letters(s: string) {
    forall k :: 0 <= k < |s| ==> 'a' <= s[k] <= 'z' || 'A' <= s[k] <= 'Z' || s[k] == '/'
  }

  /**
   While a text streams in, an unfinished tag at its end is held back: `<` and at most nine letters or slashes.
   Anything else is shown.
   */
  lemma UnfinishedHeld(a: string, u: string)
    requires Quiet(a) && Quiet(u)
    ensures Held(a + "<" + u) == if Letters(u) && |u| <= 9 then a else a + "<" + u
    ensures Held(a) == a
  {
    var s := a + "<" + u;
    if Letters(u) {
      TagCharsAre(a + "<", u);
    } else {
      TagCharsFew(a + "<", u);
    }
    assert s[..|a|] == a && s[|a|] == '<';
    assert forall k :: 0 <= k < |u| ==> s[|a| + 1 + k] == u[k];
    QuietHeld(a);
  }

  lemma QuietHeld(a: string)
    requires Quiet(a)
    ensures Held(a) == a
  {
  }

  lemma {:induction false} TagCharsFew(first: string, u: string)
    requires !Letters(u)
    ensures TrailingTagChars(first + u) < |u|
  {
    var n := |u| - 1;
    assert (first + u)[..|first + u| - 1] == first + u[..n] && u == u[..n] + [u[n]];
    if IsTagChar(u[n]) { TagCharsFew(first, u[..n]); }
  }

  lemma {:induction false} TagCharsAre(first: string, u: string)
    requires Letters(u) && first != "" && !IsTagChar(first[|first| - 1])
    ensures TrailingTagChars(first + u) == |u|
  {
    if u == "" {
      assert first + u == first;
    } else {
      assert (first + u)[..|first + u| - 1] == first + u[..|u| - 1];
      TagCharsAre(first, u[..|u| - 1]);
    }
  }
}
