/** Text operations of the host language that several components share. */
module Strings {

  /** What `trim` removes: white space and line terminators. */
  predicate IsSpace(c: char) {
    || '\t' <= c <= '\r' || c == ' ' || c == '\U{00A0}' || c == '\U{1680}'
    || '\U{2000}' <= c <= '\U{200A}' || c == '\U{2028}' || c == '\U{2029}' || c == '\U{202F}'
    || c == '\U{205F}' || c == '\U{3000}' || c == '\U{FEFF}'
  }

  function TrimStart(s: string): (t: string)
    ensures |t| <= |s| && t == s[|s| - |t|..]
    ensures t != "" ==> !IsSpace(t[0])
    ensures forall k :: 0 <= k < |s| - |t| ==> IsSpace(s[k])
  {
    if s != "" && IsSpace(s[0]) then TrimStart(s[1..]) else s
  }

  function TrimEnd(s: string): (t: string)
    ensures |t| <= |s| && t == s[..|t|]
    ensures t != "" ==> !IsSpace(t[|t| - 1])
    ensures forall k :: |t| <= k < |s| ==> IsSpace(s[k])
  {
    if s != "" && IsSpace(s[|s| - 1]) then TrimEnd(s[..|s| - 1]) else s
  }

  function Trim(s: string): (t: string)
    ensures |t| <= |s|
    ensures t != "" ==> !IsSpace(t[0]) && !IsSpace(t[|t| - 1])
  {
    TrimEnd(TrimStart(s))
  }

  /** No space at either end. */
  predicate Trimmed(s: string) {
    s == "" || (!IsSpace(s[0]) && !IsSpace(s[|s| - 1]))
  }

  /** A text without space at its ends is left alone. */
  lemma TrimKeeps(s: string)
    requires Trimmed(s)
    ensures Trim(s) == s
  {
  }

  /** Lower case, for the ASCII letters. */
  function LowerChar(c: char): char {
    if 'A' <= c <= 'Z' then ((c as int) + 32) as char else c
  }

  function Lower(s: string): (t: string)
    ensures |t| == |s|
  {
    if s == "" then "" else [LowerChar(s[0])] + Lower(s[1..])
  }

  function Join(pieces: seq<string>): string {
    if pieces == [] then "" else pieces[0] + Join(pieces[1..])
  }

  lemma {:induction false} JoinAppend(a: seq<string>, b: seq<string>)
    ensures Join(a + b) == Join(a) + Join(b)
  {
    if a == [] {
      assert a + b == b;
    } else {
      assert (a + b)[1..] == a[1..] + b;
      JoinAppend(a[1..], b);
    }
  }

  lemma JoinOne(s: string)
    ensures Join([s]) == s
  {
    assert [s][1..] == [];
  }

  // ----- trimming -----

  /** Nothing but white space. */
  predicate Gap(s: string) {
    forall k :: 0 <= k < |s| ==> IsSpace(s[k])
  }

  lemma {:induction false} TrimStartGap(gap: string, s: string)
    requires Gap(gap)
    ensures TrimStart(gap + s) == TrimStart(s)
  {
    hide IsSpace;
    if gap == "" {
      assert gap + s == s;
    } else {
      assert (gap + s)[1..] == gap[1..] + s;
      TrimStartGap(gap[1..], s);
    }
  }

  lemma {:induction false} TrimEndGap(s: string, gap: string)
    requires Gap(gap)
    ensures TrimEnd(s + gap) == TrimEnd(s)
  {
    hide IsSpace;
    if gap == "" {
      assert s + gap == s;
    } else {
      assert (s + gap)[..|s + gap| - 1] == s + gap[..|gap| - 1];
      TrimEndGap(s, gap[..|gap| - 1]);
    }
  }

  lemma EndsStay(s: string, more: string)
    requires Trimmed(s) && s != ""
    ensures TrimStart(s + more) == s + more && TrimEnd(s) == s
  {
    hide IsSpace;
    assert (s + more)[0] == s[0];
  }

  /** Blanks around a text that has none at its ends. */
  lemma TrimGaps(before: string, s: string, after: string)
    requires Gap(before) && Gap(after) && Trimmed(s) && s != ""
    ensures Trim(before + s + after) == s && Trim(before + s) == s
  {
    hide IsSpace, TrimStart, TrimEnd, Gap, Trimmed;
    assert before + s + after == before + (s + after) && s + "" == s;
    TrimStartGap(before, s + after);
    TrimStartGap(before, s);
    EndsStay(s, after);
    EndsStay(s, "");
    TrimEndGap(s, after);
  }

  lemma StartParts(s: string)
    ensures var i := |s| - |TrimStart(s)|; i >= 0 && TrimStart(s) == s[i..] && Gap(s[..i])
  {
    hide IsSpace;
  }

  lemma EndParts(s: string)
    ensures var j := |TrimEnd(s)|; j <= |s| && TrimEnd(s) == s[..j] && Gap(s[j..])
  {
    hide IsSpace;
  }

  /** What is left of a text, and the white space around it. */
  lemma TrimParts(s: string) returns (i: nat, j: nat)
    ensures i <= j <= |s| && Trim(s) == s[i..j] && Gap(s[..i]) && Gap(s[j..])
  {
    StartParts(s);
    EndParts(TrimStart(s));
    i := |s| - |TrimStart(s)|;
    j := i + |TrimEnd(TrimStart(s))|;
    hide IsSpace, Gap;
    SliceOfRest(s, i, j);
  }

  lemma SliceOfRest(s: string, i: nat, j: nat)
    requires i <= j <= |s|
    ensures s[i..][..j - i] == s[i..j] && s[i..][j - i..] == s[j..]
  {
  }
}
