/** Splitting a text at a separator, also when it arrives in parts and the unfinished rest is carried over. */
module Splitting {
  import opened Values

  predicate SepAt(s: string, i: int, sep: string) {
    0 <= i && i + |sep| <= |s| && s[i..i + |sep|] == sep
  }

  function FindSep(s: string, from: nat, sep: string): (r: Option<nat>)
    ensures r.Some? ==> from <= r.value && r.value + |sep| <= |s| && SepAt(s, r.value, sep)
    ensures r.Some? ==> forall j :: from <= j < r.value ==> !SepAt(s, j, sep)
    ensures r.None? ==> forall j :: from <= j ==> !SepAt(s, j, sep)
    decreases |s| - from
  {
    if from > |s| then None else if SepAt(s, from, sep) then Some(from) else FindSep(s, from + 1, sep)
  }

  /** The parts that end with a separator. */
  function Complete(sep: string, s: string): seq<string>
    requires sep != ""
    decreases |s|
  {
    match FindSep(s, 0, sep)
    case None => []
    case Some(i) => [s[..i]] + Complete(sep, s[i + |sep|..])
  }

  /** What follows the last separator. */
  function Remainder(sep: string, s: string): string
    requires sep != ""
    decreases |s|
  {
    match FindSep(s, 0, sep)
    case None => s
    case Some(i) => Remainder(sep, s[i + |sep|..])
  }

  lemma FindSepUnique(s: string, from: nat, sep: string, i: nat)
    requires from <= i && SepAt(s, i, sep) && forall j :: from <= j < i ==> !SepAt(s, j, sep)
    ensures FindSep(s, from, sep) == Some(i)
  {
  }

  lemma SepAppend(a: string, b: string, j: int, sep: string)
    requires j + |sep| <= |a|
    ensures SepAt(a + b, j, sep) <==> SepAt(a, j, sep)
  {
    if j >= 0 { assert (a + b)[j..j + |sep|] == a[j..j + |sep|]; }
  }

  lemma FindSepAppend(a: string, b: string, sep: string)
    requires FindSep(a, 0, sep).Some?
    ensures FindSep(a + b, 0, sep) == FindSep(a, 0, sep)
  {
    hide SepAt;
    var i := FindSep(a, 0, sep).value;
    forall j: nat | j <= i ensures SepAt(a + b, j, sep) <==> SepAt(a, j, sep) { SepAppend(a, b, j, sep); }
    FindSepUnique(a + b, 0, sep, i);
  }

  /** Splitting what has arrived and carrying the rest over is splitting the whole. */
  lemma {:induction false} CompleteAppend(sep: string, a: string, b: string)
    requires sep != ""
    ensures Complete(sep, a + b) == Complete(sep, a) + Complete(sep, Remainder(sep, a) + b)
    ensures Remainder(sep, a + b) == Remainder(sep, Remainder(sep, a) + b)
    decreases |a|
  {
    hide SepAt, FindSep, Complete, Remainder;
    if FindSep(a, 0, sep).Some? {
      FindSepAppend(a, b, sep);
      CompleteStep(sep, a);
      CompleteStep(sep, a + b);
      var i := FindSep(a, 0, sep).value;
      assert (a + b)[..i] == a[..i] && (a + b)[i + |sep|..] == a[i + |sep|..] + b;
      CompleteAppend(sep, a[i + |sep|..], b);
    } else {
      CompleteStep(sep, a);
    }
  }

  lemma CompleteStep(sep: string, s: string)
    requires sep != ""
    ensures match FindSep(s, 0, sep)
            case None => Complete(sep, s) == [] && Remainder(sep, s) == s
            case Some(i) =>
              && Complete(sep, s) == [s[..i]] + Complete(sep, s[i + |sep|..])
              && Remainder(sep, s) == Remainder(sep, s[i + |sep|..])
  {
  }

  /** A text without separator, closed by one, is the next part. */
  lemma CompleteOne(sep: string, part: string, more: string)
    requires sep != "" && SepAt(part + sep + more, |part|, sep)
    requires forall j :: 0 <= j < |part| ==> !SepAt(part + sep + more, j, sep)
    ensures Complete(sep, part + sep + more) == [part] + Complete(sep, more)
    ensures Remainder(sep, part + sep + more) == Remainder(sep, more)
  {
    hide SepAt, FindSep;
    var s := part + sep + more;
    FindSepUnique(s, 0, sep, |part|);
    assert s[..|part|] == part && s[|part| + |sep|..] == more;
  }

  lemma NothingComplete(sep: string)
    requires sep != ""
    ensures Complete(sep, "") == []
  {
  }

  lemma EndsWithSep(part: string, sep: string)
    ensures SepAt(part + sep, |part|, sep)
  {
  }

  lemma {:induction false} NoSepLeft(sep: string, s: string)
    requires sep != ""
    ensures FindSep(Remainder(sep, s), 0, sep).None?
    decreases |s|
  {
    if FindSep(s, 0, sep).Some? { NoSepLeft(sep, s[FindSep(s, 0, sep).value + |sep|..]); }
  }

  const NL := "\n"

  function AllLines(s: string): seq<string> {
    Complete(NL, s) + [Remainder(NL, s)]
  }

  /** Lines joined with line ends. */
  function JoinLines(lines: seq<string>): string {
    if lines == [] then "" else if |lines| == 1 then lines[0] else lines[0] + NL + JoinLines(lines[1..])
  }

  /** Splitting into lines loses nothing. */
  lemma {:induction false} LinesOfText(s: string)
    ensures JoinLines(AllLines(s)) == s
    decreases |s|
  {
    hide SepAt, FindSep;
    CompleteStep(NL, s);
    if FindSep(s, 0, NL).Some? {
      var i := FindSep(s, 0, NL).value;
      var rest := s[i + 1..];
      LinesOfText(rest);
      assert AllLines(s) == [s[..i]] + AllLines(rest);
      assert AllLines(s)[1..] == AllLines(rest);
      SepIsThere(s, i, NL);
      assert s == s[..i] + NL + rest;
    }
  }

  lemma SepIsThere(s: string, i: nat, sep: string)
    requires SepAt(s, i, sep)
    ensures i + |sep| <= |s| && s[i..i + |sep|] == sep
  {
  }
}
