/** The ink of a text: its characters that are not white space. What cutting and trimming must keep. */
module TextInk {
  import opened Splitting
  import opened Strings

  function Mark(c: char): (r: string)
    ensures |r| <= 1
  {
    if IsSpace(c) then "" else [c]
  }

  function Ink(s: string): (r: string)
    ensures |r| <= |s|
  {
    if s == "" then "" else Mark(s[0]) + Ink(s[1..])
  }

  lemma InkFirst(c: char, rest: string)
    ensures Ink([c] + rest) == Mark(c) + Ink(rest)
  {
    assert ([c] + rest)[1..] == rest;
  }

  lemma {:induction false} InkConcat(a: string, b: string)
    ensures Ink(a + b) == Ink(a) + Ink(b)
  {
    if a == "" {
      assert a + b == b;
    } else {
      var c, rest := a[0], a[1..];
      InkConcat(rest, b);
      InkMoves(c, rest, b);
      assert a == [c] + rest;
    }
  }

  lemma InkMoves(c: char, rest: string, b: string)
    requires Ink(rest + b) == Ink(rest) + Ink(b)
    ensures Ink([c] + rest + b) == Ink([c] + rest) + Ink(b)
  {
    hide Ink, Mark;
    InkFirst(c, rest);
    InkFirst(c, rest + b);
    assert [c] + rest + b == [c] + (rest + b);
  }

  lemma {:induction false} InkOfSpaces(s: string)
    requires forall k :: 0 <= k < |s| ==> IsSpace(s[k])
    ensures Ink(s) == ""
  {
    if s != "" { InkOfSpaces(s[1..]); }
  }

  lemma InkTrimStart(s: string)
    ensures Ink(TrimStart(s)) == Ink(s)
  {
    var t := TrimStart(s);
    var lead := s[..|s| - |t|];
    assert s == lead + t;
    InkConcat(lead, t);
    InkOfSpaces(lead);
  }

  lemma InkTrimEnd(s: string)
    ensures Ink(TrimEnd(s)) == Ink(s)
  {
    var t := TrimEnd(s);
    var tail := s[|t|..];
    assert s == t + tail;
    InkConcat(t, tail);
    InkOfSpaces(tail);
  }

  /** Trimming keeps the ink. */
  lemma InkTrim(s: string)
    ensures Ink(Trim(s)) == Ink(s)
  {
    InkTrimStart(s);
    InkTrimEnd(TrimStart(s));
  }

  /** Only blank texts trim to nothing. */
  lemma InkOfBlank(s: string)
    ensures Trim(s) == "" <==> Ink(s) == ""
  {
    InkTrim(s);
    var t := Trim(s);
    if t != "" { assert Ink(t) == [t[0]] + Ink(t[1..]); }
  }

  lemma InkOne(c: char)
    ensures Ink([c]) == if IsSpace(c) then "" else [c]
  {
    assert [c][1..] == "";
  }

  /** Joining with line ends adds no ink. */
  lemma {:induction false} InkJoinLines(lines: seq<string>)
    ensures Ink(JoinLines(lines)) == Ink(Join(lines))
  {
    if |lines| == 1 {
      JoinOne(lines[0]);
      assert lines == [lines[0]];
    } else if lines != [] {
      var rest := JoinLines(lines[1..]);
      InkJoinLines(lines[1..]);
      InkConcat(lines[0] + NL, rest);
      InkConcat(lines[0], NL);
      InkOne('\n');
      InkConcat(lines[0], Join(lines[1..]));
    }
  }

  /** Adding a piece adds its ink. */
  lemma InkSnoc(pieces: seq<string>, last: string)
    ensures Ink(Join(pieces + [last])) == Ink(Join(pieces)) + Ink(last)
  {
    JoinAppend(pieces, [last]);
    JoinOne(last);
    InkConcat(Join(pieces), last);
  }

  lemma InkAppend(a: seq<string>, b: seq<string>)
    ensures Ink(Join(a + b)) == Ink(Join(a)) + Ink(Join(b))
  {
    JoinAppend(a, b);
    InkConcat(Join(a), Join(b));
  }
}
