/** The fallback for documents without structure: overlapping windows of fixed length. */
module Windows {
  import opened Strings

  /** Line ends become line feeds; a carriage return on its own stays. */
  function LineFeeds(s: string): string {
    if s == "" then ""
    else if s[0] == '\r' && |s| > 1 && s[1] == '\n' then "\n" + LineFeeds(s[2..])
    else [s[0]] + LineFeeds(s[1..])
  }

  function Window(s: string, i: nat, size: nat): string
    requires i <= |s|
  {
    s[i..if i + size < |s| then i + size else |s|]
  }

  function WindowsFrom(s: string, i: nat, size: nat, step: nat): (r: seq<string>)
    requires i <= |s| && 0 < step <= size
    ensures r != []
    decreases |s| - i
  {
    [Window(s, i, size)] + if i + size < |s| then WindowsFrom(s, i + step, size, step) else []
  }

  function StepOf(size: nat, overlap: nat): nat {
    if size - overlap > 1 then size - overlap else 1
  }

  function Chunks(text: string, size: nat, overlap: nat): seq<string>
    requires size > 0
  {
    var clean := Trim(LineFeeds(text));
    if clean == "" then [] else if |clean| <= size then [clean] else WindowsFrom(clean, 0, size, StepOf(size, overlap))
  }

  method Chunk(text: string, size: nat, overlap: nat) returns (out: seq<string>)
    requires size > 0
    ensures out == Chunks(text, size, overlap)
  {
    hide Trim, LineFeeds, WindowsFrom, Window, StepOf;
    var clean := Trim(LineFeeds(text));
    if clean == "" { return []; }
    if |clean| <= size { return [clean]; }
    var step := StepOf(size, overlap);
    StepInRange(size, overlap);
    out := [];
    var i := 0;
    while i < |clean|
      invariant i <= |clean|
      invariant i < |clean| && out + WindowsFrom(clean, i, size, step) == WindowsFrom(clean, 0, size, step)
    {
      WindowStep(out, clean, i, size, step);
      out := out + [Window(clean, i, size)];
      if i + size >= |clean| { break; }
      i := i + step;
    }
  }

  lemma WindowStep(out: seq<string>, s: string, i: nat, size: nat, step: nat)
    requires i <= |s| && 0 < step <= size
    ensures out + WindowsFrom(s, i, size, step)
         == out + [Window(s, i, size)] + if i + size < |s| then WindowsFrom(s, i + step, size, step) else []
  {
  }

  lemma StepInRange(size: nat, overlap: nat)
    requires size > 0
    ensures 0 < StepOf(size, overlap) <= size
  {
  }

  /** The first window, then each later one without the `shared` characters it repeats. */
  function Rebuilt(windows: seq<string>, shared: nat): string {
    if windows == [] then "" else windows[0] + Tails(windows[1..], shared)
  }

  function Tails(windows: seq<string>, shared: nat): string {
    if windows == [] then "" else Tail(windows[0], shared) + Tails(windows[1..], shared)
  }

  function Tail(s: string, n: nat): string {
    if n <= |s| then s[n..] else ""
  }

  lemma WindowsShape(s: string, i: nat, size: nat, step: nat)
    requires i <= |s| && 0 < step <= size
    ensures var ws := WindowsFrom(s, i, size, step);
      && ws != [] && ws[0] == Window(s, i, size)
      && ws[1..] == if i + size < |s| then WindowsFrom(s, i + step, size, step) else []
  {
  }

  lemma {:induction false} RebuiltFrom(s: string, i: nat, size: nat, step: nat)
    requires i <= |s| && 0 < step <= size
    ensures Rebuilt(WindowsFrom(s, i, size, step), size - step) == s[i..]
    decreases |s| - i
  {
    hide WindowsFrom, Tail;
    var ws := WindowsFrom(s, i, size, step);
    WindowsShape(s, i, size, step);
    if i + size < |s| {
      var rest := ws[1..];
      var shared := size - step;
      RebuiltFrom(s, i + step, size, step);
      WindowsShape(s, i + step, size, step);
      TailAfter(rest[0], Tails(rest[1..], shared), shared, s, i + step);
      assert s[i..] == s[i..i + size] + s[i + size..];
    }
  }

  lemma TailAfter(first: string, more: string, shared: nat, s: string, i: nat)
    requires i <= |s| && first + more == s[i..] && shared <= |first|
    ensures Tail(first, shared) + more == s[i + shared..]
  {
    assert (first + more)[shared..] == first[shared..] + more;
    assert s[i..][shared..] == s[i + shared..];
  }

  /** Dropping from each later window what it repeats gives back the trimmed text. */
  lemma ChunksRebuild(text: string, size: nat, overlap: nat)
    requires size > 0
    ensures Rebuilt(Chunks(text, size, overlap), size - StepOf(size, overlap)) == Trim(LineFeeds(text))
  {
    hide Trim, LineFeeds, WindowsFrom;
    var clean := Trim(LineFeeds(text));
    StepInRange(size, overlap);
    RebuiltFrom(clean, 0, size, StepOf(size, overlap));
    assert clean[0..] == clean;
    assert [clean][1..] == [];
    assert clean + "" == clean;
  }

  /** A window is full and leaves more to come, unless it is the last, which holds the rest. */
  predicate Placed(w: string, s: string, start: nat, size: nat, last: bool) {
    if last then start <= |s| <= start + size && w == s[start..] else start + size < |s| && w == s[start..start + size]
  }

  /** The windows start one step apart, have the full size but for the last, and end with the text. */
  lemma {:induction false} WindowsPlaced(s: string, i: nat, size: nat, step: nat, k: nat)
    requires i <= |s| && 0 < step <= size && k < |WindowsFrom(s, i, size, step)|
    ensures Placed(WindowsFrom(s, i, size, step)[k], s, i + k * step, size, k == |WindowsFrom(s, i, size, step)| - 1)
    decreases |s| - i
  {
    hide WindowsFrom;
    var ws := WindowsFrom(s, i, size, step);
    WindowsShape(s, i, size, step);
    if k > 0 {
      WindowsPlaced(s, i + step, size, step, k - 1);
      assert ws[1..][k - 1] == ws[k];
      assert i + step + (k - 1) * step == i + k * step;
    }
  }

  predicate AllPlaced(ws: seq<string>, s: string, size: nat, step: nat) {
    forall k :: 0 <= k < |ws| ==> Placed(ws[k], s, k * step, size, k == |ws| - 1)
  }

  /**
   The windows of a text: none if it is blank and one if it fits. Else each starts so far after the one before it
   that `overlap` characters are shared, or one character after it.
   */
  lemma ChunksPlaced(text: string, size: nat, overlap: nat)
    requires size > 0
    ensures var clean, ws := Trim(LineFeeds(text)), Chunks(text, size, overlap);
      if clean == "" then ws == []
      else if |clean| <= size then ws == [clean]
      else AllPlaced(ws, clean, size, if overlap < size then size - overlap else 1)
  {
    hide Trim, LineFeeds, WindowsFrom, Placed;
    StepInRange(size, overlap);
    var clean, step := Trim(LineFeeds(text)), StepOf(size, overlap);
    assert step == if overlap < size then size - overlap else 1;
    forall k: nat | k < |WindowsFrom(clean, 0, size, step)|
      ensures Placed(WindowsFrom(clean, 0, size, step)[k], clean, k * step, size,
                     k == |WindowsFrom(clean, 0, size, step)| - 1)
    {
      WindowsPlaced(clean, 0, size, step, k);
    }
  }

  predicate HasLineEnd(s: string, i: int) {
    0 <= i < |s| - 1 && s[i] == '\r' && s[i + 1] == '\n'
  }

  /** Only the line ends CR LF change: a text around them stays, and without any it is the same. */
  lemma {:induction false} LineFeedsIs(a: string, b: string)
    requires forall i :: !HasLineEnd(a, i)
    ensures LineFeeds(a) == a
    ensures LineFeeds(a + "\r\n" + b) == a + "\n" + LineFeeds(b)
  {
    var t := a + "\r\n" + b;
    if a == "" {
      assert t == ['\r', '\n'] + b && t[2..] == b;
    } else {
      assert t == [a[0]] + (a[1..] + "\r\n" + b) && t[1..] == a[1..] + "\r\n" + b;
      assert !HasLineEnd(a, 0);
      forall i ensures !HasLineEnd(a[1..], i) { assert !HasLineEnd(a, i + 1); }
      if |a| == 1 { assert t[1] == '\r'; } else { assert t[1] == a[1]; }
      LineFeedsIs(a[1..], b);
      assert a == [a[0]] + a[1..];
    }
  }
}
