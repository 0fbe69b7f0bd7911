/**
 Formula texts and token lists. A text tokenizes to a list exactly when it is that list written out
 with blanks between the tokens, such that no token runs into its successor.
 */
module FormulaText {
  import opened Values
  import opened Lexer

  predicate ValidTok(t: Tok) {
    match t
    case Num(v) => v != "" && forall k :: 0 <= k < |v| ==> IsNumChar(v[k])
    case Id(v) => v != "" && IsIdStart(v[0]) && IdLength(v) == |v|
    case _ => true
  }

  predicate Blank(gap: string) {
    forall k :: 0 <= k < |gap| ==> IsBlankChar(gap[k])
  }

  /** Whether the token `t` ends where the text `rest` begins. */
  predicate Ends(t: Tok, rest: string) {
    match t
    case Num(_) => rest == "" || !IsNumChar(rest[0])
    case Id(v) => (rest == "" || !IsIdChar(rest[0])) && (Span(v, IsIdChar) == |v| ==> !Dotted(rest))
    case Op(o) => o in {Lt, Gt} ==> rest == "" || rest[0] != '='
    case _ => true
  }

  /** The tokens written out, `gaps[k]` before token `k` and the last gap at the end. */
  function Layout(ts: seq<Tok>, gaps: seq<string>): string
    requires |gaps| == |ts| + 1
  {
    if ts == [] then gaps[0] else gaps[0] + TokText(ts[0]) + Layout(ts[1..], gaps[1..])
  }

  predicate Legal(ts: seq<Tok>, gaps: seq<string>)
    requires |gaps| == |ts| + 1
  {
    && Blank(gaps[0])
    && (ts == [] ||
        (ValidTok(ts[0]) && Ends(ts[0], Layout(ts[1..], gaps[1..])) && Legal(ts[1..], gaps[1..])))
  }

  lemma {:induction false} SpanOf(a: string, b: string, p: char -> bool)
    requires forall k :: 0 <= k < |a| ==> p(a[k])
    ensures Span(a + b, p) == |a| + Span(b, p)
  {
    if a == "" {
      assert a + b == b;
    } else {
      assert (a + b)[1..] == a[1..] + b;
      SpanOf(a[1..], b, p);
    }
  }

  lemma IdLengthSplit(a: string, b: string)
    requires forall k :: 0 <= k < |a| ==> IsIdChar(a[k])
    requires b == "" || !IsIdChar(b[0])
    ensures IdLength(a + b) == if Dotted(b) then |a| + 1 + Span(b[1..], IsIdChar) else |a|
  {
    SpanOf(a, b, IsIdChar);
    assert (a + b)[|a|..] == b;
    if b != "" { assert (a + b)[|a| + 1..] == b[1..]; }
  }

  lemma IdLengthOf(v: string, rest: string)
    requires ValidTok(Id(v)) && Ends(Id(v), rest)
    ensures IdLength(v + rest) == |v|
  {
    var n := Span(v, IsIdChar);
    if n == |v| {
      IdLengthSplit(v, rest);
    } else {
      var word, tail := v[..n], v[n..];
      assert v == word + tail && v + rest == word + (tail + rest);
      assert (tail + rest)[1..] == tail[1..] + rest;
      IdLengthSplit(word, tail);
      IdLengthSplit(word, tail + rest);
      SpanOf(tail[1..], rest, IsIdChar);
    }
  }

  /** A valid token followed by a text it does not run into is read back. */
  lemma LexOneOf(t: Tok, rest: string)
    requires ValidTok(t) && Ends(t, rest)
    ensures LexOne(TokText(t) + rest) == Some((t, |TokText(t)|))
  {
    hide Span, IdLength;
    var s := TokText(t) + rest;
    assert s[..|TokText(t)|] == TokText(t);
    match t
    case Num(v) =>
      SpanOf(v, rest, IsNumChar);
      assert Span(rest, IsNumChar) == 0;
    case Id(v) => IdLengthOf(v, rest);
    case _ =>
  }

  lemma FullSpan(s: string, p: char -> bool)
    requires forall k :: 0 <= k < |s| ==> p(s[k])
    ensures Span(s, p) == |s|
  {
    SpanOf(s, "", p);
    assert s + "" == s;
  }

  lemma IdShape(s: string)
    requires s != [] && IsIdStart(s[0])
    ensures var n := IdLength(s); ValidTok(Id(s[..n])) && Ends(Id(s[..n]), s[n..])
  {
    var m := Span(s, IsIdChar);
    var word, tail := s[..m], s[m..];
    assert s == word + tail;
    hide Span, Dotted, IdLength;
    IdLengthSplit(word, tail);
    if !Dotted(tail) {
      FullSpan(word, IsIdChar);
      IdLengthSplit(word, "");
      assert word + "" == word;
    } else {
      var column, rest := SplitDotted(tail);
      assert s == word + ("." + column) + rest;
      DottedShape(word, column, rest);
    }
  }

  lemma SplitDotted(tail: string) returns (column: string, rest: string)
    requires Dotted(tail)
    ensures tail == "." + column + rest && |column| == Span(tail[1..], IsIdChar)
    ensures column != "" && IsIdStart(column[0]) && forall k :: 0 <= k < |column| ==> IsIdChar(column[k])
    ensures rest == "" || !IsIdChar(rest[0])
  {
    var more := tail[1..];
    column, rest := more[..Span(more, IsIdChar)], more[Span(more, IsIdChar)..];
    assert IsIdChar(more[0]);
  }

  lemma DottedShape(word: string, column: string, rest: string)
    requires word != "" && IsIdStart(word[0]) && forall k :: 0 <= k < |word| ==> IsIdChar(word[k])
    requires column != "" && IsIdStart(column[0]) && forall k :: 0 <= k < |column| ==> IsIdChar(column[k])
    requires rest == "" || !IsIdChar(rest[0])
    ensures var id := Id(word + ("." + column)); ValidTok(id) && Ends(id, rest)
  {
    hide IdLength, Span;
    assert ("." + column)[1..] == column;
    FullSpan(column, IsIdChar);
    IdLengthSplit(word, "." + column);
    SpanOf(word, "." + column, IsIdChar);
    NoSpan("." + column, IsIdChar);
  }

  lemma NoSpan(s: string, p: char -> bool)
    requires s == "" || !p(s[0])
    ensures Span(s, p) == 0
  {
  }

  /** The converse: what is read is a valid token that ends there. */
  lemma LexOneShape(s: string)
    requires s != [] && LexOne(s).Some?
    ensures var (t, n) := LexOne(s).value; ValidTok(t) && Ends(t, s[n..])
  {
    if !IsNumChar(s[0]) && IsIdStart(s[0]) {
      IdShape(s);
    }
  }

  lemma {:induction false} LexSkipsGap(gap: string, s: string)
    requires Blank(gap)
    ensures Lex(gap + s) == Lex(s)
  {
    if gap == "" {
      assert gap + s == s;
    } else {
      assert (gap + s)[1..] == gap[1..] + s;
      LexSkipsGap(gap[1..], s);
    }
  }

  lemma TokStart(t: Tok)
    requires ValidTok(t)
    ensures TokText(t) != "" && !IsBlankChar(TokText(t)[0])
  {
  }

  lemma LexFront(t: Tok, rest: string)
    requires ValidTok(t) && Ends(t, rest) && Lex(rest).Some?
    ensures Lex(TokText(t) + rest) == Some([t] + Lex(rest).value)
  {
    LexOneOf(t, rest);
    TokStart(t);
    assert (TokText(t) + rest)[|TokText(t)|..] == rest;
  }

  /** Every legal layout of a token list tokenizes to that list. */
  lemma {:induction false} LayoutLexes(ts: seq<Tok>, gaps: seq<string>)
    requires |gaps| == |ts| + 1 && Legal(ts, gaps)
    ensures Lex(Layout(ts, gaps)) == Some(ts)
  {
    if ts == [] {
      LexSkipsGap(gaps[0], "");
      assert gaps[0] + "" == gaps[0];
    } else {
      var rest := Layout(ts[1..], gaps[1..]);
      LayoutLexes(ts[1..], gaps[1..]);
      LexFront(ts[0], rest);
      LexSkipsGap(gaps[0], TokText(ts[0]) + rest);
      assert gaps[0] + TokText(ts[0]) + rest == gaps[0] + (TokText(ts[0]) + rest);
      assert [ts[0]] + ts[1..] == ts;
    }
  }

  lemma WidenGap(c: char, ts: seq<Tok>, rest: seq<string>) returns (gaps: seq<string>)
    requires IsBlankChar(c) && |rest| == |ts| + 1 && Legal(ts, rest)
    ensures |gaps| == |rest| && Legal(ts, gaps) && Layout(ts, gaps) == [c] + Layout(ts, rest)
  {
    gaps := [[c] + rest[0]] + rest[1..];
    assert gaps[1..] == rest[1..];
    if ts != [] {
      assert Layout(ts, gaps) == [c] + rest[0] + TokText(ts[0]) + Layout(ts[1..], rest[1..]);
    }
  }

  lemma PutToken(t: Tok, ts: seq<Tok>, rest: seq<string>) returns (gaps: seq<string>)
    requires |rest| == |ts| + 1 && Legal(ts, rest) && ValidTok(t) && Ends(t, Layout(ts, rest))
    ensures |gaps| == |rest| + 1 && Legal([t] + ts, gaps) && Layout([t] + ts, gaps) == TokText(t) + Layout(ts, rest)
  {
    gaps := [""] + rest;
    assert gaps[1..] == rest && ([t] + ts)[1..] == ts;
    assert "" + TokText(t) == TokText(t);
  }

  /** Every text that tokenizes is a legal layout of its tokens. */
  lemma {:induction false} LexIsLayout(s: string) returns (gaps: seq<string>)
    requires Lex(s).Some?
    ensures |gaps| == |Lex(s).value| + 1 && Legal(Lex(s).value, gaps) && Layout(Lex(s).value, gaps) == s
  {
    if s == "" {
      gaps := [""];
    } else if IsBlankChar(s[0]) {
      var rest := LexIsLayout(s[1..]);
      gaps := WidenGap(s[0], Lex(s).value, rest);
    } else {
      var (t, n) := LexOne(s).value;
      var rest := LexIsLayout(s[n..]);
      LexOneShape(s);
      assert s == TokText(t) + s[n..];
      gaps := PutToken(t, Lex(s[n..]).value, rest);
    }
  }

  predicate IsLayout(s: string, ts: seq<Tok>, gaps: seq<string>) {
    |gaps| == |ts| + 1 && Legal(ts, gaps) && Layout(ts, gaps) == s
  }

  /** The tokenizer, characterized. */
  lemma LexExactly(s: string, ts: seq<Tok>)
    ensures Lex(s) == Some(ts) <==> exists gaps :: IsLayout(s, ts, gaps)
  {
    if Lex(s) == Some(ts) {
      var gaps := LexIsLayout(s);
      assert IsLayout(s, ts, gaps);
    }
    if exists gaps :: IsLayout(s, ts, gaps) {
      var gaps :| IsLayout(s, ts, gaps);
      LayoutLexes(ts, gaps);
    }
  }

  /** Tokens that may touch. */
  predicate Touch(t: Tok, u: Tok) {
    match t
    case Num(_) => !u.Num?
    case Id(_) => !u.Num? && !u.Id?
    case Op(o) => o in {Lt, Gt} ==> u != Op(Eq)
    case _ => true
  }

  lemma TouchEnds(t: Tok, u: Tok, rest: string)
    requires ValidTok(t) && ValidTok(u) && Touch(t, u)
    ensures Ends(t, TokText(u) + rest)
  {
    TokStart(u);
    assert (TokText(u) + rest)[0] == TokText(u)[0];
  }

  function Compact(ts: seq<Tok>): string {
    if ts == [] then "" else TokText(ts[0]) + Compact(ts[1..])
  }

  /** Without any blank, a list whose neighbours may touch tokenizes back. */
  lemma {:induction false} CompactLexes(ts: seq<Tok>)
    requires forall k :: 0 <= k < |ts| ==> ValidTok(ts[k])
    requires forall k :: 0 <= k < |ts| - 1 ==> Touch(ts[k], ts[k + 1])
    ensures Lex(Compact(ts)) == Some(ts)
  {
    if ts != [] {
      var rest := Compact(ts[1..]);
      CompactLexes(ts[1..]);
      assert [ts[0]] + ts[1..] == ts;
      if |ts| > 1 { TouchEnds(ts[0], ts[1], Compact(ts[2..])); }
      LexFront(ts[0], rest);
    }
  }
}
