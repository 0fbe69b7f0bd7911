/** The tokenizer of the formula language, and the exact relation between a formula text and its tokens. */
module Lexer {
  import opened Values

  datatype Oper = Plus | Minus | Times | Over | Gt | Lt | Ge | Le | Eq | Ne

  datatype Tok = Num(v: string) | Id(v: string) | Op(o: Oper) | LPar | RPar | Comma

  predicate IsBlankChar(c: char) { c == ' ' || c == '\t' }
  predicate IsDigit(c: char) { '0' <= c <= '9' }
  predicate IsNumChar(c: char) { IsDigit(c) || c == '.' }
  predicate IsIdStart(c: char) { 'A' <= c <= 'Z' || 'a' <= c <= 'z' || c == '_' }
  predicate IsIdChar(c: char) { IsIdStart(c) || IsDigit(c) }

  function OperText(o: Oper): string {
    match o
    case Plus => "+"
    case Minus => "-"
    case Times => "*"
    case Over => "/"
    case Gt => ">"
    case Lt => "<"
    case Ge => ">="
    case Le => "<="
    case Eq => "=="
    case Ne => "!="
  }

  function TokText(t: Tok): string {
    match t
    case Num(v) => v
    case Id(v) => v
    case Op(o) => OperText(o)
    case LPar => "("
    case RPar => ")"
    case Comma => ","
  }

  /** Length of the longest prefix of `s` whose characters all satisfy `p`. */
  function Span(s: string, p: char -> bool): (n: nat)
    ensures n <= |s|
    ensures forall k :: 0 <= k < n ==> p(s[k])
    ensures n < |s| ==> !p(s[n])
  {
    if s == [] || !p(s[0]) then 0 else 1 + Span(s[1..], p)
  }

  /** Whether a dotted column reference continues at the start of `s`. */
  predicate Dotted(s: string) {
    |s| >= 2 && s[0] == '.' && IsIdStart(s[1])
  }

  /** Length of the identifier, with an optional `.column`, at the start of `s`. */
  function IdLength(s: string): (n: nat)
    ensures n <= |s|
  {
    var n := Span(s, IsIdChar);
    if Dotted(s[n..]) then n + 1 + Span(s[n + 1..], IsIdChar) else n
  }

  function Symbol(s: string): Option<(Tok, nat)>
    requires s != []
  {
    var c := s[0];
    var eq := |s| > 1 && s[1] == '=';
    if c == '+' then Some((Op(Plus), 1))
    else if c == '-' then Some((Op(Minus), 1))
    else if c == '*' then Some((Op(Times), 1))
    else if c == '/' then Some((Op(Over), 1))
    else if c == '(' then Some((LPar, 1))
    else if c == ')' then Some((RPar, 1))
    else if c == ',' then Some((Comma, 1))
    else if c == '<' then (if eq then Some((Op(Le), 2)) else Some((Op(Lt), 1)))
    else if c == '>' then (if eq then Some((Op(Ge), 2)) else Some((Op(Gt), 1)))
    else if c == '=' && eq then Some((Op(Eq), 2))
    else if c == '!' && eq then Some((Op(Ne), 2))
    else None
  }

  /** The token at the start of `s` and its length. */
  function LexOne(s: string): (r: Option<(Tok, nat)>)
    requires s != []
    ensures r.Some? ==> 0 < r.value.1 <= |s| && TokText(r.value.0) == s[..r.value.1]
  {
    if IsNumChar(s[0]) then
      var n := Span(s, IsNumChar);
      Some((Num(s[..n]), n))
    else if IsIdStart(s[0]) then
      var n := IdLength(s);
      Some((Id(s[..n]), n))
    else Symbol(s)
  }

  /** The tokens of `s`, or None where the source throws on an illegal character. */
  function Lex(s: string): (r: Option<seq<Tok>>) {
    if s == [] then Some([])
    else if IsBlankChar(s[0]) then Lex(s[1..])
    else
      match LexOne(s)
      case None => None
      case Some((t, n)) =>
        match Lex(s[n..])
        case None => None
        case Some(ts) => Some([t] + ts)
  }

  // ----- the loop of the source -----

  /** The three reading functions at a position of the text, as the loop uses them. */
  function SpanFrom(s: string, i: nat, p: char -> bool): (n: nat)
    requires i <= |s|
    ensures i + n <= |s|
  {
    Span(s[i..], p)
  }

  function LexOneFrom(s: string, i: nat): Option<(Tok, nat)>
    requires i < |s|
  {
    LexOne(s[i..])
  }

  function LexFrom(s: string, i: nat): Option<seq<Tok>>
    requires i <= |s|
  {
    Lex(s[i..])
  }

  lemma SpanStep(s: string, i: nat, p: char -> bool)
    requires i <= |s|
    ensures SpanFrom(s, i, p) == if i < |s| && p(s[i]) then 1 + SpanFrom(s, i + 1, p) else 0
  {
    if i < |s| { assert s[i..][1..] == s[i + 1..]; }
  }

  /** One run of characters collected by an inner `while` loop. */
  method Collect(s: string, start: nat, p: char -> bool) returns (i: nat, text: string)
    requires start <= |s|
    ensures start <= i <= |s| && i == start + SpanFrom(s, start, p) && text == s[start..i]
  {
    hide SpanFrom;
    i, text := start, "";
    SpanStep(s, i, p);
    while i < |s| && p(s[i])
      invariant start <= i <= |s|
      invariant text == s[start..i]
      invariant start + SpanFrom(s, start, p) == i + SpanFrom(s, i, p)
    {
      SpanStep(s, i, p);
      text := text + [s[i]];
      i := i + 1;
    }
    SpanStep(s, i, p);
  }

  lemma IdLengthFrom(s: string, start: nat, i: nat)
    requires start < |s| && i == start + SpanFrom(s, start, IsIdChar)
    ensures start + IdLength(s[start..]) == if i + 1 < |s| && s[i] == '.' && IsIdStart(s[i + 1])
                                            then i + 1 + SpanFrom(s, i + 1, IsIdChar) else i
  {
    hide Span, IsIdStart, IsIdChar;
    assert s[start..][i - start..] == s[i..];
    if i < |s| { assert s[start..][i - start + 1..] == s[i + 1..]; }
  }

  lemma IdFrom(s: string, start: nat, i: nat)
    requires start < |s| && !IsNumChar(s[start]) && IsIdStart(s[start]) && i == start + SpanFrom(s, start, IsIdChar)
    ensures var end := if i + 1 < |s| && s[i] == '.' && IsIdStart(s[i + 1])
                       then i + 1 + SpanFrom(s, i + 1, IsIdChar) else i;
            LexOneFrom(s, start) == Some((Id(s[start..end]), end - start))
  {
    hide IdLength, Span, SpanFrom, IsIdStart, IsNumChar;
    IdLengthFrom(s, start, i);
    var n := IdLength(s[start..]);
    assert s[start..][..n] == s[start..start + n];
  }

  lemma NumFrom(s: string, start: nat)
    requires start < |s| && IsNumChar(s[start])
    ensures var n := SpanFrom(s, start, IsNumChar); LexOneFrom(s, start) == Some((Num(s[start..start + n]), n))
  {
    var n := SpanFrom(s, start, IsNumChar);
    assert s[start..][..n] == s[start..start + n];
  }

  /** The identifier branch: `items.amount` is one token, but a dot before a digit ends the identifier. */
  method ReadIdentifier(s: string, start: nat) returns (i: nat, id: string)
    requires start < |s| && !IsNumChar(s[start]) && IsIdStart(s[start])
    ensures start <= i <= |s| && LexOneFrom(s, start) == Some((Id(id), i - start))
  {
    hide SpanFrom, LexOneFrom;
    i, id := Collect(s, start, IsIdChar);
    IdFrom(s, start, i);
    if i + 1 < |s| && s[i] == '.' && IsIdStart(s[i + 1]) {
      var column, end;
      end, column := Collect(s, i + 1, IsIdChar);
      assert s[start..i] + "." + s[i + 1..end] == s[start..end];
      i, id := end, id + "." + column;
    }
  }

  /** One pass through the branches of the tokenizer's loop, at a character that is not blank. */
  method NextToken(s: string, start: nat) returns (r: Option<Tok>, i: nat)
    requires start < |s|
    ensures start <= i <= |s|
    ensures LexOneFrom(s, start) == match r case None => None case Some(t) => Some((t, i - start))
  {
    var c := s[start];
    i := start;
    if IsNumChar(c) {
      var n;
      i, n := Collect(s, start, IsNumChar);
      NumFrom(s, start);
      r := Some(Num(n));
    } else if IsIdStart(c) {
      var id;
      i, id := ReadIdentifier(s, start);
      r := Some(Id(id));
    } else {
      var symbol := Symbol(s[start..]);
      if symbol.Some? {
        r, i := Some(symbol.value.0), start + symbol.value.1;
      } else {
        r := None;
      }
    }
  }

  function After(before: seq<Tok>, rest: Option<seq<Tok>>): Option<seq<Tok>> {
    match rest
    case None => None
    case Some(ts) => Some(before + ts)
  }

  lemma LexStep(s: string, i: nat, before: seq<Tok>)
    requires i < |s| && !IsBlankChar(s[i])
    ensures match LexOneFrom(s, i)
            case None => LexFrom(s, i) == None
            case Some((t, n)) =>
              i < i + n <= |s| && After(before, LexFrom(s, i)) == After(before + [t], LexFrom(s, i + n))
  {
    if LexOne(s[i..]).Some? {
      var (t, n) := LexOne(s[i..]).value;
      assert s[i..][n..] == s[i + n..];
      if Lex(s[i + n..]).Some? {
        var ts := Lex(s[i + n..]).value;
        assert before + ([t] + ts) == (before + [t]) + ts;
      }
    }
  }

  lemma LexBlank(s: string, i: nat)
    requires i < |s| && IsBlankChar(s[i])
    ensures LexFrom(s, i) == LexFrom(s, i + 1)
  {
    assert s[i..][1..] == s[i + 1..];
  }

  lemma LexEnds(s: string, toks: seq<Tok>)
    ensures LexFrom(s, 0) == Lex(s) == After([], Lex(s))
    ensures After(toks, LexFrom(s, |s|)) == Some(toks)
  {
    assert s[0..] == s && toks + [] == toks;
    if Lex(s).Some? { assert [] + Lex(s).value == Lex(s).value; }
  }

  method Tokenize(s: string) returns (r: Option<seq<Tok>>)
    ensures r == Lex(s)
  {
    hide Lex, LexFrom, LexOneFrom, After;
    var toks: seq<Tok> := [];
    var i := 0;
    LexEnds(s, []);
    while i < |s|
      invariant 0 <= i <= |s|
      invariant Lex(s) == After(toks, LexFrom(s, i))
    {
      if IsBlankChar(s[i]) {
        LexBlank(s, i);
        i := i + 1;
      } else {
        ghost var from := i;
        var t;
        t, i := NextToken(s, i);
        LexStep(s, from, toks);
        if t.None? {
          AfterNone(toks);
          return None;
        }
        toks := toks + [t.value];
      }
    }
    LexEnds(s, toks);
    r := Some(toks);
  }

  lemma AfterNone(toks: seq<Tok>)
    ensures After(toks, None) == None
  {
  }
}
