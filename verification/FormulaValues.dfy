/** What formula texts compute, told by the numbers in the text and in the record. */
module FormulaValues {
  import opened AutoNumbers
  import opened Evaluator
  import opened FormulaText
  import opened Formulas
  import opened Grammar
  import opened Lexer
  import opened Numbers
  import opened Strings
  import opened Values

  // ----- what is shown -----

  predicate Whole(r: real) {
    r == r.Floor as real
  }

  /** The number shown is `r` to six decimals, halves up. */
  predicate ShownAs(v: Val, r: real) {
    && v.Number? && v.n.Fin? && Whole(v.n.r * 1000000.0)
    && v.n.r - 0.0000005 <= r < v.n.r + 0.0000005
  }

  lemma ShownIs(r: real)
    ensures ShownAs(Shown(Some(Fin(r))), r)
  {
  }

  lemma ShownWhole(n: int)
    ensures Shown(Some(Fin(n as real))) == Number(Fin(n as real))
  {
    assert (n as real * 1000000.0 + 0.5).Floor == n * 1000000;
  }

  // ----- the operands -----

  predicate DigitsAndDots(s: string) {
    forall k :: 0 <= k < |s| ==> '0' <= s[k] <= '9' || s[k] == '.'
  }

  function Pow10(n: nat): nat {
    if n == 0 then 1 else 10 * Pow10(n - 1)
  }

  /** The literal `x` has these digits before and after its point; what follows a second point is not read. */
  predicate IsDecimal(x: string, whole: string, fraction: string, rest: string) {
    && AllDigits(whole) && AllDigits(fraction) && whole + fraction != ""
    && (|| (x == whole && fraction == "")
        || (x == whole + "." + fraction + rest && DigitsAndDots(rest) && (rest == "" || rest[0] == '.')))
  }

  ghost predicate LiteralFor(x: string, a: real) {
    exists whole, fraction, rest ::
      IsDecimal(x, whole, fraction, rest) && a * Pow10(|fraction|) as real == ValueOf(whole + fraction) as real
  }

  /** What a stored value counts as; what is missing or is not a number counts as 0. */
  predicate CountsAs(h: Host, v: Option<Val>, n: Num) {
    match v
    case None => n == Fin(0.0)
    case Some(Null) => n == Fin(0.0)
    case Some(Flag(b)) => n == Fin(if b then 1.0 else 0.0)
    case Some(Number(m)) => n == if m == NaN then Fin(0.0) else m
    case Some(w) => n == if h.number(w) == NaN then Fin(0.0) else h.number(w)
  }

  /** A literal that starts with a point that no digit follows is not a number. */
  predicate NoNumber(x: string) {
    DigitsAndDots(x) && x != "" && x[0] == '.' && (|x| == 1 || x[1] == '.')
  }

  /** The text `x` is the code of a field that counts as `n`, or a literal for it. */
  ghost predicate StandsFor(h: Host, vals: Record, x: string, n: Num) {
    if ValidTok(Id(x)) then CountsAs(h, Lookup(vals, x), n)
    else if n.Fin? then LiteralFor(x, n.r)
    else n.NaN? && NoNumber(x)
  }

  lemma {:induction false} DigitsValueIs(s: string)
    requires AllDigits(s)
    ensures DigitsValue(s) == ValueOf(s) as real
  {
    if s != "" { DigitsValueIs(s[..|s| - 1]); }
  }

  lemma {:induction false} ValueOfConcat(a: string, b: string)
    ensures ValueOf(a + b) == ValueOf(a) * Pow10(|b|) + ValueOf(b)
  {
    if b == "" {
      assert a + b == a;
    } else {
      var n := |b| - 1;
      assert (a + b)[..|a + b| - 1] == a + b[..n];
      ValueOfConcat(a, b[..n]);
    }
  }

  lemma {:induction false} ShiftBack(r: real, n: nat)
    ensures Shift(r, n) * Pow10(n) as real == r
    decreases n
  {
    if n > 0 {
      ShiftBack(r / 10.0, n - 1);
      assert Shift(r, n) * Pow10(n) as real == 10.0 * (Shift(r / 10.0, n - 1) * Pow10(n - 1) as real);
    }
  }

  lemma {:induction false} Pow10Positive(n: nat)
    ensures Pow10(n) > 0
  {
    if n > 0 { Pow10Positive(n - 1); }
  }

  lemma DecimalParts(a: real, whole: int, digits: int, p: int, fraction: real)
    requires p > 0 && a * p as real == (whole * p + digits) as real && fraction * p as real == digits as real
    ensures a == whole as real + fraction
  {
    assert (whole * p) as real == whole as real * p as real;
    assert (a - whole as real - fraction) * p as real == 0.0;
  }

  lemma DigitSpan(s: string, rest: string)
    requires AllDigits(s) && (rest == "" || rest[0] == '.')
    ensures Span(s + rest, IsDigit) == |s|
  {
    SpanOf(s, rest, IsDigit);
    NoSpan(rest, IsDigit);
  }

  lemma LiteralParts(x: string, whole: string, fraction: string, rest: string)
    requires IsDecimal(x, whole, fraction, rest)
    ensures LiteralValue(x) == Fin(DigitsValue(whole) + Shift(DigitsValue(fraction), |fraction|))
  {
    hide Span, DigitsValue, Shift;
    if x == whole && fraction == "" {
      DigitSpan(whole, "");
      assert whole + "" == whole && x[..|whole|] == whole;
    } else {
      var tail := fraction + rest;
      assert x == whole + ("." + tail);
      DigitSpan(whole, "." + tail);
      DigitSpan(fraction, rest);
      assert x[|whole| + 1..] == tail && x[..|whole|] == whole && tail[..|fraction|] == fraction;
    }
    assert AllDigits("");
  }

  /** A literal text denotes its decimal value. */
  lemma LiteralIs(x: string, a: real)
    requires LiteralFor(x, a)
    ensures LiteralValue(x) == Fin(a) && ValidTok(Tok.Num(x))
  {
    hide LiteralValue, DigitsValue, Shift, ValueOf, Pow10;
    var whole, fraction, rest :|
      IsDecimal(x, whole, fraction, rest) && a * Pow10(|fraction|) as real == ValueOf(whole + fraction) as real;
    LiteralParts(x, whole, fraction, rest);
    DigitsValueIs(whole);
    DigitsValueIs(fraction);
    ValueOfConcat(whole, fraction);
    ShiftBack(DigitsValue(fraction), |fraction|);
    Pow10Positive(|fraction|);
    DecimalParts(a, ValueOf(whole), ValueOf(fraction), Pow10(|fraction|), Shift(DigitsValue(fraction), |fraction|));
    assert forall k :: 0 <= k < |x| ==> IsNumChar(x[k]);
  }

  lemma NoNumberIs(x: string)
    requires NoNumber(x)
    ensures LiteralValue(x) == NaN && ValidTok(Tok.Num(x))
  {
    assert Span(x, IsDigit) == 0;
    assert Span(x[1..], IsDigit) == 0;
    assert x[1..][..0] == "";
  }

  function AtomTok(x: string): Tok {
    if ValidTok(Id(x)) then Id(x) else Tok.Num(x)
  }

  function Atom(x: string): Expr {
    if ValidTok(Id(x)) then Ref(x) else Lit(x)
  }

  lemma AtomIs(h: Host, vals: Record, x: string, n: Num)
    requires StandsFor(h, vals, x, n)
    ensures Named(Atom(x)) && Bracketed(Atom(x)) && Level(Atom(x)) == 3
    ensures Write(Atom(x)) == [AtomTok(x)] && TokText(AtomTok(x)) == x && ValidTok(AtomTok(x))
    ensures Eval(h, Atom(x), vals) == Some(n)
  {
    hide LiteralValue, LiteralFor, ValidTok;
    if !ValidTok(Id(x)) {
      if n.Fin? { LiteralIs(x, n.r); } else { NoNumberIs(x); }
    }
  }

  // ----- trees as texts -----

  /** A tree written without blanks. */
  function Wrote(e: Expr): string {
    Compact(Write(e))
  }

  lemma {:induction false} CompactAppend(a: seq<Tok>, b: seq<Tok>)
    ensures Compact(a + b) == Compact(a) + Compact(b)
  {
    if a == [] {
      assert a + b == b;
    } else {
      assert (a + b)[1..] == a[1..] + b;
      CompactAppend(a[1..], b);
    }
  }

  lemma CompactOne(t: Tok)
    ensures Compact([t]) == TokText(t)
  {
    assert [t][1..] == [];
  }

  lemma WroteSign(o: Oper, x: Expr)
    requires IsSum(o)
    ensures Wrote(if o == Minus then Neg(x) else Pos(x)) == OperText(o) + Wrote(x)
  {
    hide Compact;
    CompactAppend([Op(o)], Write(x));
    CompactOne(Op(o));
  }

  lemma WroteParen(x: Expr)
    ensures Wrote(Paren(x)) == "(" + Wrote(x) + ")"
  {
    hide Compact;
    CompactAppend([LPar] + Write(x), [RPar]);
    CompactAppend([LPar], Write(x));
    CompactOne(LPar);
    CompactOne(RPar);
  }

  lemma WroteBin(o: Oper, l: Expr, r: Expr)
    ensures Wrote(Bin(o, l, r)) == Wrote(l) + OperText(o) + Wrote(r)
  {
    hide Compact;
    CompactAppend(Write(l) + [Op(o)], Write(r));
    CompactAppend(Write(l), [Op(o)]);
    CompactOne(Op(o));
  }

  lemma WroteAtom(h: Host, vals: Record, x: string, n: Num)
    requires StandsFor(h, vals, x, n)
    ensures Wrote(Atom(x)) == x
  {
    hide StandsFor, Compact, Write;
    AtomIs(h, vals, x, n);
    CompactOne(AtomTok(x));
  }

  lemma TreeResult(h: Host, vals: Record, e: Expr)
    requires Named(e) && Bracketed(e)
    ensures FormulaResult(h, Wrote(e), vals) == Shown(Eval(h, e, vals))
  {
    TextEvaluates(h, e, vals);
    BracketMinimal(e);
  }

  // ----- signs and operators -----

  lemma OneOperand(h: Host, vals: Record, x: string, n: Num)
    requires StandsFor(h, vals, x, n)
    ensures FormulaResult(h, x, vals) == FormulaResult(h, "+" + x, vals) == Shown(Some(n))
    ensures FormulaResult(h, "-" + x, vals) == Shown(Some(Negate(n)))
  {
    hide StandsFor, ValidTok, Atom, FormulaResult, Shown, Wrote, Write, Negate;
    AtomIs(h, vals, x, n);
    WroteAtom(h, vals, x, n);
    WroteSign(Plus, Atom(x));
    WroteSign(Minus, Atom(x));
    TreeResult(h, vals, Atom(x));
    TreeResult(h, vals, Pos(Atom(x)));
    TreeResult(h, vals, Neg(Atom(x)));
  }

  /** An operand with its sign: a field or literal alone shows its number, and a minus its negative. */
  lemma SignsShown(h: Host, vals: Record, x: string, a: real)
    requires StandsFor(h, vals, x, Fin(a))
    ensures ShownAs(FormulaResult(h, x, vals), a) && ShownAs(FormulaResult(h, "+" + x, vals), a)
    ensures ShownAs(FormulaResult(h, "-" + x, vals), -a)
  {
    hide StandsFor, FormulaResult, Shown, ShownAs;
    OneOperand(h, vals, x, Fin(a));
    ShownIs(a);
    ShownIs(-a);
  }

  lemma TwoOperands(h: Host, vals: Record, x: string, o: Oper, y: string, m: Num, n: Num)
    requires StandsFor(h, vals, x, m) && StandsFor(h, vals, y, n)
    ensures FormulaResult(h, x + " " + OperText(o) + " " + y, vals) == Shown(Some(Combine(o, m, n)))
  {
    hide StandsFor, ValidTok, Atom, AtomTok, Shown, Combine, Lex, Parse, OperText;
    AtomIs(h, vals, x, m);
    AtomIs(h, vals, y, n);
    var e := Bin(o, Atom(x), Atom(y));
    SpacedLexes(AtomTok(x), o, AtomTok(y));
    assert Write(e) == [AtomTok(x), Op(o), AtomTok(y)];
    ParseExactly(Write(e), e);
  }

  lemma SpacedLexes(t: Tok, o: Oper, u: Tok)
    requires ValidTok(t) && ValidTok(u)
    ensures Lex(TokText(t) + " " + OperText(o) + " " + TokText(u)) == Some([t, Op(o), u])
  {
    assert ValidTok(Op(o)) && TokText(Op(o)) == OperText(o);
    hide ValidTok, Lex, OperText, TokText;
    LexLast(u);
    LexThen(Op(o), TokText(u), [u]);
    LexThen(t, OperText(o) + (" " + TokText(u)), [Op(o)] + [u]);
    assert [t] + ([Op(o)] + [u]) == [t, Op(o), u];
    Regrouped(TokText(t), OperText(o), TokText(u));
  }

  lemma Regrouped(a: string, b: string, c: string)
    ensures a + " " + b + " " + c == a + (" " + (b + (" " + c)))
  {
  }

  lemma LexLast(t: Tok)
    requires ValidTok(t)
    ensures Lex(TokText(t)) == Some([t])
  {
    hide ValidTok, TokText;
    SpaceEnds(t, "");
    LexFront(t, "");
    assert TokText(t) + "" == TokText(t) && [t] + [] == [t];
  }

  lemma LexThen(t: Tok, rest: string, ts: seq<Tok>)
    requires ValidTok(t) && Lex(rest) == Some(ts)
    ensures Lex(TokText(t) + (" " + rest)) == Some([t] + ts)
  {
    hide ValidTok, TokText, Lex, Ends;
    LexSkipsGap(" ", rest);
    SpaceEnds(t, " " + rest);
    LexFront(t, " " + rest);
  }

  lemma SpaceEnds(t: Tok, rest: string)
    requires rest == "" || rest[0] == ' '
    ensures Ends(t, rest)
  {
  }

  /** The quotient of `a` and `b` is the number that times `b` is `a`; by zero it is zero. */
  predicate IsQuotient(q: real, a: real, b: real) {
    if b == 0.0 then q == 0.0 else q * b == a
  }

  lemma SumShown(h: Host, vals: Record, x: string, y: string, a: real, b: real)
    requires StandsFor(h, vals, x, Fin(a)) && StandsFor(h, vals, y, Fin(b))
    ensures ShownAs(FormulaResult(h, x + " + " + y, vals), a + b)
    ensures ShownAs(FormulaResult(h, x + " - " + y, vals), a - b)
  {
    hide StandsFor, FormulaResult, Shown, ShownAs;
    TwoOperands(h, vals, x, Plus, y, Fin(a), Fin(b));
    TwoOperands(h, vals, x, Minus, y, Fin(a), Fin(b));
    OperatorTexts(x, y);
    ShownIs(a + b);
    ShownIs(a - b);
  }

  lemma ProductShown(h: Host, vals: Record, x: string, y: string, a: real, b: real)
    requires StandsFor(h, vals, x, Fin(a)) && StandsFor(h, vals, y, Fin(b))
    ensures ShownAs(FormulaResult(h, x + " * " + y, vals), a * b)
    ensures forall q :: IsQuotient(q, a, b) ==> ShownAs(FormulaResult(h, x + " / " + y, vals), q)
  {
    hide StandsFor, FormulaResult, Shown, ShownAs, Multiply, Divide, IsQuotient;
    TwoOperands(h, vals, x, Times, y, Fin(a), Fin(b));
    TwoOperands(h, vals, x, Over, y, Fin(a), Fin(b));
    OperatorTexts(x, y);
    TimesIs(a, b);
    ShownIs(a * b);
    forall q | IsQuotient(q, a, b) ensures ShownAs(FormulaResult(h, x + " / " + y, vals), q) {
      QuotientIs(q, a, b);
      ShownIs(q);
    }
  }

  /** Sums, differences, products and quotients of any two operands. */
  lemma FourOperations(h: Host, vals: Record, x: string, y: string, a: real, b: real)
    requires StandsFor(h, vals, x, Fin(a)) && StandsFor(h, vals, y, Fin(b))
    ensures ShownAs(FormulaResult(h, x + " + " + y, vals), a + b)
    ensures ShownAs(FormulaResult(h, x + " - " + y, vals), a - b)
    ensures ShownAs(FormulaResult(h, x + " * " + y, vals), a * b)
    ensures forall q :: IsQuotient(q, a, b) ==> ShownAs(FormulaResult(h, x + " / " + y, vals), q)
  {
    hide StandsFor, FormulaResult, ShownAs, IsQuotient;
    SumShown(h, vals, x, y, a, b);
    ProductShown(h, vals, x, y, a, b);
  }

  lemma OperatorTexts(x: string, y: string)
    ensures x + " + " + y == x + " " + OperText(Plus) + " " + y
    ensures x + " - " + y == x + " " + OperText(Minus) + " " + y
    ensures x + " * " + y == x + " " + OperText(Times) + " " + y
    ensures x + " / " + y == x + " " + OperText(Over) + " " + y
  {
    assert " " + "+" + " " == " + " && " " + "-" + " " == " - " && " " + "*" + " " == " * " && " " + "/" + " " == " / ";
  }

  function Truth(b: bool): Val {
    Number(Fin(if b then 1.0 else 0.0))
  }

  lemma TruthShown(b: bool)
    ensures Shown(Some(if b then ONE else ZERO)) == Truth(b)
  {
    ShownWhole(0);
    ShownWhole(1);
  }

  /** Among numbers and infinities, the usual order; what is not a number is below nothing and above nothing. */
  predicate Below(m: Num, n: Num) {
    !m.NaN? && !n.NaN? && m != n && (m.NegInf? || n.PosInf? || (m.Fin? && n.Fin? && m.r < n.r))
  }

  predicate Alike(m: Num, n: Num) {
    !m.NaN? && m == n
  }

  /** A comparison is 1 exactly when the relation holds, and 0 otherwise. */
  lemma SixComparisons(h: Host, vals: Record, x: string, y: string, m: Num, n: Num)
    requires StandsFor(h, vals, x, m) && StandsFor(h, vals, y, n)
    ensures FormulaResult(h, x + " > " + y, vals) == Truth(Below(n, m))
    ensures FormulaResult(h, x + " < " + y, vals) == Truth(Below(m, n))
    ensures FormulaResult(h, x + " >= " + y, vals) == Truth(Below(n, m) || Alike(m, n))
    ensures FormulaResult(h, x + " <= " + y, vals) == Truth(Below(m, n) || Alike(m, n))
    ensures FormulaResult(h, x + " == " + y, vals) == Truth(Alike(m, n))
    ensures FormulaResult(h, x + " != " + y, vals) == Truth(!Alike(m, n))
  {
    hide StandsFor, FormulaResult, Shown, Truth;
    forall o ensures FormulaResult(h, x + " " + OperText(o) + " " + y, vals) == Shown(Some(Combine(o, m, n))) {
      TwoOperands(h, vals, x, o, y, m, n);
    }
    TruthShown(true);
    TruthShown(false);
    ComparisonTexts(x, y);
  }

  lemma ComparisonTexts(x: string, y: string)
    ensures x + " > " + y == x + " " + OperText(Gt) + " " + y
    ensures x + " < " + y == x + " " + OperText(Lt) + " " + y
    ensures x + " >= " + y == x + " " + OperText(Ge) + " " + y
    ensures x + " <= " + y == x + " " + OperText(Le) + " " + y
    ensures x + " == " + y == x + " " + OperText(Eq) + " " + y
    ensures x + " != " + y == x + " " + OperText(Ne) + " " + y
  {
    assert " " + ">" + " " == " > " && " " + "<" + " " == " < " && " " + ">=" + " " == " >= ";
    assert " " + "<=" + " " == " <= " && " " + "==" + " " == " == " && " " + "!=" + " " == " != ";
  }

  /** Whole numbers in digits: their sum, difference and product are exact. */
  lemma WholeNumbers(h: Host, vals: Record, a: nat, b: nat)
    ensures FormulaResult(h, Digits(a), vals) == Number(Fin(a as real))
    ensures FormulaResult(h, Digits(a) + " + " + Digits(b), vals) == Number(Fin((a + b) as real))
    ensures FormulaResult(h, Digits(a) + " - " + Digits(b), vals) == Number(Fin((a - b) as real))
    ensures FormulaResult(h, Digits(a) + " * " + Digits(b), vals) == Number(Fin((a * b) as real))
  {
    hide StandsFor, FormulaResult, Shown, Digits;
    DigitsStand(h, vals, a);
    DigitsStand(h, vals, b);
    OneOperand(h, vals, Digits(a), Fin(a as real));
    ShownWhole(a);
    ExactSum(h, vals, a, b);
    ExactProduct(h, vals, a, b);
  }

  lemma ExactSum(h: Host, vals: Record, a: nat, b: nat)
    ensures FormulaResult(h, Digits(a) + " + " + Digits(b), vals) == Number(Fin((a + b) as real))
    ensures FormulaResult(h, Digits(a) + " - " + Digits(b), vals) == Number(Fin((a - b) as real))
  {
    hide StandsFor, FormulaResult, Shown, Digits;
    DigitsStand(h, vals, a);
    DigitsStand(h, vals, b);
    TwoOperands(h, vals, Digits(a), Plus, Digits(b), Fin(a as real), Fin(b as real));
    TwoOperands(h, vals, Digits(a), Minus, Digits(b), Fin(a as real), Fin(b as real));
    OperatorTexts(Digits(a), Digits(b));
    ShownWhole(a + b);
    ShownWhole(a - b);
  }

  lemma ExactProduct(h: Host, vals: Record, a: nat, b: nat)
    ensures FormulaResult(h, Digits(a) + " * " + Digits(b), vals) == Number(Fin((a * b) as real))
  {
    hide StandsFor, FormulaResult, ShownAs, Digits, IsQuotient;
    DigitsStand(h, vals, a);
    DigitsStand(h, vals, b);
    WholeQuotient(a, b);
    FourOperations(h, vals, Digits(a), Digits(b), a as real, b as real);
    OnlyWhole(FormulaResult(h, Digits(a) + " * " + Digits(b), vals), a * b);
  }

  /** And so is a quotient that leaves no remainder. */
  lemma WholeQuotients(h: Host, vals: Record, a: nat, b: nat, c: nat)
    requires b > 0 && c == a * b
    ensures FormulaResult(h, Digits(c) + " / " + Digits(b), vals) == Number(Fin(a as real))
  {
    hide StandsFor, FormulaResult, ShownAs, Digits, IsQuotient;
    DigitsStand(h, vals, c);
    DigitsStand(h, vals, b);
    WholeQuotient(a, b);
    FourOperations(h, vals, Digits(c), Digits(b), c as real, b as real);
    OnlyWhole(FormulaResult(h, Digits(c) + " / " + Digits(b), vals), a);
  }

  lemma WholeQuotient(a: nat, b: nat)
    ensures a as real * b as real == (a * b) as real
    ensures b > 0 ==> IsQuotient(a as real, (a * b) as real, b as real)
  {
  }

  lemma OnlyWhole(v: Val, n: int)
    requires ShownAs(v, n as real)
    ensures v == Number(Fin(n as real))
  {
    var q := v.n.r * 1000000.0;
    var m := q.Floor;
    hide Whole;
    assert q == m as real by { WholeIs(q); }
    Nearest(m, n * 1000000);
    assert v.n.r == q / 1000000.0;
  }

  lemma WholeIs(q: real)
    requires Whole(q)
    ensures q == q.Floor as real
  {
  }

  lemma Nearest(m: int, k: int)
    requires m as real - 0.5 <= k as real < m as real + 0.5
    ensures m == k
  {
  }

  lemma DigitsStand(h: Host, vals: Record, n: nat)
    ensures StandsFor(h, vals, Digits(n), Fin(n as real))
  {
    hide Digits, ValueOf;
    DigitsAreDigits(n);
    ValueOfDigits(n);
    assert !IsIdStart(Digits(n)[0]);
    assert Digits(n) + "" == Digits(n) && Pow10(0) == 1;
    assert IsDecimal(Digits(n), Digits(n), "", "");
  }

  // ----- several operators -----

  /** The tree is written `text`, without blanks, and has the value `n`. */
  ghost predicate Is(h: Host, vals: Record, e: Expr, text: string, n: Num) {
    Named(e) && Bracketed(e) && Wrote(e) == text && Eval(h, e, vals) == Some(n)
  }

  lemma IsAtom(h: Host, vals: Record, x: string, n: Num)
    requires StandsFor(h, vals, x, n)
    ensures Is(h, vals, Atom(x), x, n) && Level(Atom(x)) == 3
  {
    hide StandsFor;
    AtomIs(h, vals, x, n);
    WroteAtom(h, vals, x, n);
  }

  lemma IsBin(h: Host, vals: Record, o: Oper, l: Expr, r: Expr, s: string, t: string, m: Num, n: Num)
    requires Is(h, vals, l, s, m) && Is(h, vals, r, t, n)
    requires Level(r) > OpLevel(o) && Level(l) >= LeftLevel(o)
    ensures Is(h, vals, Bin(o, l, r), s + OperText(o) + t, Combine(o, m, n))
  {
    hide OperText, Combine, Wrote;
    WroteBin(o, l, r);
  }

  lemma IsParen(h: Host, vals: Record, e: Expr, s: string, n: Num)
    requires Is(h, vals, e, s, n)
    ensures Is(h, vals, Paren(e), "(" + s + ")", n)
  {
    hide Wrote;
    WroteParen(e);
  }

  lemma IsResult(h: Host, vals: Record, e: Expr, s: string, n: Num)
    requires Is(h, vals, e, s, n)
    ensures FormulaResult(h, s, vals) == Shown(Some(n))
  {
    hide Wrote, FormulaResult, Shown;
    TreeResult(h, vals, e);
  }

  lemma LeftFirst(h: Host, vals: Record, x: string, y: string, z: string, m: Num, n: Num, k: Num, o: Oper, c: Oper)
    requires StandsFor(h, vals, x, m) && StandsFor(h, vals, y, n) && StandsFor(h, vals, z, k)
    requires 0 < OpLevel(o) && OpLevel(c) <= OpLevel(o)
    ensures FormulaResult(h, x + OperText(o) + y + OperText(c) + z, vals) == Shown(Some(Combine(c, Combine(o, m, n), k)))
  {
    hide StandsFor, FormulaResult, Shown, OperText, Combine, Is, Atom, OpLevel;
    IsAtom(h, vals, x, m);
    IsAtom(h, vals, y, n);
    IsAtom(h, vals, z, k);
    var e := Bin(o, Atom(x), Atom(y));
    OpLevels(o, c);
    IsBin(h, vals, o, Atom(x), Atom(y), x, y, m, n);
    IsBin(h, vals, c, e, Atom(z), x + OperText(o) + y, z, Combine(o, m, n), k);
    IsResult(h, vals, Bin(c, e, Atom(z)), x + OperText(o) + y + OperText(c) + z, Combine(c, Combine(o, m, n), k));
  }

  lemma OpLevels(o: Oper, c: Oper)
    requires 0 < OpLevel(o) && OpLevel(c) <= OpLevel(o)
    ensures OpLevel(o) < 3 && OpLevel(c) < 3 && LeftLevel(o) < 3 && LeftLevel(c) <= OpLevel(o)
  {
  }

  lemma RightFirst(h: Host, vals: Record, x: string, y: string, z: string, m: Num, n: Num, k: Num)
    requires StandsFor(h, vals, x, m) && StandsFor(h, vals, y, n) && StandsFor(h, vals, z, k)
    ensures FormulaResult(h, x + "-" + (y + "*" + z), vals) == Shown(Some(Subtract(m, Multiply(n, k))))
  {
    hide StandsFor, FormulaResult, Shown, Is, Atom, Subtract, Multiply;
    IsAtom(h, vals, x, m);
    IsAtom(h, vals, y, n);
    IsAtom(h, vals, z, k);
    var e := Bin(Times, Atom(y), Atom(z));
    IsBin(h, vals, Times, Atom(y), Atom(z), y, z, n, k);
    IsBin(h, vals, Minus, Atom(x), e, x, y + "*" + z, m, Multiply(n, k));
    IsResult(h, vals, Bin(Minus, Atom(x), e), x + "-" + (y + "*" + z), Subtract(m, Multiply(n, k)));
  }

  lemma BracketsFirst(h: Host, vals: Record, x: string, y: string, z: string, m: Num, n: Num, k: Num)
    requires StandsFor(h, vals, x, m) && StandsFor(h, vals, y, n) && StandsFor(h, vals, z, k)
    ensures FormulaResult(h, "(" + (x + "-" + y) + ")" + "*" + z, vals) == Shown(Some(Multiply(Subtract(m, n), k)))
  {
    hide StandsFor, FormulaResult, Shown, Is, Atom, Subtract, Multiply;
    IsAtom(h, vals, x, m);
    IsAtom(h, vals, y, n);
    IsAtom(h, vals, z, k);
    var e := Bin(Minus, Atom(x), Atom(y));
    IsBin(h, vals, Minus, Atom(x), Atom(y), x, y, m, n);
    IsParen(h, vals, e, x + "-" + y, Subtract(m, n));
    IsBin(h, vals, Times, Paren(e), Atom(z), "(" + (x + "-" + y) + ")", z, Subtract(m, n), k);
    IsResult(h, vals, Bin(Times, Paren(e), Atom(z)), "(" + (x + "-" + y) + ")" + "*" + z, Multiply(Subtract(m, n), k));
  }

  /** Sums and quotients go from the left, products before sums, and sums before comparisons. */
  lemma PrecedenceShown(h: Host, vals: Record, x: string, y: string, z: string, a: real, b: real, c: real)
    requires StandsFor(h, vals, x, Fin(a)) && StandsFor(h, vals, y, Fin(b)) && StandsFor(h, vals, z, Fin(c))
    ensures ShownAs(FormulaResult(h, x + "-" + y + "-" + z, vals), a - b - c)
    ensures ShownAs(FormulaResult(h, x + "-" + (y + "*" + z), vals), a - b * c)
    ensures FormulaResult(h, x + "-" + y + ">" + z, vals) == Truth(a - b > c)
    ensures forall q, r :: IsQuotient(q, a, b) && IsQuotient(r, q, c) ==>
              ShownAs(FormulaResult(h, x + "/" + y + "/" + z, vals), r)
  {
    hide StandsFor, FormulaResult, Shown, ShownAs, Truth, Divide, Multiply, IsQuotient;
    LeftFirst(h, vals, x, y, z, Fin(a), Fin(b), Fin(c), Minus, Minus);
    LeftFirst(h, vals, x, y, z, Fin(a), Fin(b), Fin(c), Minus, Gt);
    LeftFirst(h, vals, x, y, z, Fin(a), Fin(b), Fin(c), Over, Over);
    RightFirst(h, vals, x, y, z, Fin(a), Fin(b), Fin(c));
    TimesIs(b, c);
    ShownIs(a - b - c);
    ShownIs(a - b * c);
    TruthShown(a - b > c);
    forall q, r | IsQuotient(q, a, b) && IsQuotient(r, q, c)
      ensures ShownAs(FormulaResult(h, x + "/" + y + "/" + z, vals), r)
    {
      QuotientIs(q, a, b);
      QuotientIs(r, q, c);
      ShownIs(r);
    }
  }

  /** Brackets come before all. */
  lemma BracketsShown(h: Host, vals: Record, x: string, y: string, z: string, a: real, b: real, c: real, d: real)
    requires StandsFor(h, vals, x, Fin(a)) && StandsFor(h, vals, y, Fin(b)) && StandsFor(h, vals, z, Fin(c))
    requires d == a - b
    ensures ShownAs(FormulaResult(h, "(" + (x + "-" + y) + ")" + "*" + z, vals), d * c)
  {
    hide StandsFor, FormulaResult, ShownAs, Shown, Multiply;
    BracketsFirst(h, vals, x, y, z, Fin(a), Fin(b), Fin(c));
    TimesIs(d, c);
    ShownIs(d * c);
  }

  lemma TimesIs(a: real, b: real)
    ensures Multiply(Fin(a), Fin(b)) == Fin(a * b)
  {
  }

  lemma QuotientIs(q: real, a: real, b: real)
    requires IsQuotient(q, a, b)
    ensures Divide(Fin(a), Fin(b)) == Fin(q)
  {
    if b != 0.0 { assert q == q * b / b; }
  }

  // ----- calls -----

  function Listed(xs: seq<string>): string {
    if xs == [] then "" else if |xs| == 1 then xs[0] else xs[0] + "," + Listed(xs[1..])
  }

  function Atoms(xs: seq<string>): (r: seq<Expr>)
    ensures |r| == |xs| && forall k :: 0 <= k < |xs| ==> r[k] == Atom(xs[k])
  {
    seq(|xs|, k requires 0 <= k < |xs| => Atom(xs[k]))
  }

  ghost predicate AllStand(h: Host, vals: Record, xs: seq<string>, ns: seq<Num>) {
    |xs| == |ns| && forall k :: 0 <= k < |xs| ==> StandsFor(h, vals, xs[k], ns[k])
  }

  lemma {:induction false} WroteArgs(h: Host, vals: Record, xs: seq<string>, ns: seq<Num>)
    requires AllStand(h, vals, xs, ns)
    ensures Compact(WriteArgs(Atoms(xs))) == Listed(xs)
  {
    hide StandsFor, Atom, Compact, Write;
    if |xs| == 1 {
      WroteAtom(h, vals, xs[0], ns[0]);
    } else if |xs| > 1 {
      var first, rest := Atom(xs[0]), WriteArgs(Atoms(xs[1..]));
      assert Atoms(xs)[1..] == Atoms(xs[1..]);
      WroteArgs(h, vals, xs[1..], ns[1..]);
      WroteAtom(h, vals, xs[0], ns[0]);
      CompactAppend(Write(first) + [Comma], rest);
      CompactAppend(Write(first), [Comma]);
      CompactOne(Comma);
    } else {
      CompactNone();
    }
  }

  lemma CompactNone()
    ensures Compact([]) == ""
  {
  }

  lemma {:induction false} ArgsAre(h: Host, vals: Record, xs: seq<string>, ns: seq<Num>)
    requires AllStand(h, vals, xs, ns)
    ensures EvalArgs(h, Atoms(xs), vals) == Some(ns)
  {
    hide StandsFor, Atom, Eval;
    if xs != [] {
      var n := |xs| - 1;
      assert Atoms(xs)[..n] == Atoms(xs[..n]);
      ArgsAre(h, vals, xs[..n], ns[..n]);
      AtomIs(h, vals, xs[n], ns[n]);
      assert ns[..n] + [ns[n]] == ns;
    }
  }

  lemma ArgsNamed(h: Host, vals: Record, xs: seq<string>, ns: seq<Num>)
    requires AllStand(h, vals, xs, ns)
    ensures forall e :: e in Atoms(xs) ==> Named(e) && Bracketed(e)
  {
    hide StandsFor, Atom;
    forall k | 0 <= k < |xs| ensures Named(Atom(xs[k])) && Bracketed(Atom(xs[k])) { AtomIs(h, vals, xs[k], ns[k]); }
  }

  lemma CallResult(h: Host, vals: Record, name: string, xs: seq<string>, ns: seq<Num>)
    requires AllStand(h, vals, xs, ns) && ValidTok(Id(name)) && !IsAggregate(name)
    ensures FormulaResult(h, name + "(" + Listed(xs) + ")", vals) == Shown(Apply(Lower(name), ns))
  {
    hide AllStand, FormulaResult, Shown, Apply, ValidTok, IsAggregate, Atoms, Listed, Compact, EvalArgs, WriteArgs;
    var e, w := Call(name, Atoms(xs)), WriteArgs(Atoms(xs));
    ArgsNamed(h, vals, xs, ns);
    ArgsAre(h, vals, xs, ns);
    WroteArgs(h, vals, xs, ns);
    assert Write(e) == [Id(name)] + [LPar] + w + [RPar];
    CompactAppend([Id(name)] + [LPar] + w, [RPar]);
    CompactAppend([Id(name)] + [LPar], w);
    CompactAppend([Id(name)], [LPar]);
    CompactOne(Id(name));
    CompactOne(LPar);
    CompactOne(RPar);
    TreeResult(h, vals, e);
  }

  lemma {:induction false} LeastIs(ns: seq<Num>) returns (k: nat)
    requires ns != []
    ensures k < |ns| && Least(ns) == ns[k]
    ensures if NaN in ns then ns[k] == NaN else forall i :: 0 <= i < |ns| ==> !Below(ns[i], ns[k])
  {
    k := 0;
    if |ns| > 1 {
      var j := LeastIs(ns[1..]);
      if !ns[0].NaN? && !Less(ns[0], ns[j + 1]) { k := j + 1; }
    }
  }

  lemma {:induction false} GreatestIs(ns: seq<Num>) returns (k: nat)
    requires ns != []
    ensures k < |ns| && Greatest(ns) == ns[k]
    ensures if NaN in ns then ns[k] == NaN else forall i :: 0 <= i < |ns| ==> !Below(ns[k], ns[i])
  {
    k := 0;
    if |ns| > 1 {
      var j := GreatestIs(ns[1..]);
      if !ns[0].NaN? && !Less(ns[j + 1], ns[0]) { k := j + 1; }
    }
  }

  /**
   `min` and `max` show what one of their operands shows alone, and no other is below or above that one; they show
   nothing if there are none or one is not a number.
   */
  lemma ExtremesShown(h: Host, vals: Record, name: string, xs: seq<string>, ns: seq<Num>)
    requires AllStand(h, vals, xs, ns) && ValidTok(Id(name))
    ensures var v := FormulaResult(h, name + "(" + Listed(xs) + ")", vals);
      && (Lower(name) in {"min", "max"} && (ns == [] || NaN in ns) ==> v == Text(""))
      && (Lower(name) == "min" && ns != [] && NaN !in ns ==>
            exists k :: 0 <= k < |xs| && v == FormulaResult(h, xs[k], vals)
                        && forall i :: 0 <= i < |ns| ==> !Below(ns[i], ns[k]))
      && (Lower(name) == "max" && ns != [] && NaN !in ns ==>
            exists k :: 0 <= k < |xs| && v == FormulaResult(h, xs[k], vals)
                        && forall i :: 0 <= i < |ns| ==> !Below(ns[k], ns[i]))
  {
    hide StandsFor, FormulaResult, ValidTok, Listed, Below;
    if Lower(name) in {"min", "max"} {
      CallResult(h, vals, name, xs, ns);
      if ns != [] {
        var k := LeastIs(ns);
        var m := GreatestIs(ns);
        OneOperand(h, vals, xs[k], ns[k]);
        OneOperand(h, vals, xs[m], ns[m]);
      }
    }
  }

  /**
   `if` shows what its second operand shows alone, or its third if the first is zero; an operand left out counts
   as zero.
   */
  lemma ChoiceShown(h: Host, vals: Record, name: string, xs: seq<string>, ns: seq<Num>)
    requires AllStand(h, vals, xs, ns) && ValidTok(Id(name)) && Lower(name) == "if"
    ensures var k := if ns != [] && ns[0] == Fin(0.0) then 2 else 1;
      FormulaResult(h, name + "(" + Listed(xs) + ")", vals)
      == if k < |xs| then FormulaResult(h, xs[k], vals) else Number(Fin(0.0))
  {
    hide StandsFor, FormulaResult, ValidTok, Listed, Shown;
    CallResult(h, vals, name, xs, ns);
    var k := if ns != [] && ns[0] == Fin(0.0) then 2 else 1;
    if k < |xs| { OneOperand(h, vals, xs[k], ns[k]); }
    ShownWhole(0);
  }

  lemma OneArgument(h: Host, vals: Record, name: string, x: string, a: real)
    requires StandsFor(h, vals, x, Fin(a)) && ValidTok(Id(name)) && !IsAggregate(name)
    ensures FormulaResult(h, name + "(" + x + ")", vals) == Shown(Apply(Lower(name), [Fin(a)]))
  {
    hide StandsFor, FormulaResult, Shown, Apply, ValidTok, IsAggregate;
    assert Listed([x]) == x;
    CallResult(h, vals, name, [x], [Fin(a)]);
  }

  /** Rounding gives the whole number of the stated interval, and `abs` the distance from zero. */
  lemma RoundingShown(h: Host, vals: Record, name: string, x: string, a: real, n: int)
    requires StandsFor(h, vals, x, Fin(a)) && ValidTok(Id(name))
    ensures var v := FormulaResult(h, name + "(" + x + ")", vals);
      && (Lower(name) == "floor" && n as real <= a < n as real + 1.0 ==> v == Number(Fin(n as real)))
      && (Lower(name) == "ceil" && n as real - 1.0 < a <= n as real ==> v == Number(Fin(n as real)))
      && (Lower(name) == "round" && n as real - 0.5 <= a < n as real + 0.5 ==> v == Number(Fin(n as real)))
      && (Lower(name) == "abs" ==> ShownAs(v, if a < 0.0 then -a else a))
  {
    hide StandsFor, FormulaResult, Shown, ShownAs, ValidTok, FloorOf, CeilOf, RoundOf;
    if Lower(name) in {"floor", "ceil", "round", "abs"} {
      OneArgument(h, vals, name, x, a);
      RoundedIs(a, n);
      ShownWhole(n);
      ShownIs(if a < 0.0 then -a else a);
    }
  }

  lemma RoundedIs(a: real, n: int)
    ensures n as real <= a < n as real + 1.0 ==> FloorOf(Fin(a)) == Fin(n as real)
    ensures n as real - 1.0 < a <= n as real ==> CeilOf(Fin(a)) == Fin(n as real)
    ensures n as real - 0.5 <= a < n as real + 0.5 ==> RoundOf(Fin(a)) == Fin(n as real)
  {
    FloorIs(a, n);
    FloorIs(a + 0.5, n);
    FloorIs(-a, -n);
  }

  lemma FloorIs(r: real, n: int)
    ensures n as real <= r < n as real + 1.0 ==> r.Floor == n
  {
  }

  /** Any other name shows nothing. */
  lemma UnknownNames(h: Host, vals: Record, name: string, xs: seq<string>, ns: seq<Num>)
    requires AllStand(h, vals, xs, ns) && ValidTok(Id(name))
    requires Lower(name) !in {"if", "min", "max", "abs", "round", "floor", "ceil", "sum", "avg", "count"}
    ensures FormulaResult(h, name + "(" + Listed(xs) + ")", vals) == Text("")
  {
    hide AllStand, FormulaResult, ValidTok, Listed;
    CallResult(h, vals, name, xs, ns);
  }

  // ----- aggregates -----

  /** The number in a row's cell; none if the row is no object, or the cell is missing, empty or not a finite number. */
  function CellNumber(h: Host, row: Val, column: string): Option<real> {
    if !row.Obj? || column !in row.fields then None
    else
      match row.fields[column]
      case Null => None
      case Text("") => None
      case Flag(b) => Some(if b then 1.0 else 0.0)
      case Number(n) => if n.Fin? then Some(n.r) else None
      case v => if h.number(v).Fin? then Some(h.number(v).r) else None
  }

  function CellSum(h: Host, rows: seq<Val>, column: string): real {
    if rows == [] then 0.0
    else
      var cell := CellNumber(h, rows[|rows| - 1], column);
      CellSum(h, rows[..|rows| - 1], column) + if cell.Some? then cell.value else 0.0
  }

  function CellCount(h: Host, rows: seq<Val>, column: string): nat {
    if rows == [] then 0
    else CellCount(h, rows[..|rows| - 1], column) + if CellNumber(h, rows[|rows| - 1], column).Some? then 1 else 0
  }

  lemma {:induction false} ColumnSnoc(rows: seq<Val>, row: Val, column: string)
    ensures Column(rows + [row], column)
         == Column(rows, column) + [if row.Obj? then Lookup(row.fields, column) else None]
  {
    if rows == [] {
      assert rows + [row] == [row] && [row][1..] == [];
    } else {
      assert (rows + [row])[1..] == rows[1..] + [row];
      ColumnSnoc(rows[1..], row, column);
    }
  }

  lemma {:induction false} FiniteCellsSnoc(h: Host, cells: seq<Option<Val>>, cell: Option<Val>)
    ensures FiniteCells(h, cells + [cell])
         == FiniteCells(h, cells)
            + if !IsBlank(cell) && ToNum(h, cell.value).Fin? then [ToNum(h, cell.value)] else []
  {
    if cells == [] {
      assert cells + [cell] == [cell] && [cell][1..] == [];
    } else {
      assert (cells + [cell])[1..] == cells[1..] + [cell];
      FiniteCellsSnoc(h, cells[1..], cell);
    }
  }

  lemma {:induction false} CellsAre(h: Host, rows: seq<Val>, column: string)
    ensures var nums := FiniteCells(h, Column(rows, column));
      |nums| == CellCount(h, rows, column) && Total(nums) == Fin(CellSum(h, rows, column))
  {
    if rows != [] {
      var n := |rows| - 1;
      var cell := if rows[n].Obj? then Lookup(rows[n].fields, column) else None;
      CellsAre(h, rows[..n], column);
      assert rows == rows[..n] + [rows[n]];
      ColumnSnoc(rows[..n], rows[n], column);
      FiniteCellsSnoc(h, Column(rows[..n], column), cell);
      assert CellNumber(h, rows[n], column)
          == if !IsBlank(cell) && ToNum(h, cell.value).Fin? then Some(ToNum(h, cell.value).r) else None;
      var before := FiniteCells(h, Column(rows[..n], column));
      assert before + [] == before;
      TotalSnoc(before, cell, h);
    }
  }

  lemma TotalSnoc(nums: seq<Num>, cell: Option<Val>, h: Host)
    ensures !IsBlank(cell) ==> Total(nums + [ToNum(h, cell.value)]) == Add(Total(nums), ToNum(h, cell.value))
  {
    if !IsBlank(cell) { assert (nums + [ToNum(h, cell.value)])[..|nums|] == nums; }
  }

  predicate NameChar(c: char) {
    'A' <= c <= 'Z' || 'a' <= c <= 'z' || c == '_'
  }

  /** A name without a dot. */
  predicate PlainName(s: string) {
    s != "" && NameChar(s[0]) && forall k :: 0 <= k < |s| ==> NameChar(s[k]) || '0' <= s[k] <= '9'
  }

  lemma PlainNameIs(s: string)
    requires PlainName(s)
    ensures ValidTok(Id(s)) && TableOf(s) == s && ColumnOf(s) == ""
  {
    FullSpan(s, IsIdChar);
    IdLengthSplit(s, "");
    assert s + "" == s;
    FullSpan(s, NotDot);
  }

  lemma DottedNameIs(table: string, column: string)
    requires PlainName(table) && PlainName(column)
    ensures var id := table + "." + column; ValidTok(Id(id)) && TableOf(id) == table && ColumnOf(id) == column
  {
    hide IdLength, Span;
    assert table + "." + column == table + ("." + column);
    DottedShape(table, column, "");
    SpanOf(table, "." + column, NotDot);
    NoSpan("." + column, NotDot);
    var id := table + "." + column;
    assert id[..|table|] == table && id[|table| + 1..] == column;
  }

  lemma AggregateResult(h: Host, vals: Record, name: string, x: string)
    requires ValidTok(Id(name)) && IsAggregate(name) && ValidTok(Id(x))
    ensures FormulaResult(h, name + "(" + x + ")", vals) == Shown(Aggregate(h, Lower(name), x, vals))
  {
    hide FormulaResult, Shown, ValidTok, IsAggregate, Compact, Aggregate;
    var e := Agg(name, x);
    assert Write(e) == [Id(name)] + [LPar] + [Id(x)] + [RPar];
    CompactAppend([Id(name)] + [LPar] + [Id(x)], [RPar]);
    CompactAppend([Id(name)] + [LPar], [Id(x)]);
    CompactAppend([Id(name)], [LPar]);
    CompactOne(Id(name));
    CompactOne(LPar);
    CompactOne(Id(x));
    CompactOne(RPar);
    TreeResult(h, vals, e);
  }

  lemma AggregateIs(h: Host, vals: Record, x: string, rows: seq<Val>)
    requires Lookup(vals, TableOf(x)) == Some(List(rows)) && ColumnOf(x) != ""
    ensures var sum, count := CellSum(h, rows, ColumnOf(x)), CellCount(h, rows, ColumnOf(x));
      && Aggregate(h, "sum", x, vals) == Some(Fin(sum))
      && Aggregate(h, "avg", x, vals) == Some(Divide(Fin(sum), Fin(count as real)))
      && Aggregate(h, "count", x, vals) == Some(Fin(|rows| as real))
  {
    hide CellSum, CellCount, FiniteCells, Column, Total, TableOf, ColumnOf;
    CellsAre(h, rows, ColumnOf(x));
  }

  /**
   Over the rows of a subtable: `sum` adds up the numbers in the column, `avg` times their count is their sum,
   and `count` counts the rows.
   */
  lemma AggregatesShown(h: Host, vals: Record, name: string, table: string, column: string, rows: seq<Val>)
    requires ValidTok(Id(name)) && PlainName(table) && PlainName(column) && Lookup(vals, table) == Some(List(rows))
    ensures var v := FormulaResult(h, name + "(" + (table + "." + column) + ")", vals);
      var sum, count := CellSum(h, rows, column), CellCount(h, rows, column);
      && (Lower(name) == "count" ==> v == Number(Fin(|rows| as real)))
      && (Lower(name) == "sum" ==> ShownAs(v, sum))
      && (Lower(name) == "avg" ==> forall q :: IsQuotient(q, sum, count as real) ==> ShownAs(v, q))
  {
    hide FormulaResult, Shown, ShownAs, ValidTok, CellSum, CellCount, TableOf, ColumnOf, IsQuotient, Aggregate, Divide;
    if IsAggregate(name) {
      var sum, count := CellSum(h, rows, column), CellCount(h, rows, column);
      DottedNameIs(table, column);
      AggregateResult(h, vals, name, table + "." + column);
      AggregateIs(h, vals, table + "." + column, rows);
      ShownWhole(|rows|);
      ShownIs(sum);
      if Lower(name) == "avg" {
        var v := FormulaResult(h, name + "(" + (table + "." + column) + ")", vals);
        assert v == Shown(Some(Divide(Fin(sum), Fin(count as real))));
        forall q | IsQuotient(q, sum, count as real) ensures ShownAs(v, q) {
          QuotientIs(q, sum, count as real);
          ShownIs(q);
        }
      }
    }
  }

  /** Without rows an aggregate is 0; `count` needs no column, `sum` and `avg` of rows show nothing without one. */
  lemma AggregatesWithout(h: Host, vals: Record, name: string, table: string, column: string)
    requires ValidTok(Id(name)) && Lower(name) in {"sum", "avg", "count"} && PlainName(table) && PlainName(column)
    ensures var list := table in vals && vals[table].List?;
      && (!list ==> FormulaResult(h, name + "(" + (table + "." + column) + ")", vals) == Number(Fin(0.0)))
      && (!list ==> FormulaResult(h, name + "(" + table + ")", vals) == Number(Fin(0.0)))
      && (list ==> FormulaResult(h, name + "(" + table + ")", vals)
                   == if Lower(name) == "count" then Number(Fin(|vals[table].items| as real)) else Text(""))
  {
    hide FormulaResult, Shown, ValidTok, TableOf, ColumnOf;
    DottedNameIs(table, column);
    PlainNameIs(table);
    AggregateResult(h, vals, name, table + "." + column);
    AggregateResult(h, vals, name, table);
    ShownWhole(0);
    if table in vals && vals[table].List? { ShownWhole(|vals[table].items|); }
    NoneShown();
  }

  lemma NoneShown()
    ensures Shown(None) == Text("")
  {
  }

  // ----- infinities and what is not a number -----

  predicate Positive(n: Num) {
    n.PosInf? || (n.Fin? && n.r > 0.0)
  }

  predicate Negative(n: Num) {
    n.NegInf? || (n.Fin? && n.r < 0.0)
  }

  /** The sign of an operation that involves an infinity or what is not a number; `None` where it is not a number. */
  function SignOf(o: Oper, m: Num, n: Num): Option<int> {
    if m.NaN? || n.NaN? then (if o == Over && n == Fin(0.0) then Some(0) else None)
    else match o
      case Plus => if Negate(m) == n then None else if m.PosInf? || n.PosInf? then Some(1) else Some(-1)
      case Minus => if m == n then None else if m.PosInf? || n.NegInf? then Some(1) else Some(-1)
      case Times =>
        if m == Fin(0.0) || n == Fin(0.0) then None else if Positive(m) == Positive(n) then Some(1) else Some(-1)
      case Over =>
        if m.Fin? || n == Fin(0.0) then Some(0)
        else if !n.Fin? then None
        else if Positive(m) == Positive(n) then Some(1) else Some(-1)
      case _ => None
  }

  lemma OperationThen(h: Host, vals: Record, x: string, o: Oper, y: string, m: Num, n: Num, c: Oper)
    requires StandsFor(h, vals, x, m) && StandsFor(h, vals, y, n) && OpLevel(o) > 0 && OpLevel(c) == 0
    ensures FormulaResult(h, x + OperText(o) + y + OperText(c) + "0", vals)
         == Shown(Some(Combine(c, Combine(o, m, n), Fin(0.0))))
  {
    hide StandsFor, FormulaResult, Shown, Combine, OperText;
    assert Digits(0) == "0";
    DigitsStand(h, vals, 0);
    LeftFirst(h, vals, x, y, "0", m, n, Fin(0.0), o, c);
  }

  /**
   Operations of which an operand is not a finite number: they show nothing unless a division makes them zero, and
   comparing them with zero gives the sign of the infinity.
   */
  lemma InfiniteOperands(h: Host, vals: Record, x: string, o: Oper, y: string, m: Num, n: Num)
    requires StandsFor(h, vals, x, m) && StandsFor(h, vals, y, n) && !(m.Fin? && n.Fin?) && !IsCompare(o)
    ensures FormulaResult(h, x + " " + OperText(o) + " " + y, vals)
         == if SignOf(o, m, n) == Some(0) then Number(Fin(0.0)) else Text("")
    ensures FormulaResult(h, x + OperText(o) + y + ">" + "0", vals) == Truth(SignOf(o, m, n) == Some(1))
    ensures FormulaResult(h, x + OperText(o) + y + "<" + "0", vals) == Truth(SignOf(o, m, n) == Some(-1))
    ensures FormulaResult(h, x + OperText(o) + y + "!=" + "0", vals) == Truth(SignOf(o, m, n) != Some(0))
  {
    hide StandsFor, FormulaResult, Truth, OperText, SignOf;
    TwoOperands(h, vals, x, o, y, m, n);
    OperationThen(h, vals, x, o, y, m, n, Gt);
    OperationThen(h, vals, x, o, y, m, n, Lt);
    OperationThen(h, vals, x, o, y, m, n, Ne);
    assert OperText(Gt) == ">" && OperText(Lt) == "<" && OperText(Ne) == "!=" by { CompareTexts(); }
    SignIs(o, m, n);
    ShownWhole(0);
    TruthShown(true);
    TruthShown(false);
  }

  lemma CompareTexts()
    ensures OperText(Gt) == ">" && OperText(Lt) == "<" && OperText(Ne) == "!="
  {
  }

  lemma SignIs(o: Oper, m: Num, n: Num)
    requires !(m.Fin? && n.Fin?) && !IsCompare(o)
    ensures SignOf(o, m, n).Some? ==> -1 <= SignOf(o, m, n).value <= 1
    ensures Combine(o, m, n)
         == match SignOf(o, m, n) case None => NaN case Some(s) => if s > 0 then PosInf else if s < 0 then NegInf else ZERO
  {
  }

  /** The same for signs and roundings. */
  lemma InfiniteSigns(h: Host, vals: Record, name: string, x: string, n: Num)
    requires StandsFor(h, vals, x, n) && !n.Fin? && ValidTok(Id(name))
    requires Lower(name) in {"floor", "ceil", "round", "abs"}
    ensures FormulaResult(h, x, vals) == FormulaResult(h, "-" + x, vals) == Text("")
    ensures FormulaResult(h, name + "(" + x + ")", vals) == Text("")
  {
    hide StandsFor, FormulaResult, ValidTok, Listed;
    OneOperand(h, vals, x, n);
    assert [x][0] == x && Listed([x]) == x by { ListedOne(x); }
    CallResult(h, vals, name, [x], [n]);
  }

  lemma ListedOne(x: string)
    ensures Listed([x]) == x
  {
  }

  // ----- characters -----

  /** Blanks in front of a text, and so between any two tokens, change nothing. */
  lemma BlanksSkipped(h: Host, vals: Record, gap: string, s: string)
    requires forall k :: 0 <= k < |gap| ==> gap[k] == ' ' || gap[k] == '\t'
    ensures FormulaResult(h, gap + s, vals) == FormulaResult(h, s, vals)
  {
    LexSkipsGap(gap, s);
  }

  /** The characters a formula may hold. */
  predicate Known(c: char) {
    NameChar(c) || '0' <= c <= '9' || c in " \t.+-*/(),<>=!"
  }

  predicate AllKnown(s: string) {
    forall k :: 0 <= k < |s| ==> Known(s[k])
  }

  lemma TokenKnown(s: string)
    requires s != "" && LexOne(s).Some?
    ensures AllKnown(s[..LexOne(s).value.1])
  {
    var (t, n) := LexOne(s).value;
    hide Known;
    match t
    case Num(v) =>
      forall k | 0 <= k < n ensures Known(s[k]) { KnownPart(s[k]); }
    case Id(v) =>
      NameKnown(s);
    case _ => SymbolKnown(s);
  }

  lemma KnownPart(c: char)
    ensures IsNumChar(c) || IsIdChar(c) || c == '.' ==> Known(c)
  {
  }

  lemma NameKnown(s: string)
    ensures AllKnown(s[..IdLength(s)])
  {
    hide Known, IsIdChar;
    var n := Span(s, IsIdChar);
    forall k | 0 <= k < IdLength(s) ensures Known(s[k]) {
      KnownPart(s[k]);
      if k > n { assert s[k] == s[n + 1..][k - n - 1]; }
    }
  }

  lemma SymbolKnown(s: string)
    requires s != "" && Symbol(s).Some?
    ensures Symbol(s).value.1 <= |s| && AllKnown(s[..Symbol(s).value.1])
  {
  }

  lemma {:induction false} LexKnown(s: string)
    requires Lex(s).Some?
    ensures AllKnown(s)
    decreases |s|
  {
    hide Known, LexOne;
    if s != "" {
      if IsBlankChar(s[0]) {
        BlankKnown(s[0]);
        LexKnown(s[1..]);
        assert forall k :: 1 <= k < |s| ==> s[k] == s[1..][k - 1];
      } else {
        var n := LexOne(s).value.1;
        TokenKnown(s);
        LexKnown(s[n..]);
        forall k | 0 <= k < |s| ensures Known(s[k]) {
          if k < n { assert s[k] == s[..n][k]; } else { assert s[k] == s[n..][k - n]; }
        }
      }
    }
  }

  lemma BlankKnown(c: char)
    requires IsBlankChar(c)
    ensures Known(c)
  {
  }

  /** A text with any other character shows nothing. */
  lemma ForeignCharacters(h: Host, vals: Record, s: string, k: nat)
    requires k < |s|
    requires !('A' <= s[k] <= 'Z') && !('a' <= s[k] <= 'z') && !('0' <= s[k] <= '9') && s[k] !in "_ \t.+-*/(),<>=!"
    ensures FormulaResult(h, s, vals) == Text("")
  {
    if Lex(s).Some? {
      LexKnown(s);
      assert false;
    }
  }
}
