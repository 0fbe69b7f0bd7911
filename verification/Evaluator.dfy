/** The meaning of formulas, and the parser that computes it while it parses. */
module Evaluator {
  import opened Numbers
  import opened Values
  import opened Lexer
  import opened Grammar
  import opened Strings

  // ----- the meaning of a tree -----

  predicate NotDot(c: char) { c != '.' }

  function DigitsValue(s: string): real
    requires forall k :: 0 <= k < |s| ==> IsDigit(s[k])
  {
    if s == "" then 0.0
    else 10.0 * DigitsValue(s[..|s| - 1]) + (s[|s| - 1] as int - '0' as int) as real
  }

  function Shift(r: real, places: nat): real
    decreases places
  {
    if places == 0 then r else Shift(r / 10.0, places - 1)
  }

  /** `parseFloat` on a literal of digits and dots: the longest prefix that is a decimal number. */
  function LiteralValue(v: string): Num {
    var whole := Span(v, IsDigit);
    var fraction := if whole < |v| && v[whole] == '.' then v[whole + 1..][..Span(v[whole + 1..], IsDigit)] else "";
    if whole == 0 && fraction == "" then NaN
    else Fin(DigitsValue(v[..whole]) + Shift(DigitsValue(fraction), |fraction|))
  }

  /** A field reference: an absent, empty or non-numeric value counts as zero. */
  function FieldValue(h: Host, vals: Record, code: string): Num {
    if code !in vals then ZERO
    else
      var n := ToNum(h, vals[code]);
      if n.NaN? then ZERO else n
  }

  /** The cells of a column, as found in the rows that have it. */
  function Column(rows: seq<Val>, column: string): seq<Option<Val>> {
    if rows == [] then []
    else
      var cell := if rows[0].Obj? then Lookup(rows[0].fields, column) else None;
      [cell] + Column(rows[1..], column)
  }

  /** The finite numbers among the filled cells. */
  function FiniteCells(h: Host, cells: seq<Option<Val>>): seq<Num> {
    if cells == [] then []
    else
      var rest := FiniteCells(h, cells[1..]);
      if !IsBlank(cells[0]) && ToNum(h, cells[0].value).Fin? then [ToNum(h, cells[0].value)] + rest else rest
  }

  function TableOf(column: string): string {
    column[..Span(column, NotDot)]
  }

  function ColumnOf(column: string): string {
    var dot := Span(column, NotDot);
    if dot == |column| then "" else column[dot + 1..]
  }

  /** `sum`, `avg` or `count` over a subtable; None where the source throws. */
  function Aggregate(h: Host, name: string, column: string, vals: Record): Option<Num> {
    var table := TableOf(column);
    if table !in vals || !vals[table].List? then Some(ZERO)
    else
      var rows := vals[table].items;
      if name == "count" then Some(Fin(|rows| as real))
      else if ColumnOf(column) == "" then None
      else
        var nums := FiniteCells(h, Column(rows, ColumnOf(column)));
        if name != "avg" then Some(Total(nums))
        else if nums == [] then Some(ZERO)
        else Some(Divide(Total(nums), Fin(|nums| as real)))
  }

  function Compare(l: Num, o: Oper, r: Num): bool {
    match o
    case Gt => Less(r, l)
    case Lt => Less(l, r)
    case Ge => AtMost(r, l)
    case Le => AtMost(l, r)
    case Eq => Same(l, r)
    case Ne => !Same(l, r)
    case _ => false
  }

  function Arg(args: seq<Num>, k: nat): Num {
    if k < |args| then args[k] else ZERO
  }

  /** The built-in functions; None where the source throws on an unknown name. */
  function Apply(name: string, args: seq<Num>): Option<Num> {
    if name == "if" then Some(if args == [] || !Same(args[0], ZERO) then Arg(args, 1) else Arg(args, 2))
    else if name == "min" then Some(Least(args))
    else if name == "max" then Some(Greatest(args))
    else if name == "abs" then Some(Magnitude(Arg(args, 0)))
    else if name == "round" then Some(RoundOf(Arg(args, 0)))
    else if name == "floor" then Some(FloorOf(Arg(args, 0)))
    else if name == "ceil" then Some(CeilOf(Arg(args, 0)))
    else None
  }

  function Combine(o: Oper, l: Num, r: Num): Num {
    match o
    case Plus => Add(l, r)
    case Minus => Subtract(l, r)
    case Times => Multiply(l, r)
    case Over => Divide(l, r)
    case _ => if Compare(l, o, r) then ONE else ZERO
  }

  /** The value of a tree, or None where evaluating it throws. */
  function Eval(h: Host, e: Expr, vals: Record): Option<Num>
    decreases e, 1
  {
    match e
    case Lit(v) => Some(LiteralValue(v))
    case Ref(id) => Some(FieldValue(h, vals, id))
    case Neg(x) => (match Eval(h, x, vals) case None => None case Some(n) => Some(Negate(n)))
    case Pos(x) => Eval(h, x, vals)
    case Paren(x) => Eval(h, x, vals)
    case Bin(o, l, r) =>
      (match (Eval(h, l, vals), Eval(h, r, vals))
       case (Some(m), Some(n)) => Some(Combine(o, m, n))
       case _ => None)
    case Call(name, args) =>
      (match EvalArgs(h, args, vals) case None => None case Some(ns) => Apply(Lower(name), ns))
    case Agg(name, column) => Aggregate(h, Lower(name), column, vals)
  }

  function EvalArgs(h: Host, args: seq<Expr>, vals: Record): Option<seq<Num>>
    decreases args, 0
  {
    if args == [] then Some([])
    else
      match (EvalArgs(h, args[..|args| - 1], vals), Eval(h, args[|args| - 1], vals))
      case (Some(ns), Some(n)) => Some(ns + [n])
      case _ => None
  }

  /** What `evalFormula` returns: finite results to six decimals, anything else the empty string. */
  function Shown(result: Option<Num>): Val {
    if result.Some? && result.value.Fin?
    then Number(Fin((result.value.r * 1000000.0 + 0.5).Floor as real / 1000000.0))
    else EMPTY
  }

  function FormulaResult(h: Host, formula: string, vals: Record): Val {
    match Lex(formula)
    case None => EMPTY
    case Some(ts) =>
      match Parse(ts)
      case None => EMPTY
      case Some(e) => Shown(Eval(h, e, vals))
  }

  // ----- the parser of the source, which evaluates while it parses -----

  /** The outcome `r` of a routine that stops at `pos`, against the tree `spec` it stands for. */
  ghost predicate Computes(h: Host, vals: Record, spec: Parsed, r: Option<Num>, pos: nat) {
    match r
    case None => spec.Tree? ==> Eval(h, spec.e, vals).None?
    case Some(n) => spec.Tree? && spec.next == pos && Eval(h, spec.e, vals) == Some(n)
  }

  ghost predicate ComputesArgs(h: Host, vals: Record, spec: ParsedArgs, r: Option<seq<Num>>, pos: nat) {
    match r
    case None => spec.Args? ==> EvalArgs(h, spec.es, vals).None?
    case Some(ns) => spec.Args? && spec.next == pos && EvalArgs(h, spec.es, vals) == Some(ns)
  }

  /** A comparison, or its left side alone. */
  lemma CompareSpec(h: Host, vals: Record, ts: seq<Tok>, p: nat)
    requires p <= |ts|
    ensures var left, spec := ParseSum(ts, p), ParseExpr(ts, p);
      if left.Stuck? then spec.Stuck?
      else if !AtOp(ts, left.next, IsCompare) then spec == left
      else
        var right := ParseSum(ts, left.next + 1);
        if right.Stuck? then spec.Stuck?
        else
          && spec.Tree? && spec.next == right.next
          && match (Eval(h, left.e, vals), Eval(h, right.e, vals))
             case (Some(m), Some(n)) =>
               Eval(h, spec.e, vals) == Some(if Compare(m, ts[left.next].o, n) then ONE else ZERO)
             case _ => Eval(h, spec.e, vals).None?
  {
    hide ParseSum, Compare;
  }

  /** One round of the loop: the operand read, and the tree grown by it. */
  lemma SumStep(h: Host, vals: Record, ts: seq<Tok>, l: Expr, p: nat)
    requires AtOp(ts, p, IsSum) && Eval(h, l, vals).Some?
    ensures var operand := ParseProduct(ts, p + 1);
            if operand.Stuck? then MoreSum(ts, l, p).Stuck?
            else
              var tree := Bin(ts[p].o, l, operand.e);
              && MoreSum(ts, l, p) == MoreSum(ts, tree, operand.next)
              && match Eval(h, operand.e, vals)
                 case Some(n) => Eval(h, tree, vals) == Some(Combine(ts[p].o, Eval(h, l, vals).value, n))
                 case None => MoreSum(ts, l, p).Tree? ==> Eval(h, MoreSum(ts, l, p).e, vals).None?
  {
    hide ParseProduct, Combine;
    var operand := ParseProduct(ts, p + 1);
    if operand.Tree? && Eval(h, operand.e, vals).None? {
      SumThrows(h, vals, ts, Bin(ts[p].o, l, operand.e), operand.next);
    }
  }

  /** Once an operand throws, whatever the loop goes on to build throws. */
  lemma SumThrows(h: Host, vals: Record, ts: seq<Tok>, l: Expr, p: nat)
    requires p <= |ts| && Eval(h, l, vals).None?
    ensures MoreSum(ts, l, p).Tree? ==> Eval(h, MoreSum(ts, l, p).e, vals).None?
    decreases |ts| - p
  {
    hide ParseProduct, Combine;
    if AtOp(ts, p, IsSum) {
      var r := ParseProduct(ts, p + 1);
      if r.Tree? { SumThrows(h, vals, ts, Bin(ts[p].o, l, r.e), r.next); }
    }
  }

  /** One round of the loop: the operand read, and the tree grown by it. */
  lemma ProductStep(h: Host, vals: Record, ts: seq<Tok>, l: Expr, p: nat)
    requires AtOp(ts, p, IsProduct) && Eval(h, l, vals).Some?
    ensures var operand := Grammar.ParseFactor(ts, p + 1);
            if operand.Stuck? then MoreProduct(ts, l, p).Stuck?
            else
              var tree := Bin(ts[p].o, l, operand.e);
              && MoreProduct(ts, l, p) == MoreProduct(ts, tree, operand.next)
              && match Eval(h, operand.e, vals)
                 case Some(n) => Eval(h, tree, vals) == Some(Combine(ts[p].o, Eval(h, l, vals).value, n))
                 case None => MoreProduct(ts, l, p).Tree? ==> Eval(h, MoreProduct(ts, l, p).e, vals).None?
  {
    hide Grammar.ParseFactor, Combine;
    var operand := Grammar.ParseFactor(ts, p + 1);
    if operand.Tree? && Eval(h, operand.e, vals).None? {
      ProductThrows(h, vals, ts, Bin(ts[p].o, l, operand.e), operand.next);
    }
  }

  lemma ProductThrows(h: Host, vals: Record, ts: seq<Tok>, l: Expr, p: nat)
    requires p <= |ts| && Eval(h, l, vals).None?
    ensures MoreProduct(ts, l, p).Tree? ==> Eval(h, MoreProduct(ts, l, p).e, vals).None?
    decreases |ts| - p
  {
    hide Grammar.ParseFactor, Combine;
    if AtOp(ts, p, IsProduct) {
      var r := ParseFactor(ts, p + 1);
      if r.Tree? { ProductThrows(h, vals, ts, Bin(ts[p].o, l, r.e), r.next); }
    }
  }

  lemma ArgsThrow(h: Host, vals: Record, ts: seq<Tok>, before: seq<Expr>, p: nat)
    requires p <= |ts| && EvalArgs(h, before, vals).None?
    ensures MoreArgs(ts, before, p).Args? ==> EvalArgs(h, MoreArgs(ts, before, p).es, vals).None?
    decreases |ts| - p
  {
    hide ParseExpr, Eval;
    var r := ParseExpr(ts, p);
    if r.Tree? {
      var es := before + [r.e];
      assert es[..|es| - 1] == before;
      if r.next < |ts| && ts[r.next] == Comma { ArgsThrow(h, vals, ts, es, r.next + 1); }
    }
  }

  /** One round of the argument loop. */
  lemma ArgsStep(h: Host, vals: Record, ts: seq<Tok>, before: seq<Expr>, p: nat)
    requires p <= |ts| && EvalArgs(h, before, vals).Some?
    ensures var r := ParseExpr(ts, p);
            if r.Stuck? then MoreArgs(ts, before, p).StuckArgs?
            else
              var es := before + [r.e];
              && MoreArgs(ts, before, p) ==
                 (if r.next < |ts| && ts[r.next] == Comma then MoreArgs(ts, es, r.next + 1) else Args(es, r.next))
              && match Eval(h, r.e, vals)
                 case Some(n) => EvalArgs(h, es, vals) == Some(EvalArgs(h, before, vals).value + [n])
                 case None => MoreArgs(ts, before, p).Args? ==> EvalArgs(h, MoreArgs(ts, before, p).es, vals).None?
  {
    hide ParseExpr, Eval;
    var r := ParseExpr(ts, p);
    if r.Tree? {
      SnocValues(h, vals, before, r.e);
      if r.next < |ts| && ts[r.next] == Comma && Eval(h, r.e, vals).None? {
        ArgsThrow(h, vals, ts, before + [r.e], r.next + 1);
      }
    }
  }

  /** A call at `p`, with the result of its arguments. */
  lemma CallSpec(h: Host, vals: Record, ts: seq<Tok>, p: nat)
    requires p + 1 < |ts| && ts[p].Id? && ts[p + 1] == LPar && !IsAggregate(ts[p].v)
    ensures var a := ParseArgs(ts, p + 2);
            && EvalArgs(h, [], vals) == Some([])
            && Grammar.ParseFactor(ts, p) ==
               (if a.Args? && a.next < |ts| && ts[a.next] == RPar then Tree(Call(ts[p].v, a.es), a.next + 1) else Stuck)
            && (a.Args? ==>
                  Eval(h, Call(ts[p].v, a.es), vals) ==
                  match EvalArgs(h, a.es, vals) case None => None case Some(ns) => Apply(Lower(ts[p].v), ns))
  {
    hide ParseArgs;
  }

  lemma SnocValues(h: Host, vals: Record, es: seq<Expr>, e: Expr)
    ensures EvalArgs(h, es + [e], vals) ==
            match (EvalArgs(h, es, vals), Eval(h, e, vals)) case (Some(ns), Some(n)) => Some(ns + [n]) case _ => None
  {
    assert (es + [e])[..|es|] == es;
  }

  lemma NoArguments(h: Host, vals: Record)
    ensures EvalArgs(h, [], vals) == Some([])
  {
  }

  class Parser {
    const h: Host
    const toks: seq<Tok>
    const vals: Record
    var pos: nat

    constructor (h: Host, toks: seq<Tok>, vals: Record)
      ensures this.h == h && this.toks == toks && this.vals == vals && pos == 0
    {
      this.h, this.toks, this.vals := h, toks, vals;
      pos := 0;
    }

    method ParseExpression() returns (r: Option<Num>)
      requires pos <= |toks|
      modifies this`pos
      ensures old(pos) <= pos <= |toks| && Computes(h, vals, ParseExpr(toks, old(pos)), r, pos)
      decreases |toks| - pos, 3
    {
      hide ParseSum, ParseExpr, Eval, Compare;
      CompareSpec(h, vals, toks, pos);
      var left := ParseAdditive();
      if left.None? { return None; }
      if pos < |toks| && toks[pos].Op? && IsCompare(toks[pos].o) {
        var op := toks[pos].o;
        pos := pos + 1;
        var right := ParseAdditive();
        if right.None? { return None; }
        return Some(if Compare(left.value, op, right.value) then ONE else ZERO);
      }
      return left;
    }

    method ParseAdditive() returns (r: Option<Num>)
      requires pos <= |toks|
      modifies this`pos
      ensures old(pos) <= pos <= |toks| && Computes(h, vals, ParseSum(toks, old(pos)), r, pos)
      ensures r.Some? ==> old(pos) < pos
      decreases |toks| - pos, 2
    {
      hide ParseProduct, Eval;
      ghost var goal, spec := ParseSum(toks, pos), ParseProduct(toks, pos);
      var left := ParseTerm();
      if left.None? {
        if spec.Tree? { SumThrows(h, vals, toks, spec.e, spec.next); }
        return None;
      }
      ghost var tree := spec.e;
      while pos < |toks| && toks[pos].Op? && (toks[pos].o == Plus || toks[pos].o == Minus)
        invariant old(pos) < pos <= |toks|
        invariant left.Some? && Eval(h, tree, vals) == left
        invariant goal == MoreSum(toks, tree, pos)
        decreases |toks| - pos
      {
        var op := toks[pos].o;
        pos := pos + 1;
        ghost var operand := ParseProduct(toks, pos);
        SumStep(h, vals, toks, tree, pos - 1);
        var right := ParseTerm();
        if right.None? { return None; }
        tree := Bin(op, tree, operand.e);
        left := Some(if op == Plus then Add(left.value, right.value) else Subtract(left.value, right.value));
      }
      return left;
    }

    method ParseTerm() returns (r: Option<Num>)
      requires pos <= |toks|
      modifies this`pos
      ensures old(pos) <= pos <= |toks| && Computes(h, vals, ParseProduct(toks, old(pos)), r, pos)
      ensures r.Some? ==> old(pos) < pos
      decreases |toks| - pos, 1
    {
      hide Grammar.ParseFactor, Eval, Multiply, Divide;
      ghost var goal, spec := ParseProduct(toks, pos), Grammar.ParseFactor(toks, pos);
      var left := ParseFactor();
      if left.None? {
        if spec.Tree? { ProductThrows(h, vals, toks, spec.e, spec.next); }
        return None;
      }
      ghost var tree := spec.e;
      while pos < |toks| && toks[pos].Op? && (toks[pos].o == Times || toks[pos].o == Over)
        invariant old(pos) < pos <= |toks|
        invariant left.Some? && Eval(h, tree, vals) == left
        invariant goal == MoreProduct(toks, tree, pos)
        decreases |toks| - pos
      {
        var op := toks[pos].o;
        pos := pos + 1;
        ghost var operand := Grammar.ParseFactor(toks, pos);
        ProductStep(h, vals, toks, tree, pos - 1);
        var right := ParseFactor();
        if right.None? { return None; }
        tree := Bin(op, tree, operand.e);
        left := Some(if op == Times then Multiply(left.value, right.value) else Divide(left.value, right.value));
      }
      return left;
    }

    method ParseFactor() returns (r: Option<Num>)
      requires pos <= |toks|
      modifies this`pos
      ensures old(pos) <= pos <= |toks| && Computes(h, vals, Grammar.ParseFactor(toks, old(pos)), r, pos)
      ensures r.Some? ==> old(pos) < pos
      decreases |toks| - pos, 0
    {
      hide ParseExpr, Negate, LiteralValue;
      if pos >= |toks| { return None; }
      var tok := toks[pos];
      match tok {
        case Op(Minus) =>
          pos := pos + 1;
          r := ParseFactor();
          if r.Some? { r := Some(Negate(r.value)); }
        case Op(Plus) =>
          pos := pos + 1;
          r := ParseFactor();
        case Num(v) =>
          pos := pos + 1;
          r := Some(LiteralValue(v));
        case Id(v) =>
          pos := pos + 1;
          if pos < |toks| && toks[pos] == LPar {
            if IsAggregate(v) {
              r := ParseAggregate(v);
            } else {
              r := ParseCall(v);
            }
          } else {
            r := Some(FieldValue(h, vals, v));
          }
        case LPar =>
          pos := pos + 1;
          r := ParseExpression();
          if r.Some? {
            if pos >= |toks| || toks[pos] != RPar { return None; }
            pos := pos + 1;
          }
        case _ =>
          r := None;
      }
    }

    method ParseCall(name: string) returns (r: Option<Num>)
      requires 0 < pos < |toks| && toks[pos] == LPar && toks[pos - 1] == Id(name) && !IsAggregate(name)
      modifies this`pos
      ensures old(pos) <= pos <= |toks| && Computes(h, vals, Grammar.ParseFactor(toks, old(pos) - 1), r, pos)
      decreases |toks| - pos, 6
    {
      CallSpec(h, vals, toks, pos - 1);
      hide Grammar.ParseFactor, MoreArgs, Apply, Eval, EvalArgs;
      pos := pos + 1;
      var args: seq<Num> := [];
      if !(pos < |toks| && toks[pos] == RPar) {
        var a := Arguments();
        if a.None? { return None; }
        args := a.value;
      }
      if pos >= |toks| || toks[pos] != RPar { return None; }
      pos := pos + 1;
      r := Apply(Lower(name), args);
    }

    /** The argument loop of `parseCall`. */
    method Arguments() returns (r: Option<seq<Num>>)
      requires pos <= |toks|
      modifies this`pos
      ensures old(pos) <= pos <= |toks| && ComputesArgs(h, vals, MoreArgs(toks, [], old(pos)), r, pos)
      decreases |toks| - pos, 5
    {
      hide ParseExpr, MoreArgs, Eval, EvalArgs;
      NoArguments(h, vals);
      ghost var goal := MoreArgs(toks, [], pos);
      var args: seq<Num> := [];
      ghost var trees: seq<Expr> := [];
      while true
        invariant old(pos) <= pos <= |toks|
        invariant EvalArgs(h, trees, vals) == Some(args)
        invariant goal == MoreArgs(toks, trees, pos)
        decreases |toks| - pos
      {
        ghost var spec := ParseExpr(toks, pos);
        ArgsStep(h, vals, toks, trees, pos);
        var a := ParseExpression();
        if a.None? { return None; }
        trees := trees + [spec.e];
        args := args + [a.value];
        if pos < |toks| && toks[pos] == Comma {
          pos := pos + 1;
        } else {
          return Some(args);
        }
      }
    }

    method ParseAggregate(name: string) returns (r: Option<Num>)
      requires 0 < pos < |toks| && toks[pos] == LPar && toks[pos - 1] == Id(name) && IsAggregate(name)
      modifies this`pos
      ensures old(pos) <= pos <= |toks| && Computes(h, vals, Grammar.ParseFactor(toks, old(pos) - 1), r, pos)
    {
      pos := pos + 1;
      if pos >= |toks| || !toks[pos].Id? { return None; }
      var column := toks[pos].v;
      pos := pos + 1;
      if pos >= |toks| || toks[pos] != RPar { return None; }
      pos := pos + 1;
      r := Aggregate(h, Lower(name), column, vals);
    }
  }

  method EvalFormula(h: Host, formula: string, vals: Record) returns (r: Val)
    ensures r == FormulaResult(h, formula, vals)
  {
    var tokens := Tokenize(formula);
    if tokens.None? { return EMPTY; }
    var p := new Parser(h, tokens.value, vals);
    var result := p.ParseExpression();
    if result.None? || p.pos < |tokens.value| { return EMPTY; }
    r := Shown(result);
  }
}
