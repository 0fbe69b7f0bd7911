/**
 The formula language end to end: which texts denote which trees, and that a tree written with the
 brackets it needs is read back and computed.
 */
module Formulas {
  import opened Values
  import opened Lexer
  import opened FormulaText
  import opened Grammar
  import opened Evaluator

  // ----- bracketing a tree -----

  /** The weakest binding the left operand of `o` may have without brackets. */
  function LeftLevel(o: Oper): nat {
    if OpLevel(o) == 0 then 1 else OpLevel(o)
  }

  function Bracket(e: Expr): (b: Expr)
    ensures Level(b) == Level(e)
    decreases e, 1
  {
    match e
    case Lit(_) => e
    case Ref(_) => e
    case Agg(_, _) => e
    case Neg(x) => Neg(Guard(x, 3))
    case Pos(x) => Pos(Guard(x, 3))
    case Paren(x) => Paren(Bracket(x))
    case Bin(o, l, r) => Bin(o, Guard(l, LeftLevel(o)), Guard(r, OpLevel(o) + 1))
    case Call(name, args) => Call(name, BracketAll(args))
  }

  /** Brackets around an operand that binds too weakly. */
  function Guard(e: Expr, level: nat): Expr
    decreases e, 2
  {
    if Level(e) < level then Paren(Bracket(e)) else Bracket(e)
  }

  function BracketAll(args: seq<Expr>): (r: seq<Expr>)
    ensures |r| == |args|
    decreases args, 0
  {
    if args == [] then [] else BracketAll(args[..|args| - 1]) + [Bracket(args[|args| - 1])]
  }

  /** The names and literals of a tree are ones the tokenizer can produce. */
  predicate Named(e: Expr) {
    match e
    case Lit(v) => ValidTok(Tok.Num(v))
    case Ref(id) => ValidTok(Id(id))
    case Neg(x) => Named(x)
    case Pos(x) => Named(x)
    case Paren(x) => Named(x)
    case Bin(_, l, r) => Named(l) && Named(r)
    case Call(name, args) => ValidTok(Id(name)) && !IsAggregate(name) && forall a :: a in args ==> Named(a)
    case Agg(name, column) => ValidTok(Id(name)) && IsAggregate(name) && ValidTok(Id(column))
  }

  lemma GuardOk(e: Expr, level: nat)
    requires level <= 3 && Bracketed(Bracket(e)) && Named(Bracket(e))
    ensures Bracketed(Guard(e, level)) && Named(Guard(e, level)) && Level(Guard(e, level)) >= level
  {
  }

  lemma {:induction false} BracketIsBracketed(e: Expr)
    requires Named(e)
    ensures Bracketed(Bracket(e)) && Named(Bracket(e))
    decreases e, 1
  {
    hide ValidTok, IsAggregate, Guard;
    match e
    case Neg(x) =>
      BracketIsBracketed(x);
      GuardOk(x, 3);
    case Pos(x) =>
      BracketIsBracketed(x);
      GuardOk(x, 3);
    case Paren(x) => BracketIsBracketed(x);
    case Bin(o, l, r) =>
      BracketIsBracketed(l);
      BracketIsBracketed(r);
      GuardOk(l, LeftLevel(o));
      GuardOk(r, OpLevel(o) + 1);
    case Call(_, args) => BracketAllBracketed(args);
    case _ =>
  }

  lemma {:induction false} BracketAllBracketed(args: seq<Expr>)
    requires forall a :: a in args ==> Named(a)
    ensures forall a :: a in BracketAll(args) ==> Bracketed(a) && Named(a)
    decreases args, 0
  {
    if args != [] {
      BracketAllBracketed(args[..|args| - 1]);
      BracketIsBracketed(args[|args| - 1]);
    }
  }

  /** Only brackets that are needed are added. */
  lemma {:induction false} BracketMinimal(e: Expr)
    requires Bracketed(e)
    ensures Bracket(e) == e
    decreases e, 1
  {
    match e
    case Neg(x) => BracketMinimal(x);
    case Pos(x) => BracketMinimal(x);
    case Paren(x) => BracketMinimal(x);
    case Bin(o, l, r) =>
      BracketMinimal(l);
      BracketMinimal(r);
    case Call(_, args) => BracketAllMinimal(args);
    case _ =>
  }

  lemma {:induction false} BracketAllMinimal(args: seq<Expr>)
    requires forall a :: a in args ==> Bracketed(a)
    ensures BracketAll(args) == args
    decreases args, 0
  {
    if args != [] {
      BracketAllMinimal(args[..|args| - 1]);
      BracketMinimal(args[|args| - 1]);
    }
  }

  lemma GuardKeepsValue(h: Host, e: Expr, level: nat, vals: Record)
    ensures Eval(h, Guard(e, level), vals) == Eval(h, Bracket(e), vals)
  {
    hide Bracket;
  }

  lemma {:induction false} BracketKeepsValue(h: Host, e: Expr, vals: Record)
    ensures Eval(h, Bracket(e), vals) == Eval(h, e, vals)
    decreases e, 1
  {
    hide Combine, Apply, Aggregate, LiteralValue, FieldValue, Guard;
    match e
    case Neg(x) =>
      BracketKeepsValue(h, x, vals);
      GuardKeepsValue(h, x, 3, vals);
    case Pos(x) =>
      BracketKeepsValue(h, x, vals);
      GuardKeepsValue(h, x, 3, vals);
    case Paren(x) => BracketKeepsValue(h, x, vals);
    case Bin(o, l, r) =>
      BracketKeepsValue(h, l, vals);
      BracketKeepsValue(h, r, vals);
      GuardKeepsValue(h, l, LeftLevel(o), vals);
      GuardKeepsValue(h, r, OpLevel(o) + 1, vals);
    case Call(_, args) => BracketAllKeepsValues(h, args, vals);
    case _ =>
  }

  lemma {:induction false} BracketAllKeepsValues(h: Host, args: seq<Expr>, vals: Record)
    ensures EvalArgs(h, BracketAll(args), vals) == EvalArgs(h, args, vals)
    decreases args, 0
  {
    if args != [] {
      var init, last := args[..|args| - 1], args[|args| - 1];
      BracketAllKeepsValues(h, init, vals);
      BracketKeepsValue(h, last, vals);
      SnocValues(h, vals, BracketAll(init), Bracket(last));
    }
  }

  // ----- writing needs no blanks -----

  ghost predicate Chain(ts: seq<Tok>) {
    && (forall k :: 0 <= k < |ts| ==> ValidTok(ts[k]))
    && (forall k :: 0 <= k < |ts| - 1 ==> Touch(ts[k], ts[k + 1]))
  }

  predicate Opens(t: Tok) { t.Num? || t.Id? || t == LPar || t == Op(Minus) || t == Op(Plus) }
  predicate Closes(t: Tok) { t.Num? || t.Id? || t == RPar }

  /** A chain that starts like an operand and ends like one. */
  ghost predicate Operand(ts: seq<Tok>) {
    ts != [] && Chain(ts) && Opens(ts[0]) && Closes(ts[|ts| - 1])
  }

  lemma ChainJoin(a: seq<Tok>, b: seq<Tok>)
    requires Chain(a) && Chain(b)
    requires a != [] && b != [] ==> Touch(a[|a| - 1], b[0])
    ensures Chain(a + b)
  {
    var ts := a + b;
    forall k | 0 <= k < |ts| - 1 ensures Touch(ts[k], ts[k + 1]) {
      if k < |a| - 1 {
        assert ts[k] == a[k] && ts[k + 1] == a[k + 1];
      } else if k >= |a| {
        assert ts[k] == b[k - |a|] && ts[k + 1] == b[k - |a| + 1];
      }
    }
  }

  lemma OperandLeaf(t: Tok)
    requires ValidTok(t) && (t.Num? || t.Id?)
    ensures Operand([t])
  {
  }

  lemma OperandSign(o: Oper, w: seq<Tok>)
    requires IsSum(o) && Operand(w)
    ensures Operand([Op(o)] + w)
  {
    ChainJoin([Op(o)], w);
  }

  lemma OperandBin(l: seq<Tok>, o: Oper, r: seq<Tok>)
    requires Operand(l) && Operand(r)
    ensures Operand(l + [Op(o)] + r)
  {
    ChainJoin(l, [Op(o)]);
    ChainJoin(l + [Op(o)], r);
  }

  lemma OperandBrackets(w: seq<Tok>)
    requires w == [] || Operand(w)
    ensures Operand([LPar] + w + [RPar])
  {
    ChainJoin([LPar], w);
    ChainJoin([LPar] + w, [RPar]);
  }

  lemma OperandCall(name: string, w: seq<Tok>)
    requires ValidTok(Id(name)) && (w == [] || Operand(w))
    ensures Operand([Id(name), LPar] + w + [RPar])
  {
    OperandBrackets(w);
    ChainJoin([Id(name)], [LPar] + w + [RPar]);
    assert [Id(name), LPar] + w + [RPar] == [Id(name)] + ([LPar] + w + [RPar]);
  }

  lemma OperandList(w: seq<Tok>, rest: seq<Tok>)
    requires Operand(w) && Operand(rest)
    ensures Operand(w + [Comma] + rest)
  {
    ChainJoin(w, [Comma]);
    ChainJoin(w + [Comma], rest);
  }

  lemma {:induction false} WriteOperand(e: Expr)
    requires Named(e)
    ensures Operand(Write(e))
    decreases e, 1
  {
    hide Operand, ValidTok;
    match e
    case Lit(v) => OperandLeaf(Tok.Num(v));
    case Ref(id) => OperandLeaf(Id(id));
    case Agg(name, column) =>
      OperandLeaf(Id(column));
      OperandCall(name, [Id(column)]);
      assert Write(e) == [Id(name), LPar] + [Id(column)] + [RPar];
    case Neg(x) =>
      WriteOperand(x);
      OperandSign(Minus, Write(x));
    case Pos(x) =>
      WriteOperand(x);
      OperandSign(Plus, Write(x));
    case Paren(x) =>
      WriteOperand(x);
      OperandBrackets(Write(x));
    case Bin(o, l, r) =>
      WriteOperand(l);
      WriteOperand(r);
      OperandBin(Write(l), o, Write(r));
    case Call(name, args) =>
      if args != [] { WriteArgsOperand(args); }
      OperandCall(name, WriteArgs(args));
  }

  lemma {:induction false} WriteArgsOperand(args: seq<Expr>)
    requires args != [] && forall a :: a in args ==> Named(a)
    ensures Operand(WriteArgs(args))
    decreases args, 0
  {
    hide Operand;
    WriteOperand(args[0]);
    if |args| > 1 {
      WriteArgsOperand(args[1..]);
      OperandList(Write(args[0]), WriteArgs(args[1..]));
    }
  }

  // ----- the language -----

  /** The tree a formula text denotes, if it denotes one. */
  function TreeOf(s: string): Option<Expr> {
    match Lex(s) case None => None case Some(ts) => Parse(ts)
  }

  /** A text denotes exactly the tree it is a layout of: trees and accepted texts determine each other. */
  lemma DenotesExactly(s: string, e: Expr)
    ensures TreeOf(s) == Some(e) <==> Bracketed(e) && exists gaps :: IsLayout(s, Write(e), gaps)
  {
    LexExactly(s, Write(e));
    if Lex(s).Some? { ParseExactly(Lex(s).value, e); }
  }

  function Text(e: Expr): string {
    Compact(Write(Bracket(e)))
  }

  /** Every tree, written with the brackets it needs and no blanks, is read back with its brackets. */
  lemma TextDenotes(e: Expr)
    requires Named(e)
    ensures TreeOf(Text(e)) == Some(Bracket(e))
  {
    BracketIsBracketed(e);
    WriteOperand(Bracket(e));
    CompactLexes(Write(Bracket(e)));
    ParseExactly(Write(Bracket(e)), Bracket(e));
  }

  /** Evaluating the written form of a tree computes the value of the tree. */
  lemma TextEvaluates(h: Host, e: Expr, vals: Record)
    requires Named(e)
    ensures FormulaResult(h, Text(e), vals) == Shown(Eval(h, e, vals))
  {
    TextDenotes(e);
    BracketKeepsValue(h, e, vals);
  }

  /** So does every other layout of it, whatever blanks stand between the tokens. */
  lemma LayoutEvaluates(h: Host, e: Expr, gaps: seq<string>, vals: Record)
    requires Named(e) && |gaps| == |Write(Bracket(e))| + 1 && Legal(Write(Bracket(e)), gaps)
    ensures FormulaResult(h, Layout(Write(Bracket(e)), gaps), vals) == Shown(Eval(h, e, vals))
  {
    BracketIsBracketed(e);
    LayoutLexes(Write(Bracket(e)), gaps);
    ParseExactly(Write(Bracket(e)), Bracket(e));
    BracketKeepsValue(h, e, vals);
  }

  // ----- what a formula reads -----

  /** The record entries a tree reads: its fields, and the tables of its aggregates. */
  function Reads(e: Expr): set<string>
    decreases e, 1
  {
    match e
    case Lit(_) => {}
    case Ref(id) => {id}
    case Neg(x) => Reads(x)
    case Pos(x) => Reads(x)
    case Paren(x) => Reads(x)
    case Bin(_, l, r) => Reads(l) + Reads(r)
    case Call(_, args) => ReadsAll(args)
    case Agg(_, column) => {TableOf(column)}
  }

  function ReadsAll(args: seq<Expr>): set<string>
    decreases args, 0
  {
    if args == [] then {} else ReadsAll(args[..|args| - 1]) + Reads(args[|args| - 1])
  }

  predicate AgreeOn(codes: set<string>, a: Record, b: Record) {
    forall c :: c in codes ==> Lookup(a, c) == Lookup(b, c)
  }

  lemma {:induction false} EvalReads(h: Host, e: Expr, a: Record, b: Record)
    requires AgreeOn(Reads(e), a, b)
    ensures Eval(h, e, a) == Eval(h, e, b)
    decreases e, 1
  {
    match e
    case Lit(_) =>
    case Ref(id) => assert Lookup(a, id) == Lookup(b, id);
    case Neg(x) => EvalReads(h, x, a, b);
    case Pos(x) => EvalReads(h, x, a, b);
    case Paren(x) => EvalReads(h, x, a, b);
    case Bin(o, l, r) =>
      EvalReads(h, l, a, b);
      EvalReads(h, r, a, b);
    case Call(_, args) => EvalArgsReads(h, args, a, b);
    case Agg(_, column) => assert Lookup(a, TableOf(column)) == Lookup(b, TableOf(column));
  }

  lemma {:induction false} EvalArgsReads(h: Host, args: seq<Expr>, a: Record, b: Record)
    requires AgreeOn(ReadsAll(args), a, b)
    ensures EvalArgs(h, args, a) == EvalArgs(h, args, b)
    decreases args, 0
  {
    if args != [] {
      EvalArgsReads(h, args[..|args| - 1], a, b);
      EvalReads(h, args[|args| - 1], a, b);
    }
  }

  function FormulaReads(s: string): set<string> {
    match TreeOf(s) case None => {} case Some(e) => Reads(e)
  }

  /** A formula's result depends only on the entries its text names. */
  lemma FormulaReadsOnly(h: Host, s: string, a: Record, b: Record)
    requires AgreeOn(FormulaReads(s), a, b)
    ensures FormulaResult(h, s, a) == FormulaResult(h, s, b)
  {
    if TreeOf(s).Some? { EvalReads(h, TreeOf(s).value, a, b); }
  }
}
