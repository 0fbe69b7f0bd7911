/**
 The syntax of formulas: trees, the recursive descent over a token list that builds them, and the
 proof that the descent and the writing of trees as tokens are inverse to each other.
 */
module Grammar {
  import opened Lexer
  import opened Strings
  import opened Values

  /** A formula as written: brackets and plus signs that change nothing are kept. */
  datatype Expr =
    | Lit(v: string)
    | Ref(id: string)
    | Neg(e: Expr)
    | Pos(e: Expr)
    | Paren(e: Expr)
    | Bin(o: Oper, l: Expr, r: Expr)
    | Call(name: string, args: seq<Expr>)
    | Agg(name: string, column: string)

  predicate IsCompare(o: Oper) { o.Gt? || o.Lt? || o.Ge? || o.Le? || o.Eq? || o.Ne? }
  predicate IsSum(o: Oper) { o.Plus? || o.Minus? }
  predicate IsProduct(o: Oper) { o.Times? || o.Over? }

  predicate IsAggregate(name: string) {
    var n := Lower(name);
    n == "sum" || n == "avg" || n == "count"
  }

  // ----- trees as tokens -----

  function OpLevel(o: Oper): nat {
    if IsCompare(o) then 0 else if IsSum(o) then 1 else 2
  }

  /** Binding strength: 0 comparison, 1 sum, 2 product, 3 everything else. */
  function Level(e: Expr): nat {
    if e.Bin? then OpLevel(e.o) else 3
  }

  /**
   The trees that need no further brackets: sums and products lean left, a comparison compares two
   sums and does not chain, and the operand of a sign is a factor.
   */
  predicate Bracketed(e: Expr) {
    match e
    case Lit(_) => true
    case Ref(_) => true
    case Neg(x) => Bracketed(x) && Level(x) == 3
    case Pos(x) => Bracketed(x) && Level(x) == 3
    case Paren(x) => Bracketed(x)
    case Bin(o, l, r) =>
      && Bracketed(l) && Bracketed(r)
      && Level(r) > OpLevel(o)
      && Level(l) >= if OpLevel(o) == 0 then 1 else OpLevel(o)
    case Call(name, args) => !IsAggregate(name) && forall a :: a in args ==> Bracketed(a)
    case Agg(name, _) => IsAggregate(name)
  }

  function Write(e: Expr): (ts: seq<Tok>)
    ensures ts != []
    decreases e, 1
  {
    match e
    case Lit(v) => [Num(v)]
    case Ref(id) => [Id(id)]
    case Neg(x) => [Op(Minus)] + Write(x)
    case Pos(x) => [Op(Plus)] + Write(x)
    case Paren(x) => [LPar] + Write(x) + [RPar]
    case Bin(o, l, r) => Write(l) + [Op(o)] + Write(r)
    case Call(name, args) => [Id(name), LPar] + WriteArgs(args) + [RPar]
    case Agg(name, column) => [Id(name), LPar, Id(column), RPar]
  }

  function WriteArgs(args: seq<Expr>): seq<Tok>
    decreases args, 0
  {
    if args == [] then []
    else if |args| == 1 then Write(args[0])
    else Write(args[0]) + [Comma] + WriteArgs(args[1..])
  }

  // ----- the recursive descent -----

  /** What a parsing routine yields: nothing where it throws, or a tree and the next position. */
  datatype Parsed = Stuck | Tree(e: Expr, next: nat)
  datatype ParsedArgs = StuckArgs | Args(es: seq<Expr>, next: nat)

  predicate AtOp(ts: seq<Tok>, p: nat, which: Oper -> bool) {
    p < |ts| && ts[p].Op? && which(ts[p].o)
  }

  function ParseExpr(ts: seq<Tok>, p: nat): (r: Parsed)
    requires p <= |ts|
    ensures r.Tree? ==> p < r.next <= |ts|
    decreases |ts| - p, 3
  {
    match ParseSum(ts, p)
    case Stuck => Stuck
    case Tree(l, q) =>
      if AtOp(ts, q, IsCompare) then
        match ParseSum(ts, q + 1)
        case Stuck => Stuck
        case Tree(r, end) => Tree(Bin(ts[q].o, l, r), end)
      else Tree(l, q)
  }

  function ParseSum(ts: seq<Tok>, p: nat): (r: Parsed)
    requires p <= |ts|
    ensures r.Tree? ==> p < r.next <= |ts|
    decreases |ts| - p, 2
  {
    match ParseProduct(ts, p)
    case Stuck => Stuck
    case Tree(l, q) => MoreSum(ts, l, q)
  }

  /** The loop of `parseAdditive`, with `l` read so far. */
  function MoreSum(ts: seq<Tok>, l: Expr, p: nat): (r: Parsed)
    requires p <= |ts|
    ensures r.Tree? ==> p <= r.next <= |ts|
    decreases |ts| - p, 0
  {
    if AtOp(ts, p, IsSum) then
      match ParseProduct(ts, p + 1)
      case Stuck => Stuck
      case Tree(r, q) => MoreSum(ts, Bin(ts[p].o, l, r), q)
    else Tree(l, p)
  }

  function ParseProduct(ts: seq<Tok>, p: nat): (r: Parsed)
    requires p <= |ts|
    ensures r.Tree? ==> p < r.next <= |ts|
    decreases |ts| - p, 1
  {
    match ParseFactor(ts, p)
    case Stuck => Stuck
    case Tree(l, q) => MoreProduct(ts, l, q)
  }

  /** The loop of `parseTerm`, with `l` read so far. */
  function MoreProduct(ts: seq<Tok>, l: Expr, p: nat): (r: Parsed)
    requires p <= |ts|
    ensures r.Tree? ==> p <= r.next <= |ts|
    decreases |ts| - p, 0
  {
    if AtOp(ts, p, IsProduct) then
      match ParseFactor(ts, p + 1)
      case Stuck => Stuck
      case Tree(r, q) => MoreProduct(ts, Bin(ts[p].o, l, r), q)
    else Tree(l, p)
  }

  function ParseFactor(ts: seq<Tok>, p: nat): (r: Parsed)
    requires p <= |ts|
    ensures r.Tree? ==> p < r.next <= |ts|
    decreases |ts| - p, 0
  {
    if p == |ts| then Stuck
    else
      match ts[p]
      case Op(Minus) => (match ParseFactor(ts, p + 1) case Stuck => Stuck case Tree(x, q) => Tree(Neg(x), q))
      case Op(Plus) => (match ParseFactor(ts, p + 1) case Stuck => Stuck case Tree(x, q) => Tree(Pos(x), q))
      case Num(v) => Tree(Lit(v), p + 1)
      case Id(v) =>
        if p + 1 < |ts| && ts[p + 1] == LPar then
          if IsAggregate(v) then
            if p + 3 < |ts| && ts[p + 2].Id? && ts[p + 3] == RPar then Tree(Agg(v, ts[p + 2].v), p + 4) else Stuck
          else
            match ParseArgs(ts, p + 2)
            case StuckArgs => Stuck
            case Args(es, q) => if q < |ts| && ts[q] == RPar then Tree(Call(v, es), q + 1) else Stuck
        else Tree(Ref(v), p + 1)
      case LPar =>
        (match ParseExpr(ts, p + 1)
         case Stuck => Stuck
         case Tree(x, q) => if q < |ts| && ts[q] == RPar then Tree(Paren(x), q + 1) else Stuck)
      case _ => Stuck
  }

  /** The arguments of a call, up to but without the closing bracket. */
  function ParseArgs(ts: seq<Tok>, p: nat): (r: ParsedArgs)
    requires p <= |ts|
    ensures r.Args? ==> p <= r.next <= |ts|
    decreases |ts| - p, 5
  {
    if p < |ts| && ts[p] == RPar then Args([], p) else MoreArgs(ts, [], p)
  }

  /** The loop of `parseCall`, about to read an argument with `before` read so far. */
  function MoreArgs(ts: seq<Tok>, before: seq<Expr>, p: nat): (r: ParsedArgs)
    requires p <= |ts|
    ensures r.Args? ==> p <= r.next <= |ts|
    decreases |ts| - p, 4
  {
    match ParseExpr(ts, p)
    case Stuck => StuckArgs
    case Tree(e, q) =>
      if q < |ts| && ts[q] == Comma then MoreArgs(ts, before + [e], q + 1) else Args(before + [e], q)
  }

  // ----- token lists, piece by piece -----

  /** The tokens `w` stand at positions `p` up to `q`. */
  predicate At(ts: seq<Tok>, p: nat, q: nat, w: seq<Tok>) {
    p <= q <= |ts| && ts[p..q] == w
  }

  lemma AtOne(ts: seq<Tok>, p: nat)
    requires p < |ts|
    ensures At(ts, p, p + 1, [ts[p]])
  {
  }

  lemma AtJoin(ts: seq<Tok>, p: nat, m: nat, q: nat, a: seq<Tok>, b: seq<Tok>)
    requires At(ts, p, m, a) && At(ts, m, q, b)
    ensures p <= m <= q <= |ts| && At(ts, p, q, a + b)
  {
    assert ts[p..q] == ts[p..m] + ts[m..q];
  }

  lemma AtParts(ts: seq<Tok>, p: nat, q: nat, a: seq<Tok>, b: seq<Tok>)
    requires At(ts, p, q, a + b)
    ensures p + |a| + |b| == q <= |ts| && At(ts, p, p + |a|, a) && At(ts, p + |a|, q, b)
  {
    var all := a + b;
    assert ts[p..p + |a|] == all[..|a|] == a;
    assert ts[p + |a|..q] == all[|a|..] == b;
  }

  lemma AtHead(ts: seq<Tok>, p: nat, q: nat, w: seq<Tok>)
    requires At(ts, p, q, w)
    ensures p + |w| == q <= |ts| && forall k :: 0 <= k < |w| ==> ts[p + k] == w[k]
  {
  }

  /** A sign, a bracketed tree and an operator with its operands, each as its pieces. */
  lemma AtSign(ts: seq<Tok>, p: nat, q: nat, t: Tok, w: seq<Tok>)
    ensures At(ts, p, q, [t] + w) <==> p < q <= |ts| && ts[p] == t && At(ts, p + 1, q, w)
  {
    if At(ts, p, q, [t] + w) {
      AtParts(ts, p, q, [t], w);
      AtHead(ts, p, p + 1, [t]);
    }
    if p < q <= |ts| && ts[p] == t && At(ts, p + 1, q, w) {
      AtOne(ts, p);
      AtJoin(ts, p, p + 1, q, [t], w);
    }
  }

  lemma AtClosed(ts: seq<Tok>, p: nat, q: nat, w: seq<Tok>, t: Tok)
    ensures At(ts, p, q, w + [t]) <==> p < q <= |ts| && ts[q - 1] == t && At(ts, p, q - 1, w)
  {
    if At(ts, p, q, w + [t]) {
      AtParts(ts, p, q, w, [t]);
      AtHead(ts, q - 1, q, [t]);
    }
    if p < q <= |ts| && ts[q - 1] == t && At(ts, p, q - 1, w) {
      AtOne(ts, q - 1);
      AtJoin(ts, p, q - 1, q, w, [t]);
    }
  }

  lemma AtParen(ts: seq<Tok>, p: nat, q: nat, x: Expr)
    ensures At(ts, p, q, Write(Paren(x))) <==>
            p + 1 < q <= |ts| && ts[p] == LPar && ts[q - 1] == RPar && At(ts, p + 1, q - 1, Write(x))
  {
    assert Write(Paren(x)) == [LPar] + (Write(x) + [RPar]);
    AtSign(ts, p, q, LPar, Write(x) + [RPar]);
    AtClosed(ts, p + 1, q, Write(x), RPar);
  }

  lemma AtCall(ts: seq<Tok>, p: nat, q: nat, name: string, args: seq<Expr>)
    ensures At(ts, p, q, Write(Call(name, args))) <==>
            && p + 2 < q <= |ts| && ts[p] == Id(name) && ts[p + 1] == LPar && ts[q - 1] == RPar
            && At(ts, p + 2, q - 1, WriteArgs(args))
  {
    var w := WriteArgs(args) + [RPar];
    assert Write(Call(name, args)) == [Id(name)] + ([LPar] + w);
    AtSign(ts, p, q, Id(name), [LPar] + w);
    AtSign(ts, p + 1, q, LPar, w);
    AtClosed(ts, p + 2, q, WriteArgs(args), RPar);
  }

  lemma AtBinJoin(ts: seq<Tok>, p: nat, m: nat, q: nat, l: Expr, r: Expr)
    requires At(ts, p, m, Write(l)) && m < |ts| && ts[m].Op? && At(ts, m + 1, q, Write(r))
    ensures p <= m < q <= |ts| && At(ts, p, q, Write(Bin(ts[m].o, l, r)))
  {
    AtSign(ts, m, q, ts[m], Write(r));
    AtJoin(ts, p, m, q, Write(l), [ts[m]] + Write(r));
    assert Write(l) + [ts[m]] + Write(r) == Write(l) + ([ts[m]] + Write(r));
  }

  lemma AtBin(ts: seq<Tok>, p: nat, q: nat, e: Expr) returns (m: nat)
    requires e.Bin? && At(ts, p, q, Write(e))
    ensures p < m < q <= |ts| && At(ts, p, m, Write(e.l)) && ts[m] == Op(e.o) && At(ts, m + 1, q, Write(e.r))
  {
    m := p + |Write(e.l)|;
    var tail := [Op(e.o)] + Write(e.r);
    assert Write(e) == Write(e.l) + tail;
    AtParts(ts, p, q, Write(e.l), tail);
    AtSign(ts, m, q, Op(e.o), Write(e.r));
  }

  // ----- soundness: what is parsed, written again, is what was read -----

  ghost predicate Reads(ts: seq<Tok>, p: nat, e: Expr, q: nat) {
    p < q <= |ts| && Bracketed(e) && At(ts, p, q, Write(e))
  }

  ghost predicate AllBracketed(es: seq<Expr>) {
    forall e :: e in es ==> Bracketed(e)
  }

  ghost predicate Sound(ts: seq<Tok>, p: nat, r: Parsed, level: nat) {
    r.Tree? ==> Reads(ts, p, r.e, r.next) && Level(r.e) >= level
  }

  ghost predicate SoundList(ts: seq<Tok>, p: nat, r: ParsedArgs) {
    r.Args? ==> p <= r.next <= |ts| && At(ts, p, r.next, WriteArgs(r.es)) && AllBracketed(r.es)
  }

  lemma SoundExpr(ts: seq<Tok>, p: nat)
    requires p <= |ts|
    ensures Sound(ts, p, ParseExpr(ts, p), 0)
    decreases |ts| - p, 3
  {
    hide At, ParseSum, Write;
    SoundSum(ts, p);
    var l := ParseSum(ts, p);
    if l.Tree? && AtOp(ts, l.next, IsCompare) {
      SoundSum(ts, l.next + 1);
      var r := ParseSum(ts, l.next + 1);
      if r.Tree? { AtBinJoin(ts, p, l.next, r.next, l.e, r.e); }
    }
  }

  lemma SoundSum(ts: seq<Tok>, p: nat)
    requires p <= |ts|
    ensures Sound(ts, p, ParseSum(ts, p), 1)
    decreases |ts| - p, 2
  {
    hide At, ParseProduct, MoreSum, Write;
    SoundProduct(ts, p);
    var l := ParseProduct(ts, p);
    if l.Tree? { SoundMoreSum(ts, p, l.e, l.next); }
  }

  lemma SoundMoreSum(ts: seq<Tok>, p: nat, l: Expr, q: nat)
    requires Reads(ts, p, l, q) && Level(l) >= 1
    ensures Sound(ts, p, MoreSum(ts, l, q), 1)
    decreases |ts| - q, 0
  {
    hide At, ParseProduct, Write;
    if AtOp(ts, q, IsSum) {
      SoundProduct(ts, q + 1);
      var r := ParseProduct(ts, q + 1);
      if r.Tree? {
        AtBinJoin(ts, p, q, r.next, l, r.e);
        SoundMoreSum(ts, p, Bin(ts[q].o, l, r.e), r.next);
      }
    }
  }

  lemma SoundProduct(ts: seq<Tok>, p: nat)
    requires p <= |ts|
    ensures Sound(ts, p, ParseProduct(ts, p), 2)
    decreases |ts| - p, 1
  {
    hide At, ParseFactor, MoreProduct, Write;
    SoundFactor(ts, p);
    var l := ParseFactor(ts, p);
    if l.Tree? { SoundMoreProduct(ts, p, l.e, l.next); }
  }

  lemma SoundMoreProduct(ts: seq<Tok>, p: nat, l: Expr, q: nat)
    requires Reads(ts, p, l, q) && Level(l) >= 2
    ensures Sound(ts, p, MoreProduct(ts, l, q), 2)
    decreases |ts| - q, 0
  {
    hide At, ParseFactor, Write;
    if AtOp(ts, q, IsProduct) {
      SoundFactor(ts, q + 1);
      var r := ParseFactor(ts, q + 1);
      if r.Tree? {
        AtBinJoin(ts, p, q, r.next, l, r.e);
        SoundMoreProduct(ts, p, Bin(ts[q].o, l, r.e), r.next);
      }
    }
  }

  lemma SoundFactor(ts: seq<Tok>, p: nat)
    requires p <= |ts|
    ensures Sound(ts, p, ParseFactor(ts, p), 3)
    decreases |ts| - p, 0
  {
    hide At, ParseExpr, ParseArgs;
    if p < |ts| {
      match ts[p]
      case Op(Minus) =>
        SoundFactor(ts, p + 1);
        var r := ParseFactor(ts, p + 1);
        if r.Tree? { AtSign(ts, p, r.next, Op(Minus), Write(r.e)); }
      case Op(Plus) =>
        SoundFactor(ts, p + 1);
        var r := ParseFactor(ts, p + 1);
        if r.Tree? { AtSign(ts, p, r.next, Op(Plus), Write(r.e)); }
      case Num(_) => AtOne(ts, p);
      case Id(_) => SoundName(ts, p);
      case LPar =>
        SoundExpr(ts, p + 1);
        var r := ParseExpr(ts, p + 1);
        if r.Tree? && r.next < |ts| && ts[r.next] == RPar { AtParen(ts, p, r.next + 1, r.e); }
      case _ =>
    }
  }

  lemma SoundName(ts: seq<Tok>, p: nat)
    requires p < |ts| && ts[p].Id?
    ensures Sound(ts, p, ParseFactor(ts, p), 3)
    decreases |ts| - p - 1, 6
  {
    hide At, ParseArgs;
    if !(p + 1 < |ts| && ts[p + 1] == LPar) {
      AtOne(ts, p);
    } else if IsAggregate(ts[p].v) {
      if p + 3 < |ts| && ts[p + 2].Id? && ts[p + 3] == RPar { AtAgg(ts, p); }
    } else {
      SoundArgs(ts, p + 2);
      var r := ParseArgs(ts, p + 2);
      if r.Args? && r.next < |ts| && ts[r.next] == RPar { AtCall(ts, p, r.next + 1, ts[p].v, r.es); }
    }
  }

  lemma AtAgg(ts: seq<Tok>, p: nat)
    requires p + 3 < |ts| && ts[p].Id? && ts[p + 1] == LPar && ts[p + 2].Id? && ts[p + 3] == RPar
    ensures At(ts, p, p + 4, Write(Agg(ts[p].v, ts[p + 2].v)))
  {
  }

  lemma SoundArgs(ts: seq<Tok>, p: nat)
    requires p <= |ts|
    ensures SoundList(ts, p, ParseArgs(ts, p))
    decreases |ts| - p, 5
  {
    if !(p < |ts| && ts[p] == RPar) {
      hide MoreArgs;
      SoundMoreArgs(ts, [], p, p);
    }
  }

  /** The written form of an argument list that one more argument follows. */
  function WriteOpen(es: seq<Expr>): seq<Tok> {
    if es == [] then [] else WriteArgs(es) + [Comma]
  }

  lemma {:induction false} WriteArgsSnoc(es: seq<Expr>, e: Expr)
    ensures WriteArgs(es + [e]) == WriteOpen(es) + Write(e)
  {
    if |es| == 0 {
      assert es + [e] == [e];
    } else {
      assert (es + [e])[1..] == es[1..] + [e];
      WriteArgsSnoc(es[1..], e);
    }
  }

  lemma SoundMoreArgs(ts: seq<Tok>, before: seq<Expr>, start: nat, p: nat)
    requires start <= p <= |ts| && At(ts, start, p, WriteOpen(before)) && AllBracketed(before)
    ensures SoundList(ts, start, MoreArgs(ts, before, p))
    decreases |ts| - p, 4
  {
    hide At, ParseExpr, WriteArgs, Write;
    SoundExpr(ts, p);
    var r := ParseExpr(ts, p);
    if r.Tree? {
      var es, q := before + [r.e], r.next;
      WriteArgsSnoc(before, r.e);
      AtJoin(ts, start, p, q, WriteOpen(before), Write(r.e));
      assert AllBracketed(es);
      if q < |ts| && ts[q] == Comma {
        AtClosed(ts, start, q + 1, WriteArgs(es), Comma);
        SoundMoreArgs(ts, es, start, q + 1);
      }
    }
  }

  // ----- completeness: every bracketed tree is parsed back from its tokens -----

  predicate NoCall(ts: seq<Tok>, q: nat) {
    q < |ts| ==> ts[q] != LPar
  }

  lemma CompleteFactor(ts: seq<Tok>, p: nat, q: nat, e: Expr)
    requires Bracketed(e) && Level(e) == 3 && At(ts, p, q, Write(e)) && NoCall(ts, q)
    ensures ParseFactor(ts, p) == Tree(e, q)
    decreases e, 0
  {
    hide At, ParseExpr, ParseArgs;
    match e
    case Lit(_) =>
      AtHead(ts, p, q, Write(e));
      assert ts[p + 0] == Write(e)[0];
    case Ref(_) =>
      AtHead(ts, p, q, Write(e));
      assert ts[p + 0] == Write(e)[0];
    case Neg(x) =>
      AtSign(ts, p, q, Op(Minus), Write(x));
      CompleteFactor(ts, p + 1, q, x);
    case Pos(x) =>
      AtSign(ts, p, q, Op(Plus), Write(x));
      CompleteFactor(ts, p + 1, q, x);
    case Paren(x) =>
      AtParen(ts, p, q, x);
      CompleteExpr(ts, p + 1, q - 1, x);
    case Call(_, _) => CompleteCall(ts, p, q, e);
    case Agg(_, _) => CompleteAgg(ts, p, q, e);
  }

  lemma CompleteAgg(ts: seq<Tok>, p: nat, q: nat, e: Expr)
    requires e.Agg? && Bracketed(e) && At(ts, p, q, Write(e))
    ensures p <= |ts| && ParseFactor(ts, p) == Tree(e, q)
  {
    AtHead(ts, p, q, Write(e));
    assert ts[p + 0] == Write(e)[0] && ts[p + 1] == Write(e)[1];
    assert ts[p + 2] == Write(e)[2] && ts[p + 3] == Write(e)[3];
  }

  lemma CompleteCall(ts: seq<Tok>, p: nat, q: nat, e: Expr)
    requires e.Call? && Bracketed(e) && At(ts, p, q, Write(e))
    ensures p <= |ts| && ParseFactor(ts, p) == Tree(e, q)
    decreases e.args, 5
  {
    hide At, ParseExpr, Write;
    AtCall(ts, p, q, e.name, e.args);
    if e.args == [] {
      AtHead(ts, p + 2, q - 1, WriteArgs([]));
    } else {
      FirstToken(ts, p + 2, q - 1, e.args);
      CompleteArgs(ts, p + 2, q - 1, [], e.args);
      assert [] + e.args == e.args;
    }
  }

  lemma FirstToken(ts: seq<Tok>, p: nat, q: nat, args: seq<Expr>)
    requires args != [] && At(ts, p, q, WriteArgs(args))
    ensures p < q <= |ts| && ts[p] != RPar
  {
    AtHead(ts, p, q, WriteArgs(args));
    assert ts[p + 0] == WriteArgs(args)[0] == Write(args[0])[0];
    WriteStart(args[0]);
  }

  lemma WriteStart(e: Expr)
    ensures Write(e)[0] != RPar
  {
  }

  lemma CompleteProduct(ts: seq<Tok>, p: nat, q: nat, e: Expr)
    requires Bracketed(e) && Level(e) >= 2 && At(ts, p, q, Write(e)) && NoCall(ts, q)
    ensures p <= |ts| && q <= |ts| && ParseProduct(ts, p) == MoreProduct(ts, e, q)
    decreases e, 1
  {
    hide At, Write, ParseFactor;
    if e.Bin? {
      var m := AtBin(ts, p, q, e);
      CompleteProduct(ts, p, m, e.l);
      CompleteFactor(ts, m + 1, q, e.r);
    } else {
      CompleteFactor(ts, p, q, e);
    }
  }

  lemma CompleteSum(ts: seq<Tok>, p: nat, q: nat, e: Expr)
    requires Bracketed(e) && Level(e) >= 1 && At(ts, p, q, Write(e)) && NoCall(ts, q)
    requires !AtOp(ts, q, IsProduct)
    ensures p <= |ts| && q <= |ts| && ParseSum(ts, p) == MoreSum(ts, e, q)
    decreases e, 2
  {
    hide At, Write, ParseProduct;
    if Level(e) == 1 {
      var m := AtBin(ts, p, q, e);
      CompleteSum(ts, p, m, e.l);
      CompleteProduct(ts, m + 1, q, e.r);
    } else {
      CompleteProduct(ts, p, q, e);
    }
  }

  lemma CompleteExpr(ts: seq<Tok>, p: nat, q: nat, e: Expr)
    requires Bracketed(e) && At(ts, p, q, Write(e))
    requires q < |ts| ==> ts[q] == RPar || ts[q] == Comma
    ensures p <= |ts| && ParseExpr(ts, p) == Tree(e, q)
    decreases e, 3
  {
    hide At, Write, ParseSum;
    if Level(e) == 0 {
      var m := AtBin(ts, p, q, e);
      CompleteSum(ts, p, m, e.l);
      CompleteSum(ts, m + 1, q, e.r);
    } else {
      CompleteSum(ts, p, q, e);
    }
  }

  lemma AtArgs(ts: seq<Tok>, p: nat, q: nat, args: seq<Expr>) returns (m: nat)
    requires |args| > 1 && At(ts, p, q, WriteArgs(args))
    ensures p < m < q <= |ts| && At(ts, p, m, Write(args[0])) && ts[m] == Comma
    ensures At(ts, m + 1, q, WriteArgs(args[1..]))
  {
    var tail := [Comma] + WriteArgs(args[1..]);
    assert WriteArgs(args) == Write(args[0]) + tail;
    m := p + |Write(args[0])|;
    hide At, WriteArgs;
    AtParts(ts, p, q, Write(args[0]), tail);
    AtSign(ts, m, q, Comma, WriteArgs(args[1..]));
  }

  lemma CompleteArgs(ts: seq<Tok>, p: nat, q: nat, before: seq<Expr>, args: seq<Expr>)
    requires args != [] && AllBracketed(args) && At(ts, p, q, WriteArgs(args))
    requires q < |ts| && ts[q] == RPar
    ensures p <= |ts| && MoreArgs(ts, before, p) == Args(before + args, q)
    decreases args, 4
  {
    hide At, Write, ParseExpr;
    var e, rest := args[0], args[1..];
    if rest == [] {
      assert args == [e];
      CompleteExpr(ts, p, q, e);
    } else {
      var m := AtArgs(ts, p, q, args);
      CompleteExpr(ts, p, m, e);
      CompleteArgs(ts, m + 1, q, before + [e], rest);
      assert before + [e] + rest == before + args;
    }
  }

  // ----- the two together -----

  /** What `evalFormula` accepts: an expression that uses up all tokens. */
  function Parse(ts: seq<Tok>): Option<Expr> {
    match ParseExpr(ts, 0)
    case Stuck => None
    case Tree(e, q) => if q == |ts| then Some(e) else None
  }

  /** The parser accepts exactly the written forms of bracketed trees, and gives back the tree. */
  lemma ParseExactly(ts: seq<Tok>, e: Expr)
    ensures Parse(ts) == Some(e) <==> Bracketed(e) && Write(e) == ts
  {
    if Parse(ts) == Some(e) {
      SoundExpr(ts, 0);
      assert ts[0..|ts|] == ts;
    }
    if Bracketed(e) && Write(e) == ts {
      assert ts[0..|ts|] == ts;
      CompleteExpr(ts, 0, |ts|, e);
    }
  }
}
