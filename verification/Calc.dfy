/**
 The server's completion of a record before it is stored: automatic numbers, the calculated columns
 of subtables, then the calculated fields one after the other in the order the fields come in.
 */
module Calc {
  import opened Numbers
  import opened Values
  import opened Rules
  import Evaluator
  import Formulas

  datatype Definition = ByRules(rules: seq<Rule>, fallback: Option<Val>) | ByFormula(formula: string)

  datatype FieldType =
    | AutoNumber(prefix: string, padding: int)
    | Subtable(columns: seq<Field>)
    | Calculated(def: Definition)
    | Plain

  datatype Field = Field(code: string, ftype: FieldType)

  // ----- one calculated value -----

  function CalcValue(h: Host, def: Definition, vals: Record): Val {
    match def
    case ByRules(rules, fallback) => EvalRules(h, rules, fallback, vals)
    case ByFormula(formula) => if formula == "" then EMPTY else Evaluator.FormulaResult(h, formula, vals)
  }

  function CalcReads(def: Definition): set<string> {
    match def
    case ByRules(rules, _) => RulesRead(rules)
    case ByFormula(formula) => Formulas.FormulaReads(formula)
  }

  lemma CalcReadsOnly(h: Host, def: Definition, a: Record, b: Record)
    requires Formulas.AgreeOn(CalcReads(def), a, b)
    ensures CalcValue(h, def, a) == CalcValue(h, def, b)
  {
    match def
    case ByRules(rules, fallback) => EvalRulesReads(h, rules, fallback, a, b);
    case ByFormula(formula) => Formulas.FormulaReadsOnly(h, formula, a, b);
  }

  method ComputeValue(h: Host, def: Definition, vals: Record) returns (v: Val)
    ensures v == CalcValue(h, def, vals)
  {
    match def
    case ByRules(rules, fallback) => v := EvalRules(h, rules, fallback, vals);
    case ByFormula(formula) =>
      if formula == "" {
        v := EMPTY;
      } else {
        v := Evaluator.EvalFormula(h, formula, vals);
      }
  }

  // ----- the calculated fields in order -----

  function CalcStep(h: Host, f: Field, vals: Record): Record {
    if f.ftype.Calculated? then vals[f.code := CalcValue(h, f.ftype.def, vals)] else vals
  }

  function Calcs(h: Host, fields: seq<Field>, base: Record): Record {
    if fields == [] then base
    else CalcStep(h, fields[|fields| - 1], Calcs(h, fields[..|fields| - 1], base))
  }

  /** The preview the client computes while a form is filled in, and the last loop of the server. */
  method ComputeCalcFields(h: Host, fields: seq<Field>, data: Record) returns (acc: Record)
    ensures acc == Calcs(h, fields, data)
  {
    acc := data;
    for i := 0 to |fields|
      invariant acc == Calcs(h, fields[..i], data)
    {
      var f := fields[i];
      assert fields[..i + 1][..i] == fields[..i];
      if f.ftype.Calculated? {
        var v := ComputeValue(h, f.ftype.def, acc);
        acc := acc[f.code := v];
      }
    }
    assert fields[..|fields|] == fields;
  }

  // ----- calculated fields as simultaneous equations -----

  ghost predicate Unique(fields: seq<Field>) {
    forall i, j :: 0 <= i < j < |fields| ==> fields[i].code != fields[j].code
  }

  predicate CalcAt(fields: seq<Field>, i: int) {
    0 <= i < |fields| && fields[i].ftype.Calculated?
  }

  /** Each calculated field reads only plain fields and calculated fields before it. */
  ghost predicate Ordered(fields: seq<Field>) {
    forall i, j :: CalcAt(fields, i) && CalcAt(fields, j) && i <= j ==> fields[j].code !in CalcReads(fields[i].ftype.def)
  }

  ghost predicate IsCalcCode(fields: seq<Field>, code: string) {
    exists i :: CalcAt(fields, i) && fields[i].code == code
  }

  /** `r` keeps the plain values of `base`, and every calculated field holds its value in `r` itself. */
  ghost predicate Solves(h: Host, fields: seq<Field>, base: Record, r: Record) {
    && (forall code :: !IsCalcCode(fields, code) ==> Lookup(r, code) == Lookup(base, code))
    && (forall i :: CalcAt(fields, i) ==>
          Lookup(r, fields[i].code) == Some(CalcValue(h, fields[i].ftype.def, r)))
  }

  lemma PrefixOk(fields: seq<Field>, k: nat)
    requires k <= |fields| && Unique(fields) && Ordered(fields)
    ensures Unique(fields[..k]) && Ordered(fields[..k])
  {
    var p := fields[..k];
    forall i, j | CalcAt(p, i) && CalcAt(p, j) && i <= j ensures p[j].code !in CalcReads(p[i].ftype.def) {
      assert CalcAt(fields, i) && CalcAt(fields, j);
    }
  }

  /** The loop solves the equations. */
  lemma {:induction false} CalcsSolve(h: Host, fields: seq<Field>, base: Record)
    requires Unique(fields) && Ordered(fields)
    ensures Solves(h, fields, base, Calcs(h, fields, base))
  {
    if fields != [] {
      var n := |fields| - 1;
      var p, f := fields[..n], fields[n];
      PrefixOk(fields, n);
      CalcsSolve(h, p, base);
      var before := Calcs(h, p, base);
      var r := CalcStep(h, f, before);
      forall i | CalcAt(fields, i)
        ensures Lookup(r, fields[i].code) == Some(CalcValue(h, fields[i].ftype.def, r))
      {
        if f.ftype.Calculated? {
          assert CalcAt(fields, n);
          CalcReadsOnly(h, fields[i].ftype.def, before, r);
        }
        assert i < n ==> CalcAt(p, i) && p[i] == fields[i];
      }
      forall code | !IsCalcCode(fields, code) ensures Lookup(r, code) == Lookup(base, code) {
        assert !IsCalcCode(p, code) by {
          if i :| CalcAt(p, i) && p[i].code == code { assert CalcAt(fields, i); }
        }
        assert f.ftype.Calculated? ==> CalcAt(fields, n);
      }
    }
  }

  /** Nothing else does: a solution agrees with the loop after every one of its rounds. */
  lemma {:induction false} SolutionUnique(h: Host, fields: seq<Field>, base: Record, r: Record, k: nat, code: string)
    requires Unique(fields) && Ordered(fields) && Solves(h, fields, base, r)
    requires k <= |fields| && forall i :: CalcAt(fields, i) && i >= k ==> fields[i].code != code
    ensures Lookup(Calcs(h, fields[..k], base), code) == Lookup(r, code)
    decreases k
  {
    hide Unique, CalcValue, CalcReads;
    if k == 0 {
      assert fields[..0] == [];
      assert !IsCalcCode(fields, code);
    } else {
      var p, f := fields[..k - 1], fields[k - 1];
      assert fields[..k][..k - 1] == p;
      var before := Calcs(h, p, base);
      if f.ftype.Calculated? && f.code == code {
        assert CalcAt(fields, k - 1);
        forall c | c in CalcReads(f.ftype.def) ensures Lookup(before, c) == Lookup(r, c) {
          SolutionUnique(h, fields, base, r, k - 1, c);
        }
        CalcReadsOnly(h, f.ftype.def, before, r);
      } else {
        SolutionUnique(h, fields, base, r, k - 1, code);
      }
    }
  }

  lemma SameRecord(a: Record, b: Record)
    requires forall code :: Lookup(a, code) == Lookup(b, code)
    ensures a == b
  {
    forall code ensures code in a <==> code in b {
      assert Lookup(a, code) == Lookup(b, code);
    }
    forall code | code in a ensures a[code] == b[code] {
      assert Lookup(a, code) == Lookup(b, code);
    }
  }

  lemma OnlySolution(h: Host, fields: seq<Field>, base: Record, r: Record)
    requires Unique(fields) && Ordered(fields) && Solves(h, fields, base, r)
    ensures r == Calcs(h, fields, base)
  {
    assert fields[..|fields|] == fields;
    forall code ensures Lookup(Calcs(h, fields, base), code) == Lookup(r, code) {
      SolutionUnique(h, fields, base, r, |fields|, code);
    }
    SameRecord(Calcs(h, fields, base), r);
  }

  ghost predicate SameFields(a: seq<Field>, b: seq<Field>) {
    multiset(a) == multiset(b)
  }

  lemma SameFieldsIndex(a: seq<Field>, b: seq<Field>, i: nat) returns (j: nat)
    requires SameFields(a, b) && i < |a|
    ensures j < |b| && b[j] == a[i]
  {
    assert a[i] in multiset(b);
    j :| j < |b| && b[j] == a[i];
  }

  // ----- when two orders agree -----

  /** `f` reads the other calculated field `g`. */
  predicate ReadsCalc(f: Field, g: Field) {
    f != g && f.ftype.Calculated? && g.ftype.Calculated? && g.code in CalcReads(f.ftype.def)
  }

  ghost predicate Precedes(fields: seq<Field>, g: Field, f: Field) {
    exists k, i :: 0 <= k < i < |fields| && fields[k] == g && fields[i] == f
  }

  /** The two orders put each calculated field on the same side of every calculated field it reads. */
  ghost predicate Agree(a: seq<Field>, b: seq<Field>) {
    forall f, g :: f in a && g in a && ReadsCalc(f, g) ==> (Precedes(a, g, f) <==> Precedes(b, g, f))
  }

  lemma PrecedesAt(fields: seq<Field>, k: nat, i: nat)
    requires Unique(fields) && k < |fields| && i < |fields|
    ensures Precedes(fields, fields[k], fields[i]) <==> k < i
  {
  }

  /** Orders that put dependencies first agree. */
  lemma OrderedAgree(a: seq<Field>, b: seq<Field>)
    requires SameFields(a, b) && Unique(a) && Unique(b) && Ordered(a) && Ordered(b)
    ensures Agree(a, b)
  {
    forall f, g | f in a && g in a && ReadsCalc(f, g) ensures Precedes(a, g, f) && Precedes(b, g, f) {
      OrderedPrecedes(a, f, g);
      assert f in multiset(a) && g in multiset(a);
      OrderedPrecedes(b, f, g);
    }
  }

  lemma OrderedPrecedes(fields: seq<Field>, f: Field, g: Field)
    requires Ordered(fields) && f in fields && g in fields && ReadsCalc(f, g)
    ensures Precedes(fields, g, f)
  {
    var i :| 0 <= i < |fields| && fields[i] == f;
    var k :| 0 <= k < |fields| && fields[k] == g;
    assert CalcAt(fields, i) && CalcAt(fields, k);
  }

  /** The value a calculated field gets at its turn. */
  function ValueAt(h: Host, fields: seq<Field>, base: Record, k: nat): Val
    requires CalcAt(fields, k)
  {
    CalcValue(h, fields[k].ftype.def, Calcs(h, fields[..k], base))
  }

  /** Once computed, a value stays. */
  lemma {:induction false} Seen(h: Host, fields: seq<Field>, base: Record, k: nat, i: nat)
    requires Unique(fields) && CalcAt(fields, k) && k < i <= |fields|
    ensures Lookup(Calcs(h, fields[..i], base), fields[k].code) == Some(ValueAt(h, fields, base, k))
    decreases i
  {
    hide CalcValue;
    var n := i - 1;
    assert fields[..i][..n] == fields[..n];
    if k < n { Seen(h, fields, base, k, n); }
  }

  /** What no field has computed so far is as it was. */
  lemma {:induction false} NotSeen(h: Host, fields: seq<Field>, base: Record, i: nat, code: string)
    requires i <= |fields| && forall k :: CalcAt(fields, k) && k < i ==> fields[k].code != code
    ensures Lookup(Calcs(h, fields[..i], base), code) == Lookup(base, code)
    decreases i
  {
    hide CalcValue;
    if i > 0 {
      var n := i - 1;
      assert fields[..i][..n] == fields[..n];
      assert CalcAt(fields, n) ==> fields[n].code != code;
      NotSeen(h, fields, base, n, code);
    }
  }

  /** In orders that agree, a field sees the same values at its turn, and so gets the same one. */
  lemma {:induction false} SameValue(h: Host, a: seq<Field>, b: seq<Field>, base: Record, i: nat, j: nat)
    requires SameFields(a, b) && Unique(a) && Unique(b) && Agree(a, b)
    requires CalcAt(a, i) && j < |b| && b[j] == a[i]
    ensures ValueAt(h, a, base, i) == ValueAt(h, b, base, j)
    decreases i
  {
    hide CalcValue, CalcReads, SameFields, Agree, Unique, Calcs;
    var f := a[i];
    forall c | c in CalcReads(f.ftype.def)
      ensures Lookup(Calcs(h, a[..i], base), c) == Lookup(Calcs(h, b[..j], base), c)
    {
      if k: nat :| CalcAt(a, k) && k < i && a[k].code == c {
        var l := SameFieldsIndex(a, b, k);
        SameSide(a, b, i, j, k, l);
        Seen(h, a, base, k, i);
        Seen(h, b, base, l, j);
        SameValue(h, a, b, base, k, l);
      } else {
        NotSeen(h, a, base, i, c);
        forall l: nat | CalcAt(b, l) && l < j ensures b[l].code != c {
          if b[l].code == c {
            SameFieldsBack(a, b);
            var k := SameFieldsIndex(b, a, l);
            SameSide(a, b, i, j, k, l);
          }
        }
        NotSeen(h, b, base, j, c);
      }
    }
    CalcReadsOnly(h, f.ftype.def, Calcs(h, a[..i], base), Calcs(h, b[..j], base));
  }

  lemma SameFieldsBack(a: seq<Field>, b: seq<Field>)
    requires SameFields(a, b)
    ensures SameFields(b, a)
  {
  }

  /** A field that is read stands on the same side in both orders. */
  lemma SameSide(a: seq<Field>, b: seq<Field>, i: nat, j: nat, k: nat, l: nat)
    requires Unique(a) && Unique(b) && Agree(a, b) && i < |a| && k < |a| && j < |b| && l < |b|
    requires a[i] == b[j] && a[k] == b[l] && CalcAt(a, i) && CalcAt(a, k) && a[k].code in CalcReads(a[i].ftype.def)
    ensures k < i <==> l < j
  {
    hide CalcReads;
    PrecedesAt(a, k, i);
    PrecedesAt(b, l, j);
    if a[i] == a[k] {
      SamePlace(a, i, k);
      SamePlace(b, j, l);
    } else {
      assert ReadsCalc(a[i], a[k]);
    }
  }

  lemma SamePlace(fields: seq<Field>, i: nat, k: nat)
    requires Unique(fields) && i < |fields| && k < |fields| && fields[i] == fields[k]
    ensures i == k
  {
  }

  /** Orders that agree compute the same record, whatever the other values are and also where fields read in circles. */
  lemma CalcsConfluent(h: Host, a: seq<Field>, b: seq<Field>, base: Record)
    requires SameFields(a, b) && Unique(a) && Unique(b) && Agree(a, b)
    ensures Calcs(h, a, base) == Calcs(h, b, base)
  {
    hide CalcValue, SameFields, Agree, Unique, Calcs;
    assert a[..|a|] == a && b[..|b|] == b;
    SameFieldsBack(a, b);
    forall code ensures Lookup(Calcs(h, a, base), code) == Lookup(Calcs(h, b, base), code) {
      if k: nat :| CalcAt(a, k) && a[k].code == code {
        var j := SameFieldsIndex(a, b, k);
        Seen(h, a, base, k, |a|);
        Seen(h, b, base, j, |b|);
        SameValue(h, a, b, base, k, j);
      } else {
        NotSeen(h, a, base, |a|, code);
        forall l: nat | CalcAt(b, l) ensures b[l].code != code {
          var k := SameFieldsIndex(b, a, l);
          assert CalcAt(a, k);
        }
        NotSeen(h, b, base, |b|, code);
      }
    }
    SameRecord(Calcs(h, a, base), Calcs(h, b, base));
  }

  /** Computing again changes nothing. */
  lemma CalcsIdempotent(h: Host, fields: seq<Field>, base: Record)
    requires Unique(fields) && Ordered(fields)
    ensures Calcs(h, fields, Calcs(h, fields, base)) == Calcs(h, fields, base)
  {
    var r := Calcs(h, fields, base);
    CalcsSolve(h, fields, base);
    assert Solves(h, fields, r, r);
    OnlySolution(h, fields, r, r);
  }
}
