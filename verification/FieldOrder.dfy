/**
 The database lists fields in no declared order. Which orders of the same fields compute the same records,
 and what happens in a wrong one.
 */
module FieldOrder {
  import opened Calc
  import opened Completion
  import opened Numbers
  import opened Rules
  import opened Values

  // ----- definitions to tell orders apart -----

  /** A field that is 1 while `code` is empty and 2 afterwards. */
  function Sensitive(code: string): Definition {
    ByRules([Rule([Cond(code, "empty", None, None, None, None)], Some(Number(Fin(1.0))))], Some(Number(Fin(2.0))))
  }

  lemma SensitiveValue(h: Host, code: string, vals: Record)
    ensures CalcValue(h, Sensitive(code), vals) == Number(Fin(if IsBlank(Lookup(vals, code)) then 1.0 else 2.0))
  {
    var rules, c := Sensitive(code).rules, Sensitive(code).rules[0].conds[0];
    assert rules[0].conds == [c] && Holds(h, c, vals) == IsBlank(Lookup(vals, code));
    var k := if Applies(h, rules[0], vals) then 0 else 1;
    assert c in rules[0].conds;
    FirstRuleDecides(h, rules, Sensitive(code).fallback, vals, k);
  }

  lemma SensitiveReads(code: string)
    ensures CalcReads(Sensitive(code)) == {code}
  {
    var rules, c := Sensitive(code).rules, Sensitive(code).rules[0].conds[0];
    assert rules == [Rule([c], Some(Number(Fin(1.0))))] && rules[0] in rules && c in rules[0].conds;
    assert CondReads(c) == {code};
  }

  /** A field that is always 1. */
  const CONSTANT := ByRules([], Some(Number(Fin(1.0))))

  lemma ConstantValue(h: Host, vals: Record)
    ensures CalcValue(h, CONSTANT, vals) == Number(Fin(1.0)) && CalcReads(CONSTANT) == {}
  {
    FirstRuleDecides(h, [], Some(Number(Fin(1.0))), vals, 0);
  }

  // ----- other definitions for the same fields -----

  function Redef(f: Field, defs: map<string, Definition>): Field {
    if f.ftype.Calculated? && f.code in defs then Field(f.code, Calculated(defs[f.code])) else f
  }

  function Redefined(fields: seq<Field>, defs: map<string, Definition>): (r: seq<Field>)
    ensures |r| == |fields| && forall k :: 0 <= k < |fields| ==> r[k] == Redef(fields[k], defs)
  {
    seq(|fields|, k requires 0 <= k < |fields| => Redef(fields[k], defs))
  }

  /** No definition reads more than before. */
  ghost predicate Narrower(fields: seq<Field>, defs: map<string, Definition>) {
    forall f :: f in fields && f.ftype.Calculated? && f.code in defs ==> CalcReads(defs[f.code]) <= CalcReads(f.ftype.def)
  }

  lemma {:induction false} UniqueCount(fields: seq<Field>, f: Field)
    requires Unique(fields)
    ensures multiset(fields)[f] == if f in fields then 1 else 0
  {
    if fields != [] {
      var n := |fields| - 1;
      assert fields == fields[..n] + [fields[n]];
      UniqueCount(fields[..n], f);
    }
  }

  lemma RedefinedUnique(fields: seq<Field>, defs: map<string, Definition>)
    requires Unique(fields)
    ensures Unique(Redefined(fields, defs))
  {
  }

  lemma RedefinedIn(a: seq<Field>, b: seq<Field>, defs: map<string, Definition>, f: Field)
    requires SameFields(a, b) && f in Redefined(a, defs)
    ensures f in Redefined(b, defs)
  {
    var i :| 0 <= i < |a| && Redefined(a, defs)[i] == f;
    var j := SameFieldsIndex(a, b, i);
    assert Redefined(b, defs)[j] == f;
  }

  lemma RedefinedSame(a: seq<Field>, b: seq<Field>, defs: map<string, Definition>)
    requires SameFields(a, b) && Unique(a) && Unique(b)
    ensures SameFields(Redefined(a, defs), Redefined(b, defs))
  {
    var x, y := Redefined(a, defs), Redefined(b, defs);
    RedefinedUnique(a, defs);
    RedefinedUnique(b, defs);
    SameFieldsBack(a, b);
    forall f: Field ensures multiset(x)[f] == multiset(y)[f] {
      UniqueCount(x, f);
      UniqueCount(y, f);
      if f in x { RedefinedIn(a, b, defs, f); }
      if f in y { RedefinedIn(b, a, defs, f); }
    }
    assert multiset(x) == multiset(y);
  }

  lemma RedefinedAgree(a: seq<Field>, b: seq<Field>, defs: map<string, Definition>)
    requires SameFields(a, b) && Unique(a) && Unique(b) && Agree(a, b) && Narrower(a, defs)
    ensures Agree(Redefined(a, defs), Redefined(b, defs))
  {
    hide CalcReads, Agree;
    var x, y := Redefined(a, defs), Redefined(b, defs);
    RedefinedUnique(a, defs);
    RedefinedUnique(b, defs);
    forall f, g | f in x && g in x && ReadsCalc(f, g) ensures Precedes(x, g, f) <==> Precedes(y, g, f) {
      var i :| 0 <= i < |x| && x[i] == f;
      var k :| 0 <= k < |x| && x[k] == g;
      var j := SameFieldsIndex(a, b, i);
      var l := SameFieldsIndex(a, b, k);
      assert a[i] in a && CalcAt(a, i) && CalcAt(a, k);
      SameSide(a, b, i, j, k, l);
      PrecedesAt(x, k, i);
      PrecedesAt(y, l, j);
      assert y[j] == f && y[l] == g;
    }
    AgreeIntro(x, y);
  }

  lemma AgreeIntro(a: seq<Field>, b: seq<Field>)
    requires forall f, g :: f in a && g in a && ReadsCalc(f, g) ==> (Precedes(a, g, f) <==> Precedes(b, g, f))
    ensures Agree(a, b)
  {
  }

  // ----- orders that do not agree -----

  function CalcCodes(fields: seq<Field>): set<string> {
    set k | 0 <= k < |fields| && fields[k].ftype.Calculated? :: fields[k].code
  }

  /** `f` is sensitive to `g`, and all other calculated fields are constant. */
  function Probe(fields: seq<Field>, f: Field, g: Field): map<string, Definition> {
    map code | code in CalcCodes(fields) :: if code == f.code then Sensitive(g.code) else CONSTANT
  }

  lemma ProbeNarrower(h: Host, fields: seq<Field>, f: Field, g: Field)
    requires Unique(fields) && f in fields && ReadsCalc(f, g)
    ensures Narrower(fields, Probe(fields, f, g))
  {
    hide CalcReads, Sensitive;
    SensitiveReads(g.code);
    ConstantValue(h, map[]);
    forall e | e in fields && e.ftype.Calculated? && e.code == f.code ensures e == f {}
  }

  lemma ProbeAt(fields: seq<Field>, f: Field, g: Field, k: nat)
    requires CalcAt(fields, k)
    ensures Redefined(fields, Probe(fields, f, g))[k]
         == Field(fields[k].code, Calculated(if fields[k].code == f.code then Sensitive(g.code) else CONSTANT))
  {
    hide Sensitive;
    assert fields[k].code in CalcCodes(fields);
  }

  /** The sensitive field shows on which side of it the other one stands. */
  lemma ProbeShows(h: Host, fields: seq<Field>, q: nat, p: nat)
    requires Unique(fields) && CalcAt(fields, q) && CalcAt(fields, p) && p != q
    ensures Lookup(Calcs(h, Redefined(fields, Probe(fields, fields[q], fields[p])), map[]), fields[q].code)
         == Some(Number(Fin(if p < q then 2.0 else 1.0)))
  {
    hide Calcs, CalcValue, Sensitive, Probe;
    var f, g := fields[q], fields[p];
    var s := Redefined(fields, Probe(fields, f, g));
    RedefinedUnique(fields, Probe(fields, f, g));
    ProbeAt(fields, f, g, q);
    ProbeAt(fields, f, g, p);
    assert f.code != g.code && s[..|s|] == s;
    Seen(h, s, map[], q, |s|);
    SensitiveValue(h, g.code, Calcs(h, s[..q], map[]));
    if p < q {
      Seen(h, s, map[], p, q);
      ConstantValue(h, Calcs(h, s[..p], map[]));
    } else {
      assert s[p].code == g.code;
      NotSeen(h, s, map[], q, g.code);
    }
  }

  lemma CompletedEmpty(h: Host, fields: seq<Field>, counters: map<string, nat>)
    ensures Completed(h, fields, map[], false, None, counters) == Calcs(h, fields, map[])
  {
    EachFixed(Numbering(false, None, counters), fields, map[]);
    EachFixed(RowCalcs(h), fields, map[]);
  }

  /** Definitions that read no more than the given ones and tell two orders apart that do not agree. */
  lemma Disagree(h: Host, a: seq<Field>, b: seq<Field>, counters: map<string, nat>) returns (defs: map<string, Definition>)
    requires SameFields(a, b) && Unique(a) && Unique(b) && !Agree(a, b)
    ensures Narrower(a, defs)
    ensures Completed(h, Redefined(a, defs), map[], false, None, counters)
         != Completed(h, Redefined(b, defs), map[], false, None, counters)
  {
    var f, g :| f in a && g in a && ReadsCalc(f, g) && !(Precedes(a, g, f) <==> Precedes(b, g, f));
    hide Calcs, Completed, Probe, CalcReads, SameFields, Unique, Agree, Precedes;
    var q: nat :| q < |a| && a[q] == f;
    var p: nat :| p < |a| && a[p] == g;
    var j := SameFieldsIndex(a, b, q);
    var l := SameFieldsIndex(a, b, p);
    PrecedesAt(a, p, q);
    PrecedesAt(b, l, j);
    defs := Probe(a, f, g);
    ProbeSame(a, b, f, g);
    ProbeNarrower(h, a, f, g);
    ProbeShows(h, a, q, p);
    ProbeShows(h, b, j, l);
    CompletedEmpty(h, Redefined(a, defs), counters);
    CompletedEmpty(h, Redefined(b, defs), counters);
  }

  lemma ProbeSame(a: seq<Field>, b: seq<Field>, f: Field, g: Field)
    requires SameFields(a, b)
    ensures Probe(a, f, g) == Probe(b, f, g)
  {
    hide Sensitive;
    SameFieldsBack(a, b);
    forall code | code in CalcCodes(a) ensures code in CalcCodes(b) { CalcCodesIn(a, b, code); }
    forall code | code in CalcCodes(b) ensures code in CalcCodes(a) { CalcCodesIn(b, a, code); }
    assert CalcCodes(a) == CalcCodes(b);
  }

  lemma CalcCodesIn(a: seq<Field>, b: seq<Field>, code: string)
    requires SameFields(a, b) && code in CalcCodes(a)
    ensures code in CalcCodes(b)
  {
    var k: nat :| k < |a| && a[k].ftype.Calculated? && a[k].code == code;
    var j := SameFieldsIndex(a, b, k);
    assert b[j].code == code;
  }

  // ----- the exact condition -----

  /** Both orders complete every record to the same, whichever definitions the fields have that read no more. */
  ghost predicate AlwaysSame(h: Host, a: seq<Field>, b: seq<Field>) {
    forall defs, input, create, existing, counters :: Narrower(a, defs) ==>
      Completed(h, Redefined(a, defs), input, create, existing, counters)
      == Completed(h, Redefined(b, defs), input, create, existing, counters)
  }

  /**
   Two orders of the same fields always complete records to the same exactly when every calculated field stands
   on the same side of each calculated field it reads.
   */
  lemma OrdersExactly(h: Host, a: seq<Field>, b: seq<Field>)
    requires SameFields(a, b) && Unique(a) && Unique(b)
    ensures Agree(a, b) <==> AlwaysSame(h, a, b)
  {
    hide Completed, Redefined, Narrower, Agree, Unique, SameFields;
    if Agree(a, b) {
      forall defs, input, create, existing, counters | Narrower(a, defs)
        ensures Completed(h, Redefined(a, defs), input, create, existing, counters)
             == Completed(h, Redefined(b, defs), input, create, existing, counters)
      {
        RedefinedUnique(a, defs);
        RedefinedUnique(b, defs);
        RedefinedSame(a, b, defs);
        RedefinedAgree(a, b, defs);
        CompletedConfluent(h, Redefined(a, defs), Redefined(b, defs), input, create, existing, counters);
      }
    } else {
      var defs := Disagree(h, a, b, map[]);
    }
  }

  /** Where an order with dependencies first exists, all that agree with it put them first, and nothing else does. */
  lemma OrderedExactly(h: Host, a: seq<Field>, b: seq<Field>)
    requires SameFields(a, b) && Unique(a) && Unique(b) && Ordered(a)
    ensures AlwaysSame(h, a, b) <==> Ordered(b)
  {
    hide AlwaysSame, CalcReads;
    OrdersExactly(h, a, b);
    if Ordered(b) {
      OrderedAgree(a, b);
    } else if Agree(a, b) {
      AgreeOrdered(a, b);
    }
  }

  lemma AgreeOrdered(a: seq<Field>, b: seq<Field>)
    requires SameFields(a, b) && Unique(a) && Unique(b) && Ordered(a) && Agree(a, b)
    ensures Ordered(b)
  {
    hide CalcReads, Agree, Unique;
    SameFieldsBack(a, b);
    forall j: nat, l: nat | CalcAt(b, j) && CalcAt(b, l) && j <= l ensures b[l].code !in CalcReads(b[j].ftype.def) {
      var i := SameFieldsIndex(b, a, j);
      var k := SameFieldsIndex(b, a, l);
      if b[l].code in CalcReads(b[j].ftype.def) {
        assert CalcAt(a, i) && CalcAt(a, k);
        SameSide(a, b, i, j, k, l);
      }
    }
  }

  // ----- wrong orders -----

  lemma CalcsPair(h: Host, f: Field, g: Field, base: Record)
    ensures Calcs(h, [f, g], base) == CalcStep(h, g, CalcStep(h, f, base))
  {
    assert [f][..0] == [];
    assert Calcs(h, [f], base) == CalcStep(h, f, base);
    assert [f, g][..1] == [f];
  }

  lemma CompletedPlain(h: Host, fields: seq<Field>, input: Record, counters: map<string, nat>)
    requires forall f :: f in fields ==> f.ftype.Calculated?
    ensures Completed(h, fields, input, true, None, counters) == Calcs(h, fields, input)
  {
    EachFixed(Numbering(true, None, counters), fields, input);
    EachFixed(RowCalcs(h), fields, input);
  }

  /** `x` reads `y`, and `y` reads only the plain field `p`; here in the wrong order. */
  function Late(): seq<Field> {
    [Field("x", Calculated(Sensitive("y")))] + [Field("y", Calculated(Sensitive("p")))]
  }

  function Early(): seq<Field> {
    [Field("y", Calculated(Sensitive("p")))] + [Field("x", Calculated(Sensitive("y")))]
  }

  lemma TwoInTurn(h: Host, f: string, d: Definition, g: string, e: Definition, counters: map<string, nat>)
    requires f != g
    ensures var fields := [Field(f, Calculated(d))] + [Field(g, Calculated(e))];
            var r, first := Completed(h, fields, map[], true, None, counters), map[f := CalcValue(h, d, map[])];
            Lookup(r, f) == Some(CalcValue(h, d, map[])) && Lookup(r, g) == Some(CalcValue(h, e, first))
  {
    var first, second := Field(f, Calculated(d)), Field(g, Calculated(e));
    assert [first] + [second] == [first, second];
    CompletedPlain(h, [first, second], map[], counters);
    CalcsPair(h, first, second, map[]);
    hide Completed, Calcs, CalcValue;
  }

  /** Two fields that read each other. */
  function Pair(f: string, g: string): seq<Field> {
    [Field(f, Calculated(Sensitive(g)))] + [Field(g, Calculated(Sensitive(f)))]
  }

  /** Whichever comes first becomes 1, the other 2. */
  lemma FirstOfTwo(h: Host, f: string, g: string, counters: map<string, nat>)
    requires f != g
    ensures var r := Completed(h, Pair(f, g), map[], true, None, counters);
            Lookup(r, f) == Some(Number(Fin(1.0))) && Lookup(r, g) == Some(Number(Fin(2.0)))
  {
    hide Completed, CalcValue, Sensitive;
    TwoInTurn(h, f, Sensitive(g), g, Sensitive(f), counters);
    SensitiveValue(h, g, map[]);
    SensitiveValue(h, f, map[f := CalcValue(h, Sensitive(g), map[])]);
  }

  lemma SwapPair(f: string, g: string)
    requires f != g
    ensures SameFields(Pair(f, g), Pair(g, f)) && Unique(Pair(f, g))
  {
    hide Sensitive;
  }

  lemma PairNotOrdered(f: string, g: string)
    requires f != g
    ensures !Ordered(Pair(f, g))
  {
    SensitiveReads(g);
    hide Sensitive, CalcReads;
    var fields := Pair(f, g);
    assert CalcAt(fields, 0) && CalcAt(fields, 1) && fields[1].code in CalcReads(fields[0].ftype.def);
  }

  /** Such a pair has no order that puts dependencies first, and its two orders differ. */
  lemma OrderMatters(h: Host, counters: map<string, nat>)
    ensures SameFields(Pair("x", "y"), Pair("y", "x")) && Unique(Pair("x", "y")) && Unique(Pair("y", "x"))
    ensures !Ordered(Pair("x", "y")) && !Ordered(Pair("y", "x"))
    ensures Completed(h, Pair("x", "y"), map[], true, None, counters)
            != Completed(h, Pair("y", "x"), map[], true, None, counters)
  {
    PairNotOrdered("x", "y");
    PairNotOrdered("y", "x");
    hide Completed, Pair, SameFields, Unique, Ordered;
    FirstOfTwo(h, "x", "y", counters);
    FirstOfTwo(h, "y", "x", counters);
    SwapPair("x", "y");
    SwapPair("y", "x");
  }

  lemma LateSame()
    ensures SameFields(Late(), Early()) && Unique(Late()) && Unique(Early()) && Ordered(Early())
  {
    hide Sensitive, CalcReads;
    SensitiveReads("y");
    SensitiveReads("p");
    assert "x" != "y" && "x" != "p" && "y" != "p";
  }

  /** Without any circle: a field that comes before what it reads gets another value than after it. */
  lemma LateDependency(h: Host, counters: map<string, nat>)
    ensures SameFields(Late(), Early()) && Unique(Late()) && Unique(Early()) && Ordered(Early())
    ensures Lookup(Completed(h, Late(), map[], true, None, counters), "x") == Some(Number(Fin(1.0)))
    ensures Lookup(Completed(h, Early(), map[], true, None, counters), "x") == Some(Number(Fin(2.0)))
  {
    LateSame();
    assert "x" != "y";
    hide Completed, Calcs, CalcValue, Sensitive, SameFields, Unique, Ordered;
    TwoInTurn(h, "x", Sensitive("y"), "y", Sensitive("p"), counters);
    TwoInTurn(h, "y", Sensitive("p"), "x", Sensitive("y"), counters);
    SensitiveValue(h, "y", map[]);
    SensitiveValue(h, "p", map[]);
    SensitiveValue(h, "y", map["y" := CalcValue(h, Sensitive("p"), map[])]);
  }
}
