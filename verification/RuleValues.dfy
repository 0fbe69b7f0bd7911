/** What condition tables decide, told by the values in the record. */
module RuleValues {
  import opened FormulaValues
  import opened Numbers
  import opened Rules
  import opened Strings
  import opened Values

  /** A condition compares with another field where one is named, else with its constant. */
  function Compared(field: Option<string>, constant: Option<Val>, vals: Record): Option<Val> {
    match field
    case Some(code) => if code == "" then constant else if code in vals then Some(vals[code]) else None
    case None => constant
  }

  /** Neither value can be told from the other when written out; what is missing is written as nothing. */
  predicate WrittenAlike(h: Host, v: Option<Val>, w: Option<Val>) {
    var s := if v.None? || v == Some(Null) then "" else h.text(v.value);
    var t := if w.None? || w == Some(Null) then "" else h.text(w.value);
    s == t
  }

  predicate NotAbove(m: Num, n: Num) {
    Below(m, n) || Alike(m, n)
  }

  /** What the table with this one condition gives: 1 where it holds and 0 where it does not. */
  function Decided(h: Host, c: Cond, vals: Record): Val {
    EvalRules(h, [Rule([c], Some(Number(Fin(1.0))))], Some(Number(Fin(0.0))), vals)
  }

  lemma DecidedIs(h: Host, c: Cond, vals: Record)
    ensures Decided(h, c, vals) == Truth(Holds(h, c, vals))
  {
    hide Holds;
    var rules := [Rule([c], Some(Number(Fin(1.0))))];
    assert rules[0].conds == [c] && c in rules[0].conds;
    assert Applies(h, rules[0], vals) <==> Holds(h, c, vals);
    FirstRuleDecides(h, rules, Some(Number(Fin(0.0))), vals, if Holds(h, c, vals) then 0 else 1);
  }

  lemma CountsOnce(h: Host, v: Option<Val>, n: Num)
    requires CountsAs(h, v, n)
    ensures NumOf(h, v) == n && !n.NaN?
  {
  }

  lemma OrderIs(m: Num, n: Num)
    ensures Less(m, n) == Below(m, n) && AtMost(m, n) == NotAbove(m, n)
  {
  }

  /** A condition on numbers holds exactly when the relation does; what is missing or no number counts as 0. */
  lemma NumbersDecide(h: Host, c: Cond, vals: Record, m: Num, n: Num, k: Num)
    requires CountsAs(h, Lookup(vals, c.field), m)
    requires CountsAs(h, Compared(c.valueField, c.value, vals), n)
    requires CountsAs(h, Compared(c.value2Field, c.value2, vals), k)
    ensures c.op == ">" ==> Decided(h, c, vals) == Truth(Below(n, m))
    ensures c.op == "<" ==> Decided(h, c, vals) == Truth(Below(m, n))
    ensures c.op == ">=" ==> Decided(h, c, vals) == Truth(NotAbove(n, m))
    ensures c.op == "<=" ==> Decided(h, c, vals) == Truth(NotAbove(m, n))
    ensures c.op == "between" ==> Decided(h, c, vals) == Truth(NotAbove(n, m) && NotAbove(m, k))
  {
    hide Decided, CountsAs, NumOf, Less, AtMost, Below, NotAbove, Truth;
    DecidedIs(h, c, vals);
    CountsOnce(h, Lookup(vals, c.field), m);
    CountsOnce(h, Compared(c.valueField, c.value, vals), n);
    CountsOnce(h, Compared(c.value2Field, c.value2, vals), k);
    OrderIs(m, n);
    OrderIs(n, m);
    OrderIs(m, k);
  }

  /** The other conditions compare texts, or ask whether there is a value; an unknown one never holds. */
  lemma TextsDecide(h: Host, c: Cond, vals: Record)
    ensures var v, w := Lookup(vals, c.field), Compared(c.valueField, c.value, vals);
      var empty := v == None || v == Some(Null) || v == Some(Text(""));
      && (c.op == "==" ==> Decided(h, c, vals) == Truth(WrittenAlike(h, v, w)))
      && (c.op == "!=" ==> Decided(h, c, vals) == Truth(!WrittenAlike(h, v, w)))
      && (c.op == "empty" ==> Decided(h, c, vals) == Truth(empty))
      && (c.op == "notempty" ==> Decided(h, c, vals) == Truth(!empty))
      && (c.op !in {">", "<", ">=", "<=", "between", "==", "!=", "empty", "notempty"} ==> Decided(h, c, vals) == Truth(false))
  {
    hide Decided, Truth;
    DecidedIs(h, c, vals);
  }

  /** A table gives its first rule whose conditions all hold, each taken alone; a rule without conditions always counts. */
  lemma RulesInTurn(h: Host, rules: seq<Rule>, fallback: Option<Val>, vals: Record, k: nat)
    requires k <= |rules|
    requires forall i :: 0 <= i < k ==> exists c :: c in rules[i].conds && Decided(h, c, vals) == Truth(false)
    requires k < |rules| ==> forall c :: c in rules[k].conds ==> Decided(h, c, vals) == Truth(true)
    ensures EvalRules(h, rules, fallback, vals) == EvalRules(h, [], if k < |rules| then rules[k].result else fallback, vals)
  {
    hide Decided, Holds, Coerce;
    forall c: Cond ensures Decided(h, c, vals) == Truth(Holds(h, c, vals)) { DecidedIs(h, c, vals); }
    FirstRuleDecides(h, rules, fallback, vals, k);
  }

  /** A result is given as it is, but for texts that read as numbers, which become numbers, and nothing, the empty text. */
  lemma ResultsGiven(h: Host, result: Option<Val>, vals: Record)
    ensures EvalRules(h, [], result, vals) ==
      match result
      case None => Text("")
      case Some(Null) => Text("")
      case Some(Text(s)) =>
        if (forall k :: 0 <= k < |s| ==> IsSpace(s[k])) || h.number(Text(s)) == NaN then Text(s) else Number(h.number(Text(s)))
      case Some(v) => v
  {
    if result.Some? && result.value.Text? { TrimmedAway(result.value.s); }
  }

  lemma {:induction false} TrimmedAway(s: string)
    ensures Trim(s) == "" <==> forall k :: 0 <= k < |s| ==> IsSpace(s[k])
  {
    hide IsSpace;
    var t := TrimStart(s);
    if t != "" { assert s[|s| - |t|] == t[0]; }
  }
}
