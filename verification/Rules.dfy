/** Condition tables: the first rule whose conditions all hold decides the value. */
module Rules {
  import opened Numbers
  import opened Strings
  import opened Values

  datatype Cond = Cond(
    field: string, op: string,
    value: Option<Val>, value2: Option<Val>,
    valueField: Option<string>, value2Field: Option<string>)

  datatype Rule = Rule(conds: seq<Cond>, result: Option<Val>)

  /** The right-hand side of a condition: another field's value when one is named, else the constant. */
  function Operand(field: Option<string>, constant: Option<Val>, vals: Record): Option<Val> {
    if field.Some? && field.value != "" then Lookup(vals, field.value) else constant
  }

  /** `Number(v)`, with anything that is not a number counting as zero. */
  function NumOf(h: Host, v: Option<Val>): Num {
    if v.None? || ToNum(h, v.value).NaN? then ZERO else ToNum(h, v.value)
  }

  /** `String(v ?? '')`. */
  function TextOf(h: Host, v: Option<Val>): string {
    if v.None? || v.value.Null? then "" else h.text(v.value)
  }

  predicate Matches(h: Host, v: Option<Val>, op: string, value: Option<Val>, value2: Option<Val>) {
    if op == ">" then Less(NumOf(h, value), NumOf(h, v))
    else if op == "<" then Less(NumOf(h, v), NumOf(h, value))
    else if op == ">=" then AtMost(NumOf(h, value), NumOf(h, v))
    else if op == "<=" then AtMost(NumOf(h, v), NumOf(h, value))
    else if op == "==" then TextOf(h, v) == TextOf(h, value)
    else if op == "!=" then TextOf(h, v) != TextOf(h, value)
    else if op == "between" then AtMost(NumOf(h, value), NumOf(h, v)) && AtMost(NumOf(h, v), NumOf(h, value2))
    else if op == "empty" then IsBlank(v)
    else op == "notempty" && !IsBlank(v)
  }

  predicate Holds(h: Host, c: Cond, vals: Record) {
    Matches(h, Lookup(vals, c.field), c.op, Operand(c.valueField, c.value, vals), Operand(c.value2Field, c.value2, vals))
  }

  predicate Applies(h: Host, rule: Rule, vals: Record) {
    forall c :: c in rule.conds ==> Holds(h, c, vals)
  }

  /** Texts that read as numbers become numbers. */
  function Coerce(h: Host, r: Option<Val>): Val {
    if r.None? || r.value.Null? then EMPTY
    else if r.value.Text? && Trim(r.value.s) != "" && !h.number(r.value).NaN? then Number(h.number(r.value))
    else r.value
  }

  function EvalRules(h: Host, rules: seq<Rule>, fallback: Option<Val>, vals: Record): Val {
    if rules == [] then Coerce(h, fallback)
    else if Applies(h, rules[0], vals) then Coerce(h, rules[0].result)
    else EvalRules(h, rules[1..], fallback, vals)
  }

  /** The rule at `k` decides exactly when it applies and none before it does. */
  lemma {:induction false} FirstRuleDecides(h: Host, rules: seq<Rule>, fallback: Option<Val>, vals: Record, k: nat)
    requires k <= |rules| && forall i :: 0 <= i < k ==> !Applies(h, rules[i], vals)
    ensures k == |rules| ==> EvalRules(h, rules, fallback, vals) == Coerce(h, fallback)
    ensures k < |rules| && Applies(h, rules[k], vals) ==>
              EvalRules(h, rules, fallback, vals) == Coerce(h, rules[k].result)
  {
    if k > 0 {
      assert forall i :: 0 <= i < k - 1 ==> rules[1..][i] == rules[i + 1];
      FirstRuleDecides(h, rules[1..], fallback, vals, k - 1);
    }
  }

  function NamedField(field: Option<string>): set<string> {
    if field.Some? && field.value != "" then {field.value} else {}
  }

  function CondReads(c: Cond): set<string> {
    {c.field} + NamedField(c.valueField) + NamedField(c.value2Field)
  }

  function RulesRead(rules: seq<Rule>): set<string> {
    set rule, c, code | rule in rules && c in rule.conds && code in CondReads(c) :: code
  }

  lemma {:induction false} EvalRulesReads(h: Host, rules: seq<Rule>, fallback: Option<Val>, a: Record, b: Record)
    requires forall code :: code in RulesRead(rules) ==> Lookup(a, code) == Lookup(b, code)
    ensures EvalRules(h, rules, fallback, a) == EvalRules(h, rules, fallback, b)
  {
    if rules != [] {
      forall c | c in rules[0].conds ensures Holds(h, c, a) == Holds(h, c, b) {
        assert forall code :: code in CondReads(c) ==> code in RulesRead(rules);
        assert c.field in CondReads(c);
        assert c.valueField.Some? && c.valueField.value != "" ==> c.valueField.value in CondReads(c);
        assert c.value2Field.Some? && c.value2Field.value != "" ==> c.value2Field.value in CondReads(c);
      }
      assert RulesRead(rules[1..]) <= RulesRead(rules);
      EvalRulesReads(h, rules[1..], fallback, a, b);
    }
  }
}
