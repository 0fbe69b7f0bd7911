/** `computeFields` as a whole: numbering, subtable rows, calculated fields. */
module Completion {
  import opened Numbers
  import opened Values
  import opened AutoNumbers
  import opened Calc
  import opened Rules

  /** The two loops before the calculated fields: each works on one field at a time. */
  datatype Phase =
    | Numbering(create: bool, existing: Option<Record>, counters: map<string, nat>)
    | RowCalcs(h: Host)

  /** What counts as not filled in when a number is assigned. */
  predicate Falsy(v: Option<Val>) {
    match v
    case None => true
    case Some(Null) => true
    case Some(Flag(b)) => !b
    case Some(Number(n)) => n.NaN? || n == ZERO
    case Some(Text(s)) => s == ""
    case _ => false
  }

  function NextNumber(counters: map<string, nat>, code: string): nat {
    (if code in counters then counters[code] else 0) + 1
  }

  function Row(v: Val): Record {
    if v.Obj? then v.fields else map[]
  }

  function RowsOf(h: Host, columns: seq<Field>, rows: seq<Val>): (r: seq<Val>)
    ensures |r| == |rows|
    ensures forall k :: 0 <= k < |rows| ==> r[k] == Obj(Calcs(h, columns, Row(rows[k])))
  {
    if rows == [] then []
    else RowsOf(h, columns, rows[..|rows| - 1]) + [Obj(Calcs(h, columns, Row(rows[|rows| - 1])))]
  }

  predicate HasCalc(columns: seq<Field>) {
    exists i :: 0 <= i < |columns| && CalcAt(columns, i)
  }

  /** The new value of a field, given its old one. */
  function Update(ph: Phase, f: Field, v: Option<Val>): Option<Val> {
    match (ph, f.ftype)
    case (Numbering(true, _, counters), AutoNumber(prefix, padding)) =>
      if Falsy(v) then Some(Text(FormatAutoNumber(NextNumber(counters, f.code), prefix, padding))) else v
    case (Numbering(false, Some(existing), _), AutoNumber(_, _)) =>
      if f.code in existing then Some(existing[f.code]) else v
    case (RowCalcs(h), Subtable(columns)) =>
      if HasCalc(columns) && v.Some? && v.value.List? then Some(List(RowsOf(h, columns, v.value.items))) else v
    case _ => v
  }

  function Store(vals: Record, code: string, v: Option<Val>): Record {
    if v.Some? then vals[code := v.value] else vals
  }

  function Each(ph: Phase, fields: seq<Field>, base: Record): Record {
    if fields == [] then base
    else
      var f := fields[|fields| - 1];
      var before := Each(ph, fields[..|fields| - 1], base);
      Store(before, f.code, Update(ph, f, Lookup(before, f.code)))
  }

  /** The counters after numbering. */
  function Counted(ph: Phase, fields: seq<Field>, base: Record): map<string, nat>
    requires ph.Numbering?
  {
    if fields == [] then ph.counters
    else
      var init, f := fields[..|fields| - 1], fields[|fields| - 1];
      var c := Counted(ph, init, base);
      if ph.create && f.ftype.AutoNumber? && Falsy(Lookup(Each(ph, init, base), f.code))
      then c[f.code := NextNumber(ph.counters, f.code)] else c
  }

  function Completed(h: Host, fields: seq<Field>, input: Record, create: bool, existing: Option<Record>,
                     counters: map<string, nat>): Record
  {
    Calcs(h, fields, Each(RowCalcs(h), fields, Each(Numbering(create, existing, counters), fields, input)))
  }

  // ----- the method of the source -----

  lemma FreshCounter(ph: Phase, fields: seq<Field>, base: Record, code: string)
    requires ph.Numbering? && ph.create && Falsy(Lookup(Each(ph, fields, base), code))
    ensures NextNumber(Counted(ph, fields, base), code) == NextNumber(ph.counters, code)
  {
    if fields != [] {
      var init, f := fields[..|fields| - 1], fields[|fields| - 1];
      if Falsy(Lookup(Each(ph, init, base), code)) {
        FreshCounter(ph, init, base, code);
      }
    }
  }

  method ComputeRows(h: Host, columns: seq<Field>, rows: seq<Val>) returns (out: seq<Val>)
    ensures out == RowsOf(h, columns, rows)
  {
    out := [];
    for i := 0 to |rows|
      invariant out == RowsOf(h, columns, rows[..i])
    {
      assert rows[..i + 1][..i] == rows[..i];
      var next := ComputeCalcFields(h, columns, Row(rows[i]));
      out := out + [Obj(next)];
    }
    assert rows[..|rows|] == rows;
  }

  lemma EachSnoc(ph: Phase, fields: seq<Field>, i: nat, base: Record)
    requires i < |fields|
    ensures var f := fields[i];
            var before := Each(ph, fields[..i], base);
            && Each(ph, fields[..i + 1], base) == Store(before, f.code, Update(ph, f, Lookup(before, f.code)))
            && (ph.Numbering? ==>
                  Counted(ph, fields[..i + 1], base) ==
                  if ph.create && f.ftype.AutoNumber? && Falsy(Lookup(before, f.code))
                  then Counted(ph, fields[..i], base)[f.code := NextNumber(ph.counters, f.code)]
                  else Counted(ph, fields[..i], base))
  {
    assert fields[..i + 1][..i] == fields[..i];
  }

  lemma StoreSame(vals: Record, code: string)
    ensures Store(vals, code, Lookup(vals, code)) == vals
  {
  }

  /** The first loop. */
  method AssignNumbers(fields: seq<Field>, input: Record, create: bool, existing: Option<Record>,
                       counters: map<string, nat>)
    returns (result: Record, counted: map<string, nat>)
    ensures result == Each(Numbering(create, existing, counters), fields, input)
    ensures counted == Counted(Numbering(create, existing, counters), fields, input)
  {
    ghost var ph := Numbering(create, existing, counters);
    result, counted := input, counters;
    for i := 0 to |fields|
      invariant result == Each(ph, fields[..i], input)
      invariant counted == Counted(ph, fields[..i], input)
    {
      var f := fields[i];
      EachSnoc(ph, fields, i, input);
      StoreSame(result, f.code);
      hide Each, Counted, Store;
      if f.ftype.AutoNumber? {
        if create {
          if Falsy(Lookup(result, f.code)) {
            FreshCounter(ph, fields[..i], input, f.code);
            var n := NextNumber(counted, f.code);
            counted := counted[f.code := n];
            result := Store(result, f.code, Some(Text(FormatAutoNumber(n, f.ftype.prefix, f.ftype.padding))));
          }
        } else if existing.Some? && f.code in existing.value {
          result := Store(result, f.code, Some(existing.value[f.code]));
        }
      }
    }
    assert fields[..|fields|] == fields;
  }

  /** The second loop. */
  method ComputeSubtables(h: Host, fields: seq<Field>, numbered: Record) returns (result: Record)
    ensures result == Each(RowCalcs(h), fields, numbered)
  {
    result := numbered;
    for i := 0 to |fields|
      invariant result == Each(RowCalcs(h), fields[..i], numbered)
    {
      var f := fields[i];
      EachSnoc(RowCalcs(h), fields, i, numbered);
      StoreSame(result, f.code);
      hide Each, Store;
      if f.ftype.Subtable? && HasCalc(f.ftype.columns) && f.code in result && result[f.code].List? {
        var rows := ComputeRows(h, f.ftype.columns, result[f.code].items);
        result := Store(result, f.code, Some(List(rows)));
      }
    }
    assert fields[..|fields|] == fields;
  }

  method ComputeFields(h: Host, fields: seq<Field>, input: Record, create: bool, existing: Option<Record>,
                       counters: map<string, nat>)
    returns (result: Record, counted: map<string, nat>)
    ensures result == Completed(h, fields, input, create, existing, counters)
    ensures counted == Counted(Numbering(create, existing, counters), fields, input)
  {
    result, counted := AssignNumbers(fields, input, create, existing, counters);
    result := ComputeSubtables(h, fields, result);
    result := ComputeCalcFields(h, fields, result);
  }

  // ----- what the first two phases do to each entry -----

  predicate HasCode(fields: seq<Field>, i: int, code: string) {
    0 <= i < |fields| && fields[i].code == code
  }

  lemma {:induction false} EachElsewhere(ph: Phase, fields: seq<Field>, base: Record, code: string)
    requires forall i :: !HasCode(fields, i, code)
    ensures Lookup(Each(ph, fields, base), code) == Lookup(base, code)
  {
    if fields != [] {
      var init := fields[..|fields| - 1];
      assert HasCode(fields, |fields| - 1, fields[|fields| - 1].code);
      forall i ensures !HasCode(init, i, code) { assert !HasCode(fields, i, code); }
      EachElsewhere(ph, init, base, code);
    }
  }

  lemma {:induction false} EachAt(ph: Phase, fields: seq<Field>, base: Record, i: nat)
    requires Unique(fields) && i < |fields|
    ensures Lookup(Each(ph, fields, base), fields[i].code) == Update(ph, fields[i], Lookup(base, fields[i].code))
  {
    var n := |fields| - 1;
    var init, f := fields[..n], fields[n];
    if i == n {
      EachElsewhere(ph, init, base, f.code);
      UpdateKeeps(ph, f, Lookup(base, f.code));
    } else {
      EachAt(ph, init, base, i);
    }
  }

  /** No phase removes an entry. */
  lemma UpdateKeeps(ph: Phase, f: Field, v: Option<Val>)
    ensures v.Some? ==> Update(ph, f, v).Some?
  {
  }

  lemma EachAnyOrder(ph: Phase, a: seq<Field>, b: seq<Field>, base: Record)
    requires SameFields(a, b) && Unique(a) && Unique(b)
    ensures Each(ph, a, base) == Each(ph, b, base)
  {
    forall code ensures Lookup(Each(ph, a, base), code) == Lookup(Each(ph, b, base), code) {
      if i :| HasCode(a, i, code) {
        var j := SameFieldsIndex(a, b, i);
        EachAt(ph, a, base, i);
        EachAt(ph, b, base, j);
      } else {
        forall j ensures !HasCode(b, j, code) {
          if HasCode(b, j, code) {
            var i := SameFieldsIndex(b, a, j);
            assert HasCode(a, i, code);
          }
        }
        EachElsewhere(ph, a, base, code);
        EachElsewhere(ph, b, base, code);
      }
    }
    SameRecord(Each(ph, a, base), Each(ph, b, base));
  }

  // ----- the main results -----

  /** The completed record does not depend on the order in which the database lists the fields, where orders agree. */
  lemma CompletedConfluent(h: Host, a: seq<Field>, b: seq<Field>, input: Record, create: bool,
                           existing: Option<Record>, counters: map<string, nat>)
    requires SameFields(a, b) && Unique(a) && Unique(b) && Agree(a, b)
    ensures Completed(h, a, input, create, existing, counters) == Completed(h, b, input, create, existing, counters)
  {
    var ph := Numbering(create, existing, counters);
    EachAnyOrder(ph, a, b, input);
    EachAnyOrder(RowCalcs(h), a, b, Each(ph, a, input));
    CalcsConfluent(h, a, b, Each(RowCalcs(h), a, Each(ph, a, input)));
  }

  ghost predicate ColumnsOrdered(fields: seq<Field>) {
    forall f :: f in fields && f.ftype.Subtable? ==> Unique(f.ftype.columns) && Ordered(f.ftype.columns)
  }

  /** Rows whose calculated columns are up to date. */
  ghost predicate RowsCurrent(h: Host, fields: seq<Field>, vals: Record) {
    forall f :: f in fields ==> Update(RowCalcs(h), f, Lookup(vals, f.code)) == Lookup(vals, f.code)
  }

  lemma {:induction false} EachFixed(ph: Phase, fields: seq<Field>, base: Record)
    requires forall f :: f in fields ==> Update(ph, f, Lookup(base, f.code)) == Lookup(base, f.code)
    ensures Each(ph, fields, base) == base
  {
    if fields != [] {
      EachFixed(ph, fields[..|fields| - 1], base);
    }
  }

  lemma RowsIdempotent(h: Host, columns: seq<Field>, rows: seq<Val>)
    requires Unique(columns) && Ordered(columns)
    ensures RowsOf(h, columns, RowsOf(h, columns, rows)) == RowsOf(h, columns, rows)
  {
    var once := RowsOf(h, columns, rows);
    forall k | 0 <= k < |rows| ensures RowsOf(h, columns, once)[k] == once[k] {
      CalcsIdempotent(h, columns, Row(rows[k]));
    }
  }

  lemma UpdateRowsTwice(h: Host, f: Field, v: Option<Val>)
    requires f.ftype.Subtable? ==> Unique(f.ftype.columns) && Ordered(f.ftype.columns)
    ensures Update(RowCalcs(h), f, Update(RowCalcs(h), f, v)) == Update(RowCalcs(h), f, v)
  {
    if f.ftype.Subtable? && HasCalc(f.ftype.columns) && v.Some? && v.value.List? {
      RowsIdempotent(h, f.ftype.columns, v.value.items);
    }
  }

  lemma CompletedRowsCurrent(h: Host, fields: seq<Field>, input: Record, create: bool,
                             existing: Option<Record>, counters: map<string, nat>)
    requires Unique(fields) && Ordered(fields) && ColumnsOrdered(fields)
    ensures RowsCurrent(h, fields, Completed(h, fields, input, create, existing, counters))
  {
    var numbered := Each(Numbering(create, existing, counters), fields, input);
    var rowed := Each(RowCalcs(h), fields, numbered);
    var r := Calcs(h, fields, rowed);
    CalcsSolve(h, fields, rowed);
    forall f | f in fields ensures Update(RowCalcs(h), f, Lookup(r, f.code)) == Lookup(r, f.code) {
      var i :| 0 <= i < |fields| && fields[i] == f;
      if f.ftype.Subtable? {
        assert !IsCalcCode(fields, f.code);
        EachAt(RowCalcs(h), fields, numbered, i);
        UpdateRowsTwice(h, f, Lookup(numbered, f.code));
      }
    }
  }

  /** Saving a completed record again leaves it as it is. */
  lemma CompletedIdempotent(h: Host, fields: seq<Field>, input: Record, create: bool,
                            existing: Option<Record>, counters: map<string, nat>, later: map<string, nat>)
    requires Unique(fields) && Ordered(fields) && ColumnsOrdered(fields)
    ensures var r := Completed(h, fields, input, create, existing, counters);
            Completed(h, fields, r, false, Some(r), later) == r
  {
    var r := Completed(h, fields, input, create, existing, counters);
    CompletedRowsCurrent(h, fields, input, create, existing, counters);
    EachFixed(Numbering(false, Some(r), later), fields, r);
    EachFixed(RowCalcs(h), fields, r);
    CalcsIdempotent(h, fields, Each(RowCalcs(h), fields, Each(Numbering(create, existing, counters), fields, input)));
  }

  /** Every automatic number that is stored is in the data. */
  predicate NumbersKept(fields: seq<Field>, data: Record, existing: Option<Record>) {
    existing.Some? ==>
      forall f :: f in fields && f.ftype.AutoNumber? && f.code in existing.value ==>
        Lookup(data, f.code) == Some(existing.value[f.code])
  }

  /** The client's preview of current rows and kept numbers is what the server stores on update, whatever else is edited. */
  lemma PreviewAgrees(h: Host, fields: seq<Field>, data: Record, existing: Option<Record>, counters: map<string, nat>)
    requires RowsCurrent(h, fields, data) && NumbersKept(fields, data, existing)
    ensures Calcs(h, fields, data) == Completed(h, fields, data, false, existing, counters)
  {
    EachFixed(Numbering(false, existing, counters), fields, data);
    EachFixed(RowCalcs(h), fields, data);
  }

  lemma {:induction false} CalcsElsewhere(h: Host, fields: seq<Field>, base: Record, code: string)
    requires !IsCalcCode(fields, code)
    ensures Lookup(Calcs(h, fields, base), code) == Lookup(base, code)
  {
    if fields != [] {
      var n := |fields| - 1;
      assert CalcAt(fields, n) ==> fields[n].code != code;
      forall i | CalcAt(fields[..n], i) ensures fields[..n][i].code != code { assert CalcAt(fields, i); }
      CalcsElsewhere(h, fields[..n], base, code);
    }
  }

  lemma PlainCode(fields: seq<Field>, i: nat)
    requires Unique(fields) && i < |fields| && !fields[i].ftype.Calculated?
    ensures !IsCalcCode(fields, fields[i].code)
  {
  }

  /** What is stored for a field that is not calculated. */
  lemma CompletedAt(h: Host, fields: seq<Field>, input: Record, create: bool, existing: Option<Record>,
                    counters: map<string, nat>, i: nat)
    requires Unique(fields) && i < |fields| && !fields[i].ftype.Calculated?
    ensures var f := fields[i];
      Lookup(Completed(h, fields, input, create, existing, counters), f.code)
      == Update(RowCalcs(h), f, Update(Numbering(create, existing, counters), f, Lookup(input, f.code)))
  {
    hide Update;
    var ph := Numbering(create, existing, counters);
    PlainCode(fields, i);
    EachAt(ph, fields, input, i);
    EachAt(RowCalcs(h), fields, Each(ph, fields, input), i);
    CalcsElsewhere(h, fields, Each(RowCalcs(h), fields, Each(ph, fields, input)), fields[i].code);
  }

  /** With unique codes the preview is what the server stores exactly when the rows are current and the numbers kept. */
  lemma PreviewExactly(h: Host, fields: seq<Field>, data: Record, existing: Option<Record>, counters: map<string, nat>)
    requires Unique(fields)
    ensures Calcs(h, fields, data) == Completed(h, fields, data, false, existing, counters)
            <==> RowsCurrent(h, fields, data) && NumbersKept(fields, data, existing)
  {
    hide Completed;
    if RowsCurrent(h, fields, data) && NumbersKept(fields, data, existing) {
      PreviewAgrees(h, fields, data, existing, counters);
    } else if Calcs(h, fields, data) == Completed(h, fields, data, false, existing, counters) {
      forall i: nat | i < |fields|
        ensures var f := fields[i]; Update(RowCalcs(h), f, Lookup(data, f.code)) == Lookup(data, f.code)
        ensures var f := fields[i]; f.ftype.AutoNumber? && existing.Some? && f.code in existing.value ==>
          Lookup(data, f.code) == Some(existing.value[f.code])
      {
        if !fields[i].ftype.Calculated? {
          CompletedAt(h, fields, data, false, existing, counters, i);
          PlainCode(fields, i);
          CalcsElsewhere(h, fields, data, fields[i].code);
        }
      }
    }
  }

  // ----- automatic numbers over many creations -----

  /** The counters after records were created from these inputs. */
  function CountersAfter(fields: seq<Field>, inputs: seq<Record>, counters: map<string, nat>): map<string, nat> {
    if inputs == [] then counters
    else
      var before := CountersAfter(fields, inputs[..|inputs| - 1], counters);
      Counted(Numbering(true, None, before), fields, inputs[|inputs| - 1])
  }

  function CounterOf(counters: map<string, nat>, code: string): nat {
    if code in counters then counters[code] else 0
  }

  /** Numbering moves a field's counter exactly when the field is numbered and not filled in. */
  lemma {:induction false} CountedAt(fields: seq<Field>, counters: map<string, nat>, input: Record, i: nat)
    requires Unique(fields) && i < |fields| && fields[i].ftype.AutoNumber?
    ensures CounterOf(Counted(Numbering(true, None, counters), fields, input), fields[i].code)
         == CounterOf(counters, fields[i].code) + if Falsy(Lookup(input, fields[i].code)) then 1 else 0
  {
    var ph, n, code := Numbering(true, None, counters), |fields| - 1, fields[i].code;
    var init := fields[..n];
    if i < n {
      CountedAt(init, counters, input, i);
      assert fields[n].code != code;
    } else {
      forall k ensures !HasCode(init, k, code) {
        if 0 <= k < n { assert fields[k].code != fields[n].code; }
      }
      EachElsewhere(ph, init, input, code);
      CountedElsewhere(ph, init, input, code);
    }
  }

  lemma {:induction false} CountedElsewhere(ph: Phase, fields: seq<Field>, base: Record, code: string)
    requires ph.Numbering? && forall i :: !HasCode(fields, i, code)
    ensures CounterOf(Counted(ph, fields, base), code) == CounterOf(ph.counters, code)
  {
    if fields != [] {
      var n := |fields| - 1;
      assert !HasCode(fields, n, code);
      forall k ensures !HasCode(fields[..n], k, code) { assert !HasCode(fields, k, code); }
      CountedElsewhere(ph, fields[..n], base, code);
    }
  }

  lemma {:induction false} CountersGrow(fields: seq<Field>, inputs: seq<Record>, counters: map<string, nat>, i: nat,
                                        a: nat, b: nat)
    requires Unique(fields) && i < |fields| && fields[i].ftype.AutoNumber? && a < b <= |inputs|
    ensures var code := fields[i].code;
      CounterOf(CountersAfter(fields, inputs[..b], counters), code)
      >= CounterOf(CountersAfter(fields, inputs[..a], counters), code)
         + if Falsy(Lookup(inputs[a], code)) then 1 else 0
    decreases b
  {
    hide Counted, Falsy, Unique;
    var c := b - 1;
    assert inputs[..b][..c] == inputs[..c];
    CountedAt(fields, CountersAfter(fields, inputs[..c], counters), inputs[c], i);
    if a < c { CountersGrow(fields, inputs, counters, i, a, c); }
  }

  /** Over any number of creations no two records get the same automatic number for a field. */
  lemma NumbersNeverRepeat(h: Host, fields: seq<Field>, inputs: seq<Record>, counters: map<string, nat>, i: nat,
                           a: nat, b: nat)
    requires Unique(fields) && i < |fields| && fields[i].ftype.AutoNumber? && a < b < |inputs|
    requires Falsy(Lookup(inputs[a], fields[i].code)) && Falsy(Lookup(inputs[b], fields[i].code))
    ensures var code := fields[i].code;
      Lookup(Completed(h, fields, inputs[a], true, None, CountersAfter(fields, inputs[..a], counters)), code)
      != Lookup(Completed(h, fields, inputs[b], true, None, CountersAfter(fields, inputs[..b], counters)), code)
  {
    hide Completed, CountersAfter, Falsy, Unique, FormatAutoNumber;
    var f := fields[i];
    var m, n := CountersAfter(fields, inputs[..a], counters), CountersAfter(fields, inputs[..b], counters);
    CompletedAt(h, fields, inputs[a], true, None, m, i);
    CompletedAt(h, fields, inputs[b], true, None, n, i);
    CountersGrow(fields, inputs, counters, i, a, b);
    var x, y := NextNumber(m, f.code), NextNumber(n, f.code);
    if FormatAutoNumber(x, f.ftype.prefix, f.ftype.padding) == FormatAutoNumber(y, f.ftype.prefix, f.ftype.padding) {
      LabelsDiffer(x, y, f.ftype.prefix, f.ftype.padding);
    }
  }

  // ----- what the record holds in the end -----

  /** The prefix and then the number in digits, filled up with zeros to the padding but no further. */
  predicate IsLabel(s: string, prefix: string, padding: int, n: nat) {
    && prefix <= s
    && var digits := s[|prefix|..];
       && digits != "" && AllDigits(digits) && ValueOf(digits) == n
       && |digits| >= padding && (|digits| > padding && |digits| > 1 ==> digits[0] != '0')
  }

  lemma FormatIsLabel(n: nat, prefix: string, padding: int)
    ensures IsLabel(FormatAutoNumber(n, prefix, padding), prefix, padding, n)
  {
    hide Digits, Padded, ValueOf, AllDigits;
    var digits := if padding > 0 then Padded(Digits(n), padding) else Digits(n);
    DigitsAreDigits(n);
    ValueOfDigits(n);
    if padding > 0 {
      PaddedTo(Digits(n), padding);
      ValueOfPadded(Digits(n), padding);
    }
    assert (prefix + digits)[|prefix|..] == digits;
    if digits[0] == '0' && |digits| > padding { DigitsOfZero(n); }
  }

  /** What the source takes for a number that was not given. */
  predicate NotGiven(v: Option<Val>) {
    || v == None || v == Some(Null) || v == Some(Flag(false)) || v == Some(Text(""))
    || v == Some(Number(Fin(0.0))) || v == Some(Number(NaN))
  }

  /**
   On creation a numbered field that was not given gets its prefix and the next number in digits; one that was
   given stays. On update the stored number stays.
   */
  lemma NumberStored(h: Host, fields: seq<Field>, input: Record, create: bool, existing: Option<Record>,
                     counters: map<string, nat>, i: nat)
    requires Unique(fields) && i < |fields| && fields[i].ftype.AutoNumber?
    ensures var f, given := fields[i], Lookup(input, fields[i].code);
      var stored := Lookup(Completed(h, fields, input, create, existing, counters), f.code);
      if create && NotGiven(given) then
        var n := if f.code in counters then counters[f.code] + 1 else 1;
        stored.Some? && stored.value.Text? && IsLabel(stored.value.s, f.ftype.prefix, f.ftype.padding, n)
      else if !create && existing.Some? && f.code in existing.value then stored == Some(existing.value[f.code])
      else stored == given
  {
    hide Completed, FormatAutoNumber, IsLabel, Unique;
    CompletedAt(h, fields, input, create, existing, counters, i);
    FormatIsLabel(NextNumber(counters, fields[i].code), fields[i].ftype.prefix, fields[i].ftype.padding);
  }

  /** Entries that belong to no field, and those of plain fields, stay as they were given. */
  lemma OthersStay(h: Host, fields: seq<Field>, input: Record, create: bool, existing: Option<Record>,
                   counters: map<string, nat>, code: string)
    requires Unique(fields) && forall f :: f in fields && f.code == code ==> f.ftype.Plain?
    ensures Lookup(Completed(h, fields, input, create, existing, counters), code) == Lookup(input, code)
  {
    if i :| HasCode(fields, i, code) {
      hide Completed, Unique;
      CompletedAt(h, fields, input, create, existing, counters, i);
    } else {
      forall i | CalcAt(fields, i) ensures fields[i].code != code { assert !HasCode(fields, i, code); }
      var ph := Numbering(create, existing, counters);
      EachElsewhere(ph, fields, input, code);
      EachElsewhere(RowCalcs(h), fields, Each(ph, fields, input), code);
      CalcsElsewhere(h, fields, Each(RowCalcs(h), fields, Each(ph, fields, input)), code);
    }
  }

  /**
   The rows of a subtable with a calculated column are stored with all their calculated columns filled in; a row
   that is no object counts as an empty one. Without such a column the rows stay.
   */
  lemma RowsStored(h: Host, fields: seq<Field>, input: Record, create: bool, existing: Option<Record>,
                   counters: map<string, nat>, i: nat, rows: seq<Val>)
    requires Unique(fields) && i < |fields| && fields[i].ftype.Subtable? && Lookup(input, fields[i].code) == Some(List(rows))
    ensures var stored := Lookup(Completed(h, fields, input, create, existing, counters), fields[i].code);
      var columns := fields[i].ftype.columns;
      && stored.Some? && stored.value.List? && |stored.value.items| == |rows|
      && forall k :: 0 <= k < |rows| ==>
           stored.value.items[k] ==
           if exists c :: c in columns && c.ftype.Calculated?
           then Obj(Calcs(h, columns, if rows[k].Obj? then rows[k].fields else map[])) else rows[k]
  {
    hide Completed, Unique, Calcs;
    CompletedAt(h, fields, input, create, existing, counters, i);
    CalcColumn(fields[i].ftype.columns);
  }

  lemma CalcColumn(columns: seq<Field>)
    ensures HasCalc(columns) <==> exists c :: c in columns && c.ftype.Calculated?
  {
    if c :| c in columns && c.ftype.Calculated? {
      var i :| 0 <= i < |columns| && columns[i] == c;
      assert CalcAt(columns, i);
    }
  }
}
