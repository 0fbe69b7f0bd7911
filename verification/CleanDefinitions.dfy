/** What a cleaned-up app definition is sure to be, and that cleaning it up again changes nothing. */
module CleanDefinitions {
  import opened Definitions
  import opened Numbers
  import opened Strings
  import opened Values

  function OptionsOf(s: Record): seq<string> {
    if "options" !in s || !s["options"].List? then []
    else
      var items := s["options"].items;
      seq(|items|, k requires 0 <= k < |items| => if items[k].Text? then items[k].s else "")
  }

  /** The options are a list of clean texts, at least one. */
  predicate HasOptions(s: Record) {
    && "options" in s
    && s["options"] == List(Texts(OptionsOf(s)))
    && AllClean(OptionsOf(s)) && OptionsOf(s) != []
  }

  predicate AiReady(s: Record) {
    && "prompt" in s && s["prompt"].Text? && Clean(s["prompt"].s, 8000)
    && ("maxTokens" in s ==> s["maxTokens"].Number? && s["maxTokens"].n != ZERO && s["maxTokens"].n != NaN)
  }

  predicate SettingsOk(kind: string, s: Record) {
    (Choice(kind) ==> HasOptions(s)) && (kind == "ai" ==> AiReady(s))
  }

  predicate FieldOk(f: Field) {
    Identifier(f.code) && IsKind(f.kind) && f.name != "" && Clean(f.name, 200) && SettingsOk(f.kind, f.settings)
  }

  predicate AllOk(fields: seq<Field>) {
    forall k :: 0 <= k < |fields| ==> FieldOk(fields[k])
  }

  predicate DistinctCodes(fields: seq<Field>) {
    forall i, j :: 0 <= i < j < |fields| ==> fields[i].code != fields[j].code
  }

  // ----- codes -----

  lemma {:induction false} DigitsIdent(n: nat)
    ensures AllIdent(AutoNumbers.Digits(n))
    decreases n
  {
    if n >= 10 { DigitsIdent(n / 10); }
  }

  lemma IdentAppend(a: string, b: string)
    requires Identifier(a) && AllIdent(b)
    ensures Identifier(a + b)
  {
  }

  lemma BaseIsIdentifier(h: Host, raw: Option<Val>, index: nat)
    ensures Identifier(BaseCode(h, raw, index))
  {
    hide AsString;
    var s := OnlyIdent(AsString(h, raw, 100));
    if s == "" {
      DigitsIdent(index + 1);
      IdentAppend("field_", AutoNumbers.Digits(index + 1));
    } else if !IdentStart(s[0]) {
      IdentAppend("f_", s);
    }
  }

  lemma SlugIsIdentifier(s: string, used: set<string>)
    requires Identifier(s)
    ensures Identifier(Slug(s, used))
  {
    hide Identifier;
    if s in used {
      assert NumberedUpTo(s, 2) == {};
      var n := FreeNumber(s, used, 2);
      DigitsIdent(n);
      IdentAppend(s, "_" + AutoNumbers.Digits(n));
      assert Numbered(s, n) == s + ("_" + AutoNumbers.Digits(n));
    }
  }

  // ----- fields -----

  lemma OptionsSet(settings: Record, options: seq<string>)
    requires AllClean(options) && options != []
    ensures HasOptions(WithOptions(settings, options)) && OptionsOf(WithOptions(settings, options)) == options
  {
    hide AllClean;
    var s := WithOptions(settings, options);
    assert s["options"] == List(Texts(options));
    assert OptionsOf(s) == options;
  }

  lemma AsStringsClean(h: Host, v: Option<Val>)
    ensures AllClean(AsStrings(h, v))
  {
    hide AllClean, CleanTexts;
    if v.Some? && v.value.List? { CleanTextsClean(h, v.value.items); } else { NothingClean(); }
  }

  lemma NothingClean()
    ensures AllClean([])
  {
  }

  lemma AiSettingsReady(h: Host, settings: Record)
    ensures AiReady(AiSettings(h, settings))
  {
    hide Clean, AsString;
    AsStringClean(h, Lookup(settings, "prompt"), 8000);
    var s := AiSettings(h, settings);
    assert "prompt" != "maxTokens";
  }

  lemma SettingsClean(h: Host, kind: string, settings: Record)
    requires IsKind(kind)
    ensures IsKind(KindWith(h, kind, settings))
    ensures SettingsOk(KindWith(h, kind, settings), SettingsWith(h, kind, settings))
  {
    hide IsKind, HasOptions, AiReady, AsStrings, AiSettings, WithOptions;
    var options := AsStrings(h, Lookup(settings, "options"));
    AsStringsClean(h, Lookup(settings, "options"));
    AiSettingsReady(h, settings);
    TextIsKind();
    if options != [] { OptionsSet(settings, options); }
  }

  lemma TextIsKind()
    ensures IsKind("text") && !Choice("text") && "text" != "ai"
  {
  }

  lemma CleanFieldOk(h: Host, f: RawField, index: nat, used: set<string>)
    requires AsString(h, f.name, 200) != ""
    ensures FieldOk(CleanField(h, f, index, used)) && CleanField(h, f, index, used).code !in used
  {
    hide IsKind, SettingsOk, KindOf, BaseCode, Slug, Identifier, AsString, Clean, KindWith, SettingsWith;
    KindIsKind(h, f.kind);
    SettingsClean(h, KindOf(h, f.kind), f.settings);
    BaseIsIdentifier(h, f.code, index);
    SlugIsIdentifier(BaseCode(h, f.code, index), used);
    AsStringClean(h, f.name, 200);
  }

  lemma KindIsKind(h: Host, raw: Option<Val>)
    ensures IsKind(KindOf(h, raw))
  {
    hide IsKind, Normal, Lower, AsString;
    NormalIsKind(Lower(AsString(h, raw, 40)));
  }

  lemma {:induction false} FieldsClean(h: Host, raws: seq<RawField>)
    ensures var fields := CleanFields(h, raws); AllOk(fields) && DistinctCodes(fields) && |fields| <= |raws|
  {
    hide FieldOk, CleanField, AsString;
    if raws != [] {
      var before, f := raws[..|raws| - 1], raws[|raws| - 1];
      FieldsClean(h, before);
      if AsString(h, f.name, 200) != "" {
        var fields := CleanFields(h, before);
        CleanFieldOk(h, f, |raws| - 1, CodesOf(fields));
        CodesHold(fields);
      }
    }
  }

  lemma CodesHold(fields: seq<Field>)
    ensures forall k :: 0 <= k < |fields| ==> fields[k].code in CodesOf(fields)
  {
  }

  // ----- process and actions -----

  predicate StepOk(a: Step, statuses: seq<string>) {
    a.from in statuses && a.to in statuses && a.name != "" && Clean(a.from, 100) && Clean(a.to, 100) && Clean(a.name, 100)
  }

  predicate StepsOk(steps: seq<Step>, statuses: seq<string>) {
    forall k :: 0 <= k < |steps| ==> StepOk(steps[k], statuses)
  }

  /** The process stands on field `at`, whose options are its statuses. */
  predicate ProcessOn(p: Process, fields: seq<Field>, at: nat) {
    && at < |fields| && fields[at].code == p.statusField && StatusKind(fields[at].kind)
    && AllClean(p.statuses) && p.statuses != []
    && Lookup(fields[at].settings, "options") == Some(List(Texts(p.statuses)))
    && StepsOk(p.actions, p.statuses)
  }

  predicate ActionOk(a: Action, fields: seq<Field>) {
    && a.id != "" && Clean(a.id, 60) && a.name != "" && Clean(a.name, 100) && a.prompt != "" && Clean(a.prompt, 8000)
    && (a.target.Some? ==> a.target.value in CodesOf(fields))
  }

  predicate ActionsOk(actions: seq<Action>, fields: seq<Field>) {
    forall k :: 0 <= k < |actions| ==> ActionOk(actions[k], fields)
  }

  /** Unique identifier codes, choices with options, a process on an existing field, actions on existing items. */
  ghost predicate Sound(d: Definition) {
    && AllOk(d.fields) && DistinctCodes(d.fields) && |d.fields| <= MAX_FIELDS
    && (d.process.Some? ==> exists at: nat :: ProcessOn(d.process.value, d.fields, at))
    && ActionsOk(d.actions, d.fields)
    && Clean(d.name, 200) && Clean(d.description, 2000)
    && Scope(Some(Text(d.viewScope))) == d.viewScope && Scope(Some(Text(d.editScope))) == d.editScope
  }

  /** The ids that the clock makes are short and without space at their ends. */
  ghost predicate Stamps(stamp: nat -> string) {
    forall i :: stamp(i) != "" && Clean(stamp(i), 60)
  }

  lemma {:induction false} StepsClean(h: Host, steps: seq<RawStep>, statuses: seq<string>)
    ensures StepsOk(CleanSteps(h, steps, statuses), statuses)
  {
    hide Clean, AsString;
    if steps != [] {
      StepsClean(h, steps[..|steps| - 1], statuses);
      var a := steps[|steps| - 1];
      AsStringClean(h, a.from, 100);
      AsStringClean(h, a.to, 100);
      AsStringClean(h, a.name, 100);
    }
  }

  lemma {:induction false} ActionsClean(h: Host, stamp: nat -> string, raws: seq<RawAction>, fields: seq<Field>)
    requires Stamps(stamp)
    ensures ActionsOk(CleanActions(h, stamp, raws, fields), fields)
  {
    hide Clean, AsString, CodesOf, TargetOf;
    if raws != [] {
      var a := raws[|raws| - 1];
      ActionsClean(h, stamp, raws[..|raws| - 1], fields);
      AsStringClean(h, a.name, 100);
      AsStringClean(h, a.prompt, 8000);
      AsStringClean(h, a.id, 60);
      TargetIsField(h, a, fields);
    }
  }

  lemma TargetIsField(h: Host, a: RawAction, fields: seq<Field>)
    ensures TargetOf(h, a, fields).Some? ==> TargetOf(h, a, fields).value in CodesOf(fields)
  {
    hide AsString;
    CodesHold(fields);
  }

  lemma OptionsMatched(fields: seq<Field>, at: nat, statuses: seq<string>)
    requires AllOk(fields) && DistinctCodes(fields) && at < |fields| && StatusKind(fields[at].kind)
    requires AllClean(statuses) && statuses != []
    ensures var r := SetOptions(fields, at, statuses);
      && |r| == |fields| && AllOk(r) && DistinctCodes(r) && CodesOf(r) == CodesOf(fields)
      && r[at].code == fields[at].code && r[at].kind == fields[at].kind
      && Lookup(r[at].settings, "options") == Some(List(Texts(statuses)))
  {
    hide HasOptions, AiReady, Identifier, IsKind, Clean, AllClean;
    assert FieldOk(fields[at]);
    OptionsSet(fields[at].settings, statuses);
    StatusIsNotAi(fields[at].kind);
    var r := SetOptions(fields, at, statuses);
    assert forall k :: 0 <= k < |r| ==> r[k].code == fields[k].code;
  }

  lemma StatusIsNotAi(kind: string)
    requires StatusKind(kind)
    ensures Choice(kind) && kind != "ai"
  {
  }

  lemma ProcessClean(h: Host, raw: Option<RawProcess>, fields: seq<Field>)
    requires AllOk(fields) && DistinctCodes(fields)
    ensures var r := MatchedFields(h, raw, fields);
      && |r| == |fields| && AllOk(r) && DistinctCodes(r)
      && (CleanProcess(h, raw, fields).Some? ==> exists at: nat :: ProcessOn(CleanProcess(h, raw, fields).value, r, at))
  {
    hide AllOk, DistinctCodes, AsStrings, AsString, CleanSteps, SetOptions, AllClean, StepsOk;
    if raw.Some? && StatusesFor(h, raw.value, fields).Some? {
      var (at, statuses) := StatusesFor(h, raw.value, fields).value;
      AsStringsClean(h, raw.value.statuses);
      AsStringsClean(h, Lookup(fields[at].settings, "options"));
      OptionsMatched(fields, at, statuses);
      StepsClean(h, raw.value.actions, statuses);
      assert ProcessOn(CleanProcess(h, raw, fields).value, MatchedFields(h, raw, fields), at);
    }
  }

  /** Whatever comes in, the cleaned-up definition is sound. */
  lemma SanitizeSound(h: Host, stamp: nat -> string, raw: Raw)
    requires Stamps(stamp)
    ensures Sound(Sanitize(h, stamp, raw))
  {
    hide AllOk, DistinctCodes, ActionsOk, ProcessOn, Stamps, CleanFields, MatchedFields, CleanProcess, CleanActions;
    hide AsString, Clean;
    var fields := CleanFields(h, FirstFields(raw.fields));
    FieldsClean(h, FirstFields(raw.fields));
    ProcessClean(h, raw.process, fields);
    ActionsClean(h, stamp, RawActions(raw), MatchedFields(h, raw.process, fields));
    AsStringClean(h, raw.name, 200);
    AsStringClean(h, raw.description, 2000);
  }

  // ----- cleaning up twice -----

  function Str(s: string): Option<Val> {
    Some(Text(s))
  }

  function RawOfField(f: Field): RawField {
    RawField(Str(f.code), Str(f.kind), Str(f.name), Some(Flag(f.required)), f.settings)
  }

  function RawOfStep(a: Step): RawStep {
    RawStep(Str(a.from), Str(a.to), Str(a.name))
  }

  function RawOfSteps(steps: seq<Step>): (r: seq<RawStep>)
    ensures |r| == |steps|
  {
    seq(|steps|, k requires 0 <= k < |steps| => RawOfStep(steps[k]))
  }

  function RawOfProcess(p: Process): RawProcess {
    RawProcess(Str(p.statusField), Some(List(Texts(p.statuses))), RawOfSteps(p.actions))
  }

  function RawOfAction(a: Action): RawAction {
    RawAction(Str(a.id), Str(a.name), Str(a.prompt), Str(if a.target.Some? then "field" else "show"),
              if a.target.Some? then Str(a.target.value) else None)
  }

  function RawOfFields(fields: seq<Field>): (r: seq<RawField>)
    ensures |r| == |fields|
  {
    seq(|fields|, k requires 0 <= k < |fields| => RawOfField(fields[k]))
  }

  function RawOfActions(actions: seq<Action>): (r: seq<RawAction>)
    ensures |r| == |actions|
  {
    seq(|actions|, k requires 0 <= k < |actions| => RawOfAction(actions[k]))
  }

  /** A clean definition, sent in again. A text that is empty is absent, and so is a list of actions. */
  function AsRaw(d: Definition): Raw {
    Raw(if d.name == "" then None else Str(d.name), if d.description == "" then None else Str(d.description),
        Str(d.viewScope), Str(d.editScope),
        RawOfFields(d.fields),
        if d.process.Some? then Some(RawOfProcess(d.process.value)) else None,
        if d.actions == [] then None else Some(RawOfActions(d.actions)),
        None)
  }

  /**
   A code that comes back: it is short enough, or it is the first free numbered form of what it is cut to,
   that and all lower numbers being among the earlier codes.
   */
  ghost predicate CodeStays(code: string, earlier: set<string>) {
    || |code| <= 100
    || (code[..100] in earlier
        && exists n: nat :: n >= 2 && code == Numbered(code[..100], n)
                            && forall m: nat :: 2 <= m < n ==> Numbered(code[..100], m) in earlier)
  }

  ghost predicate CodesStay(fields: seq<Field>) {
    forall k :: 0 <= k < |fields| ==> CodeStays(fields[k].code, CodesOf(fields[..k]))
  }

  lemma {:induction false} FreeNumberLeast(s: string, used: set<string>, n: nat)
    requires n >= 2 && NumberedUpTo(s, n) <= used
    ensures var r := FreeNumber(s, used, n); n <= r && forall m: nat :: n <= m < r ==> Numbered(s, m) in used
    decreases |used| + 2 - n
  {
    hide Numbered, NumberedUpTo;
    if Numbered(s, n) in used {
      NumberedNext(s, used, n);
      FreeNumberLeast(s, used, n + 1);
    }
  }

  lemma SlugStaysExactly(code: string, used: set<string>)
    requires code !in used
    ensures Slug(Take(code, 100), used) == code <==> CodeStays(code, used)
  {
    hide Numbered, NumberedUpTo, FreeNumber;
    var cut := Take(code, 100);
    if |code| > 100 && cut in used {
      NoneBelowTwo(cut);
      var r := FreeNumber(cut, used, 2);
      FreeNumberLeast(cut, used, 2);
      forall n: nat | n >= 2 && code == Numbered(cut, n) && forall m: nat :: 2 <= m < n ==> Numbered(cut, m) in used
        ensures n == r
      {
      }
    }
  }

  lemma SlugAgain(h: Host, code: string, index: nat, used: set<string>)
    requires Identifier(code)
    ensures Slug(BaseCode(h, Str(code), index), used) == Slug(Take(code, 100), used)
  {
    hide Slug;
    var cut := Take(code, 100);
    assert Identifier(cut);
    TrimKeeps(cut);
    assert AsString(h, Str(code), 100) == cut by { hide Trim; }
    OnlyIdentKeeps(cut);
  }

  lemma TextsOfOptions(h: Host, s: Record)
    requires HasOptions(s)
    ensures AsStrings(h, Lookup(s, "options")) == OptionsOf(s) && WithOptions(s, OptionsOf(s)) == s
  {
    hide AllClean, CleanTexts, OptionsOf;
    CleanTextsStay(h, OptionsOf(s));
  }

  lemma AiSettingsStay(h: Host, s: Record)
    requires AiReady(s)
    ensures AiSettings(h, s) == s
  {
    hide AsString, Clean;
    CleanStays(h, s["prompt"].s, 8000);
    assert s["prompt" := s["prompt"]] == s;
    if "maxTokens" in s { assert s["maxTokens" := s["maxTokens"]] == s; }
  }

  lemma SettingsStay(h: Host, kind: string, s: Record)
    requires SettingsOk(kind, s)
    ensures KindWith(h, kind, s) == kind && SettingsWith(h, kind, s) == s
  {
    hide HasOptions, AiReady, AsStrings, AiSettings, WithOptions, OptionsOf;
    if Choice(kind) {
      TextsOfOptions(h, s);
      OptionsThere(s);
    } else if kind == "ai" {
      AiSettingsStay(h, s);
    }
  }

  lemma OptionsThere(s: Record)
    requires HasOptions(s)
    ensures OptionsOf(s) != []
  {
  }

  lemma FieldAgain(h: Host, f: Field, index: nat, used: set<string>)
    requires FieldOk(f)
    ensures CleanField(h, RawOfField(f), index, used) == f.(code := Slug(Take(f.code, 100), used))
    ensures AsString(h, RawOfField(f).name, 200) == f.name != ""
  {
    hide Identifier, IsKind, SettingsOk, Slug, BaseCode, KindOf, KindWith, SettingsWith, AsString, Clean, Take;
    SlugAgain(h, f.code, index, used);
    KindStays(h, f.kind);
    SettingsStay(h, f.kind, f.settings);
    CleanStays(h, f.name, 200);
  }

  predicate SameCodes(a: seq<Field>, b: seq<Field>) {
    |a| == |b| && forall k :: 0 <= k < |a| ==> a[k].code == b[k].code
  }

  lemma SameCodesOf(a: seq<Field>, b: seq<Field>)
    requires SameCodes(a, b)
    ensures CodesOf(a) == CodesOf(b)
  {
  }

  lemma FieldsSnoc(h: Host, fields: seq<Field>)
    requires AllOk(fields) && fields != []
    ensures var n := |fields| - 1;
      var before := CleanFields(h, RawOfFields(fields[..n]));
      CleanFields(h, RawOfFields(fields))
      == before + [fields[n].(code := Slug(Take(fields[n].code, 100), CodesOf(before)))]
  {
    hide FieldOk, CleanField, AsString, RawOfField, Slug, Take;
    var n := |fields| - 1;
    assert RawOfFields(fields)[..n] == RawOfFields(fields[..n]);
    FieldAgain(h, fields[n], n, CodesOf(CleanFields(h, RawOfFields(fields[..n]))));
  }

  lemma CodeIsNew(fields: seq<Field>)
    requires DistinctCodes(fields) && fields != []
    ensures var n := |fields| - 1; fields[n].code !in CodesOf(fields[..n])
  {
  }

  lemma CodesStayPrefix(fields: seq<Field>)
    requires fields != []
    ensures var n := |fields| - 1;
      CodesStay(fields) <==> CodesStay(fields[..n]) && CodeStays(fields[n].code, CodesOf(fields[..n]))
  {
    hide CodeStays, CodesOf;
    var n := |fields| - 1;
    forall k | 0 <= k < n ensures fields[..n][k] == fields[k] && fields[..n][..k] == fields[..k] {}
    if CodesStay(fields[..n]) {
      forall k | 0 <= k < n ensures CodeStays(fields[k].code, CodesOf(fields[..k])) {
        assert CodeStays(fields[..n][k].code, CodesOf(fields[..n][..k]));
      }
    }
  }

  lemma {:induction false} FieldsStay(h: Host, fields: seq<Field>)
    requires AllOk(fields) && DistinctCodes(fields) && CodesStay(fields)
    ensures CleanFields(h, RawOfFields(fields)) == fields
  {
    hide FieldOk, CodeStays, CodesStay, CodesOf, Slug, Take;
    if fields != [] {
      var n := |fields| - 1;
      CodesStayPrefix(fields);
      FieldsStay(h, fields[..n]);
      FieldsSnoc(h, fields);
      CodeIsNew(fields);
      SlugStaysExactly(fields[n].code, CodesOf(fields[..n]));
      assert fields[..n] + [fields[n]] == fields;
    } else {
      assert RawOfFields(fields) == [];
    }
  }

  lemma {:induction false} FieldsStayOnly(h: Host, fields: seq<Field>)
    requires AllOk(fields) && DistinctCodes(fields) && SameCodes(CleanFields(h, RawOfFields(fields)), fields)
    ensures CodesStay(fields)
  {
    hide FieldOk, CodeStays, CodesOf, Slug, Take, CleanFields, RawOfFields;
    if fields != [] {
      var n := |fields| - 1;
      var before := CleanFields(h, RawOfFields(fields[..n]));
      FieldsSnoc(h, fields);
      var all := CleanFields(h, RawOfFields(fields));
      assert all == before + [all[n]];
      forall k | 0 <= k < n ensures before[k].code == fields[..n][k].code { assert all[k].code == fields[k].code; }
      assert SameCodes(before, fields[..n]);
      SameCodesOf(before, fields[..n]);
      FieldsStayOnly(h, fields[..n]);
      CodeIsNew(fields);
      assert all[n].code == fields[n].code;
      SlugStaysExactly(fields[n].code, CodesOf(fields[..n]));
      CodesStayPrefix(fields);
    }
  }

  lemma {:induction false} FoundAt(fields: seq<Field>, at: nat)
    requires DistinctCodes(fields) && at < |fields|
    ensures FindField(fields, fields[at].code) == Some(at)
  {
    var n := |fields| - 1;
    if at < n { FoundAt(fields[..n], at); }
  }

  lemma CodeAt(h: Host, fields: seq<Field>, at: nat)
    requires AllOk(fields) && at < |fields| && |fields[at].code| <= 100
    ensures AsString(h, Str(fields[at].code), 100) == fields[at].code
  {
    hide AsString;
    assert FieldOk(fields[at]);
    CleanStays(h, fields[at].code, 100);
  }

  lemma {:induction false} StepsStay(h: Host, steps: seq<Step>, statuses: seq<string>)
    requires StepsOk(steps, statuses)
    ensures CleanSteps(h, RawOfSteps(steps), statuses) == steps
  {
    hide AsString, Clean;
    if steps != [] {
      var n := |steps| - 1;
      assert RawOfSteps(steps)[..n] == RawOfSteps(steps[..n]);
      StepsStay(h, steps[..n], statuses);
      assert StepOk(steps[n], statuses);
      CleanStays(h, steps[n].from, 100);
      CleanStays(h, steps[n].to, 100);
      CleanStays(h, steps[n].name, 100);
    }
  }

  lemma ProcessStays(h: Host, p: Process, fields: seq<Field>, at: nat)
    requires AllOk(fields) && DistinctCodes(fields) && ProcessOn(p, fields, at) && |p.statusField| <= 100
    ensures CleanProcess(h, Some(RawOfProcess(p)), fields) == Some(p)
    ensures MatchedFields(h, Some(RawOfProcess(p)), fields) == fields
  {
    hide AllOk, DistinctCodes, AsString, CleanTexts, CleanSteps, StepsOk, AllClean, StatusKind, FindField;
    CodeAt(h, fields, at);
    FoundAt(fields, at);
    CleanTextsStay(h, p.statuses);
    StepsStay(h, p.actions, p.statuses);
    assert StatusesFor(h, RawOfProcess(p), fields) == Some((at, p.statuses));
    OptionsStay(fields, at, p.statuses);
  }

  lemma OptionsStay(fields: seq<Field>, at: nat, options: seq<string>)
    requires at < |fields| && Lookup(fields[at].settings, "options") == Some(List(Texts(options)))
    ensures SetOptions(fields, at, options) == fields
  {
    var s := fields[at].settings;
    assert s["options" := s["options"]] == s;
    assert fields[at := fields[at]] == fields;
  }

  lemma CodeInFields(fields: seq<Field>, code: string) returns (at: nat)
    requires code in CodesOf(fields)
    ensures at < |fields| && fields[at].code == code
  {
    at :| at < |fields| && fields[at].code == code;
  }

  predicate ShortTarget(a: Action) {
    a.target.Some? ==> |a.target.value| <= 100
  }

  lemma TargetStays(h: Host, a: Action, fields: seq<Field>)
    requires AllOk(fields) && DistinctCodes(fields) && ActionOk(a, fields) && ShortTarget(a)
    ensures TargetOf(h, RawOfAction(a), fields) == a.target
  {
    hide AllOk, DistinctCodes, AsString, Clean, CodesOf, FindField;
    FieldIsNotShow();
    if a.target.Some? {
      var at := CodeInFields(fields, a.target.value);
      CodeAt(h, fields, at);
      FoundAt(fields, at);
    }
  }

  lemma FieldIsNotShow()
    ensures "show" != "field"
  {
    assert "show"[0] != "field"[0];
  }

  lemma ActionStays(h: Host, stamp: nat -> string, a: Action, i: nat, fields: seq<Field>)
    requires AllOk(fields) && DistinctCodes(fields) && ActionOk(a, fields) && ShortTarget(a)
    ensures CleanAction(h, stamp, RawOfAction(a), i, fields) == [a]
  {
    hide AllOk, DistinctCodes, ShortTarget, AsString, Clean, CodesOf, TargetOf;
    TargetStays(h, a, fields);
    CleanStays(h, a.id, 60);
    CleanStays(h, a.name, 100);
    CleanStays(h, a.prompt, 8000);
  }

  lemma {:induction false} ActionsStay(h: Host, stamp: nat -> string, actions: seq<Action>, fields: seq<Field>)
    requires AllOk(fields) && DistinctCodes(fields) && ActionsOk(actions, fields)
    requires forall k :: 0 <= k < |actions| ==> ShortTarget(actions[k])
    ensures CleanActions(h, stamp, RawOfActions(actions), fields) == actions
  {
    hide AllOk, DistinctCodes, ShortTarget, CleanAction, ActionOk, RawOfAction;
    if actions != [] {
      var n := |actions| - 1;
      ActionsStay(h, stamp, actions[..n], fields);
      assert RawOfActions(actions)[..n] == RawOfActions(actions[..n]);
      ActionStays(h, stamp, actions[n], n, fields);
    }
  }

  lemma NothingStays(h: Host, s: string, max: nat)
    requires Clean(s, max)
    ensures AsString(h, if s == "" then None else Str(s), max) == s
  {
    CleanStays(h, s, max);
  }

  lemma NoProcess(h: Host, fields: seq<Field>)
    ensures CleanProcess(h, None, fields) == None && MatchedFields(h, None, fields) == fields
  {
  }

  lemma CodesUntouched(h: Host, raw: Option<RawProcess>, fields: seq<Field>)
    ensures var r := MatchedFields(h, raw, fields);
      |r| == |fields| && forall k :: 0 <= k < |r| ==> r[k].code == fields[k].code
  {
    hide AsStrings, AsString, FindField, StatusesFor;
  }

  /** The status field and the targets are named by at most 100 characters. */
  predicate ShortNames(d: Definition) {
    && (d.process.Some? ==> |d.process.value.statusField| <= 100)
    && forall k :: 0 <= k < |d.actions| ==> ShortTarget(d.actions[k])
  }

  lemma AsStringLength(h: Host, v: Option<Val>, max: nat)
    ensures |AsString(h, v, max)| <= max
  {
    AsStringClean(h, v, max);
  }

  lemma ProcessNamed(h: Host, raw: Option<RawProcess>, fields: seq<Field>)
    ensures CleanProcess(h, raw, fields).Some? ==> |CleanProcess(h, raw, fields).value.statusField| <= 100
  {
    hide AsString, AsStrings, CleanSteps;
    if raw.Some? { AsStringLength(h, raw.value.statusField, 100); }
  }

  lemma TargetNamed(h: Host, a: RawAction, fields: seq<Field>)
    ensures TargetOf(h, a, fields).Some? ==> |TargetOf(h, a, fields).value| <= 100
  {
    hide AsString;
    AsStringLength(h, a.target, 100);
  }

  lemma {:induction false} ActionsNamed(h: Host, stamp: nat -> string, raws: seq<RawAction>, fields: seq<Field>)
    ensures forall a :: a in CleanActions(h, stamp, raws, fields) ==> ShortTarget(a)
  {
    hide AsString, TargetOf;
    if raws != [] {
      ActionsNamed(h, stamp, raws[..|raws| - 1], fields);
      TargetNamed(h, raws[|raws| - 1], fields);
    }
  }

  /** Whatever is cleaned up names its fields that way. */
  lemma SanitizeNames(h: Host, stamp: nat -> string, raw: Raw)
    ensures ShortNames(Sanitize(h, stamp, raw))
  {
    hide AsString, CleanFields, MatchedFields, CleanProcess, CleanActions, ShortTarget;
    var fields := CleanFields(h, FirstFields(raw.fields));
    ProcessNamed(h, raw.process, fields);
    ActionsNamed(h, stamp, RawActions(raw), MatchedFields(h, raw.process, fields));
  }

  lemma SoundStays(h: Host, stamp: nat -> string, d: Definition)
    requires Sound(d) && CodesStay(d.fields) && ShortNames(d)
    ensures Sanitize(h, stamp, AsRaw(d)) == d
  {
    hide AllOk, DistinctCodes, ActionsOk, ProcessOn, CodesStay, ShortTarget;
    hide CleanFields, MatchedFields, CleanProcess, CleanActions, AsString, Clean;
    var raw := AsRaw(d);
    assert FirstFields(raw.fields) == RawOfFields(d.fields);
    FieldsStay(h, d.fields);
    if d.process.Some? {
      var at: nat :| ProcessOn(d.process.value, d.fields, at);
      StatusFieldOn(d.process.value, d.fields, at);
      ProcessStays(h, d.process.value, d.fields, at);
    } else {
      NoProcess(h, d.fields);
    }
    assert RawActions(raw) == RawOfActions(d.actions);
    ActionsStay(h, stamp, d.actions, d.fields);
    NothingStays(h, d.name, 200);
    NothingStays(h, d.description, 2000);
  }

  lemma StatusFieldOn(p: Process, fields: seq<Field>, at: nat)
    requires ProcessOn(p, fields, at)
    ensures at < |fields| && fields[at].code == p.statusField
  {
  }

  /** A sound definition comes back as it went in exactly when its codes stay and its names are short. */
  lemma SoundStaysExactly(h: Host, stamp: nat -> string, d: Definition)
    requires Sound(d)
    ensures Sanitize(h, stamp, AsRaw(d)) == d <==> CodesStay(d.fields) && ShortNames(d)
  {
    if CodesStay(d.fields) && ShortNames(d) {
      SoundStays(h, stamp, d);
    } else if Sanitize(h, stamp, AsRaw(d)) == d {
      SanitizeNames(h, stamp, AsRaw(d));
      CodesStayWhenSame(h, stamp, d);
    }
  }

  lemma CodesStayWhenSame(h: Host, stamp: nat -> string, d: Definition)
    requires Sound(d) && Sanitize(h, stamp, AsRaw(d)).fields == d.fields
    ensures CodesStay(d.fields)
  {
    hide AllOk, DistinctCodes, ActionsOk, ProcessOn, CodesStay;
    hide CleanFields, MatchedFields, CleanProcess, CleanActions, AsString, Clean;
    var raws := FirstFields(AsRaw(d).fields);
    assert raws == RawOfFields(d.fields);
    CodesUntouched(h, AsRaw(d).process, CleanFields(h, raws));
    FieldsStayOnly(h, d.fields);
  }

  /** Cleaning up twice is cleaning up once exactly when the codes stay. */
  lemma SanitizeTwice(h: Host, stamp: nat -> string, later: nat -> string, raw: Raw)
    requires Stamps(stamp)
    ensures var d := Sanitize(h, stamp, raw); Sanitize(h, later, AsRaw(d)) == d <==> CodesStay(d.fields)
  {
    hide Sound, CodesStay, Sanitize, Stamps, ShortNames;
    SanitizeSound(h, stamp, raw);
    SanitizeNames(h, stamp, raw);
    SoundStaysExactly(h, later, Sanitize(h, stamp, raw));
  }

  /** A raw definition with one field, whose code is a hundred digits. */
  const HUNDRED := seq(100, _ => '1')
  const DIGITS_ONLY := Raw(None, None, None, None, [RawField(Str(HUNDRED), None, Str("x"), None, map[])], None, None, None)

  lemma DigitsBase(h: Host)
    ensures BaseCode(h, Str(HUNDRED), 0) == "f_" + HUNDRED
  {
    assert AllIdent(HUNDRED) && !IsSpace(HUNDRED[0]) && !IsSpace(HUNDRED[99]) && !IdentStart(HUNDRED[0]);
    CleanStays(h, HUNDRED, 100);
    OnlyIdentKeeps(HUNDRED);
  }

  lemma OneField(h: Host, f: RawField)
    requires AsString(h, f.name, 200) != ""
    ensures CleanFields(h, [f]) == [CleanField(h, f, 0, {})]
  {
    hide AsString, CleanField;
    assert [f][..0] == [];
    assert CleanFields(h, [f][..0]) == [] && CodesOf([]) == {};
  }

  /** Its field gets a code of 102 characters, and cleaning up again changes that. */
  lemma LongCodeIsCut(h: Host, stamp: nat -> string, later: nat -> string)
    requires Stamps(stamp)
    ensures var d := Sanitize(h, stamp, DIGITS_ONLY);
      |d.fields| == 1 && d.fields[0].code == "f_" + HUNDRED && Sanitize(h, later, AsRaw(d)) != d
  {
    var raws := DIGITS_ONLY.fields;
    CleanStays(h, "x", 200);
    hide AsString, CleanField, Stamps, BaseCode, CleanProcess, CleanActions;
    OneField(h, raws[0]);
    CodesUntouched(h, DIGITS_ONLY.process, CleanFields(h, raws));
    DigitsCode(h, raws[0]);
    SanitizeTwice(h, stamp, later, DIGITS_ONLY);
    LongCodeGoes(Sanitize(h, stamp, DIGITS_ONLY).fields);
  }

  lemma DigitsCode(h: Host, f: RawField)
    requires f.code == Str(HUNDRED)
    ensures CleanField(h, f, 0, {}).code == "f_" + HUNDRED
  {
    hide BaseCode, KindOf, KindWith, SettingsWith, AsString;
    DigitsBase(h);
  }

  lemma LongCodeGoes(fields: seq<Field>)
    requires fields != [] && |fields[0].code| > 100
    ensures !CodesStay(fields)
  {
    assert fields[..0] == [] && CodesOf(fields[..0]) == {};
  }
}
