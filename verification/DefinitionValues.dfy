/** What a cleaned-up definition takes over from the raw one, property by property. */
module DefinitionValues {
  import opened AutoNumbers
  import opened CleanDefinitions
  import opened Definitions
  import opened Numbers
  import opened Strings
  import opened Values

  // ----- texts -----

  /** The text of a value, cut to `max` characters and without the white space around. */
  ghost predicate CleansTo(h: Host, v: Option<Val>, max: nat, r: string) {
    match v
    case None => r == ""
    case Some(Null) => r == ""
    case Some(w) =>
      var s := if w.Text? then w.s else h.text(w);
      IsInside(if |s| > max then s[..max] else s, r)
  }

  /** `r` is `s` without the white space around. */
  ghost predicate IsInside(s: string, r: string) {
    Trimmed(r) && exists i, j :: StandsIn(s, i, j, r)
  }

  predicate StandsIn(s: string, i: int, j: int, r: string) {
    0 <= i <= j <= |s| && r == s[i..j] && Gap(s[..i]) && Gap(s[j..])
  }

  lemma CleanTextIs(h: Host, v: Option<Val>, max: nat)
    ensures CleansTo(h, v, max, AsString(h, v, max))
  {
    hide Gap, Trim;
    if v.Some? && !v.value.Null? {
      var s := if v.value.Text? then v.value.s else h.text(v.value);
      var cut := if |s| > max then s[..max] else s;
      var i, j := TrimParts(cut);
      assert Take(s, max) == cut && AsString(h, v, max) == Trim(cut);
      assert Trimmed(Trim(cut));
      assert StandsIn(cut, i, j, Trim(cut));
    }
  }

  /** Of a list its texts, but for those that are blank; of anything else none. */
  function Listed(h: Host, v: Option<Val>): seq<string> {
    match v
    case Some(List(items)) => ListedTexts(h, items)
    case _ => []
  }

  function ListedTexts(h: Host, items: seq<Val>): seq<string> {
    if items == [] then []
    else
      var first := AsString(h, Some(items[0]), 200);
      (if first == "" then [] else [first]) + ListedTexts(h, items[1..])
  }

  lemma {:induction false} ListedSnoc(h: Host, items: seq<Val>, last: Val)
    ensures ListedTexts(h, items + [last])
         == ListedTexts(h, items) + if AsString(h, Some(last), 200) == "" then [] else [AsString(h, Some(last), 200)]
  {
    hide AsString;
    if items == [] {
      assert [last][1..] == [] && items + [last] == [last];
    } else {
      assert (items + [last])[1..] == items[1..] + [last];
      ListedSnoc(h, items[1..], last);
    }
  }

  lemma {:induction false} ListedIs(h: Host, items: seq<Val>)
    ensures CleanTexts(h, items) == ListedTexts(h, items)
  {
    hide AsString;
    if items != [] {
      var n := |items| - 1;
      ListedIs(h, items[..n]);
      ListedSnoc(h, items[..n], items[n]);
      assert items == items[..n] + [items[n]];
    }
  }

  lemma TextsIs(h: Host, v: Option<Val>)
    ensures AsStrings(h, v) == Listed(h, v)
  {
    if v.Some? && v.value.List? { ListedIs(h, v.value.items); }
  }

  // ----- codes -----

  predicate CodeChar(c: char) {
    'A' <= c <= 'Z' || 'a' <= c <= 'z' || c == '_' || '0' <= c <= '9'
  }

  /** `s` without the characters that may not stand in a code. */
  function CodeChars(s: string): string {
    if s == "" then ""
    else if CodeChar(s[|s| - 1]) then CodeChars(s[..|s| - 1]) + [s[|s| - 1]]
    else CodeChars(s[..|s| - 1])
  }

  lemma {:induction false} OnlyIdentAppend(a: string, b: string)
    ensures OnlyIdent(a + b) == OnlyIdent(a) + OnlyIdent(b)
  {
    if a == "" {
      assert a + b == b;
    } else {
      assert (a + b)[1..] == a[1..] + b;
      OnlyIdentAppend(a[1..], b);
    }
  }

  lemma {:induction false} CodeCharsIs(s: string)
    ensures OnlyIdent(s) == CodeChars(s)
  {
    if s != "" {
      var n := |s| - 1;
      assert s == s[..n] + [s[n]] && [s[n]][1..] == "";
      CodeCharsIs(s[..n]);
      OnlyIdentAppend(s[..n], [s[n]]);
      assert OnlyIdent([s[n]]) == if CodeChar(s[n]) then [s[n]] else "";
    }
  }

  /** The code before duplicates are avoided: a code may not start with a digit, and a field without one is numbered. */
  function FirstCode(given: string, index: nat): string {
    var s := CodeChars(given);
    if s == "" then "field_" + Digits(index + 1) else if '0' <= s[0] <= '9' then "f_" + s else s
  }

  /** A code that is free, or its first free numbered form, from 2 on. */
  ghost predicate FreeForm(base: string, used: set<string>, code: string) {
    if base !in used then code == base
    else exists n: nat :: 2 <= n && code == base + "_" + Digits(n) && code !in used
                          && forall m: nat :: 2 <= m < n ==> base + "_" + Digits(m) in used
  }

  lemma SlugIs(base: string, used: set<string>)
    ensures FreeForm(base, used, Slug(base, used))
  {
    if base in used {
      assert NumberedUpTo(base, 2) == {};
      FreeIsFirst(base, used, 2);
    }
  }

  lemma {:induction false} FreeIsFirst(base: string, used: set<string>, n: nat)
    requires n >= 2 && NumberedUpTo(base, n) <= used
    ensures var r := FreeNumber(base, used, n); r >= n && forall m: nat :: n <= m < r ==> base + "_" + Digits(m) in used
    decreases |used| + 2 - n
  {
    if Numbered(base, n) in used {
      NumberedNext(base, used, n);
      FreeIsFirst(base, used, n + 1);
    }
  }

  // ----- kinds -----

  const KINDS := {
    "text", "textarea", "number", "date", "datetime", "checkbox", "radio", "select", "user_select", "group_select", "file",
    "auto_number", "status", "calc", "reference", "subtable", "link", "email", "phone", "section", "location", "ai"}

  const ALIASES := map[
    "string" := "text", "multiline" := "textarea", "longtext" := "textarea", "dropdown" := "select",
    "selectbox" := "select", "enum" := "select", "bool" := "checkbox", "boolean" := "checkbox", "user" := "user_select",
    "attachment" := "file", "url" := "link", "tel" := "phone", "datetime_local" := "datetime"]

  const CHOICES := {"select", "radio", "checkbox", "status"}

  /** The kind a name stands for; anything unknown is a text. */
  function KindNamed(name: string): string {
    if name in KINDS then name else if name in ALIASES then ALIASES[name] else "text"
  }

  lemma KindIs(name: string)
    ensures Normal(name) == KindNamed(name)
  {
    KindsAre(name);
    AliasesAre(name);
    hide IsKind, Alias;
  }

  lemma KindsAre(name: string)
    ensures IsKind(name) <==> name in KINDS
  {
  }

  lemma AliasesAre(name: string)
    ensures name !in KINDS ==> Alias(name) == if name in ALIASES then Some(ALIASES[name]) else None
  {
  }

  // ----- fields -----

  /** What counts as true. */
  predicate True(v: Option<Val>) {
    v != None && v != Some(Null) && v != Some(Flag(false)) && v != Some(Text("")) && v != Some(Number(Fin(0.0)))
    && v != Some(Number(NaN))
  }

  /** The settings of a field of that kind: a choice has clean options, the prompt of an ai field is clean, the rest stays. */
  ghost predicate SettingsFrom(h: Host, kind: string, options: seq<string>, raw: Record, s: Record) {
    if kind in CHOICES && options != [] then s == raw["options" := List(Texts(options))]
    else if kind == "ai" then
      && (exists p :: CleansTo(h, Lookup(raw, "prompt"), 8000, p) && Lookup(s, "prompt") == Some(Text(p)))
      && (forall key :: key != "prompt" && key != "maxTokens" ==> Lookup(s, key) == Lookup(raw, key))
      && (if "maxTokens" !in raw || ToNum(h, raw["maxTokens"]) in {Fin(0.0), NaN} then "maxTokens" !in s
          else Lookup(s, "maxTokens") == Some(Number(ToNum(h, raw["maxTokens"]))))
    else s == raw
  }

  /** The clean form of a raw field, after the fields whose codes are used. */
  ghost predicate FieldFrom(h: Host, f: RawField, index: nat, used: set<string>, g: Field) {
    && CleansTo(h, f.name, 200, g.name) && g.name != ""
    && (g.required <==> True(f.required))
    && (exists c :: CleansTo(h, f.code, 100, c) && FreeForm(FirstCode(c, index), used, g.code))
    && (exists t :: CleansTo(h, f.kind, 40, t) &&
          var kind, options := KindNamed(Lower(t)), Listed(h, Lookup(f.settings, "options"));
          && g.kind == (if kind in CHOICES && options == [] then "text" else kind)
          && SettingsFrom(h, kind, options, f.settings, g.settings))
  }

  lemma AiSettingsFrom(h: Host, raw: Record)
    ensures SettingsFrom(h, "ai", [], raw, AiSettings(h, raw))
  {
    hide AsString, CleansTo;
    CleanTextIs(h, Lookup(raw, "prompt"), 8000);
    assert "prompt" != "maxTokens";
  }

  lemma SettingsAre(h: Host, kind: string, raw: Record)
    ensures SettingsFrom(h, kind, Listed(h, Lookup(raw, "options")), raw, SettingsWith(h, kind, raw))
  {
    hide AiSettings, AsStrings, CleansTo;
    TextsIs(h, Lookup(raw, "options"));
    AiSettingsFrom(h, raw);
    assert Choice(kind) <==> kind in CHOICES;
  }

  lemma CleanFieldFrom(h: Host, f: RawField, index: nat, used: set<string>)
    requires AsString(h, f.name, 200) != ""
    ensures FieldFrom(h, f, index, used, CleanField(h, f, index, used))
  {
    hide AsString, AsStrings, SettingsWith, SettingsFrom, FreeForm, Slug, CleansTo, KindNamed, Normal;
    var c, t := AsString(h, f.code, 100), AsString(h, f.kind, 40);
    CleanTextIs(h, f.name, 200);
    CleanTextIs(h, f.code, 100);
    CleanTextIs(h, f.kind, 40);
    CodeCharsIs(c);
    SlugIs(BaseCode(h, f.code, index), used);
    BaseIs(h, f.code, index);
    KindIs(Lower(t));
    TextsIs(h, Lookup(f.settings, "options"));
    SettingsAre(h, KindNamed(Lower(t)), f.settings);
    assert Choice(KindNamed(Lower(t))) <==> KindNamed(Lower(t)) in CHOICES;
  }

  lemma BaseIs(h: Host, raw: Option<Val>, index: nat)
    ensures BaseCode(h, raw, index) == FirstCode(AsString(h, raw, 100), index)
  {
    hide AsString;
    CodeCharsIs(AsString(h, raw, 100));
    var s := OnlyIdent(AsString(h, raw, 100));
    if s != "" { assert IdentChar(s[0]); }
  }

  /** Where a raw field goes: behind the clean fields of those before it. */
  function Before(h: Host, raws: seq<RawField>, i: nat): seq<Field>
    requires i <= |raws|
  {
    CleanFields(h, raws[..i])
  }

  lemma {:induction false} FieldAt(h: Host, raws: seq<RawField>, i: nat)
    requires i < |raws|
    ensures var fields, at := CleanFields(h, raws), |Before(h, raws, i)|;
      if AsString(h, raws[i].name, 200) == "" then Before(h, raws, i + 1) == Before(h, raws, i)
      else at < |fields| && |Before(h, raws, i + 1)| == at + 1
           && FieldFrom(h, raws[i], i, CodesOf(Before(h, raws, i)), fields[at])
  {
    hide AsString, CleanField, FieldFrom, CodesOf;
    var n := |raws| - 1;
    assert raws[..i + 1][..i] == raws[..i];
    if AsString(h, raws[i].name, 200) != "" {
      if i < n {
        FieldAt(h, raws[..n], i);
        assert raws[..n][..i] == raws[..i] && raws[..n][..i + 1] == raws[..i + 1];
      } else {
        CleanFieldFrom(h, raws[i], i, CodesOf(Before(h, raws, i)));
      }
    }
  }

  /** The raw fields that are looked at: the first forty. */
  function Considered(raw: Raw): seq<RawField> {
    if |raw.fields| > 40 then raw.fields[..40] else raw.fields
  }

  /** The clean fields, before the process has its say. */
  function Fields(h: Host, raw: Raw): seq<Field> {
    CleanFields(h, Considered(raw))
  }

  // ----- the process -----

  function StepsFrom(h: Host, steps: seq<RawStep>, statuses: seq<string>): seq<Step> {
    if steps == [] then []
    else
      var from, to, name := AsString(h, steps[0].from, 100), AsString(h, steps[0].to, 100), AsString(h, steps[0].name, 100);
      (if name != "" && from in statuses && to in statuses then [Step(from, to, name)] else [])
      + StepsFrom(h, steps[1..], statuses)
  }

  lemma {:induction false} StepsSnoc(h: Host, steps: seq<RawStep>, last: RawStep, statuses: seq<string>)
    ensures StepsFrom(h, steps + [last], statuses) == StepsFrom(h, steps, statuses) + StepsFrom(h, [last], statuses)
  {
    hide AsString;
    if steps == [] {
      assert steps + [last] == [last];
    } else {
      assert (steps + [last])[1..] == steps[1..] + [last];
      StepsSnoc(h, steps[1..], last, statuses);
    }
  }

  lemma {:induction false} StepsAre(h: Host, steps: seq<RawStep>, statuses: seq<string>)
    ensures CleanSteps(h, steps, statuses) == StepsFrom(h, steps, statuses)
  {
    hide AsString;
    if steps != [] {
      var n := |steps| - 1;
      StepsAre(h, steps[..n], statuses);
      StepsSnoc(h, steps[..n], steps[n], statuses);
      assert steps == steps[..n] + [steps[n]] && [steps[n]][1..] == [];
    }
  }

  /** The given statuses, or else the options of the field. */
  function StatusesOf(h: Host, p: RawProcess, g: Field): seq<string> {
    if Listed(h, p.statuses) != [] then Listed(h, p.statuses) else Listed(h, Lookup(g.settings, "options"))
  }

  /**
   The process is taken over exactly if its status field is a clean field of a fitting kind and there are statuses.
   They are the given ones if there are any, and the options of the field otherwise; the field gets them as its
   options, and everything else stays.
   */
  lemma ProcessTaken(h: Host, stamp: nat -> string, raw: Raw, k: nat)
    requires raw.process.Some? && k < |Fields(h, raw)|
    requires Fields(h, raw)[k].code == AsString(h, raw.process.value.statusField, 100)
    ensures var fields, d, p := Fields(h, raw), Sanitize(h, stamp, raw), raw.process.value;
      var g := fields[k];
      var statuses := StatusesOf(h, p, g);
      if g.kind in {"status", "select", "radio"} && statuses != [] then
        && d.process == Some(Process(g.code, statuses, StepsFrom(h, p.actions, statuses)))
        && d.fields == fields[k := g.(settings := g.settings["options" := List(Texts(statuses))])]
      else d.process == None && d.fields == fields
  {
    hide AsString, AsStrings, CleanFields, CleanSteps, StepsFrom, Listed, CleanActions, FieldOk;
    var fields, p := Fields(h, raw), raw.process.value;
    FieldsClean(h, Considered(raw));
    var at := FindField(fields, AsString(h, p.statusField, 100));
    assert at == Some(k);
    TextsIs(h, p.statuses);
    TextsIs(h, Lookup(fields[k].settings, "options"));
    StepsAre(h, p.actions, StatusesOf(h, p, fields[k]));
    assert FirstFields(raw.fields) == Considered(raw);
  }

  /** Without such a field there is no process, and the fields are as they were. */
  lemma NoProcess(h: Host, stamp: nat -> string, raw: Raw)
    requires raw.process.Some? ==>
      forall k :: 0 <= k < |Fields(h, raw)| ==> Fields(h, raw)[k].code != AsString(h, raw.process.value.statusField, 100)
    ensures Sanitize(h, stamp, raw).process == None && Sanitize(h, stamp, raw).fields == Fields(h, raw)
  {
    hide AsString, AsStrings, CleanFields, CleanSteps, CleanActions;
    assert FirstFields(raw.fields) == Considered(raw);
    if raw.process.Some? {
      assert FindField(Fields(h, raw), AsString(h, raw.process.value.statusField, 100)).None?;
    }
  }

  // ----- the rest -----

  /** What an action is taken over as: nothing without name or prompt; its target is a field with that code, if asked for. */
  ghost predicate ActionFrom(h: Host, stamp: nat -> string, a: RawAction, i: nat, fields: seq<Field>, r: seq<Action>) {
    var name, prompt, id, target :=
      AsString(h, a.name, 100), AsString(h, a.prompt, 8000), AsString(h, a.id, 60), AsString(h, a.target, 100);
    if name == "" || prompt == "" then r == []
    else
      && |r| == 1 && r[0].name == name && r[0].prompt == prompt && r[0].id == (if id == "" then stamp(i) else id)
      && (if a.output == Some(Text("field")) && (exists k :: 0 <= k < |fields| && fields[k].code == target)
          then r[0].target == Some(target) else r[0].target == None)
  }

  /** The actions one after the other; `parts[i]` is what action `i` gives. */
  lemma {:induction false} ActionsAre(h: Host, stamp: nat -> string, raws: seq<RawAction>, fields: seq<Field>)
    returns (parts: seq<seq<Action>>)
    ensures |parts| == |raws| && CleanActions(h, stamp, raws, fields) == Flat(parts)
    ensures forall i :: 0 <= i < |raws| ==> ActionFrom(h, stamp, raws[i], i, fields, parts[i])
  {
    hide AsString, FindField;
    parts := [];
    if raws != [] {
      var n := |raws| - 1;
      parts := ActionsAre(h, stamp, raws[..n], fields);
      var last := CleanAction(h, stamp, raws[n], n, fields);
      assert (parts + [last])[..n] == parts;
      parts := parts + [last];
    }
  }

  function Flat(parts: seq<seq<Action>>): seq<Action> {
    if parts == [] then [] else Flat(parts[..|parts| - 1]) + parts[|parts| - 1]
  }

  /** Names, scopes and actions. */
  lemma RestTaken(h: Host, stamp: nat -> string, raw: Raw) returns (parts: seq<seq<Action>>)
    ensures var d := Sanitize(h, stamp, raw);
      && CleansTo(h, raw.name, 200, d.name) && CleansTo(h, raw.description, 2000, d.description)
      && (forall scope :: scope in {"owner", "org"} ==> (d.viewScope == scope <==> raw.viewScope == Some(Text(scope))))
      && (forall scope :: scope in {"owner", "org"} ==> (d.editScope == scope <==> raw.editScope == Some(Text(scope))))
      && d.viewScope in {"owner", "org", "all"} && d.editScope in {"owner", "org", "all"}
    ensures var d := Sanitize(h, stamp, raw);
      var given := if raw.aiConfig.Some? then raw.aiConfig.value else if raw.aiActions.Some? then raw.aiActions.value else [];
      && |parts| == |given| && d.actions == Flat(parts)
      && forall i :: 0 <= i < |given| ==> ActionFrom(h, stamp, given[i], i, d.fields, parts[i])
  {
    hide AsString, CleansTo, CleanFields, CleanProcess, MatchedFields, CleanActions, ActionFrom;
    CleanTextIs(h, raw.name, 200);
    CleanTextIs(h, raw.description, 2000);
    parts := ActionsAre(h, stamp, RawActions(raw), Sanitize(h, stamp, raw).fields);
  }
}
