/** Cleaning up app definitions that come from a language model or a client. */
module Definitions {
  import opened AutoNumbers
  import opened Numbers
  import opened Strings
  import opened Values

  // ----- texts -----

  function TextOf(h: Host, v: Val): string {
    if v.Text? then v.s else h.text(v)
  }

  function Take(s: string, max: nat): (t: string)
    ensures |t| <= max
  {
    if |s| <= max then s else s[..max]
  }

  /** `asString`: nothing for null and undefined. */
  function AsString(h: Host, v: Option<Val>, max: nat): string {
    if v.None? || v.value.Null? then "" else Trim(Take(TextOf(h, v.value), max))
  }

  /** A text that `asString` gives, and leaves alone. */
  predicate Clean(s: string, max: nat) {
    |s| <= max && Trimmed(s)
  }

  lemma AsStringClean(h: Host, v: Option<Val>, max: nat)
    ensures Clean(AsString(h, v, max), max)
  {
    hide IsSpace, Take;
  }

  lemma CleanStays(h: Host, s: string, max: nat)
    requires Clean(s, max)
    ensures AsString(h, Some(Text(s)), max) == s
  {
    TrimKeeps(s);
    hide Trim, IsSpace;
  }

  function CleanTexts(h: Host, items: seq<Val>): seq<string> {
    if items == [] then []
    else CleanTexts(h, items[..|items| - 1])
         + var s := AsString(h, Some(items[|items| - 1]), 200); if s == "" then [] else [s]
  }

  /** `asStringArray` */
  function AsStrings(h: Host, v: Option<Val>): seq<string> {
    if v.Some? && v.value.List? then CleanTexts(h, v.value.items) else []
  }

  predicate AllClean(ss: seq<string>) {
    forall k :: 0 <= k < |ss| ==> Clean(ss[k], 200) && ss[k] != ""
  }

  function Texts(ss: seq<string>): (r: seq<Val>)
    ensures |r| == |ss| && forall k :: 0 <= k < |ss| ==> r[k] == Text(ss[k])
  {
    seq(|ss|, k requires 0 <= k < |ss| => Text(ss[k]))
  }

  lemma {:induction false} CleanTextsClean(h: Host, items: seq<Val>)
    ensures AllClean(CleanTexts(h, items))
  {
    hide Clean, AsString;
    if items != [] {
      CleanTextsClean(h, items[..|items| - 1]);
      AsStringClean(h, Some(items[|items| - 1]), 200);
    }
  }

  lemma {:induction false} CleanTextsStay(h: Host, ss: seq<string>)
    requires AllClean(ss)
    ensures CleanTexts(h, Texts(ss)) == ss
  {
    hide Clean, AsString;
    if ss != [] {
      var n := |ss| - 1;
      assert Texts(ss)[..n] == Texts(ss[..n]);
      CleanTextsStay(h, ss[..n]);
      CleanStays(h, ss[n], 200);
    }
  }

  // ----- field codes -----

  predicate IdentStart(c: char) {
    'A' <= c <= 'Z' || 'a' <= c <= 'z' || c == '_'
  }

  predicate IdentChar(c: char) {
    IdentStart(c) || '0' <= c <= '9'
  }

  predicate AllIdent(s: string) {
    forall k :: 0 <= k < |s| ==> IdentChar(s[k])
  }

  /** `^[A-Za-z_][A-Za-z0-9_]*$` */
  predicate Identifier(s: string) {
    s != "" && IdentStart(s[0]) && AllIdent(s)
  }

  function OnlyIdent(s: string): (t: string)
    ensures AllIdent(t)
  {
    if s == "" then "" else (if IdentChar(s[0]) then [s[0]] else "") + OnlyIdent(s[1..])
  }

  lemma {:induction false} OnlyIdentKeeps(s: string)
    requires AllIdent(s)
    ensures OnlyIdent(s) == s
  {
    if s != "" { OnlyIdentKeeps(s[1..]); }
  }

  /** The code before duplicates are avoided. */
  function BaseCode(h: Host, raw: Option<Val>, index: nat): string {
    var s := OnlyIdent(AsString(h, raw, 100));
    if s == "" then "field_" + Digits(index + 1) else if IdentStart(s[0]) then s else "f_" + s
  }

  function Numbered(s: string, n: nat): string {
    s + "_" + Digits(n)
  }

  lemma NumberedDiffer(s: string, m: nat, n: nat)
    requires Numbered(s, m) == Numbered(s, n)
    ensures m == n
  {
    assert Numbered(s, m)[|s| + 1..] == Digits(m) && Numbered(s, n)[|s| + 1..] == Digits(n);
    ValueOfDigits(m);
    ValueOfDigits(n);
  }

  function NumberedUpTo(s: string, n: nat): set<string> {
    set m: nat | 2 <= m < n :: Numbered(s, m)
  }

  lemma {:induction false} NumberedCount(s: string, n: nat)
    ensures n >= 2 ==> |NumberedUpTo(s, n)| == n - 2
  {
    hide Numbered;
    if n == 2 {
      assert NumberedUpTo(s, 2) == {};
    } else if n > 2 {
      NumberedCount(s, n - 1);
      assert NumberedUpTo(s, n) == NumberedUpTo(s, n - 1) + {Numbered(s, n - 1)};
      forall m: nat | m < n - 1 ensures Numbered(s, m) != Numbered(s, n - 1) {
        if Numbered(s, m) == Numbered(s, n - 1) { NumberedDiffer(s, m, n - 1); }
      }
    }
  }

  lemma SubsetSize(a: set<string>, b: set<string>)
    requires a <= b
    ensures |a| <= |b|
  {
    assert b == a + (b - a);
  }

  /** There are only as many taken codes as there are codes. */
  lemma Pigeonhole(s: string, used: set<string>, n: nat)
    requires n >= 2 && NumberedUpTo(s, n) <= used
    ensures n - 2 <= |used|
  {
    NumberedCount(s, n);
    SubsetSize(NumberedUpTo(s, n), used);
  }

  lemma NumberedNext(s: string, used: set<string>, n: nat)
    requires n >= 2 && NumberedUpTo(s, n) <= used && Numbered(s, n) in used
    ensures NumberedUpTo(s, n + 1) <= used && n - 1 <= |used|
  {
    hide Numbered;
    assert NumberedUpTo(s, n + 1) == NumberedUpTo(s, n) + {Numbered(s, n)};
    Pigeonhole(s, used, n + 1);
  }

  /** The first number from `n` on that makes the code free. */
  function FreeNumber(s: string, used: set<string>, n: nat): (r: nat)
    requires n >= 2 && NumberedUpTo(s, n) <= used
    ensures Numbered(s, r) !in used
    decreases |used| + 2 - n
  {
    if Numbered(s, n) in used then
      NumberedNext(s, used, n);
      FreeNumber(s, used, n + 1)
    else n
  }

  function Slug(s: string, used: set<string>): (r: string)
    ensures r !in used
  {
    if s in used then
      assert NumberedUpTo(s, 2) == {};
      Numbered(s, FreeNumber(s, used, 2))
    else s
  }

  method SlugCode(h: Host, raw: Option<Val>, index: nat, used: set<string>) returns (code: string)
    ensures code == Slug(BaseCode(h, raw, index), used)
  {
    hide Numbered, NumberedUpTo, BaseCode;
    var s := BaseCode(h, raw, index);
    code := s;
    var n := 2;
    assert NumberedUpTo(s, 2) == {} by { NoneBelowTwo(s); }
    while code in used
      invariant n >= 2 && NumberedUpTo(s, 2) <= used
      invariant n == 2 ==> code == s
      invariant n > 2 ==>
        && s in used && code == Numbered(s, n - 1) && NumberedUpTo(s, n - 1) <= used
        && FreeNumber(s, used, n - 1) == FreeNumber(s, used, 2)
      decreases |used| + 3 - n
    {
      if n > 2 { NumberedNext(s, used, n - 1); }
      code := Numbered(s, n);
      n := n + 1;
    }
  }

  lemma NoneBelowTwo(s: string)
    ensures NumberedUpTo(s, 2) == {}
  {
  }

  // ----- raw and clean definitions -----

  /** A raw definition: the properties the clean-up reads; `None` is one that is absent. */
  datatype RawField = RawField(
    code: Option<Val>, kind: Option<Val>, name: Option<Val>, required: Option<Val>, settings: Record)
  datatype RawStep = RawStep(from: Option<Val>, to: Option<Val>, name: Option<Val>)
  datatype RawProcess = RawProcess(statusField: Option<Val>, statuses: Option<Val>, actions: seq<RawStep>)
  datatype RawAction = RawAction(
    id: Option<Val>, name: Option<Val>, prompt: Option<Val>, output: Option<Val>, target: Option<Val>)

  /** `aiActions` is only read when `aiConfig` has no list of actions. */
  datatype Raw = Raw(
    name: Option<Val>, description: Option<Val>, viewScope: Option<Val>, editScope: Option<Val>,
    fields: seq<RawField>, process: Option<RawProcess>, aiConfig: Option<seq<RawAction>>, aiActions: Option<seq<RawAction>>)

  datatype Field = Field(code: string, kind: string, name: string, required: bool, settings: Record)
  datatype Step = Step(from: string, to: string, name: string)
  datatype Process = Process(statusField: string, statuses: seq<string>, actions: seq<Step>)
  datatype Action = Action(id: string, name: string, prompt: string, target: Option<string>)

  datatype Definition = Definition(
    name: string, description: string, viewScope: string, editScope: string,
    fields: seq<Field>, process: Option<Process>, actions: seq<Action>)

  const MAX_FIELDS := 40

  // ----- kinds -----

  predicate IsKind(t: string) {
    || t == "text" || t == "textarea" || t == "number" || t == "date" || t == "datetime" || t == "checkbox"
    || t == "radio" || t == "select" || t == "user_select" || t == "group_select" || t == "file"
    || t == "auto_number" || t == "status" || t == "calc" || t == "reference" || t == "subtable" || t == "link"
    || t == "email" || t == "phone" || t == "section" || t == "location" || t == "ai"
  }

  function Alias(t: string): Option<string> {
    if t == "string" then Some("text")
    else if t == "multiline" || t == "longtext" then Some("textarea")
    else if t == "dropdown" || t == "selectbox" || t == "enum" then Some("select")
    else if t == "bool" || t == "boolean" then Some("checkbox")
    else if t == "user" then Some("user_select")
    else if t == "attachment" then Some("file")
    else if t == "url" then Some("link")
    else if t == "tel" then Some("phone")
    else if t == "datetime_local" then Some("datetime")
    else None
  }

  function Normal(t: string): string {
    if IsKind(t) then t else if Alias(t).Some? then Alias(t).value else "text"
  }

  /** `normalizeType`, with the text field it falls back to. */
  function KindOf(h: Host, raw: Option<Val>): string {
    Normal(Lower(AsString(h, raw, 40)))
  }

  lemma NormalIsKind(t: string)
    ensures IsKind(Normal(t))
  {
    var a := Alias(t);
    if a.Some? { AliasIsKind(t); }
  }

  lemma AliasIsKind(t: string)
    requires Alias(t).Some?
    ensures IsKind(Alias(t).value)
  {
  }

  predicate Choice(kind: string) {
    kind == "select" || kind == "radio" || kind == "checkbox" || kind == "status"
  }

  predicate StatusKind(kind: string) {
    kind == "status" || kind == "select" || kind == "radio"
  }

  predicate Plain(s: string) {
    0 < |s| <= 40 && forall k :: 0 <= k < |s| ==> 'a' <= s[k] <= 'z' || s[k] == '_'
  }

  lemma KindPlain(t: string)
    requires IsKind(t)
    ensures Plain(t)
  {
  }

  lemma {:induction false} PlainLower(s: string)
    requires forall k :: 0 <= k < |s| ==> 'a' <= s[k] <= 'z' || s[k] == '_'
    ensures Lower(s) == s
  {
    if s != "" { PlainLower(s[1..]); }
  }

  lemma KindStays(h: Host, t: string)
    requires IsKind(t)
    ensures KindOf(h, Some(Text(t))) == t
  {
    hide IsKind, Alias, Lower, AsString, Clean;
    KindPlain(t);
    PlainClean(t);
    CleanStays(h, t, 40);
  }

  lemma PlainClean(s: string)
    requires Plain(s)
    ensures Lower(s) == s && Clean(s, 40)
  {
    PlainLower(s);
    hide Lower;
  }

  // ----- fields -----

  function Truthy(v: Option<Val>): bool {
    match v
    case None => false
    case Some(Null) => false
    case Some(Flag(b)) => b
    case Some(Number(n)) => n != ZERO && n != NaN
    case Some(Text(s)) => s != ""
    case Some(_) => true
  }

  function WithOptions(settings: Record, options: seq<string>): Record {
    settings["options" := List(Texts(options))]
  }

  /** A choice without options becomes a text field. */
  function KindWith(h: Host, kind: string, settings: Record): string {
    if Choice(kind) && AsStrings(h, Lookup(settings, "options")) == [] then "text" else kind
  }

  function AiSettings(h: Host, settings: Record): Record {
    var s := settings["prompt" := Text(AsString(h, Lookup(settings, "prompt"), 8000))];
    if "maxTokens" !in s then s
    else
      var n := ToNum(h, s["maxTokens"]);
      if n == ZERO || n == NaN then s - {"maxTokens"} else s["maxTokens" := Number(n)]
  }

  function SettingsWith(h: Host, kind: string, settings: Record): Record {
    var options := AsStrings(h, Lookup(settings, "options"));
    if Choice(kind) && options != [] then WithOptions(settings, options)
    else if kind == "ai" then AiSettings(h, settings)
    else settings
  }

  function CodesOf(fields: seq<Field>): set<string> {
    set k | 0 <= k < |fields| :: fields[k].code
  }

  function CleanField(h: Host, f: RawField, index: nat, used: set<string>): Field {
    var kind := KindOf(h, f.kind);
    Field(Slug(BaseCode(h, f.code, index), used), KindWith(h, kind, f.settings), AsString(h, f.name, 200),
          Truthy(f.required), SettingsWith(h, kind, f.settings))
  }

  /** A field without a name is left out. */
  function AddField(h: Host, fields: seq<Field>, f: RawField, index: nat): seq<Field> {
    if AsString(h, f.name, 200) == "" then fields else fields + [CleanField(h, f, index, CodesOf(fields))]
  }

  function CleanFields(h: Host, raws: seq<RawField>): seq<Field> {
    if raws == [] then []
    else AddField(h, CleanFields(h, raws[..|raws| - 1]), raws[|raws| - 1], |raws| - 1)
  }

  function FirstFields(raws: seq<RawField>): seq<RawField> {
    if |raws| <= MAX_FIELDS then raws else raws[..MAX_FIELDS]
  }

  // ----- process and actions -----

  function FindField(fields: seq<Field>, code: string): (r: Option<nat>)
    ensures r.Some? ==> r.value < |fields| && fields[r.value].code == code
    ensures r.None? ==> forall k :: 0 <= k < |fields| ==> fields[k].code != code
  {
    if fields == [] then None
    else if fields[|fields| - 1].code == code then Some(|fields| - 1)
    else FindField(fields[..|fields| - 1], code)
  }

  function CleanSteps(h: Host, steps: seq<RawStep>, statuses: seq<string>): seq<Step> {
    if steps == [] then []
    else
      var a := steps[|steps| - 1];
      var step := Step(AsString(h, a.from, 100), AsString(h, a.to, 100), AsString(h, a.name, 100));
      CleanSteps(h, steps[..|steps| - 1], statuses)
      + if step.from in statuses && step.to in statuses && step.name != "" then [step] else []
  }

  /** The field whose options are the statuses, and the statuses; none when the process is dropped. */
  function StatusesFor(h: Host, p: RawProcess, fields: seq<Field>): Option<(nat, seq<string>)> {
    var at := FindField(fields, AsString(h, p.statusField, 100));
    if at.None? || !StatusKind(fields[at.value].kind) then None
    else
      var given := AsStrings(h, p.statuses);
      var statuses := if given == [] then AsStrings(h, Lookup(fields[at.value].settings, "options")) else given;
      if statuses == [] then None else Some((at.value, statuses))
  }

  function CleanProcess(h: Host, raw: Option<RawProcess>, fields: seq<Field>): Option<Process> {
    if raw.None? then None
    else match StatusesFor(h, raw.value, fields)
      case None => None
      case Some((at, statuses)) =>
        if at < |fields| then Some(Process(fields[at].code, statuses, CleanSteps(h, raw.value.actions, statuses))) else None
  }

  function SetOptions(fields: seq<Field>, at: nat, options: seq<string>): seq<Field> {
    if at < |fields| then fields[at := fields[at].(settings := WithOptions(fields[at].settings, options))] else fields
  }

  /** The status field gets the statuses of the process as its options. */
  function MatchedFields(h: Host, raw: Option<RawProcess>, fields: seq<Field>): seq<Field> {
    if raw.None? then fields
    else match StatusesFor(h, raw.value, fields)
      case None => fields
      case Some((at, statuses)) => SetOptions(fields, at, statuses)
  }

  function TargetOf(h: Host, a: RawAction, fields: seq<Field>): Option<string> {
    if a.output != Some(Text("field")) then None
    else match FindField(fields, AsString(h, a.target, 100))
      case None => None
      case Some(k) => Some(fields[k].code)
  }

  /** `stamp` makes the id of an action that has none; one without name or prompt is left out. */
  function CleanAction(h: Host, stamp: nat -> string, a: RawAction, i: nat, fields: seq<Field>): seq<Action> {
    var name, prompt, id := AsString(h, a.name, 100), AsString(h, a.prompt, 8000), AsString(h, a.id, 60);
    if name == "" || prompt == "" then []
    else [Action(if id == "" then stamp(i) else id, name, prompt, TargetOf(h, a, fields))]
  }

  function CleanActions(h: Host, stamp: nat -> string, raws: seq<RawAction>, fields: seq<Field>): seq<Action> {
    if raws == [] then []
    else
      var i := |raws| - 1;
      CleanActions(h, stamp, raws[..i], fields) + CleanAction(h, stamp, raws[i], i, fields)
  }

  function RawActions(raw: Raw): seq<RawAction> {
    if raw.aiConfig.Some? then raw.aiConfig.value else if raw.aiActions.Some? then raw.aiActions.value else []
  }

  function Scope(v: Option<Val>): string {
    if v == Some(Text("owner")) then "owner" else if v == Some(Text("org")) then "org" else "all"
  }

  function Sanitize(h: Host, stamp: nat -> string, raw: Raw): Definition {
    var fields := CleanFields(h, FirstFields(raw.fields));
    var matched := MatchedFields(h, raw.process, fields);
    Definition(
      AsString(h, raw.name, 200), AsString(h, raw.description, 2000), Scope(raw.viewScope), Scope(raw.editScope),
      matched, CleanProcess(h, raw.process, fields), CleanActions(h, stamp, RawActions(raw), matched))
  }

  // ----- the loops -----

  /** The code of each field, by its place. */
  predicate ByCode(places: map<string, nat>, fields: seq<Field>) {
    && (forall code :: code in places ==> places[code] < |fields| && fields[places[code]].code == code)
    && (forall k :: 0 <= k < |fields| ==> fields[k].code in places)
  }

  predicate Separate(fields: seq<Field>) {
    forall i, j :: 0 <= i < j < |fields| ==> fields[i].code != fields[j].code
  }

  method SanitizeFields(h: Host, raws: seq<RawField>) returns (fields: seq<Field>, byCode: map<string, nat>)
    ensures fields == CleanFields(h, raws) && ByCode(byCode, fields) && Separate(fields)
  {
    hide KindOf, KindWith, SettingsWith, AsString, BaseCode, Slug;
    fields, byCode := [], map[];
    var used: set<string> := {};
    for i := 0 to |raws|
      invariant fields == CleanFields(h, raws[..i]) && used == CodesOf(fields)
      invariant ByCode(byCode, fields) && Separate(fields)
    {
      var f := raws[i];
      assert raws[..i + 1][..i] == raws[..i];
      var name := AsString(h, f.name, 200);
      if name != "" {
        var kind := KindOf(h, f.kind);
        var code := SlugCode(h, f.code, i, used);
        var field := Field(code, KindWith(h, kind, f.settings), name, Truthy(f.required), SettingsWith(h, kind, f.settings));
        CodesGrow(fields, field);
        fields := fields + [field];
        byCode := byCode[code := |fields| - 1];
        used := used + {code};
      }
    }
    assert raws[..|raws|] == raws;
  }

  lemma CodesGrow(fields: seq<Field>, f: Field)
    ensures CodesOf(fields + [f]) == CodesOf(fields) + {f.code}
    ensures forall k :: 0 <= k < |fields| ==> fields[k].code in CodesOf(fields)
  {
    var all := fields + [f];
    assert all[|fields|] == f;
    assert forall k :: 0 <= k < |fields| ==> all[k] == fields[k];
  }

  lemma Found(places: map<string, nat>, fields: seq<Field>, code: string)
    requires ByCode(places, fields) && Separate(fields)
    ensures FindField(fields, code) == if code in places then Some(places[code]) else None
  {
    hide FindField;
  }

  method SanitizeDefinition(h: Host, stamp: nat -> string, raw: Raw) returns (d: Definition)
    ensures d == Sanitize(h, stamp, raw)
  {
    hide CleanFields, ByCode, Separate, AsString, AsStrings, CleanSteps, CleanAction, FindField, WithOptions;
    var fields, byCode := SanitizeFields(h, FirstFields(raw.fields));
    var process: Option<Process> := None;
    ghost var built := fields;
    if raw.process.Some? {
      var p := raw.process.value;
      var wanted := AsString(h, p.statusField, 100);
      var statuses := AsStrings(h, p.statuses);
      Found(byCode, fields, wanted);
      if wanted in byCode {
        PlaceInRange(byCode, fields, wanted);
        var at := byCode[wanted];
        if StatusKind(fields[at].kind) {
          if statuses == [] { statuses := AsStrings(h, Lookup(fields[at].settings, "options")); }
          if statuses != [] {
            fields := fields[at := fields[at].(settings := WithOptions(fields[at].settings, statuses))];
            process := Some(Process(fields[at].code, statuses, CleanSteps(h, p.actions, statuses)));
          }
        }
      }
    }
    assert fields == MatchedFields(h, raw.process, built) && process == CleanProcess(h, raw.process, built);
    var raws := RawActions(raw);
    var actions: seq<Action> := [];
    for i := 0 to |raws|
      invariant actions == CleanActions(h, stamp, raws[..i], fields)
    {
      assert raws[..i + 1][..i] == raws[..i];
      actions := actions + CleanAction(h, stamp, raws[i], i, fields);
    }
    assert raws[..|raws|] == raws;
    d := Definition(
      AsString(h, raw.name, 200), AsString(h, raw.description, 2000), Scope(raw.viewScope), Scope(raw.editScope),
      fields, process, actions);
  }

  lemma PlaceInRange(places: map<string, nat>, fields: seq<Field>, code: string)
    requires ByCode(places, fields) && code in places
    ensures places[code] < |fields|
  {
  }
}
