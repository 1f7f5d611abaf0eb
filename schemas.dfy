/**
 * The four request validators of student.schemas.ts. Each Zod object is a
 * declarative list of field rules (`Schema`); one interpreter, `SchemaIssues`,
 * turns a schema and a payload into the list of issues Zod reports, in Zod's
 * order (fields in declaration order, the checks of a field in chain order, every
 * failing check reported). Beside each schema stands a direct reading of its
 * constraints (`CreateAcceptable`, ...) and the validators are proved to accept
 * exactly the payloads that reading admits.
 */
module Schemas {
  import opened Wrappers
  import opened Json

  // ---------------------------------------------------------------------------
  // The matricula pattern /\d\d\d\d\dBSI[0-9]+/i, tested without anchors.

  /** `\d` and `[0-9]`: ASCII digits only (the regex has no `u` flag). */
  predicate IsDigit(c: char)
  {
    '0' <= c <= '9'
  }

  /**
   * `c` matches the upper-case ASCII letter `upper` under the `i` flag: the letter
   * itself or its ASCII lower-case form (case folding never maps a non-ASCII
   * character onto an ASCII one).
   */
  predicate SameLetterIgnoringCase(c: char, upper: char)
    requires 'A' <= upper <= 'Z'
  {
    c == upper || c as int == upper as int + 32
  }

  /**
   * A match of the pattern begins at index `i`: five digits, then B, S, I in any
   * case, then a digit (`[0-9]+` needs one digit; more are allowed but not needed).
   */
  predicate PatternAt(s: string, i: nat)
    requires i + 9 <= |s|
  {
    IsDigit(s[i]) && IsDigit(s[i + 1]) && IsDigit(s[i + 2]) && IsDigit(s[i + 3]) && IsDigit(s[i + 4]) &&
    SameLetterIgnoringCase(s[i + 5], 'B') && SameLetterIgnoringCase(s[i + 6], 'S') &&
    SameLetterIgnoringCase(s[i + 7], 'I') && IsDigit(s[i + 8])
  }

  /** The string contains a match of the pattern somewhere. */
  ghost predicate HasUfuPattern(s: string)
  {
    exists i: nat :: i + 9 <= |s| && PatternAt(s, i)
  }

  /** The regex engine's unanchored search: try each start position from `from` on. */
  function SearchPattern(s: string, from: nat): (found: bool)
    decreases |s| - from
    ensures found <==> exists i: nat :: from <= i && i + 9 <= |s| && PatternAt(s, i)
  {
    if from + 9 > |s| then false
    else PatternAt(s, from) || SearchPattern(s, from + 1)
  }

  /** `regex.test(s)` for the matricula pattern. */
  function RegexTest(s: string): (found: bool)
    ensures found <==> HasUfuPattern(s)
  {
    SearchPattern(s, 0)
  }

  /** What create, update and remove demand of a matricula. */
  ghost predicate MatriculaOk(s: string)
  {
    |s| == 11 && HasUfuPattern(s)
  }

  /**
   * An accepted matricula is 11 characters long, and its match starts at index
   * 0, 1 or 2: the match needs nine characters.
   */
  lemma AcceptedMatriculaShape(s: string)
    requires MatriculaOk(s)
    ensures |s| == 11
    ensures exists i: nat :: i <= 2 && PatternAt(s, i)
  {
    var i: nat :| i + 9 <= |s| && PatternAt(s, i);
    assert i <= 2;
  }

  /** A 10-character identifier can contain the pattern and still be refused for its length. */
  lemma TenCharacterMatriculaRefused()
    ensures HasUfuPattern("20231BSI01") && !MatriculaOk("20231BSI01")
  {
    assert PatternAt("20231BSI01", 0);
  }

  // ---------------------------------------------------------------------------
  // Zod rules as data.

  /** One check chained on `Zod.string()`. */
  datatype Check =
    | Length(n: nat, message: string)     // .length(n, { message })
    | MinLength(n: nat, message: string)  // .min(n, { message })
    | UfuPattern(message: string)         // .regex(/\d\d\d\d\dBSI[0-9]+/i, { message })
    | Url(message: string)                // .url({ message })

  /** The base type of a field: `Zod.string()` with its checks, `Zod.number()` or `Zod.any()`. */
  datatype Kind = Text(checks: seq<Check>) | Number | Anything

  /** `.optional()`, or required with the `required_error` message reported when the key is missing. */
  datatype Presence = Optional | Required(message: string)

  datatype Rule = Rule(key: string, kind: Kind, presence: Presence)

  type Schema = seq<Rule>

  /** A Zod issue: the path of the offending field ("" for the payload itself) and its message. */
  datatype Issue = Issue(path: string, message: string)

  /** Does string `s` pass check `c`? URL validity is the parameter `isUrl`. */
  function Holds(c: Check, s: string, isUrl: string -> bool): bool
  {
    match c
    case Length(n, _) => |s| == n
    case MinLength(n, _) => |s| >= n
    case UfuPattern(_) => RegexTest(s)
    case Url(_) => isUrl(s)
  }

  /** The issues the checks of a string field report, one per failing check, in order. */
  function CheckIssues(path: string, checks: seq<Check>, s: string, isUrl: string -> bool): (issues: seq<Issue>)
    ensures issues == [] <==> forall i :: 0 <= i < |checks| ==> Holds(checks[i], s, isUrl)
    ensures forall i :: 0 <= i < |issues| ==> issues[i].path == path
  {
    if checks == [] then []
    else
      (if Holds(checks[0], s, isUrl) then [] else [Issue(path, checks[0].message)])
      + CheckIssues(path, checks[1..], s, isUrl)
  }

  /** The issues a present value reports against a field's base type and checks. */
  function ValueIssues(path: string, kind: Kind, v: Json, isUrl: string -> bool): (issues: seq<Issue>)
    ensures forall i :: 0 <= i < |issues| ==> issues[i].path == path
  {
    match kind
    case Anything => []
    case Number => if v.JNum? then [] else [Issue(path, "Expected number, received " + TypeName(v))]
    case Text(checks) =>
      if v.JStr? then CheckIssues(path, checks, v.s, isUrl)
      else [Issue(path, "Expected string, received " + TypeName(v))]
  }

  /** The issues one rule reports for an object's fields. */
  function RuleIssues(rule: Rule, fields: map<string, Json>, isUrl: string -> bool): (issues: seq<Issue>)
    ensures forall i :: 0 <= i < |issues| ==> issues[i].path == rule.key
  {
    match Lookup(fields, rule.key)
    case None => if rule.presence.Required? then [Issue(rule.key, rule.presence.message)] else []
    case Some(v) => ValueIssues(rule.key, rule.kind, v, isUrl)
  }

  /** The issues of every rule of the schema, concatenated in declaration order. */
  function ObjectIssues(schema: Schema, fields: map<string, Json>, isUrl: string -> bool): (issues: seq<Issue>)
    ensures issues == [] <==> forall i :: 0 <= i < |schema| ==> RuleIssues(schema[i], fields, isUrl) == []
  {
    if schema == [] then []
    else RuleIssues(schema[0], fields, isUrl) + ObjectIssues(schema[1..], fields, isUrl)
  }

  /** `schema.safeParse(input)`'s issue list; empty exactly when the parse succeeds. */
  function SchemaIssues(schema: Schema, input: Json, isUrl: string -> bool): seq<Issue>
  {
    match input
    case JObject(fields) => ObjectIssues(schema, fields, isUrl)
    case _ => [Issue("", "Expected object, received " + TypeName(input))]
  }

  // ---------------------------------------------------------------------------
  // The four schemas, written out as the source writes them (the matricula rule
  // appears three times, once per schema, as it does there).

  const MatriculaMissing := "Field matricula must compose request body."
  const MatriculaLength := "Field matricula must be 11 characters long."
  const MatriculaPattern := "Field matricula must match UFU's pattern for Information System students."
  const NameEmpty := "Field name must not be empty."
  const PhotoNotUrl := "Field photo must be filled with valid url."

  const CreateSchema: Schema := [
    Rule("matricula", Text([Length(11, MatriculaLength), UfuPattern(MatriculaPattern)]), Required(MatriculaMissing)),
    Rule("name", Text([MinLength(1, NameEmpty)]), Required("Field name must compose request body.")),
    Rule("photo", Text([Url(PhotoNotUrl)]), Required("Field photo must compose request body.")),
    Rule("attendance", Number, Required("Field attendance must compose request body."))
  ]

  const SearchSchema: Schema := [
    Rule("name", Text([]), Optional),
    Rule("matricula", Text([]), Optional),
    Rule("attendance", Number, Optional)
  ]

  const UpdateSchema: Schema := [
    Rule("name", Text([MinLength(1, NameEmpty)]), Optional),
    Rule("photo", Text([Url(PhotoNotUrl)]), Optional),
    Rule("matricula", Text([Length(11, MatriculaLength), UfuPattern(MatriculaPattern)]), Required(MatriculaMissing)),
    Rule("attendance", Anything, Optional)
  ]

  const RemoveSchema: Schema := [
    Rule("matricula", Text([Length(11, MatriculaLength), UfuPattern(MatriculaPattern)]), Required(MatriculaMissing))
  ]

  // ---------------------------------------------------------------------------
  // Validated data, as `result.data` hands it to the service (unknown keys dropped).

  datatype CreateRequest = CreateRequest(matricula: string, name: string, photo: string, attendance: int)

  datatype SearchRequest = SearchRequest(name: Option<string>, matricula: Option<string>, attendance: Option<int>)

  /** `attendance` is `Zod.any()`: whatever value the payload carried. */
  datatype UpdateRequest = UpdateRequest(name: Option<string>, photo: Option<string>, matricula: string, attendance: Option<Json>)

  datatype RemoveRequest = RemoveRequest(matricula: string)

  /** The string under `key`, when the key is present with a string value. */
  function TextAt(fields: map<string, Json>, key: string): (r: Option<string>)
    ensures r.Some? <==> Lookup(fields, key).Some? && Lookup(fields, key).value.JStr?
    ensures r.Some? ==> Lookup(fields, key) == Some(JStr(r.value))
  {
    if key in fields && fields[key].JStr? then Some(fields[key].s) else None
  }

  // ---------------------------------------------------------------------------
  // Direct readings of the four schemas.

  /** Create: all four fields present; an 11-character matricula with the pattern, a non-empty name, a URL photo, a number attendance. */
  ghost predicate CreateAcceptable(input: Json, isUrl: string -> bool)
  {
    input.JObject? &&
    "matricula" in input.fields && input.fields["matricula"].JStr? && MatriculaOk(input.fields["matricula"].s) &&
    "name" in input.fields && input.fields["name"].JStr? && input.fields["name"].s != "" &&
    "photo" in input.fields && input.fields["photo"].JStr? && isUrl(input.fields["photo"].s) &&
    "attendance" in input.fields && input.fields["attendance"].JNum?
  }

  /** Search: every field optional; a present name or matricula is any string, a present attendance a number. */
  ghost predicate SearchAcceptable(input: Json)
  {
    input.JObject? &&
    ("name" in input.fields ==> input.fields["name"].JStr?) &&
    ("matricula" in input.fields ==> input.fields["matricula"].JStr?) &&
    ("attendance" in input.fields ==> input.fields["attendance"].JNum?)
  }

  /** Update: only the matricula is required; a present name is non-empty, a present photo a URL, attendance anything. */
  ghost predicate UpdateAcceptable(input: Json, isUrl: string -> bool)
  {
    input.JObject? &&
    "matricula" in input.fields && input.fields["matricula"].JStr? && MatriculaOk(input.fields["matricula"].s) &&
    ("name" in input.fields ==> input.fields["name"].JStr? && input.fields["name"].s != "") &&
    ("photo" in input.fields ==> input.fields["photo"].JStr? && isUrl(input.fields["photo"].s))
  }

  /** Remove: the matricula rule and nothing else. */
  ghost predicate RemoveAcceptable(input: Json)
  {
    input.JObject? &&
    "matricula" in input.fields && input.fields["matricula"].JStr? && MatriculaOk(input.fields["matricula"].s)
  }

  // ---------------------------------------------------------------------------
  // The interpreter agrees with the readings.

  /** A string rule reports nothing exactly when its field is absent and optional, or a string passing every check. */
  lemma TextRuleMeaning(rule: Rule, fields: map<string, Json>, isUrl: string -> bool)
    requires rule.kind.Text?
    ensures RuleIssues(rule, fields, isUrl) == [] <==>
      if rule.key in fields then
        fields[rule.key].JStr? && forall i :: 0 <= i < |rule.kind.checks| ==> Holds(rule.kind.checks[i], fields[rule.key].s, isUrl)
      else rule.presence.Optional?
  {
  }

  /** The two checks of the matricula rule together say exactly `MatriculaOk`. */
  lemma MatriculaChecksMeaning(lengthMessage: string, patternMessage: string, s: string, isUrl: string -> bool)
    ensures var checks := [Length(11, lengthMessage), UfuPattern(patternMessage)];
      (forall i :: 0 <= i < |checks| ==> Holds(checks[i], s, isUrl)) <==> MatriculaOk(s)
  {
    var checks := [Length(11, lengthMessage), UfuPattern(patternMessage)];
    assert (forall i :: 0 <= i < |checks| ==> Holds(checks[i], s, isUrl)) <==>
      Holds(checks[0], s, isUrl) && Holds(checks[1], s, isUrl);
  }

  lemma CreateSchemaMeaning(input: Json, isUrl: string -> bool)
    ensures SchemaIssues(CreateSchema, input, isUrl) == [] <==> CreateAcceptable(input, isUrl)
  {
    if input.JObject? {
      var f := input.fields;
      if "matricula" in f && f["matricula"].JStr? {
        MatriculaChecksMeaning(MatriculaLength, MatriculaPattern, f["matricula"].s, isUrl);
      }
      TextRuleMeaning(CreateSchema[0], f, isUrl);
      TextRuleMeaning(CreateSchema[1], f, isUrl);
      TextRuleMeaning(CreateSchema[2], f, isUrl);
      assert (forall i :: 0 <= i < |CreateSchema| ==> RuleIssues(CreateSchema[i], f, isUrl) == []) <==>
        RuleIssues(CreateSchema[0], f, isUrl) == [] && RuleIssues(CreateSchema[1], f, isUrl) == [] &&
        RuleIssues(CreateSchema[2], f, isUrl) == [] && RuleIssues(CreateSchema[3], f, isUrl) == [];
    }
  }

  lemma SearchSchemaMeaning(input: Json, isUrl: string -> bool)
    ensures SchemaIssues(SearchSchema, input, isUrl) == [] <==> SearchAcceptable(input)
  {
    if input.JObject? {
      var f := input.fields;
      TextRuleMeaning(SearchSchema[0], f, isUrl);
      TextRuleMeaning(SearchSchema[1], f, isUrl);
      assert (forall i :: 0 <= i < |SearchSchema| ==> RuleIssues(SearchSchema[i], f, isUrl) == []) <==>
        RuleIssues(SearchSchema[0], f, isUrl) == [] && RuleIssues(SearchSchema[1], f, isUrl) == [] &&
        RuleIssues(SearchSchema[2], f, isUrl) == [];
    }
  }

  lemma UpdateSchemaMeaning(input: Json, isUrl: string -> bool)
    ensures SchemaIssues(UpdateSchema, input, isUrl) == [] <==> UpdateAcceptable(input, isUrl)
  {
    if input.JObject? {
      var f := input.fields;
      if "matricula" in f && f["matricula"].JStr? {
        MatriculaChecksMeaning(MatriculaLength, MatriculaPattern, f["matricula"].s, isUrl);
      }
      TextRuleMeaning(UpdateSchema[0], f, isUrl);
      TextRuleMeaning(UpdateSchema[1], f, isUrl);
      TextRuleMeaning(UpdateSchema[2], f, isUrl);
      assert (forall i :: 0 <= i < |UpdateSchema| ==> RuleIssues(UpdateSchema[i], f, isUrl) == []) <==>
        RuleIssues(UpdateSchema[0], f, isUrl) == [] && RuleIssues(UpdateSchema[1], f, isUrl) == [] &&
        RuleIssues(UpdateSchema[2], f, isUrl) == [] && RuleIssues(UpdateSchema[3], f, isUrl) == [];
    }
  }

  lemma RemoveSchemaMeaning(input: Json, isUrl: string -> bool)
    ensures SchemaIssues(RemoveSchema, input, isUrl) == [] <==> RemoveAcceptable(input)
  {
    if input.JObject? {
      var f := input.fields;
      if "matricula" in f && f["matricula"].JStr? {
        MatriculaChecksMeaning(MatriculaLength, MatriculaPattern, f["matricula"].s, isUrl);
      }
      TextRuleMeaning(RemoveSchema[0], f, isUrl);
    }
  }

  // ---------------------------------------------------------------------------
  // The validators: `safeParse` followed by reading `result.data`.

  function ValidateCreate(input: Json, isUrl: string -> bool): (r: Result<CreateRequest, seq<Issue>>)
    ensures r.Success? <==> CreateAcceptable(input, isUrl)
    ensures r.Failure? ==> r.error != [] && r.error == SchemaIssues(CreateSchema, input, isUrl)
    ensures r.Success? ==> r.value == CreateRequest(input.fields["matricula"].s, input.fields["name"].s,
                                                    input.fields["photo"].s, input.fields["attendance"].n)
  {
    CreateSchemaMeaning(input, isUrl);
    var issues := SchemaIssues(CreateSchema, input, isUrl);
    if issues != [] then Failure(issues)
    else
      var f := input.fields;
      Success(CreateRequest(f["matricula"].s, f["name"].s, f["photo"].s, f["attendance"].n))
  }

  function ValidateSearch(input: Json, isUrl: string -> bool): (r: Result<SearchRequest, seq<Issue>>)
    ensures r.Success? <==> SearchAcceptable(input)
    ensures r.Failure? ==> r.error != [] && r.error == SchemaIssues(SearchSchema, input, isUrl)
    ensures r.Success? ==>
      r.value.name == TextAt(input.fields, "name") && r.value.matricula == TextAt(input.fields, "matricula") &&
      (r.value.attendance.Some? <==> "attendance" in input.fields) &&
      (r.value.attendance.Some? ==> r.value.attendance.value == input.fields["attendance"].n)
  {
    SearchSchemaMeaning(input, isUrl);
    var issues := SchemaIssues(SearchSchema, input, isUrl);
    if issues != [] then Failure(issues)
    else
      var f := input.fields;
      Success(SearchRequest(TextAt(f, "name"), TextAt(f, "matricula"),
                            if "attendance" in f then Some(f["attendance"].n) else None))
  }

  function ValidateUpdate(input: Json, isUrl: string -> bool): (r: Result<UpdateRequest, seq<Issue>>)
    ensures r.Success? <==> UpdateAcceptable(input, isUrl)
    ensures r.Failure? ==> r.error != [] && r.error == SchemaIssues(UpdateSchema, input, isUrl)
    ensures r.Success? ==>
      r.value.matricula == input.fields["matricula"].s &&
      r.value.name == TextAt(input.fields, "name") && r.value.photo == TextAt(input.fields, "photo") &&
      r.value.attendance == Lookup(input.fields, "attendance")
  {
    UpdateSchemaMeaning(input, isUrl);
    var issues := SchemaIssues(UpdateSchema, input, isUrl);
    if issues != [] then Failure(issues)
    else
      var f := input.fields;
      Success(UpdateRequest(TextAt(f, "name"), TextAt(f, "photo"), f["matricula"].s, Lookup(f, "attendance")))
  }

  function ValidateRemove(input: Json, isUrl: string -> bool): (r: Result<RemoveRequest, seq<Issue>>)
    ensures r.Success? <==> RemoveAcceptable(input)
    ensures r.Failure? ==> r.error != [] && r.error == SchemaIssues(RemoveSchema, input, isUrl)
    ensures r.Success? ==> r.value.matricula == input.fields["matricula"].s
  {
    RemoveSchemaMeaning(input, isUrl);
    var issues := SchemaIssues(RemoveSchema, input, isUrl);
    if issues != [] then Failure(issues)
    else Success(RemoveRequest(input.fields["matricula"].s))
  }

  // ---------------------------------------------------------------------------
  // Issues field by field.

  /** The issues reported at one path, in order. */
  function IssuesAt(issues: seq<Issue>, path: string): (r: seq<Issue>)
    ensures forall i :: 0 <= i < |r| ==> r[i].path == path
    ensures |r| <= |issues|
  {
    if issues == [] then []
    else (if issues[0].path == path then [issues[0]] else []) + IssuesAt(issues[1..], path)
  }

  lemma {:induction false} IssuesAtConcat(a: seq<Issue>, b: seq<Issue>, path: string)
    ensures IssuesAt(a + b, path) == IssuesAt(a, path) + IssuesAt(b, path)
  {
    if a == [] {
      assert a + b == b;
    } else {
      assert (a + b)[1..] == a[1..] + b;
      IssuesAtConcat(a[1..], b, path);
    }
  }

  lemma {:induction false} IssuesAtUniform(issues: seq<Issue>, q: string, path: string)
    requires forall i :: 0 <= i < |issues| ==> issues[i].path == q
    ensures IssuesAt(issues, path) == if q == path then issues else []
  {
    if issues != [] {
      IssuesAtUniform(issues[1..], q, path);
    }
  }

  /** A schema without a rule for `path` reports nothing there. */
  lemma {:induction false} ObjectIssuesAtNone(schema: Schema, fields: map<string, Json>, isUrl: string -> bool, path: string)
    requires forall j :: 0 <= j < |schema| ==> schema[j].key != path
    ensures IssuesAt(ObjectIssues(schema, fields, isUrl), path) == []
  {
    if schema != [] {
      IssuesAtConcat(RuleIssues(schema[0], fields, isUrl), ObjectIssues(schema[1..], fields, isUrl), path);
      IssuesAtUniform(RuleIssues(schema[0], fields, isUrl), schema[0].key, path);
      ObjectIssuesAtNone(schema[1..], fields, isUrl, path);
    }
  }

  /** When one rule of a schema owns `path`, the issues there are that rule's issues and no other's. */
  lemma {:induction false} ObjectIssuesAtRule(schema: Schema, fields: map<string, Json>, isUrl: string -> bool, k: nat)
    requires k < |schema|
    requires forall j :: 0 <= j < |schema| && j != k ==> schema[j].key != schema[k].key
    ensures IssuesAt(ObjectIssues(schema, fields, isUrl), schema[k].key) == RuleIssues(schema[k], fields, isUrl)
  {
    var path := schema[k].key;
    IssuesAtConcat(RuleIssues(schema[0], fields, isUrl), ObjectIssues(schema[1..], fields, isUrl), path);
    IssuesAtUniform(RuleIssues(schema[0], fields, isUrl), schema[0].key, path);
    if k == 0 {
      ObjectIssuesAtNone(schema[1..], fields, isUrl, path);
    } else {
      ObjectIssuesAtRule(schema[1..], fields, isUrl, k - 1);
    }
  }

  /** The issues each of create, update and remove reports at "matricula": the three rules say the same. */
  ghost function MatriculaIssues(input: Json): seq<Issue>
  {
    if !input.JObject? then []
    else match Lookup(input.fields, "matricula")
      case None => [Issue("matricula", MatriculaMissing)]
      case Some(v) =>
        if !v.JStr? then [Issue("matricula", "Expected string, received " + TypeName(v))]
        else
          (if |v.s| == 11 then [] else [Issue("matricula", MatriculaLength)])
          + (if HasUfuPattern(v.s) then [] else [Issue("matricula", MatriculaPattern)])
  }

  /** The matricula rule, as each of the three schemas writes it. */
  lemma MatriculaRuleIssues(rule: Rule, fields: map<string, Json>, isUrl: string -> bool)
    requires rule == Rule("matricula", Text([Length(11, MatriculaLength), UfuPattern(MatriculaPattern)]), Required(MatriculaMissing))
    ensures RuleIssues(rule, fields, isUrl) == MatriculaIssues(JObject(fields))
  {
    if "matricula" in fields && fields["matricula"].JStr? {
      var s := fields["matricula"].s;
      var checks := rule.kind.checks;
      assert checks[1..] == [UfuPattern(MatriculaPattern)];
      assert CheckIssues("matricula", checks[1..][1..], s, isUrl) == [];
      assert CheckIssues("matricula", checks[1..], s, isUrl)
          == if HasUfuPattern(s) then [] else [Issue("matricula", MatriculaPattern)];
      assert CheckIssues("matricula", checks, s, isUrl)
          == (if |s| == 11 then [] else [Issue("matricula", MatriculaLength)]) + CheckIssues("matricula", checks[1..], s, isUrl);
    }
  }

  /**
   * Create, update and remove report identical issues at "matricula" for every
   * payload (and hence accept the same identifiers): a missing key, a non-string,
   * a wrong length and a missing pattern, the last two both when both fail.
   */
  lemma SameMatriculaRule(input: Json, isUrl: string -> bool)
    ensures IssuesAt(SchemaIssues(CreateSchema, input, isUrl), "matricula") == MatriculaIssues(input)
    ensures IssuesAt(SchemaIssues(UpdateSchema, input, isUrl), "matricula") == MatriculaIssues(input)
    ensures IssuesAt(SchemaIssues(RemoveSchema, input, isUrl), "matricula") == MatriculaIssues(input)
  {
    if input.JObject? {
      var f := input.fields;
      MatriculaRuleIssues(CreateSchema[0], f, isUrl);
      ObjectIssuesAtRule(CreateSchema, f, isUrl, 0);
      ObjectIssuesAtRule(UpdateSchema, f, isUrl, 2);
      ObjectIssuesAtRule(RemoveSchema, f, isUrl, 0);
    }
  }

  /** Create names every missing field, with that field's own `required_error` message. */
  lemma CreateReportsMissingField(fields: map<string, Json>, isUrl: string -> bool, k: nat)
    requires k < |CreateSchema| && CreateSchema[k].key !in fields
    ensures IssuesAt(SchemaIssues(CreateSchema, JObject(fields), isUrl), CreateSchema[k].key)
         == [Issue(CreateSchema[k].key, CreateSchema[k].presence.message)]
  {
    ObjectIssuesAtRule(CreateSchema, fields, isUrl, k);
  }

  /** A payload without fields passes search; query strings never carry a number, so any `attendance` there is refused. */
  lemma SearchAcceptsEmptyQuery(isUrl: string -> bool, query: map<string, Json>)
    ensures ValidateSearch(JObject(map[]), isUrl) == Success(SearchRequest(None, None, None))
    ensures "attendance" in query && query["attendance"].JStr? ==> ValidateSearch(JObject(query), isUrl).Failure?
  {
  }
}
