/** The validation gateway: Joi schemas as data and the checker `validateSchema`
    runs them with (`abortEarly: false`, `stripUnknown: true`). A schema check
    yields the normalised value (defaults applied, unknown object keys removed,
    numbers and dates converted) and the list of every violated constraint. */
module Validation {
  import opened Base
  import opened JsonValue
  import Phone

  /** What the model does not compute itself: the clock, Joi's URI and UUID
      recognisers, and JavaScript's string-to-number and string-to-date conversions. */
  datatype Env = Env(
    now: int,
    isUri: string -> bool,
    isUuid: string -> bool,
    parseNumber: string -> Option<real>,
    parseDate: string -> Option<int>)

  datatype StrRule = MinLength(min: nat) | MaxLength(max: nat) | PhonePattern | Uri | Guid
  datatype NumRule = Integer | AtLeast(lo: real) | AtMost(hi: real)
  datatype DateRule = GreaterThanNow

  /** `.required()`, `.optional()` (Joi's default) or `.default(value)`. */
  datatype Presence = Required | Optional | Default(value: Json)

  datatype Schema =
    | StrS(rules: seq<StrRule>, valid: seq<string>)   // Joi.string(); `valid` non-empty: .valid(...)
    | NumS(numRules: seq<NumRule>)                   // Joi.number()
    | DateS(dateRules: seq<DateRule>)                // Joi.date()
    | AnyObjS                                        // Joi.object() without keys
    | ObjS(fields: seq<FieldRule>)                   // Joi.object({ ... })
    | ArrS(item: Schema)                             // Joi.array().items(item)

  datatype FieldRule = FieldRule(name: string, schema: Schema, presence: Presence)

  /** Joi's error types (`detail.type`). */
  datatype ErrorCode =
    | AnyRequired | AnyOnly
    | StringBase | StringEmpty | StringMin | StringMax | StringPattern | StringUri | StringGuid
    | NumberBase | NumberInteger | NumberMin | NumberMax
    | DateBase | DateGreater
    | ObjectBase | ArrayBase

  datatype PathSeg = At(key: string) | Nth(index: nat)

  /** One `{ field, message }` entry: `field` is `detail.path.join('.')`. */
  datatype FieldError = FieldError(field: string, code: ErrorCode)

  datatype Checked = Checked(value: Json, errors: seq<FieldError>)

  /** What `validateSchema` returns or throws. */
  datatype Validated = Valid(value: Json) | Invalid(errors: seq<FieldError>) {
    /** The errors reported, none when valid. */
    function Reported(): seq<FieldError> {
      if Invalid? then errors else []
    }
  }

  // ---------------------------------------------------------------------------
  // Paths

  function DigitChar(d: nat): char
    requires d < 10
  {
    "0123456789"[d]
  }

  function NatToString(n: nat): (r: string)
    ensures |r| > 0
  {
    if n < 10 then [DigitChar(n)] else NatToString(n / 10) + [DigitChar(n % 10)]
  }

  function SegText(p: PathSeg): string {
    match p
    case At(k) => k
    case Nth(i) => NatToString(i)
  }

  /** `path.join('.')`. */
  function Join(path: seq<PathSeg>): string {
    if |path| == 0 then ""
    else if |path| == 1 then SegText(path[0])
    else SegText(path[0]) + "." + Join(path[1..])
  }

  function Err(path: seq<PathSeg>, code: ErrorCode): FieldError {
    FieldError(Join(path), code)
  }

  // ---------------------------------------------------------------------------
  // Leaf types

  predicate StrRuleHolds(env: Env, rule: StrRule, s: string) {
    match rule
    case MinLength(n) => |s| >= n
    case MaxLength(n) => |s| <= n
    case PhonePattern => Phone.MatchesPhone(s)
    case Uri => env.isUri(s)
    case Guid => env.isUuid(s)
  }

  function StrRuleCode(rule: StrRule): ErrorCode {
    match rule
    case MinLength(_) => StringMin
    case MaxLength(_) => StringMax
    case PhonePattern => StringPattern
    case Uri => StringUri
    case Guid => StringGuid
  }

  /** One error per failing rule, in the order the rules were declared. */
  function StrRuleErrors(env: Env, rules: seq<StrRule>, s: string, path: seq<PathSeg>): seq<FieldError> {
    if |rules| == 0 then []
    else
      (if StrRuleHolds(env, rules[0], s) then [] else [Err(path, StrRuleCode(rules[0]))])
      + StrRuleErrors(env, rules[1..], s, path)
  }

  /** Joi.string(): a value listed by `.valid(...)` is accepted at once; otherwise an
      allow-list reports `any.only`, and the type check (`string.base`, then
      `string.empty`) either stops the check or lets every rule run. */
  function CheckString(env: Env, rules: seq<StrRule>, valid: seq<string>, v: Json, path: seq<PathSeg>): Checked {
    if v.JStr? && v.s in valid then Checked(v, [])
    else
      var only := if |valid| > 0 then [Err(path, AnyOnly)] else [];
      if !v.JStr? then Checked(v, only + [Err(path, StringBase)])
      else if v.s == "" then Checked(v, only + [Err(path, StringEmpty)])
      else Checked(v, only + StrRuleErrors(env, rules, v.s, path))
  }

  predicate NumRuleHolds(rule: NumRule, r: real) {
    match rule
    case Integer => r.Floor as real == r
    case AtLeast(lo) => r >= lo
    case AtMost(hi) => r <= hi
  }

  function NumRuleCode(rule: NumRule): ErrorCode {
    match rule
    case Integer => NumberInteger
    case AtLeast(_) => NumberMin
    case AtMost(_) => NumberMax
  }

  function NumRuleErrors(rules: seq<NumRule>, r: real, path: seq<PathSeg>): seq<FieldError> {
    if |rules| == 0 then []
    else
      (if NumRuleHolds(rules[0], r) then [] else [Err(path, NumRuleCode(rules[0]))])
      + NumRuleErrors(rules[1..], r, path)
  }

  /** Joi.number(): a number, or (with `convert`) a string JavaScript reads as one. */
  function CheckNumber(env: Env, rules: seq<NumRule>, v: Json, path: seq<PathSeg>): Checked {
    var n := if v.JNum? then Some(v.n) else if v.JStr? then env.parseNumber(v.s) else None;
    if n.None? then Checked(v, [Err(path, NumberBase)])
    else Checked(JNum(n.value), NumRuleErrors(rules, n.value, path))
  }

  /** The largest distance from the epoch, in milliseconds, that a JavaScript `Date` can
      hold (section 21.4.1.1 of ECMA-262): 100 000 000 days. */
  const MaxTimeMillis: int := 8_640_000_000_000_000

  /** Whether `TimeClip` keeps a time value rather than turning it into an invalid date. */
  predicate InTimeRange(r: real) {
    -(MaxTimeMillis as real) <= r <= MaxTimeMillis as real
  }

  /** `new Date(ms)` keeps the integer part of a millisecond count (rounding towards zero). */
  function TruncateMillis(r: real): int {
    if r >= 0.0 then r.Floor else -((-r).Floor)
  }

  /** Joi.date(): a millisecond timestamp or a string `Date` can parse, within the range
      of a `Date`; the normalised value is the integral millisecond count. */
  function CheckDate(env: Env, rules: seq<DateRule>, v: Json, path: seq<PathSeg>): Checked {
    var ms := MillisOf(env, v);
    if ms.None? then Checked(v, [Err(path, DateBase)])
    else Checked(JNum(ms.value as real), DateRuleErrors(env, rules, ms.value, path))
  }

  function DateRuleErrors(env: Env, rules: seq<DateRule>, ms: int, path: seq<PathSeg>): seq<FieldError> {
    if |rules| == 0 then []
    else
      (if ms > env.now then [] else [Err(path, DateGreater)])
      + DateRuleErrors(env, rules[1..], ms, path)
  }

  // ---------------------------------------------------------------------------
  // The checker

  function Check(env: Env, s: Schema, v: Json, path: seq<PathSeg>): (c: Checked)
    decreases s, 1, 0
  {
    match s
    case StrS(rules, valid) => CheckString(env, rules, valid, v, path)
    case NumS(rules) => CheckNumber(env, rules, v, path)
    case DateS(rules) => CheckDate(env, rules, v, path)
    case AnyObjS => if v.JObj? then Checked(v, []) else Checked(v, [Err(path, ObjectBase)])
    case ObjS(fields) =>
      if v.JObj? then
        Checked(JObj(ObjectValue(env, fields, 0, v.fields, path)), ObjectErrors(env, fields, 0, v.fields, path))
      else Checked(v, [Err(path, ObjectBase)])
    case ArrS(item) =>
      if v.JArr? then
        Checked(JArr(ArrayValue(env, item, v.items, 0, path)), ArrayErrors(env, item, v.items, 0, path))
      else Checked(v, [Err(path, ArrayBase)])
  }

  /** The errors one declared key contributes: its value's own errors, or
      `any.required` when a required key is absent. */
  function FieldErrors(env: Env, fields: seq<FieldRule>, i: nat, body: Object, path: seq<PathSeg>): seq<FieldError>
    requires i < |fields|
    decreases ObjS(fields), 0, 0
  {
    var f := fields[i];
    assert f in fields;
    if f.name in body then Check(env, f.schema, body[f.name], path + [At(f.name)]).errors
    else if f.presence.Required? then [Err(path + [At(f.name)], AnyRequired)]
    else []
  }

  /** What one declared key contributes to the normalised object: its checked value,
      its default when absent, or nothing. */
  function FieldValue(env: Env, fields: seq<FieldRule>, i: nat, body: Object, path: seq<PathSeg>): Option<Json>
    requires i < |fields|
    decreases ObjS(fields), 0, 0
  {
    var f := fields[i];
    assert f in fields;
    if f.name in body then Some(Check(env, f.schema, body[f.name], path + [At(f.name)]).value)
    else if f.presence.Default? then Some(f.presence.value)
    else None
  }

  /** The normalised object for the keys `fields[i..]`: only declared keys survive
      (`stripUnknown`), each with its checked value or its default. */
  function ObjectValue(env: Env, fields: seq<FieldRule>, i: nat, body: Object, path: seq<PathSeg>): Object
    requires i <= |fields|
    decreases ObjS(fields), 0, |fields| - i + 1
  {
    if i == |fields| then map[]
    else
      var rest := ObjectValue(env, fields, i + 1, body, path);
      var value := FieldValue(env, fields, i, body, path);
      if value.Some? then rest[fields[i].name := value.value] else rest
  }

  /** The errors of the keys `fields[i..]`, in declaration order. */
  function ObjectErrors(env: Env, fields: seq<FieldRule>, i: nat, body: Object, path: seq<PathSeg>): seq<FieldError>
    requires i <= |fields|
    decreases ObjS(fields), 0, |fields| - i + 1
  {
    if i == |fields| then []
    else FieldErrors(env, fields, i, body, path) + ObjectErrors(env, fields, i + 1, body, path)
  }

  /** The items `vs[i..]` of an array, each checked against `item`. */
  function ArrayValue(env: Env, item: Schema, vs: seq<Json>, i: nat, path: seq<PathSeg>): (r: seq<Json>)
    requires i <= |vs|
    ensures |r| == |vs| - i
    ensures forall k :: i <= k < |vs| ==> r[k - i] == Check(env, item, vs[k], path + [Nth(k)]).value
    decreases ArrS(item), 0, |vs| - i
  {
    if i == |vs| then []
    else [Check(env, item, vs[i], path + [Nth(i)]).value] + ArrayValue(env, item, vs, i + 1, path)
  }

  function ArrayErrors(env: Env, item: Schema, vs: seq<Json>, i: nat, path: seq<PathSeg>): seq<FieldError>
    requires i <= |vs|
    decreases ArrS(item), 0, |vs| - i
  {
    if i == |vs| then []
    else Check(env, item, vs[i], path + [Nth(i)]).errors + ArrayErrors(env, item, vs, i + 1, path)
  }

  /** `validateSchema(data, schema)`: the normalised value, or every error found. */
  function Validate(env: Env, s: Schema, v: Json): Validated {
    var c := Check(env, s, v, []);
    if c.errors == [] then Valid(c.value) else Invalid(c.errors)
  }

  // ---------------------------------------------------------------------------
  // What the checker guarantees

  predicate DistinctNames(fields: seq<FieldRule>) {
    forall a, b :: 0 <= a < b < |fields| ==> fields[a].name != fields[b].name
  }

  /** The declared keys. */
  function Names(fields: seq<FieldRule>): set<string> {
    set j | 0 <= j < |fields| :: fields[j].name
  }

  /** An error a declared key reports is reported by the object. */
  lemma KeyErrorReported(env: Env, fields: seq<FieldRule>, j: nat, body: Object, path: seq<PathSeg>, e: FieldError)
    requires j < |fields|
    requires e in FieldErrors(env, fields, j, body, path)
    ensures e in Check(env, ObjS(fields), JObj(body), path).errors
  {
    ObjectErrorsComplete(env, fields, 0, body, path);
  }

  /** What becomes of one declared key: a supplied value is replaced by its checked
      form, an absent key gets its default or stays absent. */
  lemma KeyOutcome(env: Env, fields: seq<FieldRule>, j: nat, body: Object, path: seq<PathSeg>)
    requires DistinctNames(fields) && j < |fields|
    ensures var f := fields[j]; var out := ObjectValue(env, fields, 0, body, path);
      && (f.name in body ==>
            f.name in out && out[f.name] == Check(env, f.schema, body[f.name], path + [At(f.name)]).value)
      && (f.name !in body && f.presence.Default? ==> f.name in out && out[f.name] == f.presence.value)
      && (f.name !in body && !f.presence.Default? ==> f.name !in out)
  {
    ObjectValueKeys(env, fields, 0, body, path);
  }

  /** An object schema without defaults never adds a key: the normalised object's
      keys are declared keys the body supplied. */
  lemma NoDefaultsNoNewKeys(env: Env, fields: seq<FieldRule>, body: Object, path: seq<PathSeg>)
    requires DistinctNames(fields)
    requires forall j :: 0 <= j < |fields| ==> !fields[j].presence.Default?
    ensures forall k :: k in ObjectValue(env, fields, 0, body, path) ==> k in body && k in Names(fields)
  {
    ObjectValueKeys(env, fields, 0, body, path);
    forall k | k in ObjectValue(env, fields, 0, body, path)
      ensures k in body && k in Names(fields)
    {
      var j :| 0 <= j < |fields| && fields[j].name == k;
      assert FieldValue(env, fields, j, body, path).Some?;
    }
  }

  /** Some declared key among `fields[i..]` reports `e` itself. */
  ghost predicate ReportedBy(env: Env, fields: seq<FieldRule>, i: nat, body: Object, path: seq<PathSeg>, e: FieldError) {
    exists j :: i <= j < |fields| && e in FieldErrors(env, fields, j, body, path)
  }

  /** With `abortEarly: false` nothing is skipped: an object's error list holds every
      error of every declared key and nothing else, so it is empty exactly when
      every key passes on its own. */
  lemma ObjectErrorsComplete(env: Env, fields: seq<FieldRule>, i: nat, body: Object, path: seq<PathSeg>)
    requires i <= |fields|
    ensures ObjectErrors(env, fields, i, body, path) == [] ==>
              forall j :: i <= j < |fields| ==> FieldErrors(env, fields, j, body, path) == []
    ensures (forall j :: i <= j < |fields| ==> FieldErrors(env, fields, j, body, path) == []) ==>
              ObjectErrors(env, fields, i, body, path) == []
    ensures forall j, e :: i <= j < |fields| && e in FieldErrors(env, fields, j, body, path) ==>
              e in ObjectErrors(env, fields, i, body, path)
    ensures forall e :: e in ObjectErrors(env, fields, i, body, path) ==> ReportedBy(env, fields, i, body, path, e)
  {
    ObjectErrorsEmpty(env, fields, i, body, path);
    ObjectErrorsExact(env, fields, i, body, path);
  }

  lemma {:induction false} ObjectErrorsEmpty(env: Env, fields: seq<FieldRule>, i: nat, body: Object, path: seq<PathSeg>)
    requires i <= |fields|
    ensures ObjectErrors(env, fields, i, body, path) == [] ==>
              forall j :: i <= j < |fields| ==> FieldErrors(env, fields, j, body, path) == []
    ensures (forall j :: i <= j < |fields| ==> FieldErrors(env, fields, j, body, path) == []) ==>
              ObjectErrors(env, fields, i, body, path) == []
    decreases |fields| - i
  {
    if i < |fields| {
      ObjectErrorsEmpty(env, fields, i + 1, body, path);
      var here := FieldErrors(env, fields, i, body, path);
      var rest := ObjectErrors(env, fields, i + 1, body, path);
      assert ObjectErrors(env, fields, i, body, path) == here + rest;
      if here + rest == [] {
        assert here == [] && rest == [];
        forall j | i <= j < |fields|
          ensures FieldErrors(env, fields, j, body, path) == []
        {
          if j == i {
            assert FieldErrors(env, fields, j, body, path) == here;
          }
        }
      }
      if forall j :: i <= j < |fields| ==> FieldErrors(env, fields, j, body, path) == [] {
        assert here == [];
        assert rest == [];
      }
    }
  }

  lemma {:induction false} ObjectErrorsExact(env: Env, fields: seq<FieldRule>, i: nat, body: Object, path: seq<PathSeg>)
    requires i <= |fields|
    ensures forall j, e :: i <= j < |fields| && e in FieldErrors(env, fields, j, body, path) ==>
              e in ObjectErrors(env, fields, i, body, path)
    ensures forall e :: e in ObjectErrors(env, fields, i, body, path) ==> ReportedBy(env, fields, i, body, path, e)
    decreases |fields| - i
  {
    if i < |fields| {
      ObjectErrorsExact(env, fields, i + 1, body, path);
      var here := FieldErrors(env, fields, i, body, path);
      var rest := ObjectErrors(env, fields, i + 1, body, path);
      assert ObjectErrors(env, fields, i, body, path) == here + rest;
      forall e | e in ObjectErrors(env, fields, i, body, path)
        ensures ReportedBy(env, fields, i, body, path, e)
      {
        if e !in here {
          assert ReportedBy(env, fields, i + 1, body, path, e);
          var j :| i + 1 <= j < |fields| && e in FieldErrors(env, fields, j, body, path);
        }
      }
    }
  }

  /** The normalised object holds exactly the declared keys that were supplied or have
      a default, each with its checked value or its default: unknown keys are stripped. */
  lemma {:induction false} ObjectValueKeys(env: Env, fields: seq<FieldRule>, i: nat, body: Object, path: seq<PathSeg>)
    requires i <= |fields|
    requires DistinctNames(fields)
    ensures forall k :: k in ObjectValue(env, fields, i, body, path) ==>
              exists j :: i <= j < |fields| && fields[j].name == k
    ensures forall j :: i <= j < |fields| ==>
              (fields[j].name in ObjectValue(env, fields, i, body, path) <==> FieldValue(env, fields, j, body, path).Some?)
    ensures forall j :: i <= j < |fields| && fields[j].name in ObjectValue(env, fields, i, body, path) ==>
              ObjectValue(env, fields, i, body, path)[fields[j].name] == FieldValue(env, fields, j, body, path).value
    decreases |fields| - i
  {
    if i < |fields| {
      ObjectValueKeys(env, fields, i + 1, body, path);
      var out := ObjectValue(env, fields, i, body, path);
      var rest := ObjectValue(env, fields, i + 1, body, path);
      forall k | k in out
        ensures exists j :: i <= j < |fields| && fields[j].name == k
      {
        if k != fields[i].name {
          assert k in rest;
        }
      }
      forall j | i < j < |fields|
        ensures fields[j].name in out <==> FieldValue(env, fields, j, body, path).Some?
      {
        assert fields[i].name != fields[j].name;
      }
    }
  }

  lemma {:induction false} StrRuleErrorsEmpty(env: Env, rules: seq<StrRule>, s: string, path: seq<PathSeg>)
    ensures StrRuleErrors(env, rules, s, path) == [] <==> forall k :: 0 <= k < |rules| ==> StrRuleHolds(env, rules[k], s)
    ensures forall e :: e in StrRuleErrors(env, rules, s, path) ==> e.field == Join(path)
    ensures forall k :: 0 <= k < |rules| && !StrRuleHolds(env, rules[k], s) ==>
              Err(path, StrRuleCode(rules[k])) in StrRuleErrors(env, rules, s, path)
  {
    if |rules| > 0 {
      StrRuleErrorsEmpty(env, rules[1..], s, path);
      assert forall k :: 1 <= k < |rules| ==> rules[k] == rules[1..][k - 1];
    }
  }

  /** Joi.string() accepts exactly a listed value, or (without an allow-list) a
      non-empty string meeting every rule; it never changes the value, and every
      error it reports is about the value's own path. */
  lemma CheckStringMeaning(env: Env, rules: seq<StrRule>, valid: seq<string>, v: Json, path: seq<PathSeg>)
    ensures var c := CheckString(env, rules, valid, v, path);
      && c.value == v
      && (c.errors == [] <==>
            v.JStr? && (v.s in valid ||
                       (|valid| == 0 && v.s != "" && forall k :: 0 <= k < |rules| ==> StrRuleHolds(env, rules[k], v.s))))
      && (forall e :: e in c.errors ==> e.field == Join(path))
  {
    if v.JStr? {
      StrRuleErrorsEmpty(env, rules, v.s, path);
    }
  }

  /** Which errors Joi.string() reports: `any.only` for a value off the allow-list, the
      type error, and otherwise one error for every rule the string breaks. */
  lemma CheckStringReports(env: Env, rules: seq<StrRule>, valid: seq<string>, v: Json, path: seq<PathSeg>)
    ensures var c := CheckString(env, rules, valid, v, path);
      && (!(v.JStr? && v.s in valid) && |valid| > 0 ==> Err(path, AnyOnly) in c.errors)
      && (!v.JStr? ==> Err(path, StringBase) in c.errors)
      && (v == JStr("") && "" !in valid ==> Err(path, StringEmpty) in c.errors)
      && (v.JStr? && v.s != "" && v.s !in valid ==>
            forall k :: 0 <= k < |rules| && !StrRuleHolds(env, rules[k], v.s) ==> Err(path, StrRuleCode(rules[k])) in c.errors)
  {
    if v.JStr? {
      StrRuleErrorsEmpty(env, rules, v.s, path);
    }
  }

  lemma {:induction false} NumRuleErrorsEmpty(rules: seq<NumRule>, r: real, path: seq<PathSeg>)
    ensures NumRuleErrors(rules, r, path) == [] <==> forall k :: 0 <= k < |rules| ==> NumRuleHolds(rules[k], r)
    ensures forall e :: e in NumRuleErrors(rules, r, path) ==> e.field == Join(path)
    ensures forall k :: 0 <= k < |rules| && !NumRuleHolds(rules[k], r) ==>
              Err(path, NumRuleCode(rules[k])) in NumRuleErrors(rules, r, path)
  {
    if |rules| > 0 {
      NumRuleErrorsEmpty(rules[1..], r, path);
      assert forall k :: 1 <= k < |rules| ==> rules[k] == rules[1..][k - 1];
    }
  }

  /** The number a Joi.number() schema reads from `v`, if any. */
  function NumberOf(env: Env, v: Json): Option<real> {
    if v.JNum? then Some(v.n) else if v.JStr? then env.parseNumber(v.s) else None
  }

  /** Joi.number() accepts exactly a value that reads as a number meeting every rule,
      and normalises it to that number. */
  lemma CheckNumberMeaning(env: Env, rules: seq<NumRule>, v: Json, path: seq<PathSeg>)
    ensures var c := CheckNumber(env, rules, v, path);
      && (c.errors == [] <==>
            NumberOf(env, v).Some? && forall k :: 0 <= k < |rules| ==> NumRuleHolds(rules[k], NumberOf(env, v).value))
      && (NumberOf(env, v).Some? ==> c.value == JNum(NumberOf(env, v).value))
      && (forall e :: e in c.errors ==> e.field == Join(path))
  {
    var n := NumberOf(env, v);
    if n.Some? {
      NumRuleErrorsEmpty(rules, n.value, path);
    }
  }

  /** Which errors Joi.number() reports: `number.base` alone for a value that does not
      read as a number, and otherwise one error for every rule the number breaks. */
  lemma CheckNumberReports(env: Env, rules: seq<NumRule>, v: Json, path: seq<PathSeg>)
    ensures var c := CheckNumber(env, rules, v, path);
      && (NumberOf(env, v).None? ==> c.errors == [Err(path, NumberBase)])
      && (NumberOf(env, v).Some? ==>
            forall k :: 0 <= k < |rules| && !NumRuleHolds(rules[k], NumberOf(env, v).value) ==>
              Err(path, NumRuleCode(rules[k])) in c.errors)
  {
    var n := NumberOf(env, v);
    if n.Some? {
      NumRuleErrorsEmpty(rules, n.value, path);
    }
  }

  /** The millisecond count a Joi.date() schema reads from `v`, if any: `new Date` turns a
      time value outside the range of a `Date` into an invalid date, which Joi refuses. */
  function MillisOf(env: Env, v: Json): (ms: Option<int>)
    ensures ms.Some? ==> InTimeRange(ms.value as real)
  {
    if v.JNum? then
      if InTimeRange(v.n) then Some(TruncateMillis(v.n)) else None
    else if v.JStr? then
      var parsed := env.parseDate(v.s);
      if parsed.Some? && InTimeRange(parsed.value as real) then parsed else None
    else None
  }

  lemma {:induction false} DateRuleErrorsEmpty(env: Env, rules: seq<DateRule>, ms: int, path: seq<PathSeg>)
    ensures DateRuleErrors(env, rules, ms, path) == [] <==> (|rules| > 0 ==> ms > env.now)
    ensures forall e :: e in DateRuleErrors(env, rules, ms, path) ==> e.field == Join(path)
  {
    if |rules| > 0 {
      DateRuleErrorsEmpty(env, rules[1..], ms, path);
    }
  }

  /** Joi.date().greater('now') accepts exactly a value that reads as a date within the
      range of a `Date` and later than `now`, and normalises it to that (integral)
      millisecond count; a timestamp beyond that range is refused as `date.base`. */
  lemma CheckDateMeaning(env: Env, rules: seq<DateRule>, v: Json, path: seq<PathSeg>)
    ensures var c := CheckDate(env, rules, v, path);
      && (c.errors == [] <==> MillisOf(env, v).Some? && (|rules| > 0 ==> MillisOf(env, v).value > env.now))
      && (MillisOf(env, v).Some? ==> c.value == JNum(MillisOf(env, v).value as real))
      && (forall e :: e in c.errors ==> e.field == Join(path))
      && (v.JNum? && !InTimeRange(v.n) ==> c == Checked(v, [Err(path, DateBase)]))
  {
    var ms := MillisOf(env, v);
    if ms.Some? {
      DateRuleErrorsEmpty(env, rules, ms.value, path);
    }
  }

  /** A timestamp of 10^16 ms lies beyond the range of a `Date`, so it is refused as
      `date.base` whatever the current time. */
  lemma DateBeyondRangeRefused(env: Env)
    ensures CheckDate(env, [GreaterThanNow], JNum(10_000_000_000_000_000.0), [])
         == Checked(JNum(10_000_000_000_000_000.0), [Err([], DateBase)])
  {
  }

  /** The array's error list is empty exactly when every item passes on its own. */
  lemma {:induction false} ArrayErrorsComplete(env: Env, item: Schema, vs: seq<Json>, i: nat, path: seq<PathSeg>)
    requires i <= |vs|
    ensures ArrayErrors(env, item, vs, i, path) == [] ==>
              forall k :: i <= k < |vs| ==> Check(env, item, vs[k], path + [Nth(k)]).errors == []
    ensures (forall k :: i <= k < |vs| ==> Check(env, item, vs[k], path + [Nth(k)]).errors == []) ==>
              ArrayErrors(env, item, vs, i, path) == []
    decreases |vs| - i
  {
    if i < |vs| {
      ArrayErrorsComplete(env, item, vs, i + 1, path);
      var here := Check(env, item, vs[i], path + [Nth(i)]).errors;
      var rest := ArrayErrors(env, item, vs, i + 1, path);
      assert ArrayErrors(env, item, vs, i, path) == here + rest;
      if here + rest == [] {
        forall k | i <= k < |vs|
          ensures Check(env, item, vs[k], path + [Nth(k)]).errors == []
        {
          if k == i {
            assert Check(env, item, vs[k], path + [Nth(k)]).errors == here;
          }
        }
      }
    }
  }

  // ---------------------------------------------------------------------------
  // The schema's meaning, independently of the checker

  /** `v` is a value the schema describes, in normal form: the right type, every rule
      met, only declared keys, every required or defaulted key present. */
  predicate Satisfies(env: Env, s: Schema, v: Json)
    decreases s, 1
  {
    match s
    case StrS(rules, valid) =>
      v.JStr? && (v.s in valid ||
                  (|valid| == 0 && v.s != "" && forall k :: 0 <= k < |rules| ==> StrRuleHolds(env, rules[k], v.s)))
    case NumS(rules) => v.JNum? && forall k :: 0 <= k < |rules| ==> NumRuleHolds(rules[k], v.n)
    case DateS(rules) => v.JNum? && v.n.Floor as real == v.n && InTimeRange(v.n) && (|rules| > 0 ==> v.n.Floor > env.now)
    case AnyObjS => v.JObj?
    case ObjS(fields) =>
      && v.JObj?
      && (forall k :: k in v.fields ==> exists j :: 0 <= j < |fields| && fields[j].name == k)
      && forall j :: 0 <= j < |fields| ==> FieldSatisfies(env, fields, j, v.fields)
    case ArrS(item) => v.JArr? && forall k :: 0 <= k < |v.items| ==> Satisfies(env, item, v.items[k])
  }

  /** Declared key `fields[j]` of a normal-form object: present and described by its
      schema, or absent and optional. */
  predicate FieldSatisfies(env: Env, fields: seq<FieldRule>, j: nat, m: Object)
    requires j < |fields|
    decreases ObjS(fields), 0
  {
    var f := fields[j];
    assert f in fields;
    if f.name in m then Satisfies(env, f.schema, m[f.name]) else f.presence.Optional?
  }

  /** Object keys are distinct and every default is itself described by its schema. */
  predicate WellFormed(env: Env, s: Schema)
    decreases s, 1
  {
    match s
    case ObjS(fields) => DistinctNames(fields) && forall j :: 0 <= j < |fields| ==> FieldWellFormed(env, fields, j)
    case ArrS(item) => WellFormed(env, item)
    case _ => true
  }

  predicate FieldWellFormed(env: Env, fields: seq<FieldRule>, j: nat)
    requires j < |fields|
    decreases ObjS(fields), 0
  {
    var f := fields[j];
    assert f in fields;
    WellFormed(env, f.schema) && (f.presence.Default? ==> Satisfies(env, f.schema, f.presence.value))
  }

  /** Whatever passes the check comes out in normal form. */
  lemma {:induction false} CheckSatisfies(env: Env, s: Schema, v: Json, path: seq<PathSeg>)
    requires WellFormed(env, s)
    ensures Check(env, s, v, path).errors == [] ==> Satisfies(env, s, Check(env, s, v, path).value)
    decreases s, 1
  {
    match s
    case StrS(rules, valid) => CheckStringMeaning(env, rules, valid, v, path);
    case NumS(rules) => CheckNumberMeaning(env, rules, v, path);
    case DateS(rules) => CheckDateMeaning(env, rules, v, path);
    case AnyObjS =>
    case ObjS(fields) =>
      if v.JObj? && Check(env, s, v, path).errors == [] {
        ObjectErrorsComplete(env, fields, 0, v.fields, path);
        ObjectValueKeys(env, fields, 0, v.fields, path);
        var out := ObjectValue(env, fields, 0, v.fields, path);
        forall j | 0 <= j < |fields|
          ensures FieldSatisfies(env, fields, j, out)
        {
          assert FieldWellFormed(env, fields, j);
          FieldValueSatisfies(env, fields, j, v.fields, path);
        }
      }
    case ArrS(item) =>
      if v.JArr? && Check(env, s, v, path).errors == [] {
        ArrayErrorsComplete(env, item, v.items, 0, path);
        var out := ArrayValue(env, item, v.items, 0, path);
        forall k | 0 <= k < |out|
          ensures Satisfies(env, item, out[k])
        {
          CheckSatisfies(env, item, v.items[k], path + [Nth(k)]);
        }
      }
  }

  lemma {:induction false} FieldValueSatisfies(env: Env, fields: seq<FieldRule>, j: nat, body: Object, path: seq<PathSeg>)
    requires j < |fields|
    requires FieldWellFormed(env, fields, j)
    requires FieldErrors(env, fields, j, body, path) == []
    ensures FieldValue(env, fields, j, body, path).Some? ==>
              Satisfies(env, fields[j].schema, FieldValue(env, fields, j, body, path).value)
    ensures FieldValue(env, fields, j, body, path).None? ==> fields[j].presence.Optional?
    decreases ObjS(fields), 0
  {
    var f := fields[j];
    assert f in fields;
    if f.name in body {
      CheckSatisfies(env, f.schema, body[f.name], path + [At(f.name)]);
    }
  }

  /** A value already in normal form passes unchanged. */
  lemma {:induction false} CheckFixed(env: Env, s: Schema, v: Json, path: seq<PathSeg>)
    requires WellFormed(env, s)
    requires Satisfies(env, s, v)
    ensures Check(env, s, v, path) == Checked(v, [])
    decreases s, 2
  {
    match s
    case StrS(rules, valid) => StringFixed(env, rules, valid, v, path);
    case NumS(rules) => NumberFixed(env, rules, v, path);
    case DateS(rules) => DateFixed(env, rules, v, path);
    case AnyObjS =>
    case ObjS(fields) => ObjectFixed(env, fields, v.fields, path);
    case ArrS(item) => ArrayFixed(env, item, v.items, path);
  }

  lemma StringFixed(env: Env, rules: seq<StrRule>, valid: seq<string>, v: Json, path: seq<PathSeg>)
    requires Satisfies(env, StrS(rules, valid), v)
    ensures CheckString(env, rules, valid, v, path) == Checked(v, [])
  {
    CheckStringMeaning(env, rules, valid, v, path);
  }

  lemma NumberFixed(env: Env, rules: seq<NumRule>, v: Json, path: seq<PathSeg>)
    requires Satisfies(env, NumS(rules), v)
    ensures CheckNumber(env, rules, v, path) == Checked(v, [])
  {
    CheckNumberMeaning(env, rules, v, path);
  }

  /** Truncating a whole number of milliseconds gives it back. */
  lemma TruncateWhole(r: real)
    requires r.Floor as real == r
    ensures TruncateMillis(r) as real == r
  {
    if r < 0.0 {
      assert (-r).Floor == -r.Floor;
    }
  }

  lemma DateFixed(env: Env, rules: seq<DateRule>, v: Json, path: seq<PathSeg>)
    requires Satisfies(env, DateS(rules), v)
    ensures CheckDate(env, rules, v, path) == Checked(v, [])
  {
    TruncateWhole(v.n);
    CheckDateMeaning(env, rules, v, path);
  }

  lemma {:induction false} ObjectFixed(env: Env, fields: seq<FieldRule>, m: Object, path: seq<PathSeg>)
    requires WellFormed(env, ObjS(fields))
    requires Satisfies(env, ObjS(fields), JObj(m))
    ensures ObjectErrors(env, fields, 0, m, path) == []
    ensures ObjectValue(env, fields, 0, m, path) == m
    decreases ObjS(fields), 1
  {
    forall j | 0 <= j < |fields|
      ensures FieldErrors(env, fields, j, m, path) == []
      ensures FieldValue(env, fields, j, m, path) == if fields[j].name in m then Some(m[fields[j].name]) else None
    {
      assert FieldSatisfies(env, fields, j, m);
      assert FieldWellFormed(env, fields, j);
      FieldFixed(env, fields, j, m, path);
    }
    ObjectErrorsComplete(env, fields, 0, m, path);
    ObjectValueKeys(env, fields, 0, m, path);
    var out := ObjectValue(env, fields, 0, m, path);
    forall k | k in m
      ensures k in out && out[k] == m[k]
    {
      var j :| 0 <= j < |fields| && fields[j].name == k;
    }
    forall k | k in out
      ensures k in m
    {
      var j :| 0 <= j < |fields| && fields[j].name == k;
    }
  }

  lemma {:induction false} ArrayFixed(env: Env, item: Schema, vs: seq<Json>, path: seq<PathSeg>)
    requires WellFormed(env, item)
    requires forall k :: 0 <= k < |vs| ==> Satisfies(env, item, vs[k])
    ensures ArrayErrors(env, item, vs, 0, path) == []
    ensures ArrayValue(env, item, vs, 0, path) == vs
    decreases ArrS(item), 1
  {
    forall k | 0 <= k < |vs|
      ensures Check(env, item, vs[k], path + [Nth(k)]) == Checked(vs[k], [])
    {
      CheckFixed(env, item, vs[k], path + [Nth(k)]);
    }
    ArrayErrorsComplete(env, item, vs, 0, path);
  }

  lemma {:induction false} FieldFixed(env: Env, fields: seq<FieldRule>, j: nat, m: Object, path: seq<PathSeg>)
    requires j < |fields|
    requires FieldWellFormed(env, fields, j)
    requires FieldSatisfies(env, fields, j, m)
    ensures FieldErrors(env, fields, j, m, path) == []
    ensures FieldValue(env, fields, j, m, path) == if fields[j].name in m then Some(m[fields[j].name]) else None
    decreases ObjS(fields), 0
  {
    var f := fields[j];
    assert f in fields;
    if f.name in m {
      CheckFixed(env, f.schema, m[f.name], path + [At(f.name)]);
    }
  }

  /** Validation is idempotent: the normalised value validates to itself. */
  lemma ValidateIdempotent(env: Env, s: Schema, v: Json)
    requires WellFormed(env, s)
    ensures Validate(env, s, v).Valid? ==> Validate(env, s, Validate(env, s, v).value) == Validate(env, s, v)
  {
    CheckSatisfies(env, s, v, []);
    if Validate(env, s, v).Valid? {
      CheckFixed(env, s, Validate(env, s, v).value, []);
    }
  }

  /** Validation accepts a value exactly when its normalised form is described by the schema. */
  lemma ValidateMeaning(env: Env, s: Schema, v: Json)
    requires WellFormed(env, s)
    ensures Validate(env, s, v).Valid? ==> Satisfies(env, s, Validate(env, s, v).value)
    ensures Satisfies(env, s, v) ==> Validate(env, s, v) == Valid(v)
  {
    CheckSatisfies(env, s, v, []);
    if Satisfies(env, s, v) {
      CheckFixed(env, s, v, []);
    }
  }
}
