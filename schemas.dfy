/** The request schemas of the event API, written as data for the checker in
    `Validation`, and what validating against each of them guarantees. */
module Schemas {
  import opened Base
  import opened JsonValue
  import opened Validation
  import Phone

  const StatusValues: seq<string> := ["draft", "published", "cancelled", "completed"]
  const PrivacyValues: seq<string> := ["public", "private", "invite-only"]

  const NameRules: seq<StrRule> := [MinLength(3), MaxLength(100)]
  const CapacityRules: seq<NumRule> := [Integer, AtLeast(1.0), AtMost(10000.0)]
  const CostRules: seq<NumRule> := [AtLeast(0.0)]

  /** One entry of the create body's `modules` array. */
  const ModuleEntrySchema: Schema :=
    ObjS([FieldRule("id", StrS([], []), Required), FieldRule("config", AnyObjS, Optional)])

  /** One entry of the create body's `links` array. */
  const LinkSchema: Schema :=
    ObjS([FieldRule("title", StrS([], []), Required), FieldRule("url", StrS([Uri], []), Required)])

  const EventFields: seq<FieldRule> := [
    FieldRule("name", StrS(NameRules, []), Required),
    FieldRule("phoneNumber", StrS([PhonePattern], []), Required),
    FieldRule("dateTime", DateS([GreaterThanNow]), Optional),
    FieldRule("location", StrS([MaxLength(200)], []), Optional),
    FieldRule("costPerPerson", NumS(CostRules), Optional),
    FieldRule("description", StrS([MaxLength(1000)], []), Optional),
    FieldRule("capacity", NumS(CapacityRules), Optional),
    FieldRule("modules", ArrS(ModuleEntrySchema), Optional),
    FieldRule("photos", ArrS(StrS([Uri], [])), Optional),
    FieldRule("links", ArrS(LinkSchema), Optional),
    FieldRule("status", StrS([], StatusValues), Default(JStr("draft"))),
    FieldRule("privacy", StrS([], PrivacyValues), Default(JStr("public"))),
    FieldRule("tags", ArrS(StrS([], [])), Optional),
    FieldRule("category", StrS([], []), Optional),
    FieldRule("timezone", StrS([], []), Optional)
  ]

  /** `eventSchema`: the body of a create request. */
  const EventSchema: Schema := ObjS(EventFields)

  /** `moduleSchema`: a catalog module definition (no handler validates against it). */
  const ModuleSchema: Schema := ObjS([
    FieldRule("name", StrS([MinLength(2), MaxLength(50)], []), Required),
    FieldRule("description", StrS([MaxLength(200)], []), Optional),
    FieldRule("code", StrS([], []), Required),
    FieldRule("configSchema", AnyObjS, Required),
    FieldRule("category", StrS([], []), Optional),
    FieldRule("icon", StrS([], []), Optional),
    FieldRule("version", StrS([], []), Optional)
  ])

  const UpdateFields: seq<FieldRule> := [
    FieldRule("name", StrS(NameRules, []), Optional),
    FieldRule("phoneNumber", StrS([PhonePattern], []), Optional),
    FieldRule("dateTime", DateS([GreaterThanNow]), Optional),
    FieldRule("location", StrS([MaxLength(200)], []), Optional),
    FieldRule("costPerPerson", NumS(CostRules), Optional),
    FieldRule("description", StrS([MaxLength(1000)], []), Optional),
    FieldRule("capacity", NumS(CapacityRules), Optional),
    FieldRule("status", StrS([], StatusValues), Optional),
    FieldRule("privacy", StrS([], PrivacyValues), Optional)
  ]

  /** `updateEventSchema`: the body of an update request. */
  const UpdateEventSchema: Schema := ObjS(UpdateFields)

  /** The keys an update may carry. */
  const UpdateKeys: set<string> :=
    {"name", "phoneNumber", "dateTime", "location", "costPerPerson", "description", "capacity", "status", "privacy"}

  const ModuleConfigFields: seq<FieldRule> := [
    FieldRule("moduleId", StrS([], []), Required),
    FieldRule("config", AnyObjS, Optional)
  ]

  /** `moduleConfigSchema`: the body of an attach request. */
  const ModuleConfigSchema: Schema := ObjS(ModuleConfigFields)

  /** `eventIdSchema` and `moduleIdSchema`: route parameters. */
  const EventIdSchema: Schema := StrS([Guid], [])
  const ModuleIdSchema: Schema := StrS([], [])

  /** `Joi.object()`: the body of a config patch. */
  const ConfigPatchSchema: Schema := AnyObjS

  // ---------------------------------------------------------------------------
  // The schemas are well formed

  // Distinctness of the fifteen create keys, in three blocks to keep each proof small.

  lemma EventNamesDistinctHead()
    ensures forall a, b :: 0 <= a < 5 && a < b < |EventFields| ==> EventFields[a].name != EventFields[b].name
  {
  }

  lemma EventNamesDistinctMiddle()
    ensures forall a, b :: 5 <= a < 10 && a < b < |EventFields| ==> EventFields[a].name != EventFields[b].name
  {
  }

  lemma EventNamesDistinctTail()
    ensures forall a, b :: 10 <= a < b < |EventFields| ==> EventFields[a].name != EventFields[b].name
  {
  }

  lemma EntrySchemasWellFormed(env: Env)
    ensures WellFormed(env, ModuleEntrySchema) && WellFormed(env, LinkSchema)
  {
    assert FieldWellFormed(env, ModuleEntrySchema.fields, 0);
    assert FieldWellFormed(env, ModuleEntrySchema.fields, 1);
    assert FieldWellFormed(env, LinkSchema.fields, 0);
    assert FieldWellFormed(env, LinkSchema.fields, 1);
  }

  lemma EventSchemaWellFormed(env: Env)
    ensures WellFormed(env, EventSchema)
  {
    EventNamesDistinctHead();
    EventNamesDistinctMiddle();
    EventNamesDistinctTail();
    EventFieldsWellFormed(env);
  }

  lemma EventFieldsWellFormed(env: Env)
    ensures forall j :: 0 <= j < |EventFields| ==> FieldWellFormed(env, EventFields, j)
  {
    EntrySchemasWellFormed(env);
    assert forall j :: 0 <= j < 7 ==> FieldWellFormed(env, EventFields, j);
    assert forall j :: 7 <= j < 10 ==> FieldWellFormed(env, EventFields, j);
    assert forall j :: 10 <= j < 15 ==> FieldWellFormed(env, EventFields, j);
  }

  lemma UpdateSchemaWellFormed(env: Env)
    ensures WellFormed(env, UpdateEventSchema)
  {
    assert DistinctNames(UpdateFields);
  }

  lemma ModuleConfigSchemaWellFormed(env: Env)
    ensures WellFormed(env, ModuleConfigSchema)
  {
  }

  // ---------------------------------------------------------------------------
  // What a validated body holds

  /** An optional string key: absent, or a non-empty string of at most `max` characters. */
  predicate OptText(m: Object, k: string, max: nat) {
    k in m ==> m[k].JStr? && 0 < |m[k].s| <= max
  }

  /** An optional number key: absent, or a number in `[lo, hi]`, integral when asked. */
  predicate OptNumber(m: Object, k: string, lo: real, hi: Option<real>, integral: bool) {
    k in m ==> m[k].JNum? && lo <= m[k].n && (hi.Some? ==> m[k].n <= hi.value)
                && (integral ==> m[k].n.Floor as real == m[k].n)
  }

  /** The optional `dateTime` key: absent, or an integral millisecond count after `now`. */
  predicate OptFutureDate(env: Env, m: Object) {
    "dateTime" in m ==> m["dateTime"].JNum? && m["dateTime"].n.Floor as real == m["dateTime"].n
                        && m["dateTime"].n.Floor > env.now
  }

  /** The bounds the create and the update schema share. */
  predicate SharedBounds(env: Env, m: Object) {
    && OptFutureDate(env, m)
    && OptText(m, "location", 200)
    && OptNumber(m, "costPerPerson", 0.0, None, false)
    && OptText(m, "description", 1000)
    && OptNumber(m, "capacity", 1.0, Some(10000.0), true)
  }

  const EventKeys: set<string> :=
    {"name", "phoneNumber", "dateTime", "location", "costPerPerson", "description", "capacity",
     "modules", "photos", "links", "status", "privacy", "tags", "category", "timezone"}

  lemma EventFieldName(j: nat)
    requires j < |EventFields|
    ensures EventFields[j].name in EventKeys
  {
    assert j == 0 || j == 1 || j == 2 || j == 3 || j == 4 || j == 5 || j == 6 || j == 7
        || j == 8 || j == 9 || j == 10 || j == 11 || j == 12 || j == 13 || j == 14;
  }

  lemma UpdateFieldName(j: nat)
    requires j < |UpdateFields|
    ensures UpdateFields[j].name in UpdateKeys
    ensures !UpdateFields[j].presence.Default?
  {
    assert j == 0 || j == 1 || j == 2 || j == 3 || j == 4 || j == 5 || j == 6 || j == 7 || j == 8;
  }

  // One lemma per kind of key, shared by the create and the update schema.

  lemma NameAt(env: Env, fields: seq<FieldRule>, j: nat, m: Object)
    requires j < |fields| && fields[j].name == "name" && fields[j].schema == StrS(NameRules, [])
    requires FieldSatisfies(env, fields, j, m)
    ensures "name" in m ==> m["name"].JStr? && 3 <= |m["name"].s| <= 100
  {
    if "name" in m {
      assert StrRuleHolds(env, NameRules[0], m["name"].s);
      assert StrRuleHolds(env, NameRules[1], m["name"].s);
    }
  }

  lemma PhoneAt(env: Env, fields: seq<FieldRule>, j: nat, m: Object)
    requires j < |fields| && fields[j].name == "phoneNumber" && fields[j].schema == StrS([PhonePattern], [])
    requires FieldSatisfies(env, fields, j, m)
    ensures "phoneNumber" in m ==> m["phoneNumber"].JStr? && Phone.MatchesPhone(m["phoneNumber"].s)
  {
    if "phoneNumber" in m {
      assert StrRuleHolds(env, [PhonePattern][0], m["phoneNumber"].s);
    }
  }

  lemma ChoiceAt(env: Env, fields: seq<FieldRule>, j: nat, m: Object, k: string, values: seq<string>)
    requires j < |fields| && fields[j].name == k && fields[j].schema == StrS([], values) && |values| > 0
    requires FieldSatisfies(env, fields, j, m)
    ensures k in m ==> m[k].JStr? && m[k].s in values
  {
  }

  lemma TextAt(env: Env, fields: seq<FieldRule>, j: nat, m: Object, k: string, max: nat)
    requires j < |fields| && fields[j] == FieldRule(k, StrS([MaxLength(max)], []), Optional)
    requires FieldSatisfies(env, fields, j, m)
    ensures OptText(m, k, max)
  {
    if k in m {
      assert StrRuleHolds(env, [MaxLength(max)][0], m[k].s);
    }
  }

  lemma DateAt(env: Env, fields: seq<FieldRule>, j: nat, m: Object)
    requires j < |fields| && fields[j] == FieldRule("dateTime", DateS([GreaterThanNow]), Optional)
    requires FieldSatisfies(env, fields, j, m)
    ensures OptFutureDate(env, m)
  {
  }

  lemma CostAt(env: Env, fields: seq<FieldRule>, j: nat, m: Object)
    requires j < |fields| && fields[j] == FieldRule("costPerPerson", NumS(CostRules), Optional)
    requires FieldSatisfies(env, fields, j, m)
    ensures OptNumber(m, "costPerPerson", 0.0, None, false)
  {
    if "costPerPerson" in m {
      assert NumRuleHolds(CostRules[0], m["costPerPerson"].n);
    }
  }

  lemma CapacityAt(env: Env, fields: seq<FieldRule>, j: nat, m: Object)
    requires j < |fields| && fields[j] == FieldRule("capacity", NumS(CapacityRules), Optional)
    requires FieldSatisfies(env, fields, j, m)
    ensures OptNumber(m, "capacity", 1.0, Some(10000.0), true)
  {
    if "capacity" in m {
      assert NumRuleHolds(CapacityRules[0], m["capacity"].n);
      assert NumRuleHolds(CapacityRules[1], m["capacity"].n);
      assert NumRuleHolds(CapacityRules[2], m["capacity"].n);
    }
  }

  /** The shared bounds hold of any object meeting keys 2 to 6 of the create or update schema. */
  lemma SharedBoundsAt(env: Env, fields: seq<FieldRule>, m: Object)
    requires |fields| >= 7
    requires fields[2] == FieldRule("dateTime", DateS([GreaterThanNow]), Optional)
    requires fields[3] == FieldRule("location", StrS([MaxLength(200)], []), Optional)
    requires fields[4] == FieldRule("costPerPerson", NumS(CostRules), Optional)
    requires fields[5] == FieldRule("description", StrS([MaxLength(1000)], []), Optional)
    requires fields[6] == FieldRule("capacity", NumS(CapacityRules), Optional)
    requires forall j :: 0 <= j < |fields| ==> FieldSatisfies(env, fields, j, m)
    ensures SharedBounds(env, m)
  {
    DateAt(env, fields, 2, m);
    TextAt(env, fields, 3, m, "location", 200);
    CostAt(env, fields, 4, m);
    TextAt(env, fields, 5, m, "description", 1000);
    CapacityAt(env, fields, 6, m);
  }

  /** `deleted` is not among the statuses a body may set. */
  lemma DeletedNotAStatus()
    ensures "deleted" !in StatusValues
  {
  }

  // What a create body in normal form holds, key by key.

  lemma CreateNameBound(env: Env, m: Object)
    requires forall j :: 0 <= j < |EventFields| ==> FieldSatisfies(env, EventFields, j, m)
    ensures "name" in m && m["name"].JStr? && 3 <= |m["name"].s| <= 100
  {
    NameAt(env, EventFields, 0, m);
  }

  lemma CreatePhoneMatches(env: Env, m: Object)
    requires forall j :: 0 <= j < |EventFields| ==> FieldSatisfies(env, EventFields, j, m)
    ensures "phoneNumber" in m && m["phoneNumber"].JStr? && Phone.MatchesPhone(m["phoneNumber"].s)
  {
    PhoneAt(env, EventFields, 1, m);
  }

  lemma CreateChoices(env: Env, m: Object)
    requires forall j :: 0 <= j < |EventFields| ==> FieldSatisfies(env, EventFields, j, m)
    ensures "status" in m && m["status"].JStr? && m["status"].s in StatusValues && m["status"].s != "deleted"
    ensures "privacy" in m && m["privacy"].JStr? && m["privacy"].s in PrivacyValues
  {
    ChoiceAt(env, EventFields, 10, m, "status", StatusValues);
    ChoiceAt(env, EventFields, 11, m, "privacy", PrivacyValues);
    DeletedNotAStatus();
  }

  lemma CreateSharedBounds(env: Env, m: Object)
    requires forall j :: 0 <= j < |EventFields| ==> FieldSatisfies(env, EventFields, j, m)
    ensures SharedBounds(env, m)
  {
    SharedBoundsAt(env, EventFields, m);
  }

  /** A create body in normal form carries no key the schema does not declare. */
  lemma CreateBodyKeys(env: Env, m: Object)
    requires Satisfies(env, EventSchema, JObj(m))
    ensures forall k :: k in m ==> k in EventKeys
  {
    forall k | k in m ensures k in EventKeys {
      var j :| 0 <= j < |EventFields| && EventFields[j].name == k;
      EventFieldName(j);
    }
  }

  /** A validated create body has a name of 3 to 100 characters, a phone number the
      pattern accepts, one of the four statuses (never `deleted`) and one of the three
      privacy settings, the shared bounds, and no key the schema does not declare. */
  lemma CreateGuarantees(env: Env, body: Json)
    ensures var r := Validate(env, EventSchema, body);
      r.Valid? ==>
        && r.value.JObj?
        && var m := r.value.fields;
        && (forall k :: k in m ==> k in EventKeys)
        && "name" in m && m["name"].JStr? && 3 <= |m["name"].s| <= 100
        && "phoneNumber" in m && m["phoneNumber"].JStr? && Phone.MatchesPhone(m["phoneNumber"].s)
        && "status" in m && m["status"].JStr? && m["status"].s in StatusValues && m["status"].s != "deleted"
        && "privacy" in m && m["privacy"].JStr? && m["privacy"].s in PrivacyValues
        && SharedBounds(env, m)
  {
    EventSchemaWellFormed(env);
    ValidateMeaning(env, EventSchema, body);
    var r := Validate(env, EventSchema, body);
    if r.Valid? {
      assert Satisfies(env, EventSchema, r.value);
      CreateBodyKeys(env, r.value.fields);
      CreateNameBound(env, r.value.fields);
      CreatePhoneMatches(env, r.value.fields);
      CreateChoices(env, r.value.fields);
      CreateSharedBounds(env, r.value.fields);
    }
  }

  /** A validated update body holds only keys among the nine the schema lists, each
      one the body supplied: the schema has no defaults, so an omitted key is never reset. */
  lemma UpdateKeysOnly(env: Env, body: Json)
    ensures var r := Validate(env, UpdateEventSchema, body);
      r.Valid? ==> body.JObj? && r.value.JObj? && forall k :: k in r.value.fields ==> k in UpdateKeys && k in body.fields
  {
    UpdateSchemaWellFormed(env);
    var r := Validate(env, UpdateEventSchema, body);
    if r.Valid? {
      forall j | 0 <= j < |UpdateFields| ensures !UpdateFields[j].presence.Default? {
        UpdateFieldName(j);
      }
      NoDefaultsNoNewKeys(env, UpdateFields, body.fields, []);
      forall k | k in r.value.fields ensures k in UpdateKeys {
        assert k in Names(UpdateFields);
        var j :| 0 <= j < |UpdateFields| && UpdateFields[j].name == k;
        UpdateFieldName(j);
      }
    }
  }

  /** Hence an update can never carry `id`, `userId`, `createdAt`, `version`,
      `modules`, `photos`, `links` or `tags`. */
  lemma UpdateProtectsKeys(env: Env, body: Json)
    ensures var r := Validate(env, UpdateEventSchema, body);
      r.Valid? ==>
        && r.value.JObj?
        && var m := r.value.fields;
        && "id" !in m && "userId" !in m && "createdAt" !in m && "version" !in m
        && "modules" !in m && "photos" !in m && "links" !in m && "tags" !in m
  {
    UpdateKeysOnly(env, body);
  }

  // What an update body in normal form holds, key by key.

  lemma UpdateNamePhone(env: Env, m: Object)
    requires forall j :: 0 <= j < |UpdateFields| ==> FieldSatisfies(env, UpdateFields, j, m)
    ensures "name" in m ==> m["name"].JStr? && 3 <= |m["name"].s| <= 100
    ensures "phoneNumber" in m ==> m["phoneNumber"].JStr? && Phone.MatchesPhone(m["phoneNumber"].s)
  {
    NameAt(env, UpdateFields, 0, m);
    PhoneAt(env, UpdateFields, 1, m);
  }

  lemma UpdateChoices(env: Env, m: Object)
    requires forall j :: 0 <= j < |UpdateFields| ==> FieldSatisfies(env, UpdateFields, j, m)
    ensures "status" in m ==> m["status"].JStr? && m["status"].s in StatusValues
    ensures "privacy" in m ==> m["privacy"].JStr? && m["privacy"].s in PrivacyValues
  {
    ChoiceAt(env, UpdateFields, 7, m, "status", StatusValues);
    ChoiceAt(env, UpdateFields, 8, m, "privacy", PrivacyValues);
  }

  lemma UpdateSharedBounds(env: Env, m: Object)
    requires forall j :: 0 <= j < |UpdateFields| ==> FieldSatisfies(env, UpdateFields, j, m)
    ensures SharedBounds(env, m)
  {
    SharedBoundsAt(env, UpdateFields, m);
  }

  /** A validated update body meets the create schema's bounds on every key it carries. */
  lemma UpdateGuarantees(env: Env, body: Json)
    ensures var r := Validate(env, UpdateEventSchema, body);
      r.Valid? ==>
        && r.value.JObj?
        && var m := r.value.fields;
        && ("name" in m ==> m["name"].JStr? && 3 <= |m["name"].s| <= 100)
        && ("phoneNumber" in m ==> m["phoneNumber"].JStr? && Phone.MatchesPhone(m["phoneNumber"].s))
        && ("status" in m ==> m["status"].JStr? && m["status"].s in StatusValues)
        && ("privacy" in m ==> m["privacy"].JStr? && m["privacy"].s in PrivacyValues)
        && SharedBounds(env, m)
  {
    UpdateSchemaWellFormed(env);
    ValidateMeaning(env, UpdateEventSchema, body);
    var r := Validate(env, UpdateEventSchema, body);
    if r.Valid? {
      assert Satisfies(env, UpdateEventSchema, r.value);
      UpdateNamePhone(env, r.value.fields);
      UpdateChoices(env, r.value.fields);
      UpdateSharedBounds(env, r.value.fields);
    }
  }

  // ---------------------------------------------------------------------------
  // Defaults

  /** A create body without `status` or `privacy` gets `draft` and `public`; a supplied
      one is kept as given. */
  lemma CreateDefaults(env: Env, body: Object)
    ensures var r := Validate(env, EventSchema, JObj(body));
      r.Valid? ==>
        && r.value.JObj? && "status" in r.value.fields && "privacy" in r.value.fields
        && r.value.fields["status"] == (if "status" in body then body["status"] else JStr("draft"))
        && r.value.fields["privacy"] == (if "privacy" in body then body["privacy"] else JStr("public"))
  {
    EventSchemaWellFormed(env);
    assert EventFields[10] == FieldRule("status", StrS([], StatusValues), Default(JStr("draft")));
    assert EventFields[11] == FieldRule("privacy", StrS([], PrivacyValues), Default(JStr("public")));
    KeyOutcome(env, EventFields, 10, body, []);
    KeyOutcome(env, EventFields, 11, body, []);
    if "status" in body {
      CheckStringMeaning(env, [], StatusValues, body["status"], [At("status")]);
    }
    if "privacy" in body {
      CheckStringMeaning(env, [], PrivacyValues, body["privacy"], [At("privacy")]);
    }
  }

  // ---------------------------------------------------------------------------
  // Every violated constraint is reported under its key

  /** A name shorter than 3 or longer than 100 characters is reported under `name`,
      by the create and by the update schema alike. */
  lemma NameLengthReported(env: Env, body: Object)
    requires "name" in body && body["name"].JStr? && body["name"].s != ""
    requires |body["name"].s| < 3 || |body["name"].s| > 100
    ensures var code := if |body["name"].s| < 3 then StringMin else StringMax;
      && FieldError("name", code) in Validate(env, EventSchema, JObj(body)).Reported()
      && FieldError("name", code) in Validate(env, UpdateEventSchema, JObj(body)).Reported()
  {
    var s := body["name"].s;
    var k := if |s| < 3 then 0 else 1;
    var code := if |s| < 3 then StringMin else StringMax;
    CheckStringReports(env, NameRules, [], body["name"], [At("name")]);
    assert !StrRuleHolds(env, NameRules[k], s) && StrRuleCode(NameRules[k]) == code;
    assert EventFields[0].schema == StrS(NameRules, []) && UpdateFields[0].schema == StrS(NameRules, []);
    assert [] + [At("name")] == [At("name")];
    KeyErrorReported(env, EventFields, 0, body, [], FieldError("name", code));
    KeyErrorReported(env, UpdateFields, 0, body, [], FieldError("name", code));
  }

  /** A create body without `name` or without `phoneNumber` is reported under that key. */
  lemma RequiredReported(env: Env, body: Object)
    ensures "name" !in body ==> FieldError("name", AnyRequired) in Validate(env, EventSchema, JObj(body)).Reported()
    ensures "phoneNumber" !in body ==>
              FieldError("phoneNumber", AnyRequired) in Validate(env, EventSchema, JObj(body)).Reported()
  {
    if "name" !in body {
      KeyErrorReported(env, EventFields, 0, body, [], FieldError("name", AnyRequired));
    }
    if "phoneNumber" !in body {
      KeyErrorReported(env, EventFields, 1, body, [], FieldError("phoneNumber", AnyRequired));
    }
  }

  /** An empty phone number is reported as empty, before the pattern is tried. */
  lemma EmptyPhoneReported(env: Env, body: Object)
    requires "phoneNumber" in body && body["phoneNumber"] == JStr("")
    ensures FieldError("phoneNumber", StringEmpty) in Validate(env, EventSchema, JObj(body)).Reported()
  {
    assert FieldErrors(env, EventFields, 1, body, []) == [FieldError("phoneNumber", StringEmpty)];
    KeyErrorReported(env, EventFields, 1, body, [], FieldError("phoneNumber", StringEmpty));
  }

  /** The codes of the capacity rules a number breaks. */
  function CapacityViolations(r: real): (codes: seq<ErrorCode>)
    ensures codes == [] <==> r.Floor as real == r && 1.0 <= r <= 10000.0
  {
    (if r.Floor as real != r then [NumberInteger] else [])
    + (if r < 1.0 then [NumberMin] else [])
    + (if r > 10000.0 then [NumberMax] else [])
  }

  /** A capacity that is not a whole number, or lies outside `[1, 10000]`, is reported
      under `capacity` with each rule it breaks, by both schemas. */
  lemma CapacityReported(env: Env, body: Object)
    requires "capacity" in body && body["capacity"].JNum?
    ensures forall code :: code in CapacityViolations(body["capacity"].n) ==>
        && FieldError("capacity", code) in Validate(env, EventSchema, JObj(body)).Reported()
        && FieldError("capacity", code) in Validate(env, UpdateEventSchema, JObj(body)).Reported()
  {
    var r := body["capacity"].n;
    CheckNumberReports(env, CapacityRules, body["capacity"], [At("capacity")]);
    assert EventFields[6].schema == NumS(CapacityRules) && UpdateFields[6].schema == NumS(CapacityRules);
    assert [] + [At("capacity")] == [At("capacity")];
    forall code | code in CapacityViolations(r)
      ensures FieldError("capacity", code) in Validate(env, EventSchema, JObj(body)).Reported()
      ensures FieldError("capacity", code) in Validate(env, UpdateEventSchema, JObj(body)).Reported()
    {
      var k := if code == NumberInteger then 0 else if code == NumberMin then 1 else 2;
      assert !NumRuleHolds(CapacityRules[k], r) && NumRuleCode(CapacityRules[k]) == code;
      KeyErrorReported(env, EventFields, 6, body, [], FieldError("capacity", code));
      KeyErrorReported(env, UpdateFields, 6, body, [], FieldError("capacity", code));
    }
  }

  /** A status outside the four, `deleted` among them, is refused with `any.only`. */
  lemma StatusReported(env: Env, body: Object)
    requires "status" in body && !(body["status"].JStr? && body["status"].s in StatusValues)
    ensures FieldError("status", AnyOnly) in Validate(env, EventSchema, JObj(body)).Reported()
    ensures FieldError("status", AnyOnly) in Validate(env, UpdateEventSchema, JObj(body)).Reported()
  {
    CheckStringReports(env, [], StatusValues, body["status"], [At("status")]);
    assert EventFields[10].name == "status" && EventFields[10].schema == StrS([], StatusValues);
    assert UpdateFields[7].name == "status" && UpdateFields[7].schema == StrS([], StatusValues);
    KeyErrorReported(env, EventFields, 10, body, [], FieldError("status", AnyOnly));
    KeyErrorReported(env, UpdateFields, 7, body, [], FieldError("status", AnyOnly));
  }

  // ---------------------------------------------------------------------------
  // The attach request and the route parameters

  /** A validated attach request holds a non-empty string `moduleId` and, when
      supplied, an object `config`, and nothing else. */
  lemma ModuleConfigGuarantees(env: Env, body: Json)
    ensures var r := Validate(env, ModuleConfigSchema, body);
      r.Valid? ==>
        && r.value.JObj?
        && var m := r.value.fields;
        && "moduleId" in m && m["moduleId"].JStr? && m["moduleId"].s != ""
        && ("config" in m ==> m["config"].JObj?)
        && (forall k :: k in m ==> k == "moduleId" || k == "config")
  {
    ModuleConfigSchemaWellFormed(env);
    ValidateMeaning(env, ModuleConfigSchema, body);
    var r := Validate(env, ModuleConfigSchema, body);
    if r.Valid? {
      var m := r.value.fields;
      assert FieldSatisfies(env, ModuleConfigFields, 0, m);
      assert FieldSatisfies(env, ModuleConfigFields, 1, m);
    }
  }

  /** How the handlers check a route parameter, as written: they pass `{ id }`, an
      object holding the id, to a string schema. */
  function IdCheckAsWritten(env: Env, schema: Schema, id: string): Validated {
    Validate(env, schema, JObj(map["id" := JStr(id)]))
  }

  /** The object is never a string, so the check as written refuses every id, a
      well-formed UUID included. */
  lemma IdCheckAsWrittenRefusesAll(env: Env, id: string)
    ensures IdCheckAsWritten(env, EventIdSchema, id) == Invalid([FieldError("", StringBase)])
    ensures IdCheckAsWritten(env, ModuleIdSchema, id) == Invalid([FieldError("", StringBase)])
  {
  }

  /** The check the handlers evidently intend: the id string itself against the schema. */
  function IdCheck(env: Env, schema: Schema, id: string): Validated {
    Validate(env, schema, JStr(id))
  }

  /** `eventIdSchema` on the id string accepts exactly a non-empty UUID. */
  lemma EventIdMeaning(env: Env, id: string)
    ensures IdCheck(env, EventIdSchema, id) ==
      if id != "" && env.isUuid(id) then Valid(JStr(id))
      else Invalid(if id == "" then [FieldError("", StringEmpty)] else [FieldError("", StringGuid)])
  {
    assert [Guid][1..] == [];
    if id != "" {
      var errs := StrRuleErrors(env, [Guid], id, []);
      assert errs == (if env.isUuid(id) then [] else [FieldError("", StringGuid)]) + StrRuleErrors(env, [], id, []);
      assert CheckString(env, [Guid], [], JStr(id), []).errors == [] + errs;
    }
  }

  /** `moduleIdSchema` on the id string accepts exactly a non-empty string. */
  lemma ModuleIdMeaning(env: Env, id: string)
    ensures IdCheck(env, ModuleIdSchema, id) ==
      if id != "" then Valid(JStr(id)) else Invalid([FieldError("", StringEmpty)])
  {
  }
}
