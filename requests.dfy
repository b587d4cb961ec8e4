/** The validated request bodies read as typed requests. Each decoder is paired with
    an encoder back to JSON, and the round trip over every validated body shows that
    reading a body loses nothing the handlers spread into a record. */
module Requests {
  import opened Base
  import opened JsonValue
  import opened Validation
  import opened Schemas
  import opened Model

  // ---------------------------------------------------------------------------
  // Reading JSON values

  function Text(j: Json): string {
    if j.JStr? then j.s else ""
  }

  function Number(j: Json): real {
    if j.JNum? then j.n else 0.0
  }

  /** A whole number, as Joi's integer and date checks leave it. */
  function Whole(j: Json): int {
    if j.JNum? then j.n.Floor else 0
  }

  function ObjectOf(j: Json): Object {
    if j.JObj? then j.fields else map[]
  }

  function Texts(j: Json): (r: seq<string>)
    ensures j.JArr? ==> |r| == |j.items|
  {
    if j.JArr? then seq(|j.items|, i requires 0 <= i < |j.items| => Text(j.items[i])) else []
  }

  function TextsJson(ts: seq<string>): Json {
    JArr(seq(|ts|, i requires 0 <= i < |ts| => JStr(ts[i])))
  }

  /** An array of strings reads back to itself. */
  lemma TextsRoundTrip(j: Json)
    requires j.JArr? && forall i :: 0 <= i < |j.items| ==> j.items[i].JStr?
    ensures TextsJson(Texts(j)) == j
  {
  }

  function Lookup<T>(m: Object, k: string, read: Json -> T): (r: Option<T>)
    ensures r.Some? <==> k in m
  {
    if k in m then Some(read(m[k])) else None
  }

  /** The JSON a present field is written back as; an absent field writes nothing. */
  function Written<T>(v: Option<T>, write: T -> Json): Option<Json> {
    if v.Some? then Some(write(v.value)) else None
  }

  // ---------------------------------------------------------------------------
  // Array entries of the create body

  predicate EntryShape(j: Json) {
    && j.JObj?
    && "id" in j.fields && j.fields["id"].JStr?
    && ("config" in j.fields ==> j.fields["config"].JObj?)
    && forall k :: k in j.fields ==> k == "id" || k == "config"
  }

  function DecodeEntry(j: Json): ModuleEntry {
    var m := ObjectOf(j);
    ModuleEntry(if "id" in m then Text(m["id"]) else "", Lookup(m, "config", ObjectOf))
  }

  function EncodeEntry(e: ModuleEntry): Json {
    JObj(if e.config.Some? then map["id" := JStr(e.id), "config" := JObj(e.config.value)]
         else map["id" := JStr(e.id)])
  }

  lemma EntryRoundTrip(j: Json)
    requires EntryShape(j)
    ensures EncodeEntry(DecodeEntry(j)) == j
  {
    var m := j.fields;
    var out := EncodeEntry(DecodeEntry(j)).fields;
    assert forall k :: k in out <==> k in m;
  }

  lemma EntryDecodeEncode(e: ModuleEntry)
    ensures DecodeEntry(EncodeEntry(e)) == e
  {
  }

  predicate LinkShape(j: Json) {
    && j.JObj?
    && "title" in j.fields && j.fields["title"].JStr?
    && "url" in j.fields && j.fields["url"].JStr?
    && forall k :: k in j.fields ==> k == "title" || k == "url"
  }

  function DecodeLink(j: Json): Link {
    var m := ObjectOf(j);
    Link(if "title" in m then Text(m["title"]) else "", if "url" in m then Text(m["url"]) else "")
  }

  function EncodeLink(l: Link): Json {
    JObj(map["title" := JStr(l.title), "url" := JStr(l.url)])
  }

  lemma LinkRoundTrip(j: Json)
    requires LinkShape(j)
    ensures EncodeLink(DecodeLink(j)) == j
  {
    var m := j.fields;
    var out := EncodeLink(DecodeLink(j)).fields;
    assert forall k :: k in out <==> k in m;
  }

  function Entries(j: Json): (r: seq<ModuleEntry>)
    ensures j.JArr? ==> |r| == |j.items|
  {
    if j.JArr? then seq(|j.items|, i requires 0 <= i < |j.items| => DecodeEntry(j.items[i])) else []
  }

  function EntriesJson(es: seq<ModuleEntry>): Json {
    JArr(seq(|es|, i requires 0 <= i < |es| => EncodeEntry(es[i])))
  }

  function Links(j: Json): (r: seq<Link>)
    ensures j.JArr? ==> |r| == |j.items|
  {
    if j.JArr? then seq(|j.items|, i requires 0 <= i < |j.items| => DecodeLink(j.items[i])) else []
  }

  function LinksJson(ls: seq<Link>): Json {
    JArr(seq(|ls|, i requires 0 <= i < |ls| => EncodeLink(ls[i])))
  }

  lemma EntriesRoundTrip(j: Json)
    requires j.JArr? && forall i :: 0 <= i < |j.items| ==> EntryShape(j.items[i])
    ensures EntriesJson(Entries(j)) == j
  {
    forall i | 0 <= i < |j.items| ensures EncodeEntry(DecodeEntry(j.items[i])) == j.items[i] {
      EntryRoundTrip(j.items[i]);
    }
  }

  lemma LinksRoundTrip(j: Json)
    requires j.JArr? && forall i :: 0 <= i < |j.items| ==> LinkShape(j.items[i])
    ensures LinksJson(Links(j)) == j
  {
    forall i | 0 <= i < |j.items| ensures EncodeLink(DecodeLink(j.items[i])) == j.items[i] {
      LinkRoundTrip(j.items[i]);
    }
  }

  // ---------------------------------------------------------------------------
  // The create request

  datatype CreateRequest = CreateRequest(
    name: string,
    phoneNumber: string,
    dateTime: Option<int>,
    location: Option<string>,
    costPerPerson: Option<real>,
    description: Option<string>,
    capacity: Option<int>,
    modules: Option<seq<ModuleEntry>>,
    photos: Option<seq<string>>,
    links: Option<seq<Link>>,
    status: Status,
    privacy: Privacy,
    tags: Option<seq<string>>,
    category: Option<string>,
    timezone: Option<string>)

  /** The JSON types a validated create body has, key by key. */
  predicate CreateShape(m: Object) {
    && (forall k :: k in m ==> k in EventKeys)
    && "name" in m && m["name"].JStr?
    && "phoneNumber" in m && m["phoneNumber"].JStr?
    && ("dateTime" in m ==> m["dateTime"].JNum? && m["dateTime"].n.Floor as real == m["dateTime"].n)
    && ("location" in m ==> m["location"].JStr?)
    && ("costPerPerson" in m ==> m["costPerPerson"].JNum?)
    && ("description" in m ==> m["description"].JStr?)
    && ("capacity" in m ==> m["capacity"].JNum? && m["capacity"].n.Floor as real == m["capacity"].n)
    && ("modules" in m ==> m["modules"].JArr? && forall i :: 0 <= i < |m["modules"].items| ==> EntryShape(m["modules"].items[i]))
    && ("photos" in m ==> m["photos"].JArr? && forall i :: 0 <= i < |m["photos"].items| ==> m["photos"].items[i].JStr?)
    && ("links" in m ==> m["links"].JArr? && forall i :: 0 <= i < |m["links"].items| ==> LinkShape(m["links"].items[i]))
    && "status" in m && m["status"].JStr? && ParseStatus(m["status"].s).Some?
    && "privacy" in m && m["privacy"].JStr? && ParsePrivacy(m["privacy"].s).Some?
    && ("tags" in m ==> m["tags"].JArr? && forall i :: 0 <= i < |m["tags"].items| ==> m["tags"].items[i].JStr?)
    && ("category" in m ==> m["category"].JStr?)
    && ("timezone" in m ==> m["timezone"].JStr?)
  }

  function DecodeCreate(m: Object): CreateRequest {
    CreateRequest(
      if "name" in m then Text(m["name"]) else "",
      if "phoneNumber" in m then Text(m["phoneNumber"]) else "",
      Lookup(m, "dateTime", Whole),
      Lookup(m, "location", Text),
      Lookup(m, "costPerPerson", Number),
      Lookup(m, "description", Text),
      Lookup(m, "capacity", Whole),
      Lookup(m, "modules", Entries),
      Lookup(m, "photos", Texts),
      Lookup(m, "links", Links),
      if "status" in m then ParseStatus(Text(m["status"])).GetOr(Draft) else Draft,
      if "privacy" in m then ParsePrivacy(Text(m["privacy"])).GetOr(Public) else Public,
      Lookup(m, "tags", Texts),
      Lookup(m, "category", Text),
      Lookup(m, "timezone", Text))
  }

  function WholeJson(n: int): Json { JNum(n as real) }

  /** The JSON the request holds under key `k`, if any. */
  function CreateField(r: CreateRequest, k: string): Option<Json> {
    if k == "name" then Some(JStr(r.name))
    else if k == "phoneNumber" then Some(JStr(r.phoneNumber))
    else if k == "dateTime" then Written(r.dateTime, WholeJson)
    else if k == "location" then Written(r.location, s => JStr(s))
    else if k == "costPerPerson" then Written(r.costPerPerson, c => JNum(c))
    else if k == "description" then Written(r.description, s => JStr(s))
    else if k == "capacity" then Written(r.capacity, WholeJson)
    else if k == "modules" then Written(r.modules, EntriesJson)
    else if k == "photos" then Written(r.photos, TextsJson)
    else if k == "links" then Written(r.links, LinksJson)
    else if k == "status" then Some(JStr(StatusName(r.status)))
    else if k == "privacy" then Some(JStr(PrivacyName(r.privacy)))
    else if k == "tags" then Written(r.tags, TextsJson)
    else if k == "category" then Written(r.category, s => JStr(s))
    else if k == "timezone" then Written(r.timezone, s => JStr(s))
    else None
  }

  /** The request as the JSON object it was read from. */
  function EncodeCreate(r: CreateRequest): Object {
    map k | k in EventKeys && CreateField(r, k).Some? :: CreateField(r, k).value
  }

  /** Every validated create body has the shape the decoder expects. */
  lemma CreateShapeOfValid(env: Env, body: Json)
    ensures var r := Validate(env, EventSchema, body);
      r.Valid? ==> r.value.JObj? && CreateShape(r.value.fields)
  {
    EventSchemaWellFormed(env);
    ValidateMeaning(env, EventSchema, body);
    var r := Validate(env, EventSchema, body);
    if r.Valid? {
      var m := r.value.fields;
      assert Satisfies(env, EventSchema, r.value);
      CreateBodyKeys(env, m);
      ChoicesShapeOf(env, m);
      ScalarsShapeOf(env, m);
      ArraysShapeOf(env, m);
    }
  }

  /** The allowed status and privacy names all parse. */
  lemma ChoicesParse()
    ensures forall s :: s in StatusValues ==> ParseStatus(s).Some?
    ensures forall s :: s in PrivacyValues ==> ParsePrivacy(s).Some?
  {
  }

  lemma ChoicesShapeOf(env: Env, m: Object)
    requires forall j :: 0 <= j < |EventFields| ==> FieldSatisfies(env, EventFields, j, m)
    ensures "status" in m && m["status"].JStr? && ParseStatus(m["status"].s).Some?
    ensures "privacy" in m && m["privacy"].JStr? && ParsePrivacy(m["privacy"].s).Some?
  {
    CreateChoices(env, m);
    ChoicesParse();
  }

  lemma ScalarsShapeOf(env: Env, m: Object)
    requires forall j :: 0 <= j < |EventFields| ==> FieldSatisfies(env, EventFields, j, m)
    ensures "name" in m && m["name"].JStr?
    ensures "phoneNumber" in m && m["phoneNumber"].JStr?
    ensures "dateTime" in m ==> m["dateTime"].JNum? && m["dateTime"].n.Floor as real == m["dateTime"].n
    ensures "location" in m ==> m["location"].JStr?
    ensures "costPerPerson" in m ==> m["costPerPerson"].JNum?
    ensures "description" in m ==> m["description"].JStr?
    ensures "capacity" in m ==> m["capacity"].JNum? && m["capacity"].n.Floor as real == m["capacity"].n
    ensures "category" in m ==> m["category"].JStr?
    ensures "timezone" in m ==> m["timezone"].JStr?
  {
    CreateNameBound(env, m);
    CreatePhoneMatches(env, m);
    CreateSharedBounds(env, m);
    OtherTextsShapeOf(env, m);
  }

  lemma OtherTextsShapeOf(env: Env, m: Object)
    requires forall j :: 0 <= j < |EventFields| ==> FieldSatisfies(env, EventFields, j, m)
    ensures "category" in m ==> m["category"].JStr?
    ensures "timezone" in m ==> m["timezone"].JStr?
  {
    TextKeyShape(env, EventFields, 13, m, "category", []);
    TextKeyShape(env, EventFields, 14, m, "timezone", []);
  }

  lemma ArraysShapeOf(env: Env, m: Object)
    requires forall j :: 0 <= j < |EventFields| ==> FieldSatisfies(env, EventFields, j, m)
    ensures "modules" in m ==> m["modules"].JArr? && forall i :: 0 <= i < |m["modules"].items| ==> EntryShape(m["modules"].items[i])
    ensures "photos" in m ==> m["photos"].JArr? && forall i :: 0 <= i < |m["photos"].items| ==> m["photos"].items[i].JStr?
    ensures "links" in m ==> m["links"].JArr? && forall i :: 0 <= i < |m["links"].items| ==> LinkShape(m["links"].items[i])
    ensures "tags" in m ==> m["tags"].JArr? && forall i :: 0 <= i < |m["tags"].items| ==> m["tags"].items[i].JStr?
  {
    ModulesShape(env, EventFields, 7, m);
    TextArrayShape(env, EventFields, 8, m, "photos", [Uri]);
    LinksShape(env, EventFields, 9, m);
    TextArrayShape(env, EventFields, 12, m, "tags", []);
  }

  lemma NumberKeyShape(env: Env, fields: seq<FieldRule>, j: nat, m: Object, k: string, rules: seq<NumRule>)
    requires j < |fields| && fields[j] == FieldRule(k, NumS(rules), Optional)
    requires FieldSatisfies(env, fields, j, m)
    ensures k in m ==> m[k].JNum?
  {
  }

  lemma TextKeyShape(env: Env, fields: seq<FieldRule>, j: nat, m: Object, k: string, rules: seq<StrRule>)
    requires j < |fields| && fields[j] == FieldRule(k, StrS(rules, []), Optional)
    requires FieldSatisfies(env, fields, j, m)
    ensures k in m ==> m[k].JStr?
  {
  }

  lemma ModulesShape(env: Env, fields: seq<FieldRule>, j: nat, m: Object)
    requires j < |fields| && fields[j] == FieldRule("modules", ArrS(ModuleEntrySchema), Optional)
    requires FieldSatisfies(env, fields, j, m)
    ensures "modules" in m ==> m["modules"].JArr? && forall i :: 0 <= i < |m["modules"].items| ==> EntryShape(m["modules"].items[i])
  {
    if "modules" in m {
      forall i | 0 <= i < |m["modules"].items| ensures EntryShape(m["modules"].items[i]) {
        EntryShapeOf(env, m["modules"].items[i]);
      }
    }
  }

  lemma LinksShape(env: Env, fields: seq<FieldRule>, j: nat, m: Object)
    requires j < |fields| && fields[j] == FieldRule("links", ArrS(LinkSchema), Optional)
    requires FieldSatisfies(env, fields, j, m)
    ensures "links" in m ==> m["links"].JArr? && forall i :: 0 <= i < |m["links"].items| ==> LinkShape(m["links"].items[i])
  {
    if "links" in m {
      forall i | 0 <= i < |m["links"].items| ensures LinkShape(m["links"].items[i]) {
        LinkShapeOf(env, m["links"].items[i]);
      }
    }
  }

  lemma TextArrayShape(env: Env, fields: seq<FieldRule>, j: nat, m: Object, k: string, rules: seq<StrRule>)
    requires j < |fields| && fields[j] == FieldRule(k, ArrS(StrS(rules, [])), Optional)
    requires FieldSatisfies(env, fields, j, m)
    ensures k in m ==> m[k].JArr? && forall i :: 0 <= i < |m[k].items| ==> m[k].items[i].JStr?
  {
    if k in m {
      forall i | 0 <= i < |m[k].items| ensures m[k].items[i].JStr? {
        assert Satisfies(env, StrS(rules, []), m[k].items[i]);
      }
    }
  }

  lemma EntryShapeOf(env: Env, j: Json)
    requires Satisfies(env, ModuleEntrySchema, j)
    ensures EntryShape(j)
  {
    assert FieldSatisfies(env, ModuleEntrySchema.fields, 0, j.fields);
    assert FieldSatisfies(env, ModuleEntrySchema.fields, 1, j.fields);
  }

  lemma LinkShapeOf(env: Env, j: Json)
    requires Satisfies(env, LinkSchema, j)
    ensures LinkShape(j)
  {
    assert FieldSatisfies(env, LinkSchema.fields, 0, j.fields);
    assert FieldSatisfies(env, LinkSchema.fields, 1, j.fields);
  }

  lemma CreateFieldRoundTrip(m: Object, k: string)
    requires CreateShape(m) && k in EventKeys
    ensures CreateField(DecodeCreate(m), k) == if k in m then Some(m[k]) else None
  {
    if k == "name" || k == "phoneNumber" || k == "status" || k == "privacy" {
      CreateRequiredField(m, k);
    } else if k == "modules" || k == "links" || k == "photos" || k == "tags" {
      CreateListField(m, k);
    } else {
      CreateOptionalField(m, k);
    }
  }

  /** The four keys the create schema requires. */
  lemma CreateRequiredField(m: Object, k: string)
    requires CreateShape(m)
    requires k == "name" || k == "phoneNumber" || k == "status" || k == "privacy"
    ensures CreateField(DecodeCreate(m), k) == if k in m then Some(m[k]) else None
  {
  }

  /** The optional scalar keys. */
  lemma CreateOptionalField(m: Object, k: string)
    requires CreateShape(m)
    requires k == "dateTime" || k == "capacity" || k == "location" || k == "description"
      || k == "category" || k == "timezone" || k == "costPerPerson"
    ensures CreateField(DecodeCreate(m), k) == if k in m then Some(m[k]) else None
  {
  }

  /** The four array keys. */
  lemma CreateListField(m: Object, k: string)
    requires CreateShape(m)
    requires k == "modules" || k == "links" || k == "photos" || k == "tags"
    ensures CreateField(DecodeCreate(m), k) == if k in m then Some(m[k]) else None
  {
    if k == "modules" {
      if k in m { EntriesRoundTrip(m[k]); }
    } else if k == "links" {
      if k in m { LinksRoundTrip(m[k]); }
    } else {
      if k in m { TextsRoundTrip(m[k]); }
    }
  }

  /** Reading a validated create body loses nothing: writing the request back gives the body. */
  lemma CreateRoundTrip(m: Object)
    requires CreateShape(m)
    ensures EncodeCreate(DecodeCreate(m)) == m
  {
    var out := EncodeCreate(DecodeCreate(m));
    forall k | k in EventKeys
      ensures CreateField(DecodeCreate(m), k) == if k in m then Some(m[k]) else None
    {
      CreateFieldRoundTrip(m, k);
    }
    assert forall k :: k in out <==> k in m;
  }

  // ---------------------------------------------------------------------------
  // The update request

  /** The nine keys an update may carry, each optional. */
  datatype UpdateRequest = UpdateRequest(
    name: Option<string>,
    phoneNumber: Option<string>,
    dateTime: Option<int>,
    location: Option<string>,
    costPerPerson: Option<real>,
    description: Option<string>,
    capacity: Option<int>,
    status: Option<Status>,
    privacy: Option<Privacy>)

  predicate UpdateShape(m: Object) {
    && (forall k :: k in m ==> k in UpdateKeys)
    && ("name" in m ==> m["name"].JStr?)
    && ("phoneNumber" in m ==> m["phoneNumber"].JStr?)
    && ("dateTime" in m ==> m["dateTime"].JNum? && m["dateTime"].n.Floor as real == m["dateTime"].n)
    && ("location" in m ==> m["location"].JStr?)
    && ("costPerPerson" in m ==> m["costPerPerson"].JNum?)
    && ("description" in m ==> m["description"].JStr?)
    && ("capacity" in m ==> m["capacity"].JNum? && m["capacity"].n.Floor as real == m["capacity"].n)
    && ("status" in m ==> m["status"].JStr? && ParseStatus(m["status"].s).Some?)
    && ("privacy" in m ==> m["privacy"].JStr? && ParsePrivacy(m["privacy"].s).Some?)
  }

  function StatusOf(j: Json): Status {
    ParseStatus(Text(j)).GetOr(Draft)
  }

  function PrivacyOf(j: Json): Privacy {
    ParsePrivacy(Text(j)).GetOr(Public)
  }

  function DecodeUpdate(m: Object): UpdateRequest {
    UpdateRequest(
      Lookup(m, "name", Text),
      Lookup(m, "phoneNumber", Text),
      Lookup(m, "dateTime", Whole),
      Lookup(m, "location", Text),
      Lookup(m, "costPerPerson", Number),
      Lookup(m, "description", Text),
      Lookup(m, "capacity", Whole),
      Lookup(m, "status", StatusOf),
      Lookup(m, "privacy", PrivacyOf))
  }

  function UpdateField(r: UpdateRequest, k: string): Option<Json> {
    if k == "name" then Written(r.name, s => JStr(s))
    else if k == "phoneNumber" then Written(r.phoneNumber, s => JStr(s))
    else if k == "dateTime" then Written(r.dateTime, WholeJson)
    else if k == "location" then Written(r.location, s => JStr(s))
    else if k == "costPerPerson" then Written(r.costPerPerson, c => JNum(c))
    else if k == "description" then Written(r.description, s => JStr(s))
    else if k == "capacity" then Written(r.capacity, WholeJson)
    else if k == "status" then Written(r.status, (st: Status) => JStr(StatusName(st)))
    else if k == "privacy" then Written(r.privacy, (p: Privacy) => JStr(PrivacyName(p)))
    else None
  }

  function EncodeUpdate(r: UpdateRequest): Object {
    map k | k in UpdateKeys && UpdateField(r, k).Some? :: UpdateField(r, k).value
  }

  /** Every validated update body has the shape the decoder expects. */
  lemma UpdateShapeOfValid(env: Env, body: Json)
    ensures var r := Validate(env, UpdateEventSchema, body);
      r.Valid? ==> r.value.JObj? && UpdateShape(r.value.fields)
  {
    UpdateSchemaWellFormed(env);
    ValidateMeaning(env, UpdateEventSchema, body);
    var r := Validate(env, UpdateEventSchema, body);
    if r.Valid? {
      UpdateKeysOnly(env, body);
      var m := r.value.fields;
      assert Satisfies(env, UpdateEventSchema, r.value);
      UpdateNamePhone(env, m);
      UpdateChoices(env, m);
      ChoicesParse();
      UpdateSharedBounds(env, m);
    }
  }

  lemma UpdateFieldRoundTrip(m: Object, k: string)
    requires UpdateShape(m) && k in UpdateKeys
    ensures UpdateField(DecodeUpdate(m), k) == if k in m then Some(m[k]) else None
  {
    if k == "name" || k == "phoneNumber" || k == "location" || k == "description" {
      UpdateTextField(m, k);
    } else {
      UpdateOtherField(m, k);
    }
  }

  /** The four text keys of an update. */
  lemma UpdateTextField(m: Object, k: string)
    requires UpdateShape(m)
    requires k == "name" || k == "phoneNumber" || k == "location" || k == "description"
    ensures UpdateField(DecodeUpdate(m), k) == if k in m then Some(m[k]) else None
  {
  }

  /** The numeric and choice keys of an update. */
  lemma UpdateOtherField(m: Object, k: string)
    requires UpdateShape(m)
    requires k == "dateTime" || k == "capacity" || k == "costPerPerson" || k == "status" || k == "privacy"
    ensures UpdateField(DecodeUpdate(m), k) == if k in m then Some(m[k]) else None
  {
  }

  /** Reading a validated update body loses nothing. */
  lemma UpdateRoundTrip(m: Object)
    requires UpdateShape(m)
    ensures EncodeUpdate(DecodeUpdate(m)) == m
  {
    var out := EncodeUpdate(DecodeUpdate(m));
    forall k | k in UpdateKeys
      ensures UpdateField(DecodeUpdate(m), k) == if k in m then Some(m[k]) else None
    {
      UpdateFieldRoundTrip(m, k);
    }
    assert forall k :: k in out <==> k in m;
  }

  // ---------------------------------------------------------------------------
  // The attach request and the config patch

  datatype AttachRequest = AttachRequest(moduleId: string, config: Option<Config>)

  predicate AttachShape(m: Object) {
    && "moduleId" in m && m["moduleId"].JStr?
    && ("config" in m ==> m["config"].JObj?)
    && forall k :: k in m ==> k == "moduleId" || k == "config"
  }

  function DecodeAttach(m: Object): AttachRequest {
    AttachRequest(if "moduleId" in m then Text(m["moduleId"]) else "", Lookup(m, "config", ObjectOf))
  }

  function EncodeAttach(r: AttachRequest): Object {
    if r.config.Some? then map["moduleId" := JStr(r.moduleId), "config" := JObj(r.config.value)]
    else map["moduleId" := JStr(r.moduleId)]
  }

  lemma AttachShapeOfValid(env: Env, body: Json)
    ensures var r := Validate(env, ModuleConfigSchema, body);
      r.Valid? ==> r.value.JObj? && AttachShape(r.value.fields) && DecodeAttach(r.value.fields).moduleId != ""
  {
    ModuleConfigGuarantees(env, body);
  }

  lemma AttachRoundTrip(m: Object)
    requires AttachShape(m)
    ensures EncodeAttach(DecodeAttach(m)) == m
  {
    var out := EncodeAttach(DecodeAttach(m));
    assert forall k :: k in out <==> k in m;
  }

  /** The config patch a body validated by `Joi.object()` stands for: the body itself. */
  lemma ConfigPatchMeaning(env: Env, body: Json)
    ensures Validate(env, ConfigPatchSchema, body) ==
      if body.JObj? then Valid(body) else Invalid([FieldError("", ObjectBase)])
  {
  }
}
