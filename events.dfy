/** The records the event handlers build and the queries they answer: a new record from a
    validated create body, the overlay of an update, soft delete and publish, the filtered
    and paginated listing, and the catalog listing. Each record builder is tied to the
    JavaScript object literal it stands for through the record's JSON form. */
module Events {
  import opened Base
  import opened JsonValue
  import opened Model
  import opened Requests
  import opened Schemas
  import Validation

  /** Position of the first event with id `id`, deleted or not. */
  function FindEvent(events: seq<Event>, id: string): (r: Option<nat>)
    ensures r.Some? ==> r.value < |events| && events[r.value].id == id
    ensures r.Some? ==> forall j :: 0 <= j < r.value ==> events[j].id != id
    ensures r.None? <==> forall j :: 0 <= j < |events| ==> events[j].id != id
  {
    FindFirst(events, (e: Event) => e.id == id)
  }

  /** A query or auth value's JavaScript truthiness: present and not the empty string. */
  predicate Truthy(q: Option<string>) {
    q.Some? && q.value != ""
  }

  /** `req.user?.id || 'anonymous'`. */
  function UserOf(user: Option<string>): (r: string)
    ensures r != ""
    ensures Truthy(user) ==> r == user.value
  {
    if Truthy(user) then user.value else "anonymous"
  }

  function Attachments(es: seq<ModuleEntry>): (r: seq<Attachment>)
    ensures |r| == |es|
  {
    seq(|es|, i requires 0 <= i < |es| => FromEntry(es[i]))
  }

  /** The record a validated create request becomes. */
  function NewEvent(r: CreateRequest, id: string, user: Option<string>, now: string): Event {
    Event(
      id, UserOf(user), r.name, r.phoneNumber, r.dateTime, r.location, r.costPerPerson,
      r.description, r.capacity,
      if r.modules.Some? then Attachments(r.modules.value) else [],
      r.photos.GetOr([]), r.links.GetOr([]),
      r.status, r.privacy, r.tags.GetOr([]), r.category, r.timezone,
      0, [], now, now, 1, None, None)
  }

  /** A new record starts at version 1 with no views, attendees, publication or deletion,
      carries the request's fields, and has empty lists where the request had none. */
  lemma NewEventMeaning(r: CreateRequest, id: string, user: Option<string>, now: string)
    ensures var e := NewEvent(r, id, user, now);
      && e.id == id && e.version == 1 && e.views == 0 && e.attendees == []
      && e.createdAt == now && e.updatedAt == now
      && e.publishedAt.None? && e.deletedAt.None?
      && (user.None? ==> e.userId == "anonymous")
      && (r.modules.None? ==> e.modules == []) && (r.photos.None? ==> e.photos == [])
      && (r.links.None? ==> e.links == []) && (r.tags.None? ==> e.tags == [])
      && e.name == r.name && e.status == r.status && e.privacy == r.privacy
  {
  }

  /** The stored record overlaid with the fields an update carries, re-stamped and with
      its version bumped. */
  function Overlay(e: Event, u: UpdateRequest, now: string): Event {
    e.(
      name := u.name.GetOr(e.name),
      phoneNumber := u.phoneNumber.GetOr(e.phoneNumber),
      dateTime := if u.dateTime.Some? then u.dateTime else e.dateTime,
      location := if u.location.Some? then u.location else e.location,
      costPerPerson := if u.costPerPerson.Some? then u.costPerPerson else e.costPerPerson,
      description := if u.description.Some? then u.description else e.description,
      capacity := if u.capacity.Some? then u.capacity else e.capacity,
      status := u.status.GetOr(e.status),
      privacy := u.privacy.GetOr(e.privacy),
      updatedAt := now,
      version := e.version + 1)
  }

  /** An update keeps identity, ownership, creation time, attachments, lists and counters,
      and raises the version by exactly one. */
  lemma OverlayKeeps(e: Event, u: UpdateRequest, now: string)
    ensures var o := Overlay(e, u, now);
      && o.id == e.id && o.userId == e.userId && o.createdAt == e.createdAt
      && o.modules == e.modules && o.photos == e.photos && o.links == e.links && o.tags == e.tags
      && o.views == e.views && o.attendees == e.attendees
      && o.publishedAt == e.publishedAt && o.deletedAt == e.deletedAt
      && o.version == e.version + 1
      && (u.status.None? ==> o.status == e.status)
  {
  }

  /** The soft delete: status `deleted`, `deletedAt` and `updatedAt` stamped. */
  function SoftDeleted(e: Event, now: string): (r: Event)
    ensures r.status == Deleted && r.deletedAt == Some(now) && r.updatedAt == now
    ensures r.id == e.id && r.version == e.version && r.name == e.name && r.modules == e.modules
  {
    e.(status := Deleted, deletedAt := Some(now), updatedAt := now)
  }

  /** `event.name && event.dateTime`: a non-empty name and a date. */
  predicate Publishable(e: Event) {
    e.name != "" && e.dateTime.Some?
  }

  function Publish(e: Event, now: string): Event {
    e.(status := Published, publishedAt := Some(now), updatedAt := now)
  }

  /** Publishing sets the status whatever it was, even `deleted`, and keeps the version. */
  lemma PublishedMeaning(e: Event, now: string)
    ensures var p := Publish(e, now);
      && p.status == Published && p.publishedAt == Some(now) && p.version == e.version
      && p.id == e.id && p.modules == e.modules && p.deletedAt == e.deletedAt
  {
  }

  /** A record built from a validated create body is never deleted, has a name of 3 to 100
      characters, and so can be published exactly when it has a date. */
  lemma NewEventFromValid(env: Validation.Env, body: Json, id: string, user: Option<string>, now: string)
    requires Validation.Validate(env, EventSchema, body).Valid?
    ensures var e := NewEvent(DecodeCreate(ObjectOf(Validation.Validate(env, EventSchema, body).value)), id, user, now);
      && e.status != Deleted
      && 3 <= |e.name| <= 100
      && (Publishable(e) <==> e.dateTime.Some?)
  {
    CreateShapeOfValid(env, body);
    CreateGuarantees(env, body);
  }

  // ---------------------------------------------------------------------------
  // The listing

  /** Kept by the listing: the status and user filters where their query is truthy,
      and never a deleted record. */
  predicate Keep(status: Option<string>, userId: Option<string>, e: Event) {
    && (Truthy(status) ==> StatusName(e.status) == status.value)
    && (Truthy(userId) ==> e.userId == userId.value)
    && e.status != Deleted
  }

  function StatusIs(name: string): Event -> bool {
    (e: Event) => StatusName(e.status) == name
  }

  function OwnedBy(user: string): Event -> bool {
    (e: Event) => e.userId == user
  }

  function NotDeleted(): Event -> bool {
    (e: Event) => e.status != Deleted
  }

  /** The three filters run one after another, as the handler does. */
  function Listed(events: seq<Event>, status: Option<string>, userId: Option<string>): seq<Event> {
    var byStatus := if Truthy(status) then Filter(events, StatusIs(status.value)) else events;
    var byUser := if Truthy(userId) then Filter(byStatus, OwnedBy(userId.value)) else byStatus;
    Filter(byUser, NotDeleted())
  }

  lemma {:induction false} FilterSame<T>(s: seq<T>, p: T -> bool, q: T -> bool)
    requires forall x :: p(x) == q(x)
    ensures Filter(s, p) == Filter(s, q)
  {
    if |s| != 0 {
      FilterSame(s[1..], p, q);
    }
  }

  /** Two filters in a row are one filter by any predicate equal to their conjunction. */
  lemma Filter2<T>(s: seq<T>, p: T -> bool, q: T -> bool, k: T -> bool)
    requires forall x :: k(x) == (p(x) && q(x))
    ensures Filter(Filter(s, p), q) == Filter(s, k)
  {
    FilterFilter(s, p, q);
    FilterSame(s, x => p(x) && q(x), k);
  }

  /** The chain of filters is one filter by `Keep`: the listing holds exactly the kept
      records, in store order. */
  lemma ListedIsOneFilter(events: seq<Event>, status: Option<string>, userId: Option<string>)
    ensures Listed(events, status, userId) == Filter(events, (e: Event) => Keep(status, userId, e))
  {
    var keep := (e: Event) => Keep(status, userId, e);
    if Truthy(status) && Truthy(userId) {
      var both := (e: Event) => StatusIs(status.value)(e) && OwnedBy(userId.value)(e);
      Filter2(events, StatusIs(status.value), OwnedBy(userId.value), both);
      Filter2(events, both, NotDeleted(), keep);
    } else if Truthy(status) {
      Filter2(events, StatusIs(status.value), NotDeleted(), keep);
    } else if Truthy(userId) {
      Filter2(events, OwnedBy(userId.value), NotDeleted(), keep);
    } else {
      FilterSame(events, NotDeleted(), keep);
    }
  }

  /** Nothing deleted is listed, the filters hold, and every kept record is listed. */
  lemma ListedMeaning(events: seq<Event>, status: Option<string>, userId: Option<string>)
    ensures var r := Listed(events, status, userId);
      && (forall i :: 0 <= i < |r| ==> r[i].status != Deleted && r[i] in events)
      && (Truthy(status) ==> forall i :: 0 <= i < |r| ==> StatusName(r[i].status) == status.value)
      && (Truthy(userId) ==> forall i :: 0 <= i < |r| ==> r[i].userId == userId.value)
      && (forall i :: 0 <= i < |events| && Keep(status, userId, events[i]) ==> events[i] in r)
  {
    ListedIsOneFilter(events, status, userId);
  }

  /** `Math.ceil(n / d)` for naturals. */
  function CeilDiv(n: nat, d: nat): (r: nat)
    requires d >= 1
    ensures r * d >= n
    ensures r == 0 || (r - 1) * d < n
  {
    (n + d - 1) / d
  }

  /** The offset of a page: `(page - 1) * limit`. */
  function PageStart(page: nat, limit: nat): nat
    requires page >= 1
  {
    (page - 1) * limit
  }

  /** `slice(start, start + limit)` at the page's offset, clamped to the sequence. */
  function Page<T>(s: seq<T>, page: nat, limit: nat): seq<T>
    requires page >= 1 && limit >= 1
  {
    var start := PageStart(page, limit);
    if start >= |s| then [] else s[start .. if start + limit <= |s| then start + limit else |s|]
  }

  /** A page holds at most `limit` items, each the filtered item at its offset. */
  lemma PageMeaning<T>(s: seq<T>, page: nat, limit: nat)
    requires page >= 1 && limit >= 1
    ensures var r := Page(s, page, limit);
      && |r| <= limit
      && (forall k :: 0 <= k < |r| ==> r[k] == s[PageStart(page, limit) + k])
      && (PageStart(page, limit) + limit <= |s| ==> |r| == limit)
      && (PageStart(page, limit) < |s| <= PageStart(page, limit) + limit ==> |r| == |s| - PageStart(page, limit))
  {
  }

  /** A page is non-empty exactly when its number is at most the page count. */
  lemma PageWithinCount<T>(s: seq<T>, page: nat, limit: nat)
    requires page >= 1 && limit >= 1
    ensures |Page(s, page, limit)| > 0 <==> page <= CeilDiv(|s|, limit)
  {
    var c := CeilDiv(|s|, limit);
    if page <= c {
      assert (page - 1) * limit <= (c - 1) * limit by {
        MulMono(page - 1, c - 1, limit);
      }
    } else {
      assert c * limit <= (page - 1) * limit by {
        MulMono(c, page - 1, limit);
      }
    }
  }

  lemma MulMono(a: nat, b: nat, m: nat)
    requires a <= b
    ensures a * m <= b * m
  {
  }

  /** The concrete case: 25 records, 20 per page, page 2 holds the last 5 of 2 pages. */
  lemma PaginationExample<T>(s: seq<T>)
    requires |s| == 25
    ensures Page(s, 2, 20) == s[20..] && |Page(s, 2, 20)| == 5 && CeilDiv(|s|, 20) == 2
  {
  }

  // ---------------------------------------------------------------------------
  // The catalog listing

  /** A catalog definition as the JSON object it is served as. */
  function DefJson(d: ModuleDef): Object {
    map[
      "id" := JStr(d.id), "name" := JStr(d.name), "description" := JStr(d.description),
      "code" := JStr(d.code), "configSchema" := d.configSchema, "category" := JStr(d.category),
      "icon" := JStr(d.icon), "version" := JStr(d.version), "isActive" := JBool(d.isActive),
      "createdAt" := JStr(d.createdAt), "updatedAt" := JStr(d.updatedAt)]
  }

  /** The definition as served: whole when `includeCode` is `'true'`, else without `code`. */
  function DefView(d: ModuleDef, includeCode: Option<string>): Object {
    if includeCode == Some("true") then DefJson(d) else DefJson(d) - {"code"}
  }

  function DefViews(defs: seq<ModuleDef>, includeCode: Option<string>): (r: seq<Object>)
    ensures |r| == |defs|
    ensures forall k :: 0 <= k < |defs| ==> r[k] == DefView(defs[k], includeCode)
  {
    if |defs| == 0 then [] else [DefView(defs[0], includeCode)] + DefViews(defs[1..], includeCode)
  }

  /** The definitions in the requested category, when one is truthy. */
  function InCategory(catalog: seq<ModuleDef>, category: Option<string>): seq<ModuleDef> {
    if Truthy(category) then Filter(catalog, (d: ModuleDef) => d.category == category.value) else catalog
  }

  predicate IsActive(d: ModuleDef) {
    d.isActive
  }

  /** The catalog filter as written: the query default for `activeOnly` is the boolean
      `true`, but the comparison is with the string `'true'`, so without the parameter the
      active filter is skipped. */
  function ListedDefsAsWritten(catalog: seq<ModuleDef>, category: Option<string>, activeOnly: Option<string>)
    : seq<ModuleDef>
  {
    var byCategory := InCategory(catalog, category);
    if activeOnly == Some("true") then Filter(byCategory, IsActive) else byCategory
  }

  /** A request without `activeOnly` is served the inactive entries too. */
  lemma ListedDefsAsWrittenServesInactive()
    ensures var legacy := ModuleDef("legacy", "Legacy", "", "", JObj(map[]), "settings", "", "1.0", false, "", "");
      ListedDefsAsWritten([legacy], None, None) == [legacy] && !legacy.isActive
  {
  }

  /** Whether the active filter applies: when `activeOnly` is absent (its default is on)
      or is the string `'true'`. */
  predicate ActiveOnly(activeOnly: Option<string>) {
    activeOnly.None? || activeOnly == Some("true")
  }

  /** The definitions the catalog listing keeps: the category filter when one is truthy,
      the active filter when it is on. */
  function ListedDefs(catalog: seq<ModuleDef>, category: Option<string>, activeOnly: Option<string>): seq<ModuleDef> {
    var byCategory := InCategory(catalog, category);
    if ActiveOnly(activeOnly) then Filter(byCategory, IsActive) else byCategory
  }

  /** The two agree except when `activeOnly` is absent. */
  lemma ListedDefsDiffer(catalog: seq<ModuleDef>, category: Option<string>, activeOnly: Option<string>)
    requires activeOnly.Some?
    ensures ListedDefs(catalog, category, activeOnly) == ListedDefsAsWritten(catalog, category, activeOnly)
  {
  }

  /** Each definition served as written is from the catalog and in the category, when one
      is truthy. An entry of the category is dropped exactly when it is inactive and
      `activeOnly` is the string `'true'`; so without that string the whole category,
      inactive entries included, is served. */
  lemma ListedDefsAsWrittenMeaning(catalog: seq<ModuleDef>, category: Option<string>, activeOnly: Option<string>)
    ensures var defs := ListedDefsAsWritten(catalog, category, activeOnly);
      && (forall k :: 0 <= k < |defs| ==> defs[k] in catalog)
      && (Truthy(category) ==> forall k :: 0 <= k < |defs| ==> defs[k].category == category.value)
      && (activeOnly == Some("true") ==> forall k :: 0 <= k < |defs| ==> defs[k].isActive)
      && (forall j :: 0 <= j < |catalog| && (Truthy(category) ==> catalog[j].category == category.value) ==>
            (catalog[j] in defs <==> (activeOnly == Some("true") ==> catalog[j].isActive)))
      && (!Truthy(category) && activeOnly != Some("true") ==> defs == catalog)
  {
    var byCategory := InCategory(catalog, category);
    var defs := ListedDefsAsWritten(catalog, category, activeOnly);
    assert forall k :: 0 <= k < |byCategory| ==> byCategory[k] in catalog;
    assert Truthy(category) ==> forall k :: 0 <= k < |byCategory| ==> byCategory[k].category == category.value;
    forall j | 0 <= j < |catalog| && (Truthy(category) ==> catalog[j].category == category.value)
      ensures catalog[j] in defs <==> (activeOnly == Some("true") ==> catalog[j].isActive)
    {
      assert catalog[j] in byCategory;
      var i :| 0 <= i < |byCategory| && byCategory[i] == catalog[j];
      if catalog[j] in defs && activeOnly == Some("true") {
        var k :| 0 <= k < |defs| && defs[k] == catalog[j];
        assert IsActive(defs[k]);
      }
    }
  }

  /** On the seeded catalog, where every definition is active, the listing as written
      and the intended one agree. */
  lemma SeedListingAgrees(category: Option<string>, activeOnly: Option<string>)
    ensures ListedDefsAsWritten(SeedCatalog, category, activeOnly) == ListedDefs(SeedCatalog, category, activeOnly)
  {
    if activeOnly.None? {
      var byCategory := InCategory(SeedCatalog, category);
      forall i | 0 <= i < |byCategory| ensures IsActive(byCategory[i]) {
        assert byCategory[i] in SeedCatalog;
      }
      FilterKeepsAll(byCategory, IsActive);
    }
  }

  /** The catalog listing as the handler serves it. */
  function ListModulesAsWritten(catalog: seq<ModuleDef>, category: Option<string>, activeOnly: Option<string>,
                                includeCode: Option<string>): seq<Object> {
    DefViews(ListedDefsAsWritten(catalog, category, activeOnly), includeCode)
  }

  /** The served listing: one view per definition the filters as written keep, each with
      its id, and with `code` exactly when asked for with `'true'`. */
  lemma ListModulesAsWrittenMeaning(catalog: seq<ModuleDef>, category: Option<string>, activeOnly: Option<string>,
                                    includeCode: Option<string>)
    ensures var defs := ListedDefsAsWritten(catalog, category, activeOnly);
      var r := ListModulesAsWritten(catalog, category, activeOnly, includeCode);
      && |r| == |defs|
      && (forall k :: 0 <= k < |r| ==> r[k] == DefView(defs[k], includeCode))
      && (forall k :: 0 <= k < |r| ==> ("code" in r[k] <==> includeCode == Some("true")))
      && (forall k :: 0 <= k < |r| ==> "id" in r[k] && r[k]["id"] == JStr(defs[k].id))
  {
    DefViewsMeaning(ListedDefsAsWritten(catalog, category, activeOnly), includeCode);
  }

  /** The intended catalog listing. */
  function ListModules(catalog: seq<ModuleDef>, category: Option<string>, activeOnly: Option<string>,
                       includeCode: Option<string>): seq<Object> {
    DefViews(ListedDefs(catalog, category, activeOnly), includeCode)
  }

  /** Each listed definition is from the catalog and passes the requested filters, and
      with the category and the active filter both off the whole catalog is listed. */
  lemma ListedDefsMeaning(catalog: seq<ModuleDef>, category: Option<string>, activeOnly: Option<string>)
    ensures var defs := ListedDefs(catalog, category, activeOnly);
      && (forall k :: 0 <= k < |defs| ==> defs[k] in catalog)
      && (Truthy(category) ==> forall k :: 0 <= k < |defs| ==> defs[k].category == category.value)
      && (ActiveOnly(activeOnly) ==> forall k :: 0 <= k < |defs| ==> defs[k].isActive)
      && (!Truthy(category) && !ActiveOnly(activeOnly) ==> defs == catalog)
  {
    var byCategory := InCategory(catalog, category);
    assert forall k :: 0 <= k < |byCategory| ==> byCategory[k] in catalog;
    assert Truthy(category) ==> forall k :: 0 <= k < |byCategory| ==> byCategory[k].category == category.value;
  }

  /** A served definition carries `code` exactly when it was asked for with `'true'`,
      and always its id. */
  lemma DefViewsMeaning(defs: seq<ModuleDef>, includeCode: Option<string>)
    ensures var r := DefViews(defs, includeCode);
      && (forall k :: 0 <= k < |r| ==> ("code" in r[k] <==> includeCode == Some("true")))
      && (forall k :: 0 <= k < |r| ==> "id" in r[k] && r[k]["id"] == JStr(defs[k].id))
      && (forall k :: 0 <= k < |r| ==> "createdAt" in r[k] && r[k]["createdAt"] == JStr(defs[k].createdAt))
      && (forall k :: 0 <= k < |r| ==> "updatedAt" in r[k] && r[k]["updatedAt"] == JStr(defs[k].updatedAt))
  {
    forall k | 0 <= k < |defs|
      ensures var v := DefView(defs[k], includeCode); ("code" in v <==> includeCode == Some("true")) && "id" in v && v["id"] == JStr(defs[k].id)
    {
      assert "code" in DefJson(defs[k]);
    }
    forall k | 0 <= k < |defs|
      ensures var v := DefView(defs[k], includeCode);
        && "createdAt" in v && v["createdAt"] == JStr(defs[k].createdAt)
        && "updatedAt" in v && v["updatedAt"] == JStr(defs[k].updatedAt)
    {
      var d := DefJson(defs[k]);
      assert d["createdAt"] == JStr(defs[k].createdAt) && d["updatedAt"] == JStr(defs[k].updatedAt);
    }
  }

  /** Each listed definition is from the catalog and passes the requested filters, so
      nothing inactive is listed unless `activeOnly` is given as something other than
      `'true'`; `code` is served exactly when asked for with `'true'`; and with the
      category and the active filter both off the whole catalog is served. */
  lemma ListModulesMeaning(catalog: seq<ModuleDef>, category: Option<string>, activeOnly: Option<string>,
                           includeCode: Option<string>)
    ensures var defs := ListedDefs(catalog, category, activeOnly);
      var r := ListModules(catalog, category, activeOnly, includeCode);
      && |r| == |defs|
      && (forall k :: 0 <= k < |defs| ==> defs[k] in catalog)
      && (Truthy(category) ==> forall k :: 0 <= k < |defs| ==> defs[k].category == category.value)
      && (ActiveOnly(activeOnly) ==> forall k :: 0 <= k < |defs| ==> defs[k].isActive)
      && (forall k :: 0 <= k < |r| ==> ("code" in r[k] <==> includeCode == Some("true")))
      && (forall k :: 0 <= k < |r| ==> "id" in r[k] && r[k]["id"] == JStr(defs[k].id))
      && (!Truthy(category) && !ActiveOnly(activeOnly) ==> defs == catalog)
  {
    ListedDefsMeaning(catalog, category, activeOnly);
    DefViewsMeaning(ListedDefs(catalog, category, activeOnly), includeCode);
  }

  /** Every catalog entry in the category (and active, when the filter is on) is listed. */
  lemma ListModulesComplete(catalog: seq<ModuleDef>, category: Option<string>, activeOnly: Option<string>)
    ensures var defs := ListedDefs(catalog, category, activeOnly);
      forall j :: 0 <= j < |catalog|
        && (Truthy(category) ==> catalog[j].category == category.value)
        && (ActiveOnly(activeOnly) ==> catalog[j].isActive)
        ==> catalog[j] in defs
  {
    var byCategory := InCategory(catalog, category);
    forall j | 0 <= j < |catalog|
        && (Truthy(category) ==> catalog[j].category == category.value)
        && (ActiveOnly(activeOnly) ==> catalog[j].isActive)
      ensures catalog[j] in ListedDefs(catalog, category, activeOnly)
    {
      assert catalog[j] in byCategory;
      var i :| 0 <= i < |byCategory| && byCategory[i] == catalog[j];
    }
  }

  // ---------------------------------------------------------------------------
  // Records as the JavaScript objects they are

  /** A single-key object when the value is present, else the empty object. */
  function Entry(k: string, v: Option<Json>): Object {
    if v.Some? then map[k := v.value] else map[]
  }

  function AttachmentJson(a: Attachment): Json {
    JObj(map["id" := JStr(a.id)]
      + Entry("config", Written(a.config, (c: Config) => JObj(c)))
      + Entry("order", Written(a.order, (n: nat) => JNum(n as real)))
      + Entry("addedAt", Written(a.addedAt, (t: string) => JStr(t)))
      + Entry("updatedAt", Written(a.updatedAt, (t: string) => JStr(t))))
  }

  function AttachmentsJson(mods: seq<Attachment>): Json {
    JArr(seq(|mods|, i requires 0 <= i < |mods| => AttachmentJson(mods[i])))
  }

  /** A create-body entry stored as an attachment is the same object it arrived as. */
  lemma FromEntryJson(e: ModuleEntry)
    ensures AttachmentJson(FromEntry(e)) == EncodeEntry(e)
  {
    var a := AttachmentJson(FromEntry(e)).fields;
    var b := EncodeEntry(e).fields;
    assert forall k :: k in a <==> k in b;
  }

  const RecordKeys: set<string> := EventKeys + {
    "id", "userId", "views", "attendees", "createdAt", "updatedAt", "version", "publishedAt", "deletedAt"}

  /** The JSON the stored record holds under key `k`, if any. */
  function EventField(e: Event, k: string): Option<Json> {
    if k == "id" then Some(JStr(e.id))
    else if k == "userId" then Some(JStr(e.userId))
    else if k == "name" then Some(JStr(e.name))
    else if k == "phoneNumber" then Some(JStr(e.phoneNumber))
    else if k == "dateTime" then Written(e.dateTime, WholeJson)
    else if k == "location" then Written(e.location, s => JStr(s))
    else if k == "costPerPerson" then Written(e.costPerPerson, c => JNum(c))
    else if k == "description" then Written(e.description, s => JStr(s))
    else if k == "capacity" then Written(e.capacity, WholeJson)
    else if k == "modules" then Some(AttachmentsJson(e.modules))
    else if k == "photos" then Some(TextsJson(e.photos))
    else if k == "links" then Some(LinksJson(e.links))
    else if k == "status" then Some(JStr(StatusName(e.status)))
    else if k == "privacy" then Some(JStr(PrivacyName(e.privacy)))
    else if k == "tags" then Some(TextsJson(e.tags))
    else if k == "category" then Written(e.category, s => JStr(s))
    else if k == "timezone" then Written(e.timezone, s => JStr(s))
    else if k == "views" then Some(JNum(e.views as real))
    else if k == "attendees" then Some(JArr(e.attendees))
    else if k == "createdAt" then Some(JStr(e.createdAt))
    else if k == "updatedAt" then Some(JStr(e.updatedAt))
    else if k == "version" then Some(JNum(e.version as real))
    else if k == "publishedAt" then Written(e.publishedAt, s => JStr(s))
    else if k == "deletedAt" then Written(e.deletedAt, s => JStr(s))
    else None
  }

  /** The stored record as a JSON object. */
  function EventJson(e: Event): Object {
    map k | k in RecordKeys && EventField(e, k).Some? :: EventField(e, k).value
  }

  /** `data.k || []` for an array-valued key. */
  function OrEmpty(data: Object, k: string): Json {
    if k in data then data[k] else JArr([])
  }

  /** The object literal of the create handler: id and owner, the validated fields spread
      over them, the four lists defaulted, and the fresh counters and stamps. */
  function CreateLiteral(data: Object, id: string, userId: string, now: string): Object {
    map["id" := JStr(id), "userId" := JStr(userId)] + data + map[
      "modules" := OrEmpty(data, "modules"), "photos" := OrEmpty(data, "photos"),
      "links" := OrEmpty(data, "links"), "tags" := OrEmpty(data, "tags"),
      "views" := JNum(0.0), "attendees" := JArr([]),
      "createdAt" := JStr(now), "updatedAt" := JStr(now), "version" := JNum(1.0)]
  }

  /** The record's keys in three groups: the scalar schema keys, the four list keys, and
      the keys the handlers set themselves. */
  predicate ScalarKeyName(k: string) {
    k == "name" || k == "phoneNumber" || k == "dateTime" || k == "location"
    || k == "costPerPerson" || k == "description" || k == "capacity" || k == "status"
    || k == "privacy" || k == "category" || k == "timezone"
  }

  predicate ListKeyName(k: string) {
    k == "modules" || k == "photos" || k == "links" || k == "tags"
  }

  predicate OwnKeyName(k: string) {
    k == "id" || k == "userId" || k == "views" || k == "attendees" || k == "createdAt"
    || k == "updatedAt" || k == "version" || k == "publishedAt" || k == "deletedAt"
  }

  lemma EventKeyCases(k: string)
    ensures k in EventKeys <==> ScalarKeyName(k) || ListKeyName(k)
  {
  }

  lemma OwnKeyCases(k: string)
    ensures k in RecordKeys <==> k in EventKeys || OwnKeyName(k)
  {
  }

  lemma RecordKeyCases(k: string)
    ensures k in RecordKeys <==> ScalarKeyName(k) || ListKeyName(k) || OwnKeyName(k)
    ensures k in EventKeys <==> ScalarKeyName(k) || ListKeyName(k)
  {
    EventKeyCases(k);
    OwnKeyCases(k);
  }

  /** On the scalar schema keys, the record holds what the request held. */
  lemma ScalarKey(r: CreateRequest, id: string, user: Option<string>, now: string, k: string)
    requires ScalarKeyName(k)
    ensures EventField(NewEvent(r, id, user, now), k) == CreateField(r, k)
  {
  }

  /** On the four list keys, the record holds the request's list or the empty array. */
  lemma ListKey(r: CreateRequest, id: string, user: Option<string>, now: string, k: string)
    requires ListKeyName(k)
    ensures EventField(NewEvent(r, id, user, now), k) == Some(OrEmpty(EncodeCreate(r), k))
  {
    var data := EncodeCreate(r);
    RecordKeyCases(k);
    assert k in data <==> CreateField(r, k).Some?;
    if k == "modules" {
      if r.modules.Some? {
        var es := r.modules.value;
        forall i | 0 <= i < |es| ensures AttachmentJson(Attachments(es)[i]) == EncodeEntry(es[i]) {
          FromEntryJson(es[i]);
        }
        assert AttachmentsJson(Attachments(es)) == EntriesJson(es);
        assert CreateField(r, k) == Some(EntriesJson(es));
        assert EventField(NewEvent(r, id, user, now), k) == Some(AttachmentsJson(Attachments(es)));
      } else {
        assert AttachmentsJson([]) == JArr([]);
      }
    } else if k == "photos" {
      if r.photos.Some? { assert data[k] == TextsJson(r.photos.value); } else { assert TextsJson([]) == JArr([]); }
    } else if k == "links" {
      if r.links.Some? { assert data[k] == LinksJson(r.links.value); } else { assert LinksJson([]) == JArr([]); }
    } else {
      if r.tags.Some? { assert data[k] == TextsJson(r.tags.value); } else { assert TextsJson([]) == JArr([]); }
    }
  }

  /** Looking a key up in the create literal, given that the validated data holds only
      schema keys: the owner keys come from the head of the literal... */
  lemma CreateLiteralOwner(data: Object, id: string, userId: string, now: string, k: string)
    requires forall key :: key in data ==> key in EventKeys
    requires k == "id" || k == "userId"
    ensures var lit := CreateLiteral(data, id, userId, now);
      k in lit && lit[k] == JStr(if k == "id" then id else userId)
  {
    assert k !in data;
  }

  /** ...the lists from its tail, defaulted to empty arrays... */
  lemma CreateLiteralLists(data: Object, id: string, userId: string, now: string, k: string)
    requires ListKeyName(k)
    ensures var lit := CreateLiteral(data, id, userId, now);
      k in lit && lit[k] == OrEmpty(data, k)
  {
  }

  /** ...the counters and stamps from the end of its tail... */
  lemma CreateLiteralStamps(data: Object, id: string, userId: string, now: string, k: string)
    requires k == "views" || k == "attendees" || k == "createdAt" || k == "updatedAt" || k == "version"
    ensures var lit := CreateLiteral(data, id, userId, now);
      && k in lit
      && (k == "views" ==> lit[k] == JNum(0.0))
      && (k == "attendees" ==> lit[k] == JArr([]))
      && (k == "createdAt" || k == "updatedAt" ==> lit[k] == JStr(now))
      && (k == "version" ==> lit[k] == JNum(1.0))
  {
  }

  /** ...the other schema keys from the validated data... */
  lemma CreateLiteralData(data: Object, id: string, userId: string, now: string, k: string)
    requires ScalarKeyName(k)
    ensures var lit := CreateLiteral(data, id, userId, now);
      (k in lit <==> k in data) && (k in data ==> lit[k] == data[k])
  {
  }

  /** ...and neither publication nor deletion stamp is set. */
  lemma CreateLiteralUnstamped(data: Object, id: string, userId: string, now: string, k: string)
    requires forall key :: key in data ==> key in EventKeys
    requires k == "publishedAt" || k == "deletedAt"
    ensures k !in CreateLiteral(data, id, userId, now)
  {
    assert k !in data;
  }

  lemma NewEventKey(r: CreateRequest, id: string, user: Option<string>, now: string, k: string)
    requires k in RecordKeys
    ensures var lit := CreateLiteral(EncodeCreate(r), id, UserOf(user), now);
      EventField(NewEvent(r, id, user, now), k) == if k in lit then Some(lit[k]) else None
  {
    var data := EncodeCreate(r);
    var userId := UserOf(user);
    RecordKeyCases(k);
    if ListKeyName(k) {
      ListKey(r, id, user, now, k);
      CreateLiteralLists(data, id, userId, now, k);
    } else if ScalarKeyName(k) {
      ScalarKey(r, id, user, now, k);
      assert k in data <==> CreateField(r, k).Some?;
      CreateLiteralData(data, id, userId, now, k);
    } else if k == "id" || k == "userId" {
      CreateLiteralOwner(data, id, userId, now, k);
    } else if k == "publishedAt" || k == "deletedAt" {
      CreateLiteralUnstamped(data, id, userId, now, k);
    } else {
      CreateLiteralStamps(data, id, userId, now, k);
    }
  }

  /** The record the create handler stores is exactly its object literal. */
  lemma NewEventIsLiteral(r: CreateRequest, id: string, user: Option<string>, now: string)
    ensures EventJson(NewEvent(r, id, user, now)) == CreateLiteral(EncodeCreate(r), id, UserOf(user), now)
  {
    var e := NewEvent(r, id, user, now);
    var data := EncodeCreate(r);
    var lit := CreateLiteral(data, id, UserOf(user), now);
    var rec := EventJson(e);
    forall k ensures (k in rec <==> k in lit) && (k in lit ==> rec[k] == lit[k]) {
      RecordKeyCases(k);
      if k in RecordKeys {
        NewEventKey(r, id, user, now, k);
      } else {
        assert k !in data;
      }
    }
  }

  /** The object literal of the update handler: the stored record, the validated fields
      spread over it, a fresh `updatedAt` and the next version. */
  function UpdateLiteral(stored: Object, data: Object, now: string, version: int): Object {
    stored + data + map["updatedAt" := JStr(now), "version" := JNum((version + 1) as real)]
  }

  predicate UpdateKeyName(k: string) {
    k == "name" || k == "phoneNumber" || k == "dateTime" || k == "location"
    || k == "costPerPerson" || k == "description" || k == "capacity" || k == "status" || k == "privacy"
  }

  /** On the keys an update may carry, the overlaid record holds the update's value if it
      carries one and the stored value otherwise. */
  lemma OverlayUpdateKey(e: Event, u: UpdateRequest, now: string, k: string)
    requires UpdateKeyName(k)
    ensures EventField(Overlay(e, u, now), k) == if UpdateField(u, k).Some? then UpdateField(u, k) else EventField(e, k)
  {
  }

  /** Every other key but the two stamps keeps its stored value. */
  lemma OverlayOtherKey(e: Event, u: UpdateRequest, now: string, k: string)
    requires !UpdateKeyName(k) && k != "updatedAt" && k != "version"
    ensures EventField(Overlay(e, u, now), k) == EventField(e, k)
  {
  }

  lemma UpdateLiteralAt(stored: Object, data: Object, now: string, version: int, k: string)
    ensures var lit := UpdateLiteral(stored, data, now, version);
      && (k == "updatedAt" ==> k in lit && lit[k] == JStr(now))
      && (k == "version" ==> k in lit && lit[k] == JNum((version + 1) as real))
      && (k != "updatedAt" && k != "version" ==>
            (k in lit <==> k in stored || k in data)
            && (k in data ==> lit[k] == data[k])
            && (k in stored && k !in data ==> lit[k] == stored[k]))
  {
  }

  /** The record's JSON holds key `k` exactly when the record has a value there. */
  lemma EventJsonAt(e: Event, k: string)
    requires k in RecordKeys
    ensures k in EventJson(e) <==> EventField(e, k).Some?
    ensures k in EventJson(e) ==> EventJson(e)[k] == EventField(e, k).value
  {
  }

  lemma OverlayKeyCarried(e: Event, u: UpdateRequest, now: string, k: string)
    requires UpdateKeyName(k)
    ensures var lit := UpdateLiteral(EventJson(e), EncodeUpdate(u), now, e.version);
      EventField(Overlay(e, u, now), k) == if k in lit then Some(lit[k]) else None
  {
    var data := EncodeUpdate(u);
    UpdateLiteralAt(EventJson(e), data, now, e.version, k);
    RecordKeyCases(k);
    EventJsonAt(e, k);
    assert k in UpdateKeys;
    assert k in data <==> UpdateField(u, k).Some?;
    OverlayUpdateKey(e, u, now, k);
  }

  lemma OverlayKeyKept(e: Event, u: UpdateRequest, now: string, k: string)
    requires k in RecordKeys && !UpdateKeyName(k) && k != "updatedAt" && k != "version"
    ensures var lit := UpdateLiteral(EventJson(e), EncodeUpdate(u), now, e.version);
      EventField(Overlay(e, u, now), k) == if k in lit then Some(lit[k]) else None
  {
    var data := EncodeUpdate(u);
    UpdateLiteralAt(EventJson(e), data, now, e.version, k);
    EventJsonAt(e, k);
    assert k !in UpdateKeys;
    assert k !in data;
    OverlayOtherKey(e, u, now, k);
  }

  /** The record the update handler stores is exactly its spread of the validated fields. */
  lemma OverlayIsSpread(e: Event, u: UpdateRequest, now: string)
    ensures EventJson(Overlay(e, u, now)) == UpdateLiteral(EventJson(e), EncodeUpdate(u), now, e.version)
  {
    var rec := EventJson(Overlay(e, u, now));
    var lit := UpdateLiteral(EventJson(e), EncodeUpdate(u), now, e.version);
    forall k ensures (k in rec <==> k in lit) && (k in lit ==> rec[k] == lit[k]) {
      OverlayKeyAgrees(e, u, now, k);
    }
  }

  /** On a key of the record, the overlaid record's field is the spread literal's entry. */
  lemma OverlayFieldIsLiteral(e: Event, u: UpdateRequest, now: string, k: string)
    requires k in RecordKeys
    ensures var lit := UpdateLiteral(EventJson(e), EncodeUpdate(u), now, e.version);
      EventField(Overlay(e, u, now), k) == if k in lit then Some(lit[k]) else None
  {
    UpdateLiteralAt(EventJson(e), EncodeUpdate(u), now, e.version, k);
    if UpdateKeyName(k) {
      OverlayKeyCarried(e, u, now, k);
    } else if k == "updatedAt" || k == "version" {
      OverlayStamps(e, u, now);
    } else {
      OverlayKeyKept(e, u, now, k);
    }
  }

  lemma OverlayStamps(e: Event, u: UpdateRequest, now: string)
    ensures EventField(Overlay(e, u, now), "updatedAt") == Some(JStr(now))
    ensures EventField(Overlay(e, u, now), "version") == Some(JNum((e.version + 1) as real))
  {
    var o := Overlay(e, u, now);
    assert o.updatedAt == now && o.version == e.version + 1;
  }

  /** One key of the overlaid record against the same key of the spread literal. */
  lemma OverlayKeyAgrees(e: Event, u: UpdateRequest, now: string, k: string)
    ensures var rec := EventJson(Overlay(e, u, now));
            var lit := UpdateLiteral(EventJson(e), EncodeUpdate(u), now, e.version);
            (k in rec <==> k in lit) && (k in lit ==> rec[k] == lit[k])
  {
    RecordKeyCases(k);
    if k in RecordKeys {
      OverlayFieldIsLiteral(e, u, now, k);
      EventJsonAt(Overlay(e, u, now), k);
    } else {
      UpdateLiteralAt(EventJson(e), EncodeUpdate(u), now, e.version, k);
      assert k !in EncodeUpdate(u);
      assert k !in EventJson(e);
      assert k !in EventJson(Overlay(e, u, now));
    }
  }
}
