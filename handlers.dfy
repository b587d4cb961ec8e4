/** What each request handler does, as a function of the store it reads: the reply it
    sends and, for the handlers that write, the event list it leaves behind. The store
    class in the controller module carries these out step by step; the lemmas here are
    the handlers' promises.

    Route table: POST /events create, GET /events list, GET /events/:id get,
    PUT /events/:id update, DELETE /events/:id delete, POST /events/:id/publish publish,
    GET /modules catalog, POST /events/:eventId/modules attach,
    DELETE /events/:eventId/modules/:moduleId detach,
    PUT /events/:eventId/modules/:moduleId patch config,
    GET /events/:eventId/preview preview. */
module Handlers {
  import opened Base
  import opened JsonValue
  import opened Validation
  import opened Schemas
  import opened Model
  import opened Requests
  import opened Composer
  import opened Events

  /** A reply's message: plain text, or the validation error list the text serialises. */
  datatype Message = Plain(text: string) | ErrorReport(errors: seq<FieldError>)

  datatype Payload =
    | NoData
    | OneEvent(event: Event)
    | EventPage(events: seq<Event>, total: nat, page: nat, limit: nat, totalPages: nat)
    | Catalog(modules: seq<Object>, count: nat)
    | PreviewPage(event: Event, entries: seq<PreviewEntry>)

  /** The HTTP status and the response envelope (`success`, `message`, `data`). */
  datatype Reply = Reply(status: int, success: bool, message: Message, data: Payload)

  function Ok(data: Payload, message: string): Reply {
    Reply(200, true, Plain(message), data)
  }

  function Fail(status: int, message: string): Reply {
    Reply(status, false, Plain(message), NoData)
  }

  /** A thrown validation error, caught and answered with 400. */
  function Rejected(errors: seq<FieldError>): Reply {
    Reply(400, false, ErrorReport(errors), NoData)
  }

  /** The event list a handler leaves and the reply it sends. */
  datatype Outcome = Outcome(events: seq<Event>, reply: Reply)

  const EventNotFound := "Event not found"
  const ModuleNotFoundInEvent := "Module not found in event"

  /** A catalog module that may be attached: the first one with the id that is active. */
  function FindActiveModule(catalog: seq<ModuleDef>, id: string): Option<nat> {
    FindFirst(catalog, (d: ModuleDef) => d.id == id && d.isActive)
  }

  // ---------------------------------------------------------------------------
  // The handlers

  function CreateStep(env: Env, events: seq<Event>, body: Json, user: Option<string>, uuid: string, now: string): Outcome {
    var v := Validate(env, EventSchema, body);
    if v.Invalid? then Outcome(events, Rejected(v.errors))
    else
      var e := NewEvent(DecodeCreate(ObjectOf(v.value)), uuid, user, now);
      Outcome(events + [e], Reply(201, true, Plain("Event created successfully"), OneEvent(e)))
  }

  function GetStep(env: Env, events: seq<Event>, id: string): Reply {
    var c := IdCheck(env, EventIdSchema, id);
    if c.Invalid? then Rejected(c.errors)
    else match FindEvent(events, id)
      case None => Fail(404, EventNotFound)
      case Some(i) => Ok(OneEvent(events[i]), "Success")
  }

  function UpdateStep(env: Env, events: seq<Event>, id: string, body: Json, now: string): Outcome {
    var c := IdCheck(env, EventIdSchema, id);
    if c.Invalid? then Outcome(events, Rejected(c.errors))
    else
      var v := Validate(env, UpdateEventSchema, body);
      if v.Invalid? then Outcome(events, Rejected(v.errors))
      else match FindEvent(events, id)
        case None => Outcome(events, Fail(404, EventNotFound))
        case Some(i) =>
          var e := Overlay(events[i], DecodeUpdate(ObjectOf(v.value)), now);
          Outcome(events[i := e], Ok(OneEvent(e), "Event updated successfully"))
  }

  function DeleteStep(env: Env, events: seq<Event>, id: string, now: string): Outcome {
    var c := IdCheck(env, EventIdSchema, id);
    if c.Invalid? then Outcome(events, Rejected(c.errors))
    else match FindEvent(events, id)
      case None => Outcome(events, Fail(404, EventNotFound))
      case Some(i) => Outcome(events[i := SoftDeleted(events[i], now)], Ok(NoData, "Event deleted successfully"))
  }

  /** The listing; an absent `limit` is 20 and an absent `page` is 1. */
  function ListStep(events: seq<Event>, status: Option<string>, userId: Option<string>,
                    limit: Option<nat>, page: Option<nat>): Reply
    requires limit.GetOr(20) >= 1 && page.GetOr(1) >= 1
  {
    var l := limit.GetOr(20);
    var p := page.GetOr(1);
    var kept := Listed(events, status, userId);
    Ok(EventPage(Page(kept, p, l), |kept|, p, l, CeilDiv(|kept|, l)), "Success")
  }

  function ModulesStep(catalog: seq<ModuleDef>, category: Option<string>, includeCode: Option<string>,
                       activeOnly: Option<string>): Reply {
    var views := ListModulesAsWritten(catalog, category, activeOnly, includeCode);
    Ok(Catalog(views, |views|), "Success")
  }

  /** Attach-or-merge. The body is checked before the event id. */
  function AttachStep(env: Env, events: seq<Event>, catalog: seq<ModuleDef>, eventId: string, body: Json,
                      now: string): Outcome {
    var v := Validate(env, ModuleConfigSchema, body);
    if v.Invalid? then Outcome(events, Rejected(v.errors))
    else
      var req := DecodeAttach(ObjectOf(v.value));
      var c := IdCheck(env, EventIdSchema, eventId);
      if c.Invalid? then Outcome(events, Rejected(c.errors))
      else match FindEvent(events, eventId)
        case None => Outcome(events, Fail(404, EventNotFound))
        case Some(i) =>
          if FindActiveModule(catalog, req.moduleId).None? then
            Outcome(events, Fail(404, "Module not found or inactive"))
          else
            var e := events[i].(modules := Attach(events[i].modules, req.moduleId, req.config, now), updatedAt := now);
            Outcome(events[i := e], Ok(OneEvent(e), "Module added to event successfully"))
  }

  function DetachStep(env: Env, events: seq<Event>, eventId: string, moduleId: string, now: string): Outcome {
    var c := IdCheck(env, EventIdSchema, eventId);
    if c.Invalid? then Outcome(events, Rejected(c.errors))
    else
      var d := IdCheck(env, ModuleIdSchema, moduleId);
      if d.Invalid? then Outcome(events, Rejected(d.errors))
      else match FindEvent(events, eventId)
        case None => Outcome(events, Fail(404, EventNotFound))
        case Some(i) =>
          match FindAttachment(events[i].modules, moduleId)
          case None => Outcome(events, Fail(404, ModuleNotFoundInEvent))
          case Some(j) =>
            var e := events[i].(modules := Detach(events[i].modules, j), updatedAt := now);
            Outcome(events[i := e], Ok(OneEvent(e), "Module removed from event successfully"))
  }

  /** The config patch: both ids, then the body (any object), then the lookups. */
  function PatchStep(env: Env, events: seq<Event>, eventId: string, moduleId: string, body: Json,
                     now: string): Outcome {
    var c := IdCheck(env, EventIdSchema, eventId);
    if c.Invalid? then Outcome(events, Rejected(c.errors))
    else
      var d := IdCheck(env, ModuleIdSchema, moduleId);
      if d.Invalid? then Outcome(events, Rejected(d.errors))
      else
        var v := Validate(env, ConfigPatchSchema, body);
        if v.Invalid? then Outcome(events, Rejected(v.errors))
        else match FindEvent(events, eventId)
          case None => Outcome(events, Fail(404, EventNotFound))
          case Some(i) =>
            match FindAttachment(events[i].modules, moduleId)
            case None => Outcome(events, Fail(404, ModuleNotFoundInEvent))
            case Some(j) =>
              var e := events[i].(modules := Patch(events[i].modules, j, ObjectOf(v.value), now), updatedAt := now);
              Outcome(events[i := e], Ok(OneEvent(e), "Module config updated successfully"))
  }

  function PreviewStep(env: Env, events: seq<Event>, catalog: seq<ModuleDef>, eventId: string): Reply {
    var c := IdCheck(env, EventIdSchema, eventId);
    if c.Invalid? then Rejected(c.errors)
    else match FindEvent(events, eventId)
      case None => Fail(404, EventNotFound)
      case Some(i) => Ok(PreviewPage(events[i], Preview(events[i].modules, catalog)), "Success")
  }

  function PublishStep(env: Env, events: seq<Event>, eventId: string, now: string): Outcome {
    var c := IdCheck(env, EventIdSchema, eventId);
    if c.Invalid? then Outcome(events, Rejected(c.errors))
    else match FindEvent(events, eventId)
      case None => Outcome(events, Fail(404, EventNotFound))
      case Some(i) =>
        if !Publishable(events[i]) then
          Outcome(events, Fail(400, "Event must have a name and date/time to be published"))
        else
          var e := Publish(events[i], now);
          Outcome(events[i := e], Ok(OneEvent(e), "Event published successfully"))
  }

  // ---------------------------------------------------------------------------
  // What the handlers promise

  /** `events` and `after` hold the same records except perhaps at position `i`. */
  predicate OnlySlot(events: seq<Event>, after: seq<Event>, i: nat) {
    |after| == |events| && forall j :: 0 <= j < |events| && j != i ==> after[j] == events[j]
  }

  /** No record moved and none changed version. */
  predicate VersionsKept(events: seq<Event>, after: seq<Event>) {
    |after| == |events| && forall j :: 0 <= j < |events| ==> after[j].version == events[j].version && after[j].id == events[j].id
  }

  /** Create: a rejected body leaves the store alone; an accepted one appends exactly one
      record, whose JSON form is the handler's object literal over the validated body. */
  lemma CreateAppends(env: Env, events: seq<Event>, body: Json, user: Option<string>, uuid: string, now: string)
    ensures var v := Validate(env, EventSchema, body);
      var o := CreateStep(env, events, body, user, uuid, now);
      && (v.Invalid? ==> o.events == events && o.reply == Rejected(v.errors) && v.errors != [])
      && (v.Valid? ==>
            && v.value.JObj?
            && |o.events| == |events| + 1 && o.events[..|events|] == events
            && EventJson(o.events[|events|]) == CreateLiteral(v.value.fields, uuid, UserOf(user), now)
            && o.reply == Reply(201, true, Plain("Event created successfully"), OneEvent(o.events[|events|])))
  {
    var v := Validate(env, EventSchema, body);
    if v.Valid? {
      CreateShapeOfValid(env, body);
      CreateRoundTrip(v.value.fields);
      NewEventIsLiteral(DecodeCreate(v.value.fields), uuid, user, now);
      var o := CreateStep(env, events, body, user, uuid, now);
      assert o.events[..|events|] == events;
    }
  }

  /** The record create stores starts at version 1, not deleted, owned by `anonymous`
      without an authenticated user, with empty lists for the lists not supplied. */
  lemma CreatedRecord(env: Env, events: seq<Event>, body: Json, user: Option<string>, uuid: string, now: string)
    requires Validate(env, EventSchema, body).Valid?
    ensures var m := ObjectOf(Validate(env, EventSchema, body).value);
      var e := CreateStep(env, events, body, user, uuid, now).events[|events|];
      && e.id == uuid && e.version == 1 && e.views == 0 && e.attendees == []
      && e.status != Deleted && e.createdAt == now && e.updatedAt == now
      && (user.None? ==> e.userId == "anonymous")
      && ("modules" !in m ==> e.modules == []) && ("photos" !in m ==> e.photos == [])
      && ("links" !in m ==> e.links == []) && ("tags" !in m ==> e.tags == [])
  {
    var v := Validate(env, EventSchema, body);
    NewEventFromValid(env, body, uuid, user, now);
    NewEventMeaning(DecodeCreate(ObjectOf(v.value)), uuid, user, now);
  }

  /** Get answers with the first record with the id, deleted or not. */
  lemma GetFinds(env: Env, events: seq<Event>, id: string, i: nat)
    requires IdCheck(env, EventIdSchema, id).Valid?
    requires i < |events| && events[i].id == id && forall j :: 0 <= j < i ==> events[j].id != id
    ensures GetStep(env, events, id) == Ok(OneEvent(events[i]), "Success")
  {
    assert FindEvent(events, id) == Some(i);
  }

  /** Every handler with an id answers 404 for an id no record has, once the checks pass,
      and leaves the store alone. */
  lemma MissingEvent(env: Env, events: seq<Event>, catalog: seq<ModuleDef>, id: string, moduleId: string,
                     body: Json, now: string)
    requires forall j :: 0 <= j < |events| ==> events[j].id != id
    requires IdCheck(env, EventIdSchema, id).Valid? && IdCheck(env, ModuleIdSchema, moduleId).Valid?
    ensures GetStep(env, events, id) == Fail(404, EventNotFound)
    ensures PreviewStep(env, events, catalog, id) == Fail(404, EventNotFound)
    ensures DeleteStep(env, events, id, now) == Outcome(events, Fail(404, EventNotFound))
    ensures PublishStep(env, events, id, now) == Outcome(events, Fail(404, EventNotFound))
    ensures DetachStep(env, events, id, moduleId, now) == Outcome(events, Fail(404, EventNotFound))
    ensures Validate(env, UpdateEventSchema, body).Valid? ==>
      UpdateStep(env, events, id, body, now) == Outcome(events, Fail(404, EventNotFound))
    ensures Validate(env, ModuleConfigSchema, body).Valid? ==>
      AttachStep(env, events, catalog, id, body, now) == Outcome(events, Fail(404, EventNotFound))
    ensures body.JObj? ==>
      PatchStep(env, events, id, moduleId, body, now) == Outcome(events, Fail(404, EventNotFound))
  {
  }

  /** Update replaces only the matching slot, with the stored record's JSON form overlaid
      by the validated body, and raises that record's version by one; identity, owner,
      creation time and lists cannot change. */
  lemma UpdateReplacesSlot(env: Env, events: seq<Event>, id: string, body: Json, now: string, i: nat)
    requires IdCheck(env, EventIdSchema, id).Valid? && Validate(env, UpdateEventSchema, body).Valid?
    requires i < |events| && events[i].id == id && forall j :: 0 <= j < i ==> events[j].id != id
    ensures var v := Validate(env, UpdateEventSchema, body);
      var o := UpdateStep(env, events, id, body, now);
      && v.value.JObj?
      && OnlySlot(events, o.events, i)
      && EventJson(o.events[i]) == UpdateLiteral(EventJson(events[i]), v.value.fields, now, events[i].version)
      && o.events[i].version == events[i].version + 1
      && o.events[i].id == id && o.events[i].userId == events[i].userId
      && o.events[i].createdAt == events[i].createdAt && o.events[i].modules == events[i].modules
      && o.events[i].photos == events[i].photos && o.events[i].links == events[i].links
      && o.events[i].tags == events[i].tags
      && o.reply == Ok(OneEvent(o.events[i]), "Event updated successfully")
  {
    var v := Validate(env, UpdateEventSchema, body);
    assert FindEvent(events, id) == Some(i);
    UpdateShapeOfValid(env, body);
    UpdateRoundTrip(v.value.fields);
    var u := DecodeUpdate(v.value.fields);
    OverlayIsSpread(events[i], u, now);
    OverlayKeeps(events[i], u, now);
  }

  /** Delete marks the matching record in place: length, position and version unchanged. */
  lemma DeleteInPlace(env: Env, events: seq<Event>, id: string, now: string, i: nat)
    requires IdCheck(env, EventIdSchema, id).Valid?
    requires i < |events| && events[i].id == id && forall j :: 0 <= j < i ==> events[j].id != id
    ensures var o := DeleteStep(env, events, id, now);
      && OnlySlot(events, o.events, i)
      && o.events[i] == events[i].(status := Deleted, deletedAt := Some(now), updatedAt := now)
      && o.reply == Ok(NoData, "Event deleted successfully")
  {
    assert FindEvent(events, id) == Some(i);
  }

  /** Publish refuses a record without a name or a date and changes nothing; otherwise it
      publishes the record whatever its status, deleted included. */
  lemma PublishGuard(env: Env, events: seq<Event>, id: string, now: string, i: nat)
    requires IdCheck(env, EventIdSchema, id).Valid?
    requires i < |events| && events[i].id == id && forall j :: 0 <= j < i ==> events[j].id != id
    ensures var o := PublishStep(env, events, id, now);
      && (events[i].name == "" || events[i].dateTime.None? ==>
            o == Outcome(events, Fail(400, "Event must have a name and date/time to be published")))
      && (events[i].name != "" && events[i].dateTime.Some? ==>
            && OnlySlot(events, o.events, i)
            && o.events[i] == events[i].(status := Published, publishedAt := Some(now), updatedAt := now)
            && o.reply == Ok(OneEvent(o.events[i]), "Event published successfully"))
  {
    assert FindEvent(events, id) == Some(i);
  }

  /** Only update changes a version: every other writing handler keeps every record's
      position and version. */
  lemma DeleteKeepsVersions(env: Env, events: seq<Event>, id: string, now: string)
    ensures VersionsKept(events, DeleteStep(env, events, id, now).events)
  {
  }

  lemma PublishKeepsVersions(env: Env, events: seq<Event>, id: string, now: string)
    ensures VersionsKept(events, PublishStep(env, events, id, now).events)
  {
  }

  lemma AttachKeepsVersions(env: Env, events: seq<Event>, catalog: seq<ModuleDef>, id: string, body: Json, now: string)
    ensures VersionsKept(events, AttachStep(env, events, catalog, id, body, now).events)
  {
    AttachKeepsRecords(env, events, catalog, id, body, now);
  }

  lemma DetachKeepsVersions(env: Env, events: seq<Event>, id: string, moduleId: string, now: string)
    ensures VersionsKept(events, DetachStep(env, events, id, moduleId, now).events)
  {
    DetachKeepsRecords(env, events, id, moduleId, now);
  }

  lemma PatchKeepsVersions(env: Env, events: seq<Event>, id: string, moduleId: string, body: Json, now: string)
    ensures VersionsKept(events, PatchStep(env, events, id, moduleId, body, now).events)
  {
    PatchKeepsRecords(env, events, id, moduleId, body, now);
  }

  /** Each record keeps its id, owner, name, version, status and deletion stamp: the
      module endpoints change only attachments and `updatedAt`. */
  predicate RecordsKept(events: seq<Event>, after: seq<Event>) {
    && |after| == |events|
    && forall j :: 0 <= j < |events| ==>
         && after[j].id == events[j].id && after[j].userId == events[j].userId
         && after[j].name == events[j].name && after[j].version == events[j].version
         && after[j].status == events[j].status && after[j].deletedAt == events[j].deletedAt
  }

  lemma AttachKeepsRecords(env: Env, events: seq<Event>, catalog: seq<ModuleDef>, id: string, body: Json, now: string)
    ensures RecordsKept(events, AttachStep(env, events, catalog, id, body, now).events)
  {
    var o := AttachStep(env, events, catalog, id, body, now);
    var v := Validate(env, ModuleConfigSchema, body);
    if v.Valid? && IdCheck(env, EventIdSchema, id).Valid? && FindEvent(events, id).Some? {
      var i := FindEvent(events, id).value;
      var req := DecodeAttach(ObjectOf(v.value));
      if FindActiveModule(catalog, req.moduleId).Some? {
        assert o.events == events[i := events[i].(modules := Attach(events[i].modules, req.moduleId, req.config, now), updatedAt := now)];
      }
    }
  }

  lemma DetachKeepsRecords(env: Env, events: seq<Event>, id: string, moduleId: string, now: string)
    ensures RecordsKept(events, DetachStep(env, events, id, moduleId, now).events)
  {
    var o := DetachStep(env, events, id, moduleId, now);
    if IdCheck(env, EventIdSchema, id).Valid? && IdCheck(env, ModuleIdSchema, moduleId).Valid? && FindEvent(events, id).Some? {
      var i := FindEvent(events, id).value;
      var at := FindAttachment(events[i].modules, moduleId);
      if at.Some? {
        assert o.events == events[i := events[i].(modules := Detach(events[i].modules, at.value), updatedAt := now)];
      }
    }
  }

  lemma PatchKeepsRecords(env: Env, events: seq<Event>, id: string, moduleId: string, body: Json, now: string)
    ensures RecordsKept(events, PatchStep(env, events, id, moduleId, body, now).events)
  {
    var o := PatchStep(env, events, id, moduleId, body, now);
    var v := Validate(env, ConfigPatchSchema, body);
    if && IdCheck(env, EventIdSchema, id).Valid? && IdCheck(env, ModuleIdSchema, moduleId).Valid?
       && v.Valid? && FindEvent(events, id).Some? {
      var i := FindEvent(events, id).value;
      var at := FindAttachment(events[i].modules, moduleId);
      if at.Some? {
        assert o.events == events[i := events[i].(modules := Patch(events[i].modules, at.value, ObjectOf(v.value), now), updatedAt := now)];
      }
    }
  }

  /** Records kept field by field keep the store invariant. */
  lemma RecordsKeptInvariant(events: seq<Event>, after: seq<Event>)
    requires StoreInvariant(events) && RecordsKept(events, after)
    ensures StoreInvariant(after)
  {
  }

  /** The listing holds nothing deleted and honours the status and user filters. */
  lemma ListFilters(events: seq<Event>, status: Option<string>, userId: Option<string>,
                    limit: Option<nat>, page: Option<nat>)
    requires limit.GetOr(20) >= 1 && page.GetOr(1) >= 1
    ensures var r := ListStep(events, status, userId, limit, page);
      && r.status == 200 && r.data.EventPage?
      && (forall k :: 0 <= k < |r.data.events| ==> r.data.events[k].status != Deleted)
      && (Truthy(status) ==> forall k :: 0 <= k < |r.data.events| ==> StatusName(r.data.events[k].status) == status.value)
      && (Truthy(userId) ==> forall k :: 0 <= k < |r.data.events| ==> r.data.events[k].userId == userId.value)
  {
    var kept := Listed(events, status, userId);
    var l, p := limit.GetOr(20), page.GetOr(1);
    ListedMeaning(events, status, userId);
    PageMeaning(kept, p, l);
    var r := ListStep(events, status, userId, limit, page);
    assert r.data.events == Page(kept, p, l);
    assert forall k :: 0 <= k < |r.data.events| ==> r.data.events[k] == kept[PageStart(p, l) + k];
  }

  /** The page: at most `limit` records, each the kept record at its offset; `total` the
      kept count, `totalPages` its ceiling quotient by `limit`, and the page non-empty
      exactly when its number is at most `totalPages`. */
  lemma ListPagination(events: seq<Event>, status: Option<string>, userId: Option<string>,
                       limit: Option<nat>, page: Option<nat>)
    requires limit.GetOr(20) >= 1 && page.GetOr(1) >= 1
    ensures var r := ListStep(events, status, userId, limit, page);
      var kept := Listed(events, status, userId);
      var l, p := limit.GetOr(20), page.GetOr(1);
      && r.data.EventPage?
      && |r.data.events| <= l
      && (forall k :: 0 <= k < |r.data.events| ==> r.data.events[k] == kept[PageStart(p, l) + k])
      && r.data.total == |kept| && r.data.page == p && r.data.limit == l
      && r.data.totalPages == CeilDiv(|kept|, l)
      && (|r.data.events| > 0 <==> p <= r.data.totalPages)
  {
    var kept := Listed(events, status, userId);
    var l, p := limit.GetOr(20), page.GetOr(1);
    var r := ListStep(events, status, userId, limit, page);
    assert r.data == EventPage(Page(kept, p, l), |kept|, p, l, CeilDiv(|kept|, l));
    PageMeaning(kept, p, l);
    PageWithinCount(kept, p, l);
  }

  /** The catalog reply counts what it returns. */
  lemma ModulesCount(catalog: seq<ModuleDef>, category: Option<string>, includeCode: Option<string>,
                     activeOnly: Option<string>)
    ensures var r := ModulesStep(catalog, category, includeCode, activeOnly);
      && r.status == 200 && r.data.Catalog?
      && r.data.count == |r.data.modules| == |ListedDefsAsWritten(catalog, category, activeOnly)|
      && (forall k :: 0 <= k < |r.data.modules| ==> ("code" in r.data.modules[k] <==> includeCode == Some("true")))
  {
    ListModulesAsWrittenMeaning(catalog, category, activeOnly, includeCode);
  }

  /** Attach refuses a module that is not in the catalog or is inactive, changing nothing. */
  lemma AttachRefusesInactive(env: Env, events: seq<Event>, catalog: seq<ModuleDef>, eventId: string, body: Json,
                              now: string, i: nat)
    requires Validate(env, ModuleConfigSchema, body).Valid? && IdCheck(env, EventIdSchema, eventId).Valid?
    requires i < |events| && events[i].id == eventId
    requires var moduleId := DecodeAttach(ObjectOf(Validate(env, ModuleConfigSchema, body).value)).moduleId;
      forall j :: 0 <= j < |catalog| ==> catalog[j].id != moduleId || !catalog[j].isActive
    ensures AttachStep(env, events, catalog, eventId, body, now) ==
      Outcome(events, Fail(404, "Module not found or inactive"))
  {
    assert FindEvent(events, eventId).Some?;
  }

  /** Attach on an accepted request: the first matching event's attachments become
      `Attach` of them, nothing else in the store changes, and attachment orders stay
      equal to positions if they were. */
  lemma AttachUpdatesEvent(env: Env, events: seq<Event>, catalog: seq<ModuleDef>, eventId: string, body: Json,
                           now: string, i: nat, d: nat)
    requires Validate(env, ModuleConfigSchema, body).Valid? && IdCheck(env, EventIdSchema, eventId).Valid?
    requires i < |events| && events[i].id == eventId && forall j :: 0 <= j < i ==> events[j].id != eventId
    requires var req := DecodeAttach(ObjectOf(Validate(env, ModuleConfigSchema, body).value));
      d < |catalog| && catalog[d].id == req.moduleId && catalog[d].isActive
    ensures var req := DecodeAttach(ObjectOf(Validate(env, ModuleConfigSchema, body).value));
      var o := AttachStep(env, events, catalog, eventId, body, now);
      && OnlySlot(events, o.events, i)
      && o.events[i] == events[i].(modules := Attach(events[i].modules, req.moduleId, req.config, now), updatedAt := now)
      && (WellOrdered(events[i].modules) ==> WellOrdered(o.events[i].modules))
      && o.reply == Ok(OneEvent(o.events[i]), "Module added to event successfully")
  {
    var req := DecodeAttach(ObjectOf(Validate(env, ModuleConfigSchema, body).value));
    assert FindEvent(events, eventId) == Some(i);
    assert FindActiveModule(catalog, req.moduleId).Some?;
    if WellOrdered(events[i].modules) {
      AttachPreservesOrder(events[i].modules, req.moduleId, req.config, now);
    }
  }

  /** Detach refuses a module id the event does not hold, changing nothing. */
  lemma DetachRefusesMissing(env: Env, events: seq<Event>, eventId: string, moduleId: string, now: string, i: nat)
    requires IdCheck(env, EventIdSchema, eventId).Valid? && IdCheck(env, ModuleIdSchema, moduleId).Valid?
    requires i < |events| && events[i].id == eventId && forall j :: 0 <= j < i ==> events[j].id != eventId
    requires forall k :: 0 <= k < |events[i].modules| ==> events[i].modules[k].id != moduleId
    ensures DetachStep(env, events, eventId, moduleId, now) == Outcome(events, Fail(404, ModuleNotFoundInEvent))
  {
    assert FindEvent(events, eventId) == Some(i);
  }

  /** Detach drops the first matching attachment: one fewer, survivors in order, every
      order equal to its position; no other record changes. */
  lemma DetachRemovesOne(env: Env, events: seq<Event>, eventId: string, moduleId: string, now: string, i: nat, k: nat)
    requires IdCheck(env, EventIdSchema, eventId).Valid? && IdCheck(env, ModuleIdSchema, moduleId).Valid?
    requires i < |events| && events[i].id == eventId && forall j :: 0 <= j < i ==> events[j].id != eventId
    requires k < |events[i].modules| && events[i].modules[k].id == moduleId
    requires forall j :: 0 <= j < k ==> events[i].modules[j].id != moduleId
    ensures var o := DetachStep(env, events, eventId, moduleId, now);
      var mods := events[i].modules;
      && OnlySlot(events, o.events, i)
      && |o.events[i].modules| == |mods| - 1
      && WellOrdered(o.events[i].modules)
      && Ids(o.events[i].modules) == Ids(mods)[..k] + Ids(mods)[k + 1..]
      && o.events[i].version == events[i].version && o.events[i].updatedAt == now
      && o.reply == Ok(OneEvent(o.events[i]), "Module removed from event successfully")
  {
    assert FindEvent(events, eventId) == Some(i);
    assert FindAttachment(events[i].modules, moduleId) == Some(k);
    DetachMeaning(events[i].modules, k);
    DetachIds(events[i].modules, k);
  }

  /** The config patch changes only the first matching attachment, and there only its
      config (old keys kept, patched keys replaced) and its `updatedAt`. */
  lemma PatchTouchesOne(env: Env, events: seq<Event>, eventId: string, moduleId: string, body: Json, now: string,
                        i: nat, k: nat)
    requires IdCheck(env, EventIdSchema, eventId).Valid? && IdCheck(env, ModuleIdSchema, moduleId).Valid?
    requires body.JObj?
    requires i < |events| && events[i].id == eventId && forall j :: 0 <= j < i ==> events[j].id != eventId
    requires k < |events[i].modules| && events[i].modules[k].id == moduleId
    requires forall j :: 0 <= j < k ==> events[i].modules[j].id != moduleId
    ensures var o := PatchStep(env, events, eventId, moduleId, body, now);
      var mods := events[i].modules;
      && OnlySlot(events, o.events, i)
      && |o.events[i].modules| == |mods|
      && (forall j :: 0 <= j < |mods| && j != k ==> o.events[i].modules[j] == mods[j])
      && (forall j :: 0 <= j < |mods| ==> o.events[i].modules[j].order == mods[j].order)
      && o.events[i].modules[k] == mods[k].(config := Some(Merge(ConfigOf(mods[k]), body.fields)), updatedAt := Some(now))
      && o.reply == Ok(OneEvent(o.events[i]), "Module config updated successfully")
  {
    assert FindEvent(events, eventId) == Some(i);
    assert FindAttachment(events[i].modules, moduleId) == Some(k);
    assert Validate(env, ConfigPatchSchema, body) == Valid(body);
    var e := events[i].(modules := Patch(events[i].modules, k, body.fields, now), updatedAt := now);
    assert PatchStep(env, events, eventId, moduleId, body, now) ==
      Outcome(events[i := e], Ok(OneEvent(e), "Module config updated successfully"));
    PatchLocal(events[i].modules, k, body.fields, now);
  }

  /** The preview of a found event never fails: one entry per attachment, in order. */
  lemma PreviewOnePerAttachment(env: Env, events: seq<Event>, catalog: seq<ModuleDef>, eventId: string, i: nat)
    requires IdCheck(env, EventIdSchema, eventId).Valid?
    requires i < |events| && events[i].id == eventId && forall j :: 0 <= j < i ==> events[j].id != eventId
    ensures var r := PreviewStep(env, events, catalog, eventId);
      && r.status == 200 && r.data == PreviewPage(events[i], r.data.entries)
      && |r.data.entries| == |events[i].modules|
      && forall k :: 0 <= k < |r.data.entries| ==> r.data.entries[k] == PreviewOf(events[i].modules[k], catalog)
  {
    assert FindEvent(events, eventId) == Some(i);
  }

  // ---------------------------------------------------------------------------
  // What every handler keeps true of the store

  /** Every record has a version of at least 1, a name of 3 to 100 characters, and a
      deletion stamp if it is deleted. */
  predicate StoreInvariant(events: seq<Event>) {
    forall j :: 0 <= j < |events| ==>
      && events[j].version >= 1
      && 3 <= |events[j].name| <= 100
      && (events[j].status == Deleted ==> events[j].deletedAt.Some?)
  }

  /** A validated update carries a name of 3 to 100 characters if any, and never the
      `deleted` status. */
  lemma UpdateRequestBounds(env: Env, body: Json)
    requires Validate(env, UpdateEventSchema, body).Valid?
    ensures var u := DecodeUpdate(ObjectOf(Validate(env, UpdateEventSchema, body).value));
      && (u.name.Some? ==> 3 <= |u.name.value| <= 100)
      && u.status != Some(Deleted)
  {
    UpdateGuarantees(env, body);
  }

  lemma CreateKeepsInvariant(env: Env, events: seq<Event>, body: Json, user: Option<string>, uuid: string, now: string)
    requires StoreInvariant(events)
    ensures StoreInvariant(CreateStep(env, events, body, user, uuid, now).events)
  {
    if Validate(env, EventSchema, body).Valid? {
      NewEventFromValid(env, body, uuid, user, now);
    }
  }

  lemma UpdateKeepsInvariant(env: Env, events: seq<Event>, id: string, body: Json, now: string)
    requires StoreInvariant(events)
    ensures StoreInvariant(UpdateStep(env, events, id, body, now).events)
  {
    if IdCheck(env, EventIdSchema, id).Valid? && Validate(env, UpdateEventSchema, body).Valid? {
      UpdateRequestBounds(env, body);
    }
  }

  lemma DeleteKeepsInvariant(env: Env, events: seq<Event>, id: string, now: string)
    requires StoreInvariant(events)
    ensures StoreInvariant(DeleteStep(env, events, id, now).events)
  {
  }

  lemma PublishKeepsInvariant(env: Env, events: seq<Event>, id: string, now: string)
    requires StoreInvariant(events)
    ensures StoreInvariant(PublishStep(env, events, id, now).events)
  {
  }

  lemma AttachKeepsInvariant(env: Env, events: seq<Event>, catalog: seq<ModuleDef>, id: string, body: Json, now: string)
    requires StoreInvariant(events)
    ensures StoreInvariant(AttachStep(env, events, catalog, id, body, now).events)
  {
    AttachKeepsRecords(env, events, catalog, id, body, now);
    RecordsKeptInvariant(events, AttachStep(env, events, catalog, id, body, now).events);
  }

  lemma DetachKeepsInvariant(env: Env, events: seq<Event>, id: string, moduleId: string, now: string)
    requires StoreInvariant(events)
    ensures StoreInvariant(DetachStep(env, events, id, moduleId, now).events)
  {
    DetachKeepsRecords(env, events, id, moduleId, now);
    RecordsKeptInvariant(events, DetachStep(env, events, id, moduleId, now).events);
  }

  lemma PatchKeepsInvariant(env: Env, events: seq<Event>, id: string, moduleId: string, body: Json, now: string)
    requires StoreInvariant(events)
    ensures StoreInvariant(PatchStep(env, events, id, moduleId, body, now).events)
  {
    PatchKeepsRecords(env, events, id, moduleId, body, now);
    RecordsKeptInvariant(events, PatchStep(env, events, id, moduleId, body, now).events);
  }

  /** In a store the handlers built, every name is non-empty, so the publish guard's name
      test never fires: publish refuses exactly the records without a date. */
  lemma PublishRefusesOnlyUndated(env: Env, events: seq<Event>, id: string, now: string, i: nat)
    requires StoreInvariant(events) && IdCheck(env, EventIdSchema, id).Valid?
    requires i < |events| && events[i].id == id && forall j :: 0 <= j < i ==> events[j].id != id
    ensures PublishStep(env, events, id, now).reply.status == 400 <==> events[i].dateTime.None?
  {
    PublishGuard(env, events, id, now, i);
  }
}
