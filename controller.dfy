/** The in-memory store and its request handlers. The store holds the event list, which
    the handlers change, and the read-only module catalog. Each handler checks its input
    in the order the controller does, then reads or rewrites the matching record;
    every method is proved to do exactly what its function in `Handlers` describes, and
    to keep the store invariant. */
module Controller {
  import opened Base
  import opened JsonValue
  import opened Validation
  import opened Schemas
  import opened Model
  import opened Requests
  import opened Composer
  import opened Events
  import opened Handlers

  /** `modules.splice(j, 1)` followed by the `forEach` that sets every remaining
      attachment's order to its position. */
  method SpliceAndReindex(modules: seq<Attachment>, j: nat) returns (mods: seq<Attachment>)
    requires j < |modules|
    ensures mods == Detach(modules, j)
  {
    ghost var spliced := modules[..j] + modules[j + 1..];
    mods := modules[..j] + modules[j + 1..];
    var index := 0;
    while index < |mods|
      invariant 0 <= index <= |mods| == |spliced|
      invariant forall k :: 0 <= k < index ==> mods[k] == spliced[k].(order := Some(k))
      invariant forall k :: index <= k < |mods| ==> mods[k] == spliced[k]
    {
      mods := mods[index := mods[index].(order := Some(index))];
      index := index + 1;
    }
  }

  class EventStore {
    var events: seq<Event>
    const catalog: seq<ModuleDef>

    predicate Valid()
      reads this
    {
      StoreInvariant(events)
    }

    /** An empty event list over the seeded catalog. */
    constructor ()
      ensures events == [] && catalog == SeedCatalog
      ensures Valid()
    {
      events := [];
      catalog := SeedCatalog;
    }

    /** POST /events */
    method CreateEvent(env: Env, body: Json, user: Option<string>, uuid: string, now: string) returns (reply: Reply)
      requires Valid()
      modifies this
      ensures Outcome(events, reply) == CreateStep(env, old(events), body, user, uuid, now)
      ensures Valid()
    {
      CreateKeepsInvariant(env, events, body, user, uuid, now);
      var v := Validate(env, EventSchema, body);
      if v.Invalid? {
        return Rejected(v.errors);
      }
      var record := NewEvent(DecodeCreate(ObjectOf(v.value)), uuid, user, now);
      events := events + [record];
      reply := Reply(201, true, Plain("Event created successfully"), OneEvent(record));
    }

    /** GET /events/:id */
    method GetEvent(env: Env, id: string) returns (reply: Reply)
      ensures reply == GetStep(env, events, id)
    {
      var check := IdCheck(env, EventIdSchema, id);
      if check.Invalid? {
        return Rejected(check.errors);
      }
      var found := FindEvent(events, id);
      if found.None? {
        return Fail(404, EventNotFound);
      }
      reply := Ok(OneEvent(events[found.value]), "Success");
    }

    /** PUT /events/:id */
    method UpdateEvent(env: Env, id: string, body: Json, now: string) returns (reply: Reply)
      requires Valid()
      modifies this
      ensures Outcome(events, reply) == UpdateStep(env, old(events), id, body, now)
      ensures Valid()
    {
      UpdateKeepsInvariant(env, events, id, body, now);
      var check := IdCheck(env, EventIdSchema, id);
      if check.Invalid? {
        return Rejected(check.errors);
      }
      var v := Validate(env, UpdateEventSchema, body);
      if v.Invalid? {
        return Rejected(v.errors);
      }
      var found := FindEvent(events, id);
      if found.None? {
        return Fail(404, EventNotFound);
      }
      var i := found.value;
      var updated := Overlay(events[i], DecodeUpdate(ObjectOf(v.value)), now);
      events := events[i := updated];
      reply := Ok(OneEvent(updated), "Event updated successfully");
    }

    /** DELETE /events/:id: a soft delete of the record in its slot. */
    method DeleteEvent(env: Env, id: string, now: string) returns (reply: Reply)
      requires Valid()
      modifies this
      ensures Outcome(events, reply) == DeleteStep(env, old(events), id, now)
      ensures Valid()
    {
      DeleteKeepsInvariant(env, events, id, now);
      var check := IdCheck(env, EventIdSchema, id);
      if check.Invalid? {
        return Rejected(check.errors);
      }
      var found := FindEvent(events, id);
      if found.None? {
        return Fail(404, EventNotFound);
      }
      var i := found.value;
      var record := events[i];
      record := record.(status := Deleted);
      record := record.(deletedAt := Some(now));
      record := record.(updatedAt := now);
      events := events[i := record];
      reply := Ok(NoData, "Event deleted successfully");
    }

    /** GET /events */
    method GetAllEvents(status: Option<string>, userId: Option<string>, limit: Option<nat>, page: Option<nat>)
      returns (reply: Reply)
      requires limit.GetOr(20) >= 1 && page.GetOr(1) >= 1
      ensures reply == ListStep(events, status, userId, limit, page)
    {
      var l := limit.GetOr(20);
      var p := page.GetOr(1);
      var kept := events;
      if Truthy(status) {
        kept := Filter(kept, StatusIs(status.value));
      }
      if Truthy(userId) {
        kept := Filter(kept, OwnedBy(userId.value));
      }
      kept := Filter(kept, NotDeleted());
      reply := Ok(EventPage(Page(kept, p, l), |kept|, p, l, CeilDiv(|kept|, l)), "Success");
    }

    /** GET /modules */
    method GetModules(category: Option<string>, includeCode: Option<string>, activeOnly: Option<string>)
      returns (reply: Reply)
      ensures reply == ModulesStep(catalog, category, includeCode, activeOnly)
    {
      var defs := ListedDefsAsWritten(catalog, category, activeOnly);
      var views := DefViews(defs, includeCode);
      reply := Ok(Catalog(views, |views|), "Success");
    }

    /** POST /events/:eventId/modules: merge into an attached module, or append a new one. */
    method AddModuleToEvent(env: Env, eventId: string, body: Json, now: string) returns (reply: Reply)
      requires Valid()
      modifies this
      ensures Outcome(events, reply) == AttachStep(env, old(events), catalog, eventId, body, now)
      ensures Valid()
    {
      AttachKeepsInvariant(env, events, catalog, eventId, body, now);
      var v := Validate(env, ModuleConfigSchema, body);
      if v.Invalid? {
        return Rejected(v.errors);
      }
      var request := DecodeAttach(ObjectOf(v.value));
      var check := IdCheck(env, EventIdSchema, eventId);
      if check.Invalid? {
        return Rejected(check.errors);
      }
      var found := FindEvent(events, eventId);
      if found.None? {
        return Fail(404, EventNotFound);
      }
      if FindActiveModule(catalog, request.moduleId).None? {
        return Fail(404, "Module not found or inactive");
      }
      var i := found.value;
      var mods := events[i].modules;
      var existing := FindAttachment(mods, request.moduleId);
      if existing.Some? {
        var j := existing.value;
        mods := mods[j := mods[j].(config := Some(Merge(ConfigOf(mods[j]), request.config.GetOr(map[]))))];
      } else {
        mods := mods + [Attachment(request.moduleId, Some(request.config.GetOr(map[])), Some(|mods|), Some(now), None)];
      }
      var record := events[i].(modules := mods, updatedAt := now);
      events := events[i := record];
      reply := Ok(OneEvent(record), "Module added to event successfully");
    }

    /** DELETE /events/:eventId/modules/:moduleId: splice the attachment out, then give
        every remaining attachment its position as order. */
    method RemoveModuleFromEvent(env: Env, eventId: string, moduleId: string, now: string) returns (reply: Reply)
      requires Valid()
      modifies this
      ensures Outcome(events, reply) == DetachStep(env, old(events), eventId, moduleId, now)
      ensures Valid()
    {
      DetachKeepsInvariant(env, events, eventId, moduleId, now);
      var check := IdCheck(env, EventIdSchema, eventId);
      if check.Invalid? {
        return Rejected(check.errors);
      }
      var moduleCheck := IdCheck(env, ModuleIdSchema, moduleId);
      if moduleCheck.Invalid? {
        return Rejected(moduleCheck.errors);
      }
      var found := FindEvent(events, eventId);
      if found.None? {
        return Fail(404, EventNotFound);
      }
      var i := found.value;
      var at := FindAttachment(events[i].modules, moduleId);
      if at.None? {
        return Fail(404, ModuleNotFoundInEvent);
      }
      var mods := SpliceAndReindex(events[i].modules, at.value);
      var record := events[i].(modules := mods, updatedAt := now);
      events := events[i := record];
      reply := Ok(OneEvent(record), "Module removed from event successfully");
    }

    /** PUT /events/:eventId/modules/:moduleId: merge the body into the attachment's config. */
    method UpdateModuleConfig(env: Env, eventId: string, moduleId: string, body: Json, now: string)
      returns (reply: Reply)
      requires Valid()
      modifies this
      ensures Outcome(events, reply) == PatchStep(env, old(events), eventId, moduleId, body, now)
      ensures Valid()
    {
      PatchKeepsInvariant(env, events, eventId, moduleId, body, now);
      var check := IdCheck(env, EventIdSchema, eventId);
      if check.Invalid? {
        return Rejected(check.errors);
      }
      var moduleCheck := IdCheck(env, ModuleIdSchema, moduleId);
      if moduleCheck.Invalid? {
        return Rejected(moduleCheck.errors);
      }
      var v := Validate(env, ConfigPatchSchema, body);
      if v.Invalid? {
        return Rejected(v.errors);
      }
      var found := FindEvent(events, eventId);
      if found.None? {
        return Fail(404, EventNotFound);
      }
      var i := found.value;
      var at := FindAttachment(events[i].modules, moduleId);
      if at.None? {
        return Fail(404, ModuleNotFoundInEvent);
      }
      var j := at.value;
      var attachment := events[i].modules[j];
      attachment := attachment.(config := Some(Merge(ConfigOf(attachment), ObjectOf(v.value))));
      attachment := attachment.(updatedAt := Some(now));
      var record := events[i].(modules := events[i].modules[j := attachment]);
      record := record.(updatedAt := now);
      events := events[i := record];
      reply := Ok(OneEvent(record), "Module config updated successfully");
    }

    /** GET /events/:eventId/preview */
    method GetEventPreview(env: Env, eventId: string) returns (reply: Reply)
      ensures reply == PreviewStep(env, events, catalog, eventId)
    {
      var check := IdCheck(env, EventIdSchema, eventId);
      if check.Invalid? {
        return Rejected(check.errors);
      }
      var found := FindEvent(events, eventId);
      if found.None? {
        return Fail(404, EventNotFound);
      }
      var record := events[found.value];
      reply := Ok(PreviewPage(record, Preview(record.modules, catalog)), "Success");
    }

    /** POST /events/:id/publish */
    method PublishEvent(env: Env, eventId: string, now: string) returns (reply: Reply)
      requires Valid()
      modifies this
      ensures Outcome(events, reply) == PublishStep(env, old(events), eventId, now)
      ensures Valid()
    {
      PublishKeepsInvariant(env, events, eventId, now);
      var check := IdCheck(env, EventIdSchema, eventId);
      if check.Invalid? {
        return Rejected(check.errors);
      }
      var found := FindEvent(events, eventId);
      if found.None? {
        return Fail(404, EventNotFound);
      }
      var i := found.value;
      if events[i].name == "" || events[i].dateTime.None? {
        return Fail(400, "Event must have a name and date/time to be published");
      }
      var record := events[i];
      record := record.(status := Published);
      record := record.(publishedAt := Some(now));
      record := record.(updatedAt := now);
      events := events[i := record];
      reply := Ok(OneEvent(record), "Event published successfully");
    }
  }
}
