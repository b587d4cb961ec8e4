/** The records the event API keeps: events, the modules attached to them, and the
    catalog of module definitions. */
module Model {
  import opened Base
  import opened JsonValue

  /** An event's lifecycle status. `Deleted` is only ever set by a soft delete. */
  datatype Status = Draft | Published | Cancelled | Completed | Deleted

  function StatusName(s: Status): string {
    match s
    case Draft => "draft"
    case Published => "published"
    case Cancelled => "cancelled"
    case Completed => "completed"
    case Deleted => "deleted"
  }

  /** The status a stored name stands for, if any. */
  function ParseStatus(name: string): (r: Option<Status>)
    ensures r.Some? ==> StatusName(r.value) == name
  {
    if name == "draft" then Some(Draft)
    else if name == "published" then Some(Published)
    else if name == "cancelled" then Some(Cancelled)
    else if name == "completed" then Some(Completed)
    else if name == "deleted" then Some(Deleted)
    else None
  }

  lemma StatusNameRoundTrip(s: Status)
    ensures ParseStatus(StatusName(s)) == Some(s)
  {
  }

  datatype Privacy = Public | Private | InviteOnly

  function PrivacyName(p: Privacy): string {
    match p
    case Public => "public"
    case Private => "private"
    case InviteOnly => "invite-only"
  }

  function ParsePrivacy(name: string): (r: Option<Privacy>)
    ensures r.Some? ==> PrivacyName(r.value) == name
  {
    if name == "public" then Some(Public)
    else if name == "private" then Some(Private)
    else if name == "invite-only" then Some(InviteOnly)
    else None
  }

  lemma PrivacyNameRoundTrip(p: Privacy)
    ensures ParsePrivacy(PrivacyName(p)) == Some(p)
  {
  }

  /** A module's configuration: any JSON object. */
  type Config = map<string, Json>

  datatype Link = Link(title: string, url: string)

  /** A module entry of a create body: an id and perhaps a configuration. */
  datatype ModuleEntry = ModuleEntry(id: string, config: Option<Config>)

  /** A module attached to an event. Entries that came with the create body carry no
      `order` and no timestamps; the attach handler supplies them. */
  datatype Attachment = Attachment(
    id: string,
    config: Option<Config>,
    order: Option<nat>,
    addedAt: Option<string>,
    updatedAt: Option<string>)

  /** The attachment a create-body entry becomes. */
  function FromEntry(e: ModuleEntry): Attachment {
    Attachment(e.id, e.config, None, None, None)
  }

  /** A stored event record. `dateTime` is the millisecond count of the validated date. */
  datatype Event = Event(
    id: string,
    userId: string,
    name: string,
    phoneNumber: string,
    dateTime: Option<int>,
    location: Option<string>,
    costPerPerson: Option<real>,
    description: Option<string>,
    capacity: Option<int>,
    modules: seq<Attachment>,
    photos: seq<string>,
    links: seq<Link>,
    status: Status,
    privacy: Privacy,
    tags: seq<string>,
    category: Option<string>,
    timezone: Option<string>,
    views: nat,
    attendees: seq<Json>,
    createdAt: string,
    updatedAt: string,
    version: int,
    publishedAt: Option<string>,
    deletedAt: Option<string>)

  /** A catalog module definition. */
  datatype ModuleDef = ModuleDef(
    id: string,
    name: string,
    description: string,
    code: string,
    configSchema: Json,
    category: string,
    icon: string,
    version: string,
    isActive: bool,
    createdAt: string,
    updatedAt: string)

  /** The time stamp every seeded definition carries as `createdAt` and `updatedAt`. */
  const SeedStamp := "2024-01-01T00:00:00Z"

  /** The catalog the store is seeded with: four active modules (their code templates
      and config schemas are opaque payloads and are left empty here). */
  const SeedCatalog: seq<ModuleDef> := [
    ModuleDef("capacity", "Capacity", "Set maximum number of participants", "", JObj(map[]), "settings", "\U{1F465}", "1.0", true, SeedStamp, SeedStamp),
    ModuleDef("photo-gallery", "Photo Gallery", "Add photos to your event", "", JObj(map[]), "media", "\U{1F5BC}\U{FE0F}", "1.0", true, SeedStamp, SeedStamp),
    ModuleDef("links", "Links", "Add useful links to your event", "", JObj(map[]), "resources", "\U{1F517}", "1.0", true, SeedStamp, SeedStamp),
    ModuleDef("custom-form", "Custom Form", "Add custom form fields for attendees", "", JObj(map[]), "forms", "\U{1F4CB}", "1.0", true, SeedStamp, SeedStamp)
  ]
}
