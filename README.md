# Event composition API — a Dafny model

This project models the request handlers of an HTTP API for events built from pluggable
modules (capacity limits, photo galleries, links, custom forms), together with the Joi
schemas that check every request body and route parameter.

- Events are created, read, updated, soft-deleted, published and listed with filters and
  offset pagination.
- A module from the read-only catalog can be attached to an event with its own config.
  The config can be merged into later. Detaching a module renumbers the others.
- The preview pairs each attachment with its catalog definition.

## Layout

| file | contents |
|---|---|
| `base.dfy` | `Option`, first-match search, order-preserving filter |
| `json.dfy` | JSON values: request bodies, configs, records as objects |
| `phone.dfy` | the phone-number pattern as a matcher, with a reference definition of its language |
| `validation.dfy` | the schema checker `validateSchema` runs, with `abortEarly: false` and `stripUnknown: true`. It collects every error, strips undeclared keys, fills defaults and converts numbers and dates |
| `schemas.dfy` | the schemas of the validator file as data, and what passing each one guarantees |
| `model.dfy` | status, privacy, attachment, event record and catalog definition; the seeded catalog |
| `requests.dfy` | typed views of validated bodies, with round trips back to the JSON |
| `composer.dfy` | the attachment sequence: attach-or-merge, detach with reindexing, config patch, preview |
| `events.dfy` | building and overlaying records, the listing filters and pagination, the catalog listing, and records as the JavaScript objects the handlers build |
| `handlers.dfy` | each handler as a function from the store to the store it leaves and the reply, plus the handlers' promises and the store invariant they keep |
| `controller.dfy` | `EventStore`, a class holding the event list, with one method per handler that carries out its step in place |

The handlers are stated twice:

- Each handler is a pure step function in `Handlers`. It returns the new event list and
  the reply.
- Each method of `Controller.EventStore` updates the `events` field step by step.
  - It is proved to leave exactly the state and reply of its step function.
  - It is proved to keep `Valid()`: every record has a version of at least 1, a name of 3 to
    100 characters, and a deletion stamp if it is deleted.

A reply is the HTTP status plus the envelope fields `success`, `message` and `data`. A
thrown validation error is answered with 400 and carries the `{ field, message }` list,
recorded as error codes.

## Model

| member | source | states |
|---|---|---|
| `Phone.MatchesPhoneCorrect` | src/validators/event.validator.js:12 | the phone matcher accepts a string exactly when it is in the language of the pattern: optional `+`, optional `(`, 1 to 4 digits, optional `)`, then only `-`, white space, `.`, `/` or digits |
| `Phone.PhoneSound` | src/validators/event.validator.js:12 | every string the matcher accepts is in the pattern's language |
| `Phone.PhoneComplete` | src/validators/event.validator.js:82 | every string in the pattern's language is accepted (the update schema uses the same pattern) |
| `Validation.ObjectErrorsComplete` | src/utils/functions.js:3-5 | with abortEarly off, an object's error list holds every error of every declared key and nothing else, and it is empty exactly when each key passes on its own |
| `Validation.ArrayErrorsComplete` | src/utils/functions.js:3-5 | an array's error list is empty exactly when every item passes on its own |
| `Validation.ObjectValueKeys` | src/utils/functions.js:3-6 | with stripUnknown on, the normalised object holds only declared keys, each exactly when that key yields a value |
| `Validation.KeyOutcome` | src/utils/functions.js:3-6 | a supplied key becomes its checked value; an absent key gets its default or stays absent |
| `Validation.NoDefaultsNoNewKeys` | src/utils/functions.js:3-6 | without defaults, validation never adds a key: every output key is declared and was supplied |
| `Validation.KeyErrorReported` | src/utils/functions.js:8-13 | an error raised by one declared key is in the object's reported list |
| `Validation.CheckStringMeaning` | src/validators/event.validator.js:5 | a string schema accepts exactly an allowed value, or (without an allow-list) a non-empty string meeting every rule. It never changes the value and reports errors under the value's own path |
| `Validation.CheckStringReports` | src/validators/event.validator.js:57-58 | a string schema reports `any.only` for a value off its allow-list, `string.base` for a non-string, `string.empty` for `""`, and one error for each rule a string breaks |
| `Validation.CheckNumberMeaning` | src/validators/event.validator.js:33 | a number schema accepts exactly a value that reads as a number meeting every rule, and normalises it to that number |
| `Validation.CheckNumberReports` | src/validators/event.validator.js:26 | a number schema reports `number.base` alone for a non-number, and otherwise one error for each rule the number breaks |
| `Validation.CheckDateMeaning` | src/validators/event.validator.js:19 | `date().greater('now')` accepts exactly a value that reads as a date within the range of a JavaScript `Date` (at most 8.64e15 ms from the epoch) and later than now, and normalises it to the whole millisecond count. A timestamp beyond that range is refused with `date.base` |
| `Validation.DateBeyondRangeRefused` | src/validators/event.validator.js:19 | the timestamp 10^16 ms is refused with `date.base` whatever the current time |
| `Validation.CheckSatisfies` | src/utils/functions.js:2-17 | a value checked without errors satisfies the schema |
| `Validation.CheckFixed` | src/utils/functions.js:2-17 | checking a value that already satisfies the schema returns it unchanged, without errors |
| `Validation.ValidateMeaning` | src/utils/functions.js:2-17 | a validated value satisfies its schema, and a satisfying input is returned unchanged |
| `Validation.ValidateIdempotent` | src/utils/functions.js:2-17 | validating a validated value again gives the same result |
| `Schemas.EventSchemaWellFormed` | src/validators/event.validator.js:4-68 | the create schema has distinct keys, and each default satisfies its own rule |
| `Schemas.UpdateSchemaWellFormed` | src/validators/event.validator.js:80-90 | the update schema has distinct keys and no defaults |
| `Schemas.CreateGuarantees` | src/validators/event.validator.js:4-68 | an accepted create body has only declared keys. Its name has 3 to 100 characters and its phone number matches the pattern. Its status is one of the four (never `deleted`), its privacy one of the three, and location, description, cost, capacity and date are within bounds |
| `Schemas.CreateDefaults` | src/validators/event.validator.js:57-61 | a create body without status or privacy gets `draft` and `public`; a supplied value is kept |
| `Schemas.UpdateKeysOnly` | src/validators/event.validator.js:80-90 | an accepted update body holds only keys among the nine declared, each one the body supplied, so an omitted key is never reset |
| `Schemas.UpdateProtectsKeys` | src/validators/event.validator.js:80-90 | an accepted update body can never carry `id`, `userId`, `createdAt`, `version`, `modules`, `photos`, `links` or `tags` |
| `Schemas.UpdateGuarantees` | src/validators/event.validator.js:81-89 | every key an accepted update body carries meets the create schema's bound for it |
| `Schemas.NameLengthReported` | src/validators/event.validator.js:5 | a name shorter than 3 or longer than 100 characters is reported under `name` as `string.min` or `string.max`, by both schemas |
| `Schemas.RequiredReported` | src/validators/event.validator.js:5-13 | a create body without `name` or `phoneNumber` is reported under that key as `any.required` |
| `Schemas.EmptyPhoneReported` | src/validators/event.validator.js:12-15 | an empty phone number is reported as `string.empty` |
| `Schemas.CapacityViolations` | src/validators/event.validator.js:33 | no capacity rule is broken exactly when the number is whole and within 1 to 10000 |
| `Schemas.CapacityReported` | src/validators/event.validator.js:33 | each capacity rule a number breaks is reported under `capacity`, by both schemas |
| `Schemas.StatusReported` | src/validators/event.validator.js:57 | a status outside the four, `deleted` included, is refused as `any.only` by both schemas |
| `Schemas.ModuleConfigGuarantees` | src/validators/event.validator.js:92-95 | an accepted attach body holds a non-empty string `moduleId`, a `config` object if supplied, and nothing else |
| `Schemas.IdCheckAsWrittenRefusesAll` | src/controllers/event.controller.js:59 | the id check as the handlers write it refuses every id, a well-formed UUID included (see Findings) |
| `Schemas.EventIdMeaning` | src/validators/event.validator.js:97 | the event id check on the id string accepts exactly a non-empty UUID, and otherwise reports `string.empty` or `string.guid` |
| `Schemas.ModuleIdMeaning` | src/validators/event.validator.js:98 | the module id check accepts exactly a non-empty string |
| `Model.ParseStatus` | src/validators/event.validator.js:57 | a parsed status name is the name of the status it yields |
| `Model.StatusNameRoundTrip` | src/controllers/event.controller.js:131 | every status, `deleted` included, is recovered from its stored name |
| `Model.PrivacyNameRoundTrip` | src/validators/event.validator.js:60 | every privacy setting is recovered from its name |
| `Requests.CreateShapeOfValid` | src/controllers/event.controller.js:23 | every accepted create body has the shape the typed decoder reads |
| `Requests.CreateRoundTrip` | src/controllers/event.controller.js:28 | encoding the decoded create body gives back exactly the validated object, so the typed record loses nothing of it |
| `Requests.UpdateShapeOfValid` | src/controllers/event.controller.js:83 | every accepted update body has the shape the typed decoder reads |
| `Requests.UpdateRoundTrip` | src/controllers/event.controller.js:98 | encoding the decoded update body gives back exactly the validated object |
| `Requests.AttachShapeOfValid` | src/controllers/event.controller.js:236 | an accepted attach body decodes to a non-empty module id and an optional config |
| `Requests.AttachRoundTrip` | src/controllers/event.controller.js:236 | encoding the decoded attach body gives back exactly the validated object |
| `Requests.ConfigPatchMeaning` | src/controllers/event.controller.js:332 | the config-patch schema accepts any object unchanged and refuses a non-object with `object.base` |
| `Requests.EntryRoundTrip` | src/validators/event.validator.js:39-44 | a `modules` entry of the create body survives decoding and re-encoding |
| `Requests.LinkRoundTrip` | src/validators/event.validator.js:50-55 | a `links` entry survives decoding and re-encoding |
| `Composer.FindAttachment` | src/controllers/event.controller.js:254 | the result is the position of the first attachment with the id, or none exactly when no attachment has it |
| `Composer.Merge` | src/controllers/event.controller.js:258-261 | the merged config has the keys of both; a patch value wins, and a base value is kept where the patch has none |
| `Composer.MergeLaws` | src/controllers/event.controller.js:347-350 | merging `{}` changes nothing, and merging the same patch twice equals merging it once |
| `Composer.AttachNew` | src/controllers/event.controller.js:262-269 | a module not yet attached is appended. Earlier attachments are unchanged; the new one has order equal to the old length, config defaulting to `{}`, and the time added |
| `Composer.AttachExisting` | src/controllers/event.controller.js:254-261 | for an attached module, only its first attachment changes, and only its config: the merge of the old config and the new one |
| `Composer.AttachPreservesOrder` | src/controllers/event.controller.js:264-269 | attaching keeps every order equal to its position |
| `Composer.AttachIds` | src/controllers/event.controller.js:254-269 | attaching adds the module id only when it was not already attached, so no id is duplicated |
| `Composer.RenumberedWellOrdered` | src/controllers/event.controller.js:308-310 | after the reindex every order is its position, and the ids are unchanged |
| `Composer.RenumberedFixed` | src/controllers/event.controller.js:308-310 | reindexing a sequence whose orders are already positions changes nothing |
| `Composer.DetachMeaning` | src/controllers/event.controller.js:305-310 | detaching removes exactly one attachment, keeps the others in their relative order, and makes every order equal to its position |
| `Composer.DetachIds` | src/controllers/event.controller.js:305 | the remaining ids are the old ids with the detached position cut out |
| `Composer.PatchLocal` | src/controllers/event.controller.js:347-352 | a config patch changes only the one attachment. There an old key survives unless patched, a patched key takes the patch value, and `addedAt`, ids and orders stay |
| `Composer.PatchPreservesOrder` | src/controllers/event.controller.js:347-352 | a config patch keeps every order equal to its position |
| `Composer.Preview` | src/controllers/event.controller.js:380-389 | one preview entry per attachment, in attachment order |
| `Composer.PreviewMissing` | src/controllers/event.controller.js:385-386 | an attachment without a catalog definition previews with empty code, under its own id |
| `Composer.PreviewFound` | src/controllers/event.controller.js:382-386 | an attachment with a definition previews with the first match's code, and its name unless that is empty; an inactive definition counts too |
| `Composer.PreviewModules` | src/controllers/event.controller.js:384 | each preview entry carries its attachment unchanged, and its name is empty only when the attachment id is |
| `Events.FindEvent` | src/controllers/event.controller.js:85 | the result is the position of the first record with the id, or none exactly when no record has it |
| `Events.UserOf` | src/controllers/event.controller.js:27 | the owner is the authenticated user's id when truthy, else `anonymous`; never empty |
| `Events.NewEventMeaning` | src/controllers/event.controller.js:25-38 | a new record has the given id and version 1, no views, attendees, publication or deletion, and both timestamps at creation. It carries the request's fields, and gets empty lists where the request had none |
| `Events.NewEventFromValid` | src/controllers/event.controller.js:23-38 | a record built from an accepted body is not deleted and has a name of 3 to 100 characters, so it can be published exactly when it has a date |
| `Events.NewEventIsLiteral` | src/controllers/event.controller.js:25-38 | as a JavaScript object, the new record is exactly the handler's literal: id and owner, then the validated body, then the list defaults, counters, stamps and version 1 |
| `Events.OverlayKeeps` | src/controllers/event.controller.js:96-101 | an update keeps identity, owner, creation time, attachments, lists, counters and stamps, and raises the version by exactly one |
| `Events.OverlayIsSpread` | src/controllers/event.controller.js:96-101 | as a JavaScript object, the updated record is exactly the stored record spread under the validated body, with the new `updatedAt` and the version plus one |
| `Events.SoftDeleted` | src/controllers/event.controller.js:131-133 | the deleted record has status `deleted`, the deletion stamp and the new `updatedAt`, and keeps its id, version, name and attachments |
| `Events.PublishedMeaning` | src/controllers/event.controller.js:424-426 | publishing sets the status whatever it was, even `deleted`; it stamps the time and keeps the version, id, attachments and deletion stamp |
| `Events.ListedIsOneFilter` | src/controllers/event.controller.js:150-163 | the three filters in a row equal one filter by their conjunction |
| `Events.ListedMeaning` | src/controllers/event.controller.js:153-163 | nothing deleted is listed, the status and user filters hold when truthy, and every record passing them is listed |
| `Events.CeilDiv` | src/controllers/event.controller.js:175 | the page count is the least number of pages of the limit's size holding all the records |
| `Events.PageMeaning` | src/controllers/event.controller.js:166-167 | a page holds at most `limit` records, each the filtered record at its offset, and is full unless it reaches the end |
| `Events.PageWithinCount` | src/controllers/event.controller.js:166-175 | a page is non-empty exactly when its number is at most the page count |
| `Events.PaginationExample` | src/controllers/event.controller.js:166-175 | 25 records at 20 per page: page 2 holds the last 5, and there are 2 pages |
| `Events.DefViews` | src/controllers/event.controller.js:207-215 | one view per listed definition, in order: the whole definition object (id, name, description, code, config schema, category, icon, version, active flag, `createdAt`, `updatedAt`), with `code` removed unless `includeCode` is `'true'` |
| `Events.ListedDefsMeaning` | src/controllers/event.controller.js:192-204 | the intended listing of the second finding: listed definitions come from the catalog, pass the category filter when it is truthy, and are active when `activeOnly` is absent or `'true'`; with both filters off the whole catalog is listed |
| `Events.ListedDefsAsWrittenMeaning` | src/controllers/event.controller.js:192-204 | the listing as written: listed definitions come from the catalog and pass the category filter when it is truthy. An entry of the category is dropped exactly when it is inactive and `activeOnly` is the string `'true'`. Without that string the whole category is listed, inactive entries included |
| `Events.SeedListingAgrees` | src/utils/mock.data.js:4-188 | every seeded definition is active, so on the seeded catalog the listing as written equals the intended one for every query |
| `Events.DefViewsMeaning` | src/controllers/event.controller.js:207-215 | each served view carries its definition's id, `createdAt` and `updatedAt`, and `code` exactly when `includeCode` is `'true'` |
| `Events.ListModulesMeaning` | src/controllers/event.controller.js:192-215 | the intended listing of the second finding: listed definitions come from the catalog and pass the category filter and the active filter, which applies when `activeOnly` is absent or `'true'`. `code` is served exactly when `includeCode` is `'true'`. With both filters off the whole catalog is served |
| `Events.ListModulesComplete` | src/controllers/event.controller.js:197-204 | under the intended filter, every catalog definition in the category, and active when `activeOnly` is absent or `'true'`, is listed (completeness as written is part of `Events.ListedDefsAsWrittenMeaning`) |
| `Events.ListModulesAsWrittenMeaning` | src/controllers/event.controller.js:192-215 | the listing the handler serves has one view per definition the filters as written keep, each that definition's view, with its id, and with `code` exactly when `includeCode` is `'true'` |
| `Events.FromEntryJson` | src/controllers/event.controller.js:28-29 | a created attachment's object form is the body's `modules` entry as given |
| `Handlers.CreateAppends` | src/controllers/event.controller.js:21-49 | a refused body leaves the store alone and answers 400 with its errors. An accepted one appends exactly one record, equal as an object to the handler's literal, and answers 201 with it |
| `Handlers.CreatedRecord` | src/controllers/event.controller.js:25-38 | the created record has the fresh id and version 1, no views or attendees, is not deleted, and is owned by `anonymous` without a user. Lists not supplied are empty |
| `Handlers.GetFinds` | src/controllers/event.controller.js:56-71 | get answers 200 with the first record with the id, even a deleted one |
| `Handlers.MissingEvent` | src/controllers/event.controller.js:63-65 | every handler taking an event id answers 404 `Event not found` for an unknown id once its checks pass, and changes nothing |
| `Handlers.UpdateReplacesSlot` | src/controllers/event.controller.js:78-112 | update replaces only the matching record. It becomes the stored one spread under the validated body, with version plus one; id, owner, creation time and lists unchanged |
| `Handlers.DeleteInPlace` | src/controllers/event.controller.js:119-139 | delete marks the matching record deleted in place, with no other record touched and no data in the reply |
| `Handlers.PublishGuard` | src/controllers/event.controller.js:405-432 | publish refuses a record without a name or a date with 400 and changes nothing; otherwise it publishes the record in place |
| `Handlers.DeleteKeepsVersions` | src/controllers/event.controller.js:131-133 | delete keeps every record's position, id and version |
| `Handlers.PublishKeepsVersions` | src/controllers/event.controller.js:424-426 | publish keeps every record's position, id and version |
| `Handlers.AttachKeepsVersions` | src/controllers/event.controller.js:256-272 | attach keeps every record's position, id and version |
| `Handlers.DetachKeepsVersions` | src/controllers/event.controller.js:305-312 | detach keeps every record's position, id and version |
| `Handlers.PatchKeepsVersions` | src/controllers/event.controller.js:347-353 | a config patch keeps every record's position, id and version |
| `Handlers.AttachKeepsRecords` | src/controllers/event.controller.js:256-272 | attach keeps the length of the list and every record's id, owner, name, version, status and deletion stamp |
| `Handlers.DetachKeepsRecords` | src/controllers/event.controller.js:305-312 | detach keeps the length of the list and every record's id, owner, name, version, status and deletion stamp |
| `Handlers.PatchKeepsRecords` | src/controllers/event.controller.js:347-353 | a config patch keeps the length of the list and every record's id, owner, name, version, status and deletion stamp |
| `Handlers.ListFilters` | src/controllers/event.controller.js:146-181 | the listing answers 200 with no deleted record, and honours the status and user filters |
| `Handlers.ListPagination` | src/controllers/event.controller.js:166-176 | the page holds at most `limit` records, each the filtered record at its offset. `total` is the filtered count and `totalPages` its ceiling over `limit`. The page is empty exactly past the last page |
| `Handlers.ModulesCount` | src/controllers/event.controller.js:217-220 | the catalog reply answers 200 and counts exactly what it returns: one view per definition the filters as written keep, with `code` exactly when requested |
| `Handlers.AttachRefusesInactive` | src/controllers/event.controller.js:247-251 | attaching a module that is missing from the catalog or inactive answers 404 and changes nothing |
| `Handlers.AttachUpdatesEvent` | src/controllers/event.controller.js:233-278 | an accepted attach changes only the matching record, whose attachments become attach-or-merge of them, and keeps orders equal to positions |
| `Handlers.DetachRefusesMissing` | src/controllers/event.controller.js:298-302 | detaching a module the event does not hold answers 404 and changes nothing |
| `Handlers.DetachRemovesOne` | src/controllers/event.controller.js:285-318 | detach drops the first matching attachment and renumbers the rest, keeping ids in order; only that record changes, and its version stays |
| `Handlers.PatchTouchesOne` | src/controllers/event.controller.js:325-359 | a config patch changes only the first matching attachment of the matching record, and there only its merged config and stamp |
| `Handlers.PreviewOnePerAttachment` | src/controllers/event.controller.js:368-398 | the preview of a found event answers 200 with one entry per attachment, in order |
| `Handlers.UpdateRequestBounds` | src/validators/event.validator.js:81-88 | a validated update carries a name of 3 to 100 characters, if any, and never the `deleted` status |
| `Handlers.CreateKeepsInvariant` | src/controllers/event.controller.js:40 | create keeps the store invariant |
| `Handlers.UpdateKeepsInvariant` | src/controllers/event.controller.js:103 | update keeps the store invariant |
| `Handlers.DeleteKeepsInvariant` | src/controllers/event.controller.js:131-132 | delete keeps the store invariant: a deleted record has its deletion stamp |
| `Handlers.PublishKeepsInvariant` | src/controllers/event.controller.js:424-426 | publish keeps the store invariant |
| `Handlers.AttachKeepsInvariant` | src/controllers/event.controller.js:256-272 | attach keeps the store invariant |
| `Handlers.DetachKeepsInvariant` | src/controllers/event.controller.js:305-312 | detach keeps the store invariant |
| `Handlers.PatchKeepsInvariant` | src/controllers/event.controller.js:347-353 | a config patch keeps the store invariant |
| `Handlers.PublishRefusesOnlyUndated` | src/controllers/event.controller.js:417-422 | in a store the handlers built, names are never empty, so publish answers 400 exactly for a record without a date |
| `Controller.EventStore.constructor` | src/utils/mock.data.js:2-4 | the store starts with no events over the seeded catalog, and is valid |
| `Controller.EventStore.CreateEvent` | src/controllers/event.controller.js:21-49 | leaves exactly the list and reply of the create step, and keeps the invariant |
| `Controller.EventStore.GetEvent` | src/controllers/event.controller.js:56-71 | answers exactly as the get step does |
| `Controller.EventStore.UpdateEvent` | src/controllers/event.controller.js:78-112 | writes the overlaid record into its slot, leaving exactly the list and reply of the update step, and keeps the invariant |
| `Controller.EventStore.DeleteEvent` | src/controllers/event.controller.js:119-139 | sets the three fields of the found record in place, leaving exactly the delete step's list and reply, and keeps the invariant |
| `Controller.EventStore.GetAllEvents` | src/controllers/event.controller.js:146-181 | runs the three filters and the slice, and answers exactly as the listing step does |
| `Controller.EventStore.GetModules` | src/controllers/event.controller.js:190-224 | runs the filters as written, the active one only for the string `'true'`, and answers exactly as the catalog step does |
| `Controller.SpliceAndReindex` | src/controllers/event.controller.js:305-310 | splicing one attachment out and then setting every remaining order to its position in a loop gives exactly the detached sequence |
| `Controller.EventStore.AddModuleToEvent` | src/controllers/event.controller.js:233-278 | merges into the existing attachment or pushes a new one, leaving exactly the attach step's list and reply, and keeps the invariant |
| `Controller.EventStore.RemoveModuleFromEvent` | src/controllers/event.controller.js:285-318 | splices the attachment out and renumbers it through `SpliceAndReindex`, leaving exactly the detach step's list and reply, and keeps the invariant |
| `Controller.EventStore.UpdateModuleConfig` | src/controllers/event.controller.js:325-359 | merges the config and stamps attachment and event, leaving exactly the patch step's list and reply, and keeps the invariant |
| `Controller.EventStore.GetEventPreview` | src/controllers/event.controller.js:368-398 | answers exactly as the preview step does |
| `Controller.EventStore.PublishEvent` | src/controllers/event.controller.js:405-432 | publishes in place behind the name and date guard, leaving exactly the publish step's list and reply, and keeps the invariant |

## Where the code departs from its evident intent

The model follows the code in each case:

- Only update raises `version`. Delete, publish, attach, detach and config patch keep it
  (`Handlers.DeleteKeepsVersions` and its siblings).
- Lookups by id do not hide soft-deleted records. Get, update, publish and the module
  endpoints all find them (`Handlers.GetFinds`). Publish even turns a deleted record back
  into a published one (`Events.PublishedMeaning`).
- A created record keeps the `modules`, `photos`, `links` and `tags` the body supplies.
  They default to `[]` only when the body leaves them out, rather than always starting
  empty (`Events.NewEventMeaning`, `Handlers.CreatedRecord`).
- The route table declares `POST /events/:id/publish`, but the publish handler reads
  `eventId`. The model names the parameter as the handler does. As routed,
  `req.params.eventId` is `undefined`, so even the corrected id check would refuse every
  publish request with `any.required`. The route file is not part of this model.

## Left out

- Record timestamps and `uuidv4()` are parameters (`uuid`, `now`). One `now` stands for
  the two separate `new Date()` calls of a handler.
- The reply envelope's `timestamp`, and the `error` field of `errorResponse` (which
  repeats the status code), are not modelled. A `Handlers.Reply` holds the status, `success`,
  `message` and `data`.
- `req.user?.id` is a parameter `user: Option<string>`. No authentication is modelled.
- Query parameters arrive as `Option<string>`. `limit` and `page` are taken as already
  parsed naturals of at least 1. `ListStep` and `GetAllEvents` require this. The
  JavaScript arithmetic on non-numeric, zero or negative query strings, and array-valued
  query parameters, are not modelled.
- Joi's message texts (the custom `.messages(...)` strings and its default texts) are not
  modelled. Each error is the field path plus Joi's error type.
- Joi's recognisers for URIs and UUIDs, and JavaScript's string-to-number and
  string-to-date conversions, are oracles in `Validation.Env`. A parsed date goes through
  the same range check as a numeric timestamp. Joi's unsafe-number and
  infinity checks are not modelled.
- Joi's conversion of JSON strings into objects or arrays is not modelled.
- String lengths count Dafny characters, where Joi counts UTF-16 code units.
- `moduleSchema` (`Schemas.ModuleSchema`) is stated but no handler uses it. There is
  nothing to prove about its use.
- A missing request body is not modelled. Bodies are JSON values.
- A JSON number is an exact `real` (`JsonValue.JNum`), standing for the double that
  `JSON.parse` produces. Rounding of doubles is not modelled.
- A validated date is held as its millisecond count. It is a `JNum` in the validated
  object and an `Option<int>` in `Model.Event.dateTime`. The source holds a `Date` object
  there, which a reply serialises as an ISO string. The model does not format that
  string. Publishing tests only whether a date is present, so no handler's behaviour
  depends on the difference.
- The `try`/`catch` around each handler is modelled only for the thrown validation
  error. The 500 reply of the catalog listing cannot be reached in the model.
- `Promise.all` in the preview is a plain map. Concurrency between requests is not
  modelled: each handler runs alone against the store.
- Handlers that change a record in place (delete, publish, the module endpoints) are
  modelled as writing a new record into the same slot. The model does not capture
  references to the old record object held elsewhere.
- SeedCatalog: the catalog's `code` templates and `configSchema` objects are empty in
  `Model.SeedCatalog`, so `DefJson` serves them empty. Ids, names, descriptions,
  categories, icons, versions, active flags and both timestamps are as seeded.
- The Express application, the routes and the HTTP transport are not part of this
  model.

## Findings

| source | as written | input that shows it | evidently intended | confidence | as-written member | corrected member |
|---|---|---|---|---|---|---|
| src/controllers/event.controller.js:59 | every handler with a route id validates `{ id }`, an object, against `eventIdSchema` or `moduleIdSchema`, both of which are string schemas, so the check throws `string.base` | `GET /events/<id of an existing event>` answers 400, whatever the id | validate the id string itself | high, not executed | `Schemas.IdCheckAsWrittenRefusesAll` | `Schemas.EventIdMeaning` |
| src/controllers/event.controller.js:192 | `activeOnly` defaults to the boolean `true`, but line 202 filters only when it equals the string `'true'` | `GET /modules` with no `activeOnly`, over a catalog with an inactive module, serves that module | filter out inactive modules unless asked not to | medium, not executed | `Events.ListedDefsAsWrittenServesInactive` | `Events.ListModulesMeaning` |

Both rows keep both behaviours in the model:

- First row: the as-written check is `Schemas.IdCheckAsWritten`. The handlers use the
  corrected `Schemas.IdCheck`, since as written every id route would only answer 400.
- Second row: the catalog handler uses the listing as written, `Events.ListedDefsAsWritten`,
  described for all inputs by `Events.ListedDefsAsWrittenMeaning`. The intended
  `Events.ListedDefs` is kept beside it. `Events.SeedListingAgrees` shows the two agree on
  the seeded catalog, where every definition is active.
