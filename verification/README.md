# Sahana Eden events, incidents and scenarios — a Dafny model

This project models the core of the event-management part of Sahana Eden
(the web2py/S3 humanitarian platform), as found in
`modules/s3db/event.py`, `modules/s3db/scenario.py` and `models/dosite.py`:

- the **deduplication resolvers** the importer calls for each incoming
  record (events, event types, event tags, incidents, incident types,
  scenarios). Each decides whether the record duplicates a stored row. If it
  does, the resolver switches the import item to an update of that row;
- the **lifecycle hooks**:
  - closing an event clears it from the session and expires the posts
    linked to it;
  - creating an incident from a scenario copies the scenario's sites, staff,
    assets and tasks onto the incident and gives the incident its own copy
    of the scenario's map configuration;
- the **representations**: the year of an event, the label of a scenario
  reference and the label of a drop-off place.

## How the model is built

- `records.dfy` (module `Records`): field values (`Value`) with Python
  truthiness, rows with a primary key, missing fields read as `None`, ASCII
  lower-casing, and the labels a representation returns. A date-time value
  carries its calendar date and its time of day to the second, as the
  event's `start_date` column does.
- `dal.dfy` (module `Dal`): the small part of the web2py DAL that the code
  uses:
  - equality, lower-cased equality, `&` and `|` queries; equality with
    `None` is `IS NULL`;
  - `select().first()` (the first matching row in table order);
  - `select()`;
  - `update()`.
- `import_item.dfy` (module `Import`): the import item as a class whose
  fields (`id`, `method`, `data`) a resolver rewrites. `Resolved` states the
  complete effect of a resolver given the row it found.
- `event_dedup.dfy`, `scenario.dfy`, `dosite.dfy`: every resolver appears
  twice:
  - a specification function `…DuplicateOf`, defined from an independent
    match predicate (the first stored row matching under the resolver's
    rule);
  - a method that builds the query the way the source does and rewrites the
    item. Each method is proved to agree with its specification function.
- `database.dfy` (module `Database`): the database the hooks change.
  - It is a class `Db` with one sequence field per table and a key counter;
    the session is a class `Session`. `Db.Links()` groups the four incident
    link tables and `Db.Scenarios()` the scenario tables they are copied
    from.
  - `Db.InsertLinks` is the insert loop shared by the copy steps. It is
    specified by `NewLinks`: one link row per source row, under consecutive
    keys of the counter.
- `event_hooks.dfy` (module `EventHooks`): the two hooks as methods over
  `Db` and `Session`.
  - Each is specified by the whole new state.
  - For incident creation, that state is the two-state predicate
    `Populated`. It is stated over specification functions of the old
    state: `LinksToCopy` (the scenario rows the hook selects), `CopyLinks`
    (the link tables after they are inserted), `LinkedConfig` and
    `NewConfigFields` (the configuration stored).
  - What that new state means is proved as lemmas: `CopyLinksCopies`
    (every selected row is appended, in order, under fresh keys, and the
    tables of disabled modules are unchanged) and `NewConfigStored` (one
    new configuration under a fresh key, linked to the incident).

The model follows the code, which:
- The resolvers accept the first stored match in table order. They do not
  require the match to be unique.
- The event, event-type, incident and scenario names are compared exactly.
  Only tags and incident types are compared ignoring case.
- The closing hook acts whenever the submitted form has `closed` set. It
  does not check whether the event was open before.

## Model

| member | source | states |
|---|---|---|
| Dal.FirstWhere | modules/s3db/event.py:495-496 | `select(limitby=(0, 1)).first()` (`FirstWhere`, and `First` for a query): the result is a row that satisfies the condition, no earlier row does, and there is no result exactly when no row does |
| Dal.SelectFilters | modules/s3db/event.py:460 | `Select`, the model of `select()`, returns only rows of the table, exactly those satisfying the query, each as often as the table holds it, never more rows than the table has |
| Dal.SelectAll | modules/s3db/event.py:766 | a query that every row satisfies selects the whole table, in order |
| Dal.UpdateWhere | modules/s3db/event.py:462 | `update(expired=True)` on a query: the table keeps its length and keys; each row satisfying the query gets the field set and keeps its other fields, every other row is unchanged |
| Import.ImportItem.MarkDuplicate | modules/s3db/event.py:497-500 | the item becomes an update of the found row; the data's id is rewritten only where the resolver does so; nothing else changes |
| EventDedup.MandatoryQuery | modules/s3db/event.py:474-487 | the loop over the mandatory keys yields no query exactly when no key has a value, and otherwise a query that holds of a row exactly when the row agrees on every key that has one |
| EventDedup.EventDuplicateOf | modules/s3db/event.py:466-500 | a non-event item, or one with neither name nor start date, duplicates nothing; otherwise the result is the first row equal on every supplied key and on the event type when it is given, and none only when no row is |
| EventDedup.EventDuplicate | modules/s3db/event.py:466-500 | the resolver's effect on the item is exactly that of the duplicate `EventDuplicateOf` designates: update of that row with the data's id set, or no change |
| EventDedup.EventDuplicateIgnoresDataId | modules/s3db/event.py:497-499 | writing the duplicate's id into the data leaves the designated duplicate unchanged, so re-running the resolver repeats its decision |
| EventDedup.EventSecondImportUpdatesFirst | modules/s3db/event.py:466-500 | once a first import of an event is stored, a second import of the same record is resolved to that stored row |
| EventDedup.EventOnSameDayAtOtherTimeIsNew | modules/s3db/event.py:195-200 | the start date is a date-time compared exactly: an event of the same name starting on the same day at another time is not a duplicate |
| EventDedup.EventTypeDuplicateOf | modules/s3db/event.py:504-525 | only event types with a name are resolved; the duplicate is the first row with exactly that name, none only when no row has it |
| EventDedup.EventTypeDuplicate | modules/s3db/event.py:504-525 | the resolver's effect is exactly the update designated by `EventTypeDuplicateOf`, with the data's id set |
| EventDedup.EventTypeSecondImportUpdatesFirst | modules/s3db/event.py:504-525 | once a first import of an event type is stored, a second import of the same record is resolved to that stored row |
| EventDedup.EventTagDuplicateOf | modules/s3db/event.py:529-552 | a tag without tag text or event is not resolved; otherwise the duplicate is the first tag of the same event whose text is equal ignoring case |
| EventDedup.EventEventTagDeduplicate | modules/s3db/event.py:529-552 | the resolver's effect is the update designated by `EventTagDuplicateOf`, without touching the data's id |
| EventDedup.EventTagSecondImportUpdatesFirst | modules/s3db/event.py:529-552 | once a first import of an event tag is stored, a second import of the same record is resolved to that stored row |
| EventDedup.IncidentDuplicateOf | modules/s3db/event.py:832-855 | the duplicate is the first incident with the same name (a missing name matches a NULL name) that, when an event is given, belongs to that event or to none |
| EventDedup.IncidentDuplicate | modules/s3db/event.py:832-855 | the resolver's effect is the update designated by `IncidentDuplicateOf`, with the data's id set |
| EventDedup.IncidentWithoutEventMatchesByName | modules/s3db/event.py:844-848 | without an event the incident rule reduces to the name alone |
| EventDedup.IncidentSecondImportUpdatesFirst | modules/s3db/event.py:832-855 | once a first import of an incident is stored, a second import of the same record is resolved to that stored row |
| EventDedup.IncidentTypeDuplicateOf | modules/s3db/event.py:1183-1204 | only incident types with a name are resolved; the duplicate is the first row whose name is equal ignoring case |
| EventDedup.IncidentTypeDuplicate | modules/s3db/event.py:1183-1204 | the resolver's effect is the update designated by `IncidentTypeDuplicateOf`, with the data's id set |
| EventDedup.FloodDuplicatesFLOOD | modules/s3db/event.py:1196 | an incoming incident type "Flood" duplicates a stored "FLOOD" |
| EventDedup.IncidentTypeSecondImportUpdatesFirst | modules/s3db/event.py:1183-1204 | once a first import of an incident type is stored, a second import of the same record is resolved to that stored row |
| EventDedup.EventYear | modules/s3db/event.py:415-432 | the NONE placeholder exactly when the row lacks the start date or it is empty; otherwise the start date's year |
| Scenario.ScenarioRepresent | modules/s3db/scenario.py:192-207 | a row at hand shows its name; NONE exactly when there is no row and no id; UNKNOWN_OPT exactly when an id is given that no stored scenario has; otherwise the name of the first scenario with that id |
| Scenario.ScenarioRepresentNeedsNoLookup | modules/s3db/scenario.py:195-196 | the label of a row at hand depends neither on the id nor on the stored scenarios |
| Scenario.ScenarioDuplicateOf | modules/s3db/scenario.py:211-229 | the duplicate is the first scenario with exactly the record's name, none only when no scenario has it; other tables are not resolved |
| Scenario.ScenarioDuplicate | modules/s3db/scenario.py:211-229 | the resolver's effect is the update designated by `ScenarioDuplicateOf`, with the data's id set |
| Scenario.ScenarioWithoutNameIsNew | modules/s3db/scenario.py:220-223 | a scenario record without a name is compared with NULL and so is new wherever stored names are non-null |
| Scenario.ScenarioSecondImportUpdatesFirst | modules/s3db/scenario.py:211-229 | once a first import of a scenario is stored, a second import of the same record is resolved to that stored row |
| Dosite.ValidPlace | models/dosite.py:3 | a place the table accepts has a non-NULL name, and a name longer than 64 characters is refused |
| Dosite.PlaceRepresentNamesFirst | models/dosite.py:12-17 | `PlaceRepresent`, the model of `place_represent`: when places have the id, the label is the name of the first of them |
| Dosite.PlaceRepresentFallsBack | models/dosite.py:15-19 | `PlaceRepresent`: when no place has the id, the label is "-" |
| Dosite.PlaceRepresentIsShortText | models/dosite.py:3-19 | over places satisfying the column constraint (non-null, at most 64 characters), the label is always a text of at most 64 characters |
| Database.NewLinksKeys | modules/s3db/event.py:769-773 | `NewLinks`, the rows inserted for the source links, are one per link, the j-th made from the j-th link (the incident and the linked id) under the counter's j-th next key |
| Database.NewLinksAppended | modules/s3db/event.py:769-773 | appending those rows appends one link row per source link, in source order, under increasing keys not handed out before the counter's value |
| Database.NewLinksKeysBelow | modules/s3db/event.py:769-773 | after the insert every key of the table is below the counter's new value, so later keys stay fresh |
| Database.Db.InsertLinks | modules/s3db/event.py:769-773 | the insert loop: the counter advances by one per source row and the table becomes the old one followed by `NewLinks` from the old counter value; the stored rows are unchanged |
| EventHooks.ExpireNext | modules/s3db/event.py:461-462 | one step of the expiry loop: updating the post a further link row names expires exactly that post as well, every other post stays as it was |
| EventHooks.SelectedNamesLinked | modules/s3db/event.py:460 | the rows the hook selects name a post exactly when some event_post row links that post to the event |
| EventHooks.EventUpdateOnaccept | modules/s3db/event.py:436-462 | without `closed` nothing changes; with it, the session's active event is cleared exactly when it was this event, and a post is expired exactly when an event_post row links it to the event, every other post left as it was |
| EventHooks.ScenarioLinksSelects | modules/s3db/event.py:762-766 | `ScenarioLinks`, the rows read from a scenario link table, are exactly its rows of the given scenario when that scenario is given and stored, each as often as the table holds it, and no more than the table holds |
| EventHooks.ScenarioMatchesOnce | modules/s3db/event.py:762-763 | scenario ids are keys, so the join `table.id == scenario` matches exactly one scenario row for a stored scenario and none otherwise; each link row is therefore read once |
| EventHooks.LinkedConfigFinds | modules/s3db/event.py:762-767 | `LinkedConfig`, the configuration found is a stored one that some link row of the scenario points at; none only when no link row points at a stored configuration |
| EventHooks.NewConfigFields | modules/s3db/event.py:807-809 | the incident's configuration has the incident's name and no id or uuid; without a scenario configuration the name is its only field |
| EventHooks.NewConfigFieldsCopiesSource | modules/s3db/event.py:807-809 | the copy keeps every other field of the scenario's configuration unchanged and adds none but the name |
| EventHooks.TableCopied | modules/s3db/event.py:776-783 | a table of an enabled module gets its selected rows appended in order under fresh keys; a table of a disabled module is unchanged |
| EventHooks.SitesCopied | modules/s3db/event.py:766-773 | the scenario's site links are always appended to `event_site` for the incident |
| EventHooks.StaffCopied | modules/s3db/event.py:776-783 | the scenario's staff links are appended to `event_human_resource` when that module is enabled; otherwise the table is unchanged |
| EventHooks.AssetsCopied | modules/s3db/event.py:785-792 | the scenario's asset links are appended to `event_asset` when that module is enabled; otherwise the table is unchanged |
| EventHooks.TasksCopied | modules/s3db/event.py:794-801 | the scenario's task links are appended to `event_task` when that module is enabled; otherwise the table is unchanged |
| EventHooks.CopyLinksCopies | modules/s3db/event.py:753-801 | the copy appends every link row of the scenario, in order and under fresh keys, to the incident's link tables, and leaves the tables of disabled modules alone |
| EventHooks.NoScenarioNoLinks | modules/s3db/event.py:752-753 | without a scenario nothing is selected, no key is used and the link tables are unchanged |
| EventHooks.NewConfigStored | modules/s3db/event.py:803-826 | the configuration and its event_config row take the next two keys: the configuration's key is one no stored configuration has, and the new row links it to the incident |
| EventHooks.CopyScenario | modules/s3db/event.py:752-801 | the `if scenario:` block: the link tables become `CopyLinks` of the rows `LinksToCopy` selects, and the counter advances by their number |
| EventHooks.CopyScenarioLinks | modules/s3db/event.py:769-801 | the selected rows are inserted table by table (sites, staff, assets, tasks) under consecutive keys; the counter advances by their number |
| EventHooks.CopySites | modules/s3db/event.py:770-773 | one `event_site` row per selected site link, under the next keys |
| EventHooks.CopyHumanResources | modules/s3db/event.py:780-783 | one `event_human_resource` row per selected staff link, under the next keys |
| EventHooks.CopyAssets | modules/s3db/event.py:789-792 | one `event_asset` row per selected asset link, under the next keys |
| EventHooks.CopyTasks | modules/s3db/event.py:798-801 | one `event_task` row per selected task link, under the next keys |
| EventHooks.ActivateEvent | modules/s3db/event.py:744-747 | a given event becomes the session's active event; without one the session is unchanged |
| EventHooks.StoreMapConfig | modules/s3db/event.py:803-826 | one configuration (a copy of the scenario's without id and uuid, or an empty one, named after the incident) is appended under the next key, and one event_config row linking it to the incident under the key after |
| EventHooks.PopulateIncident | modules/s3db/event.py:744-826 | `Populated`: the event becomes the active one when given, the link tables are exactly the old ones with the scenario's links copied, and the configurations and event_config rows are the old ones plus the new configuration and its link, all relative to the state before the hook |
| EventHooks.IncidentCreateOnaccept | modules/s3db/event.py:737-826 | the creation hook, reading the incident from the form's `id`: `Populated` for the created incident |
| EventHooks.IncidentCreateOnacceptAsWritten | modules/s3db/event.py:743 | the creation hook as written: `Populated` for whatever the form's `incident_id` holds |
| EventHooks.AsWrittenCopiesReferToNoIncident | modules/s3db/event.py:743 | for form values without `incident_id`, every link row built as written refers to no incident |
| EventHooks.CopiesReferToTheIncident | modules/s3db/event.py:771-773 | with the corrected lookup every copied link row refers to the created incident |
| EventHooks.FloodTemplateLinks | modules/s3db/event.py:758-766 | for a scenario with two sites and one task, the hook reads exactly those link rows |
| EventHooks.FloodTemplateConfig | modules/s3db/event.py:767-809 | for that scenario the hook finds its map configuration, and the incident's copy keeps only the incident's name |

## Left out

- Table definitions, CRUD strings, list fields, filter widgets, S3 component
  declarations and the other UI configuration are left out. They declare
  things and compute nothing.
- Controllers and the OCHAROCCA template configuration are not part of this
  model.
- `gis.set_config` is left out. It activates the new configuration for the
  user interface and has no effect on the stored rows.
- `T()` translation, `S3Represent` and field validators are left out. Labels
  are modelled as the values shown.
- The uuid and the other defaults the DAL fills into a new row are left out.
- Primary keys come from one counter shared by all tables, handed out
  consecutively. Each real table has its own auto-increment; the model
  keeps only that keys are fresh and increase in insertion order.
- The DAL's conversion of ids given as text into integers is left out. Ids
  are compared as values.
- `lower()` is modelled on ASCII letters only. Python's Unicode case mapping
  is not modelled.
- Scenario.ScenarioRepresent: a row passed in is taken to be truthy, as
  every non-empty web2py Row is.
- The join order of the selects of the scenario's sites, staff, assets,
  tasks and map configuration is not specified by the database. The model
  takes the scenario's link rows in table order, so the copies are inserted
  in that order.
- The model selects every scenario link table before it inserts any copy.
  The source interleaves the selects and the inserts, table by table. This
  gives the same rows because the inserts do not touch the scenario tables.
- Transactions and concurrent requests are left out.
- The event-type and incident-type hierarchies are left out. No resolver
  reads them.
- EventDedup.EventEventTagDeduplicate and EventDedup.IncidentTypeDuplicate
  require a supplied tag or name to be text. The source calls a string
  method on it.
- EventDedup.EventYear requires a non-empty start date to be a date value,
  as the start-date column guarantees.
- The form's insert of the incident row itself is not modelled. The form
  performs that insert before the creation hook runs, and the hook does not
  write the incident row.
- A worked example of the complete creation hook on the flood scenario is
  not modelled as a method. `FloodTemplateLinks` and `FloodTemplateConfig`
  state what the hook reads for that scenario, and `Populated` gives the
  result.

## Findings

| source | as written | input that shows it | evidently intended | confidence | as-written member | corrected member |
|---|---|---|---|---|---|---|
| modules/s3db/event.py:743 | the incident's id is read from the form value `incident_id` | creating an incident with form values `id = 5`, `name = "Flood 2024-03"`, `scenario_id = 2` (a create form of `event_incident` holds `id` and never `incident_id`) | the id of the incident just created, the form's `id` | not executed | EventHooks.IncidentCreateOnacceptAsWritten, EventHooks.AsWrittenCopiesReferToNoIncident | EventHooks.IncidentCreateOnaccept, EventHooks.CopiesReferToTheIncident |

With the code as written, every site, staff, asset, task and configuration
link copied from the scenario gets a NULL `incident_id`, so the new incident
has none of them.
