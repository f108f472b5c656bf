/**
 * The lifecycle hooks of the event module: closing an event, and populating a
 * newly created incident from the scenario it was instantiated from.
 */
module EventHooks {
  import opened Records
  import opened Dal
  import opened Database

  // ---------------------------------------------------------------------------
  // event_update_onaccept

  /** Some event_post row links the post to the event. */
  predicate PostLinked(links: seq<Row>, event: Value, post: Row) {
    exists l :: l in links && Field(l, "event_id") == event && Field(l, "post_id") == Field(post, "id")
  }

  /** Some of the given link rows names the post. */
  predicate NamesPost(links: seq<Row>, post: Row) {
    exists l :: l in links && Field(l, "post_id") == Field(post, "id")
  }

  /** The post with its `expired` flag set. */
  function Expired(post: Row): Row {
    Row(post.id, post.fields["expired" := Bool(true)])
  }

  /** `posts` is `before` with exactly the posts named by `rows` expired. */
  predicate ExpiredBy(posts: seq<Row>, before: seq<Row>, rows: seq<Row>) {
    && |posts| == |before|
    && forall k :: 0 <= k < |posts| ==>
         posts[k] == if NamesPost(rows, before[k]) then Expired(before[k]) else before[k]
  }

  /** One step of the expiry loop: updating the post a further link row
      names expires that post too, and changes no other. */
  lemma ExpireNext(posts: seq<Row>, before: seq<Row>, rows: seq<Row>, row: Row)
    requires ExpiredBy(posts, before, rows)
    ensures ExpiredBy(UpdateWhere(posts, Eq("id", Field(row, "post_id")), "expired", Bool(true)), before, rows + [row])
  {
    var after := UpdateWhere(posts, Eq("id", Field(row, "post_id")), "expired", Bool(true));
    forall k | 0 <= k < |after|
      ensures after[k] == if NamesPost(rows + [row], before[k]) then Expired(before[k]) else before[k]
    {
      var p := before[k];
      assert NamesPost(rows + [row], p) <==> NamesPost(rows, p) || Field(row, "post_id") == Field(p, "id") by {
        if Field(row, "post_id") == Field(p, "id") {
          assert row in rows + [row];
        }
        if NamesPost(rows + [row], p) && !NamesPost(rows, p) {
          var l :| l in rows + [row] && Field(l, "post_id") == Field(p, "id");
          assert l == row;
        }
      }
      assert Expired(Expired(p)).fields == Expired(p).fields;
    }
  }

  /** The rows the hook selects name exactly the posts linked to the event. */
  lemma SelectedNamesLinked(links: seq<Row>, event: Value, post: Row)
    ensures NamesPost(Select(links, Eq("event_id", event)), post) == PostLinked(links, event, post)
  {
    SelectFilters(links, Eq("event_id", event));
    if PostLinked(links, event, post) {
      var l :| l in links && Field(l, "event_id") == event && Field(l, "post_id") == Field(post, "id");
      assert l in Select(links, Eq("event_id", event));
    }
  }

  /** On an event update with `closed` set, the event stops being the
      session's active event (if it was) and every post linked to it expires;
      nothing else changes. Reopening undoes neither. */
  method EventUpdateOnaccept(db: Db, session: Session, vars: map<string, Value>)
    requires db.Valid()
    modifies db`posts, session`event
    ensures db.Valid()
    ensures !Truthy(Get(vars, "closed")) ==> db.posts == old(db.posts) && session.event == old(session.event)
    ensures Truthy(Get(vars, "closed")) ==>
              session.event == if old(session.event) == Get(vars, "id") then Null else old(session.event)
    ensures |db.posts| == |old(db.posts)|
    ensures Truthy(Get(vars, "closed")) ==>
              forall k :: 0 <= k < |db.posts| ==>
                db.posts[k] == if PostLinked(db.eventPosts, Get(vars, "id"), old(db.posts)[k])
                               then Expired(old(db.posts)[k]) else old(db.posts)[k]
  {
    if !Truthy(Get(vars, "closed")) {
      return;
    }
    var event := Get(vars, "id");
    if session.event == event {
      session.event := Null;
    }
    var rows := Select(db.eventPosts, Eq("event_id", event));
    var i := 0;
    while i < |rows|
      invariant 0 <= i <= |rows|
      invariant ExpiredBy(db.posts, old(db.posts), rows[..i])
      invariant db.Valid()
      invariant session.event == if old(session.event) == event then Null else old(session.event)
    {
      ExpireNext(db.posts, old(db.posts), rows[..i], rows[i]);
      assert rows[..i + 1] == rows[..i] + [rows[i]];
      db.posts := UpdateWhere(db.posts, Eq("id", Field(rows[i], "post_id")), "expired", Bool(true));
      i := i + 1;
    }
    assert rows[..i] == rows;
    forall k | 0 <= k < |db.posts|
      ensures NamesPost(rows, old(db.posts)[k]) == PostLinked(db.eventPosts, event, old(db.posts)[k])
    {
      SelectedNamesLinked(db.eventPosts, event, old(db.posts)[k]);
    }
  }

  // ---------------------------------------------------------------------------
  // incident_create_onaccept

  /** Some stored scenario has this id. */
  predicate ScenarioExists(scenarios: seq<Row>, scenario: Value) {
    exists j :: 0 <= j < |scenarios| && Field(scenarios[j], "id") == scenario
  }

  /** The rows of a scenario link table that the hook copies: those of the
      given scenario, found by joining with the scenario table, so none when
      no scenario is given or none is stored under that id. The join is a
      filter because scenario ids are keys (`ScenarioMatchesOnce`). */
  function ScenarioLinks(scenarios: seq<Row>, links: seq<Row>, scenario: Value): seq<Row> {
    if Truthy(scenario) && ScenarioExists(scenarios, scenario) then Select(links, Eq("scenario_id", scenario)) else []
  }

  /** The rows copied are exactly the stored link rows of the given,
      existing scenario, each as often as the link table holds it, and there
      are no more of them than link rows. */
  lemma ScenarioLinksSelects(scenarios: seq<Row>, links: seq<Row>, scenario: Value)
    ensures |ScenarioLinks(scenarios, links, scenario)| <= |links|
    ensures forall l :: l in ScenarioLinks(scenarios, links, scenario) <==>
              Truthy(scenario) && ScenarioExists(scenarios, scenario) && l in links && Field(l, "scenario_id") == scenario
    ensures Truthy(scenario) && ScenarioExists(scenarios, scenario) ==>
              forall l :: multiset(ScenarioLinks(scenarios, links, scenario))[l]
                          == if Field(l, "scenario_id") == scenario then multiset(links)[l] else 0
  {
    SelectFilters(links, Eq("scenario_id", scenario));
  }

  /** Scenario ids are keys, so the join with the scenario table matches
      exactly one scenario row for a stored scenario and none otherwise:
      each link row of the scenario is read once. */
  lemma {:induction false} ScenarioMatchesOnce(scenarios: seq<Row>, scenario: Value)
    requires UniqueIds(scenarios)
    ensures |Select(scenarios, Eq("id", scenario))| == if ScenarioExists(scenarios, scenario) then 1 else 0
  {
    if scenarios != [] {
      var tail := scenarios[1..];
      assert UniqueIds(tail) by {
        forall i, j | 0 <= i < j < |tail| ensures tail[i].id != tail[j].id {
          assert tail[i] == scenarios[i + 1] && tail[j] == scenarios[j + 1];
        }
      }
      ScenarioMatchesOnce(tail, scenario);
      if Field(scenarios[0], "id") == scenario {
        forall j | 0 <= j < |tail| ensures Field(tail[j], "id") != scenario {
          assert tail[j] == scenarios[j + 1];
        }
      } else if ScenarioExists(scenarios, scenario) {
        var j :| 0 <= j < |scenarios| && Field(scenarios[j], "id") == scenario;
        assert Field(tail[j - 1], "id") == scenario;
      } else {
        forall j | 0 <= j < |tail| ensures Field(tail[j], "id") != scenario {
          assert tail[j] == scenarios[j + 1];
        }
      }
    }
  }

  /** The map configuration of the first link row that points at a stored
      configuration, if any. */
  function LinkedConfig(links: seq<Row>, configs: seq<Row>): Option<Row> {
    if links == [] then None
    else match First(configs, Eq("id", Field(links[0], "config_id")))
      case Some(k) => Some(configs[k])
      case None => LinkedConfig(links[1..], configs)
  }

  /** The configuration found is a stored one that some link row points
      at; none is found only when no link row points at a stored one. */
  lemma {:induction false} LinkedConfigFinds(links: seq<Row>, configs: seq<Row>)
    ensures var r := LinkedConfig(links, configs);
            && (r.Some? ==> r.value in configs)
            && (r.Some? ==> exists l :: l in links && Field(l, "config_id") == Field(r.value, "id"))
            && (r == None ==> forall l, c :: l in links && c in configs ==> Field(l, "config_id") != Field(c, "id"))
  {
    if links != [] {
      LinkedConfigFinds(links[1..], configs);
      assert links == [links[0]] + links[1..];
    }
  }

  /** The fields of the incident's new map configuration: a copy of the
      scenario's without its identity (id, uuid), or an empty one, in both
      cases named after the incident. */
  function NewConfigFields(source: Option<Row>, name: Value): (r: map<string, Value>)
    ensures "name" in r && r["name"] == name
    ensures "id" !in r && "uuid" !in r
    ensures source.None? ==> r.Keys == {"name"}
  {
    match source
    case Some(c) => (c.fields - {"id", "uuid"})["name" := name]
    case None => map["name" := name]
  }

  /** The copy keeps every other field of the scenario's configuration as it
      was and adds none but the name. */
  lemma NewConfigFieldsCopiesSource(c: Row, name: Value)
    ensures forall k :: k in c.fields && k !in {"id", "uuid", "name"} ==>
              k in NewConfigFields(Some(c), name) && NewConfigFields(Some(c), name)[k] == c.fields[k]
    ensures forall k :: k in NewConfigFields(Some(c), name) ==> k == "name" || k in c.fields
  {
  }

  /** The link tables `after` are `before` with the scenario's link rows
      appended for the incident: the sites always, the staff, assets and
      tasks only when their modules are enabled (otherwise unchanged). */
  predicate LinksCopied(before: LinkTables, after: LinkTables, t: ScenarioTables, hrEnabled: bool, assetEnabled: bool,
                        taskEnabled: bool, scenario: Value, incident: Value, from: nat)
  {
    && LinksAppended(before.sites, after.sites, ScenarioLinks(t.scenarios, t.sites, scenario), "site_id", incident, from)
    && (if hrEnabled
        then LinksAppended(before.hrs, after.hrs, ScenarioLinks(t.scenarios, t.hrs, scenario), "human_resource_id", incident, from)
        else after.hrs == before.hrs)
    && (if assetEnabled
        then LinksAppended(before.assets, after.assets, ScenarioLinks(t.scenarios, t.assets, scenario), "asset_id", incident, from)
        else after.assets == before.assets)
    && (if taskEnabled
        then LinksAppended(before.tasks, after.tasks, ScenarioLinks(t.scenarios, t.tasks, scenario), "task_id", incident, from)
        else after.tasks == before.tasks)
  }

  /** `after` is `before` with one configuration appended, carrying `fields`
      under a key that is not handed out before `from` and that no stored
      configuration has; `linksAfter` is `linksBefore` with one row linking
      that configuration to the incident. */
  predicate ConfigStored(before: seq<Row>, after: seq<Row>, linksBefore: seq<Row>, linksAfter: seq<Row>,
                         fields: map<string, Value>, incident: Value, from: nat)
  {
    && |after| == |before| + 1
    && after[..|before|] == before
    && from <= after[|before|].id
    && (forall k :: 0 <= k < |before| ==> before[k].id != after[|before|].id)
    && after[|before|].fields == fields
    && |linksAfter| == |linksBefore| + 1
    && linksAfter[..|linksBefore|] == linksBefore
    && from <= linksAfter[|linksBefore|].id
    && linksAfter[|linksBefore|].fields == map["incident_id" := incident, "config_id" := Int(after[|before|].id)]
  }

  /** The scenario link rows the creation hook copies, table by table: the
      sites always, the staff, assets and tasks only when their modules are
      enabled. */
  function LinksToCopy(t: ScenarioTables, hrEnabled: bool, assetEnabled: bool, taskEnabled: bool,
                       scenario: Value): LinkTables
  {
    LinkTables(ScenarioLinks(t.scenarios, t.sites, scenario),
               if hrEnabled then ScenarioLinks(t.scenarios, t.hrs, scenario) else [],
               if assetEnabled then ScenarioLinks(t.scenarios, t.assets, scenario) else [],
               if taskEnabled then ScenarioLinks(t.scenarios, t.tasks, scenario) else [])
  }

  /** How many rows, and so keys, a copy takes. */
  function LinkCount(l: LinkTables): nat {
    |l.sites| + |l.hrs| + |l.assets| + |l.tasks|
  }

  /** The incident link tables after the rows `src` are copied onto the
      incident in the hook's order (sites, staff, assets, tasks), the keys
      handed out one after the other from `start`. */
  function CopyLinks(before: LinkTables, src: LinkTables, incident: Value, start: nat): LinkTables {
    var hrStart := start + |src.sites|;
    var assetStart := hrStart + |src.hrs|;
    var taskStart := assetStart + |src.assets|;
    LinkTables(before.sites + NewLinks(src.sites, "site_id", incident, start),
               before.hrs + NewLinks(src.hrs, "human_resource_id", incident, hrStart),
               before.assets + NewLinks(src.assets, "asset_id", incident, assetStart),
               before.tasks + NewLinks(src.tasks, "task_id", incident, taskStart))
  }

  /** One table of the copy: the rows selected for it are appended, in
      order and under fresh keys, when its module is enabled; otherwise
      nothing is selected and the table stays as it was. */
  lemma TableCopied(before: seq<Row>, after: seq<Row>, src: seq<Row>, enabled: bool, selected: seq<Row>, key: string,
                    incident: Value, from: nat, start: nat)
    requires src == (if enabled then selected else []) && after == before + NewLinks(src, key, incident, start)
    requires from <= start
    ensures if enabled then LinksAppended(before, after, selected, key, incident, from) else after == before
  {
    if enabled {
      NewLinksAppended(before, src, key, incident, from, start);
    } else {
      assert before + [] == before;
    }
  }

  /** The sites of the scenario are always copied. */
  lemma SitesCopied(before: LinkTables, t: ScenarioTables, hrEnabled: bool, assetEnabled: bool, taskEnabled: bool,
                    scenario: Value, incident: Value, start: nat)
    ensures var after := CopyLinks(before, LinksToCopy(t, hrEnabled, assetEnabled, taskEnabled, scenario), incident, start);
            LinksAppended(before.sites, after.sites, ScenarioLinks(t.scenarios, t.sites, scenario), "site_id", incident,
                          start)
  {
    var src := LinksToCopy(t, hrEnabled, assetEnabled, taskEnabled, scenario);
    TableCopied(before.sites, CopyLinks(before, src, incident, start).sites, src.sites, true,
                ScenarioLinks(t.scenarios, t.sites, scenario), "site_id", incident, start, start);
  }

  /** Its staff only when the scenario staff table exists (its module is enabled). */
  lemma StaffCopied(before: LinkTables, t: ScenarioTables, hrEnabled: bool, assetEnabled: bool, taskEnabled: bool,
                    scenario: Value, incident: Value, start: nat)
    ensures var after := CopyLinks(before, LinksToCopy(t, hrEnabled, assetEnabled, taskEnabled, scenario), incident, start);
            if hrEnabled
            then LinksAppended(before.hrs, after.hrs, ScenarioLinks(t.scenarios, t.hrs, scenario), "human_resource_id",
                               incident, start)
            else after.hrs == before.hrs
  {
    var src := LinksToCopy(t, hrEnabled, assetEnabled, taskEnabled, scenario);
    TableCopied(before.hrs, CopyLinks(before, src, incident, start).hrs, src.hrs, hrEnabled,
                ScenarioLinks(t.scenarios, t.hrs, scenario), "human_resource_id", incident, start,
                start + |src.sites|);
  }

  /** Its assets only when the scenario asset table exists. */
  lemma AssetsCopied(before: LinkTables, t: ScenarioTables, hrEnabled: bool, assetEnabled: bool, taskEnabled: bool,
                     scenario: Value, incident: Value, start: nat)
    ensures var after := CopyLinks(before, LinksToCopy(t, hrEnabled, assetEnabled, taskEnabled, scenario), incident, start);
            if assetEnabled
            then LinksAppended(before.assets, after.assets, ScenarioLinks(t.scenarios, t.assets, scenario), "asset_id",
                               incident, start)
            else after.assets == before.assets
  {
    var src := LinksToCopy(t, hrEnabled, assetEnabled, taskEnabled, scenario);
    TableCopied(before.assets, CopyLinks(before, src, incident, start).assets, src.assets, assetEnabled,
                ScenarioLinks(t.scenarios, t.assets, scenario), "asset_id", incident, start,
                start + |src.sites| + |src.hrs|);
  }

  /** Its tasks only when the scenario task table exists. */
  lemma TasksCopied(before: LinkTables, t: ScenarioTables, hrEnabled: bool, assetEnabled: bool, taskEnabled: bool,
                    scenario: Value, incident: Value, start: nat)
    ensures var after := CopyLinks(before, LinksToCopy(t, hrEnabled, assetEnabled, taskEnabled, scenario), incident, start);
            if taskEnabled
            then LinksAppended(before.tasks, after.tasks, ScenarioLinks(t.scenarios, t.tasks, scenario), "task_id",
                               incident, start)
            else after.tasks == before.tasks
  {
    var src := LinksToCopy(t, hrEnabled, assetEnabled, taskEnabled, scenario);
    TableCopied(before.tasks, CopyLinks(before, src, incident, start).tasks, src.tasks, taskEnabled,
                ScenarioLinks(t.scenarios, t.tasks, scenario), "task_id", incident, start,
                start + |src.sites| + |src.hrs| + |src.assets|);
  }

  /** The copy appends each scenario link row, in order and under fresh
      keys, to its incident link table, and leaves the tables of disabled
      modules as they were. */
  lemma CopyLinksCopies(before: LinkTables, t: ScenarioTables, hrEnabled: bool, assetEnabled: bool, taskEnabled: bool,
                        scenario: Value, incident: Value, start: nat)
    ensures LinksCopied(before, CopyLinks(before, LinksToCopy(t, hrEnabled, assetEnabled, taskEnabled, scenario),
                                          incident, start),
                        t, hrEnabled, assetEnabled, taskEnabled, scenario, incident, start)
  {
    SitesCopied(before, t, hrEnabled, assetEnabled, taskEnabled, scenario, incident, start);
    StaffCopied(before, t, hrEnabled, assetEnabled, taskEnabled, scenario, incident, start);
    AssetsCopied(before, t, hrEnabled, assetEnabled, taskEnabled, scenario, incident, start);
    TasksCopied(before, t, hrEnabled, assetEnabled, taskEnabled, scenario, incident, start);
  }

  /** Without a scenario there is nothing to copy. */
  lemma NoScenarioNoLinks(before: LinkTables, t: ScenarioTables, hrEnabled: bool, assetEnabled: bool,
                          taskEnabled: bool, scenario: Value, incident: Value, start: nat)
    requires !Truthy(scenario)
    ensures LinkCount(LinksToCopy(t, hrEnabled, assetEnabled, taskEnabled, scenario)) == 0
    ensures CopyLinks(before, LinksToCopy(t, hrEnabled, assetEnabled, taskEnabled, scenario), incident, start) == before
  {
    var after := CopyLinks(before, LinksToCopy(t, hrEnabled, assetEnabled, taskEnabled, scenario), incident, start);
    assert after.sites == before.sites + [];
    assert after.hrs == before.hrs + [];
    assert after.assets == before.assets + [];
    assert after.tasks == before.tasks + [];
  }

  /** The new configuration and its link to the incident take the next two
      keys, which no stored configuration has. */
  lemma NewConfigStored(configs: seq<Row>, eventConfigs: seq<Row>, fields: map<string, Value>, incident: Value,
                        from: nat, key: nat)
    requires IdsBelow(configs, from) && from <= key
    ensures ConfigStored(configs, configs + [Row(key, fields)],
                         eventConfigs, eventConfigs + [Row(key + 1, map["incident_id" := incident, "config_id" := Int(key)])],
                         fields, incident, from)
  {
    assert (configs + [Row(key, fields)])[..|configs|] == configs;
    assert (eventConfigs + [Row(key + 1, map["incident_id" := incident, "config_id" := Int(key)])])[..|eventConfigs|]
        == eventConfigs;
  }

  /** What populating the incident `incident` from the form values `vars` does:
      the event (if given) becomes the active one; the scenario's link rows
      (staff, assets and tasks only when their modules are enabled) are
      copied onto the incident under the next keys (`CopyLinksCopies`); then
      one new map configuration, a copy of the scenario's or an empty one
      named after the incident, is stored under the next key and linked to
      the incident (`NewConfigStored`); the scenario's own rows, including
      its map configuration, stay as they were. */
  twostate predicate Populated(db: Db, session: Session, vars: map<string, Value>, incident: Value)
    reads db, session
  {
    var scenario := Get(vars, "scenario_id");
    var copied := LinksToCopy(old(db.Scenarios()), db.hrEnabled, db.assetEnabled, db.taskEnabled, scenario);
    var config := old(db.nextId) + LinkCount(copied);
    var mapconfig := LinkedConfig(ScenarioLinks(old(db.scenarios), old(db.scenarioConfigs), scenario), old(db.configs));
    && session.event == (if Truthy(Get(vars, "event_id")) then Get(vars, "event_id") else old(session.event))
    && db.Links() == CopyLinks(old(db.Links()), copied, incident, old(db.nextId))
    && db.configs == old(db.configs) + [Row(config, NewConfigFields(mapconfig, Get(vars, "name")))]
    && db.eventConfigs
       == old(db.eventConfigs) + [Row(config + 1, map["incident_id" := incident, "config_id" := Int(config)])]
  }

  /** The `if scenario:` block of the creation hook: every link row of the
      scenario is selected, the optional ones only when their modules are
      enabled, and copied onto the incident; without a scenario nothing is
      copied. */
  method CopyScenario(db: Db, scenario: Value, incident: Value)
    requires db.Valid()
    modifies db`eventSites, db`eventHrs, db`eventAssets, db`eventTasks, db`nextId
    ensures db.Valid()
    ensures db.nextId == old(db.nextId) + LinkCount(LinksToCopy(old(db.Scenarios()), db.hrEnabled, db.assetEnabled,
                                                                db.taskEnabled, scenario))
    ensures db.Links() == CopyLinks(old(db.Links()), LinksToCopy(old(db.Scenarios()), db.hrEnabled, db.assetEnabled,
                                                                 db.taskEnabled, scenario), incident, old(db.nextId))
  {
    var src := LinksToCopy(db.Scenarios(), db.hrEnabled, db.assetEnabled, db.taskEnabled, scenario);
    if Truthy(scenario) {
      CopyScenarioLinks(db, src, incident);
    } else {
      NoScenarioNoLinks(db.Links(), db.Scenarios(), db.hrEnabled, db.assetEnabled, db.taskEnabled, scenario, incident,
                        db.nextId);
    }
  }

  /** The copy step of the creation hook: the selected link rows are
      inserted for the incident, table by table, each row under the next key
      (none for a module that is not enabled, for which nothing was
      selected). */
  method CopyScenarioLinks(db: Db, src: LinkTables, incident: Value)
    requires db.Valid()
    modifies db`eventSites, db`eventHrs, db`eventAssets, db`eventTasks, db`nextId
    ensures db.Valid()
    ensures db.nextId == old(db.nextId) + LinkCount(src)
    ensures db.Links() == CopyLinks(old(db.Links()), src, incident, old(db.nextId))
  {
    CopySites(db, src.sites, incident);
    CopyHumanResources(db, src.hrs, incident);
    CopyAssets(db, src.assets, incident);
    CopyTasks(db, src.tasks, incident);
  }

  /** One link row per selected scenario site, each under the next key. */
  method CopySites(db: Db, links: seq<Row>, incident: Value)
    requires db.Valid()
    modifies db`eventSites, db`nextId
    ensures db.Valid() && db.nextId == old(db.nextId) + |links|
    ensures db.eventSites == old(db.eventSites) + NewLinks(links, "site_id", incident, old(db.nextId))
  {
    NewLinksKeysBelow(db.eventSites, links, "site_id", incident, db.nextId, db.nextId + |links|);
    db.eventSites := db.InsertLinks(db.eventSites, links, "site_id", incident);
  }

  /** One link row per selected staff member, each under the next key. */
  method CopyHumanResources(db: Db, links: seq<Row>, incident: Value)
    requires db.Valid()
    modifies db`eventHrs, db`nextId
    ensures db.Valid() && db.nextId == old(db.nextId) + |links|
    ensures db.eventHrs == old(db.eventHrs) + NewLinks(links, "human_resource_id", incident, old(db.nextId))
  {
    NewLinksKeysBelow(db.eventHrs, links, "human_resource_id", incident, db.nextId, db.nextId + |links|);
    db.eventHrs := db.InsertLinks(db.eventHrs, links, "human_resource_id", incident);
  }

  /** One link row per selected asset, each under the next key. */
  method CopyAssets(db: Db, links: seq<Row>, incident: Value)
    requires db.Valid()
    modifies db`eventAssets, db`nextId
    ensures db.Valid() && db.nextId == old(db.nextId) + |links|
    ensures db.eventAssets == old(db.eventAssets) + NewLinks(links, "asset_id", incident, old(db.nextId))
  {
    NewLinksKeysBelow(db.eventAssets, links, "asset_id", incident, db.nextId, db.nextId + |links|);
    db.eventAssets := db.InsertLinks(db.eventAssets, links, "asset_id", incident);
  }

  /** One link row per selected task, each under the next key. */
  method CopyTasks(db: Db, links: seq<Row>, incident: Value)
    requires db.Valid()
    modifies db`eventTasks, db`nextId
    ensures db.Valid() && db.nextId == old(db.nextId) + |links|
    ensures db.eventTasks == old(db.eventTasks) + NewLinks(links, "task_id", incident, old(db.nextId))
  {
    NewLinksKeysBelow(db.eventTasks, links, "task_id", incident, db.nextId, db.nextId + |links|);
    db.eventTasks := db.InsertLinks(db.eventTasks, links, "task_id", incident);
  }

  /** The body of the creation hook, for a given value of the incident's id. */
  method PopulateIncident(db: Db, session: Session, vars: map<string, Value>, incident: Value)
    requires db.Valid()
    modifies db`eventSites, db`eventHrs, db`eventAssets, db`eventTasks, db`eventConfigs, db`configs, db`nextId
    modifies session`event
    ensures db.Valid()
    ensures Populated(db, session, vars, incident)
  {
    ghost var config := db.nextId + LinkCount(LinksToCopy(db.Scenarios(), db.hrEnabled, db.assetEnabled,
                                                          db.taskEnabled, Get(vars, "scenario_id")));
    ActivateEvent(session, Get(vars, "event_id"));
    var scenario := Get(vars, "scenario_id");
    var mapconfig := LinkedConfig(ScenarioLinks(db.scenarios, db.scenarioConfigs, scenario), db.configs);
    CopyScenario(db, scenario, incident);
    assert db.nextId == config;
    StoreMapConfig(db, mapconfig, Get(vars, "name"), incident);
  }

  /** A given event becomes the session's active event. */
  method ActivateEvent(session: Session, event: Value)
    modifies session`event
    ensures session.event == if Truthy(event) then event else old(session.event)
  {
    if Truthy(event) {
      session.event := event;
    }
  }

  /** The map-configuration step of the creation hook: store a copy of the
      scenario's configuration (or an empty one) under the incident's name
      and the next key, and link it to the incident under the key after. */
  method StoreMapConfig(db: Db, mapconfig: Option<Row>, name: Value, incident: Value)
    requires db.Valid()
    modifies db`configs, db`eventConfigs, db`nextId
    ensures db.Valid() && db.nextId == old(db.nextId) + 2
    ensures db.configs == old(db.configs) + [Row(old(db.nextId), NewConfigFields(mapconfig, name))]
    ensures db.eventConfigs == old(db.eventConfigs)
                               + [Row(old(db.nextId) + 1, map["incident_id" := incident, "config_id" := Int(old(db.nextId))])]
  {
    var config := db.nextId;
    if mapconfig.Some? {
      // A copy of the scenario's configuration, so that the incident can
      // change it without changing the scenario's.
      db.configs := db.configs + [Row(config, NewConfigFields(mapconfig, name))];
    } else {
      db.configs := db.configs + [Row(config, map["name" := name])];
    }
    db.nextId := db.nextId + 1;
    db.eventConfigs := db.eventConfigs + [Row(db.nextId, map["incident_id" := incident, "config_id" := Int(config)])];
    db.nextId := db.nextId + 1;
  }

  /** `incident_create_onaccept`, reading the incident's id from the form's
      `id` value, which is where a created record's id is. */
  method IncidentCreateOnaccept(db: Db, session: Session, vars: map<string, Value>)
    requires db.Valid()
    modifies db`eventSites, db`eventHrs, db`eventAssets, db`eventTasks, db`eventConfigs, db`configs, db`nextId
    modifies session`event
    ensures db.Valid()
    ensures Populated(db, session, vars, Get(vars, "id"))
  {
    PopulateIncident(db, session, vars, Get(vars, "id"));
  }

  /** `incident_create_onaccept` as written: it reads the incident's id from
      a form value `incident_id`, which an incident form does not have. */
  method IncidentCreateOnacceptAsWritten(db: Db, session: Session, vars: map<string, Value>)
    requires db.Valid()
    modifies db`eventSites, db`eventHrs, db`eventAssets, db`eventTasks, db`eventConfigs, db`configs, db`nextId
    modifies session`event
    ensures db.Valid()
    ensures Populated(db, session, vars, Get(vars, "incident_id"))
  {
    PopulateIncident(db, session, vars, Get(vars, "incident_id"));
  }

  /** As written, the hook takes the incident's id from a form value that
      the form of a created incident never has: every link row it copies
      then refers to no incident (a NULL `incident_id`). */
  lemma AsWrittenCopiesReferToNoIncident(vars: map<string, Value>, before: seq<Row>, after: seq<Row>, src: seq<Row>,
                                         key: string, from: nat)
    requires "incident_id" !in vars && key != "incident_id"
    requires LinksAppended(before, after, src, key, Get(vars, "incident_id"), from)
    ensures forall j :: |before| <= j < |after| ==> after[j].fields["incident_id"] == Null
  {
  }

  /** With the corrected lookup every copied link row refers to the created
      incident. */
  lemma CopiesReferToTheIncident(vars: map<string, Value>, before: seq<Row>, after: seq<Row>, src: seq<Row>,
                                 key: string, from: nat)
    requires key != "incident_id"
    requires LinksAppended(before, after, src, key, Get(vars, "id"), from)
    ensures forall j :: |before| <= j < |after| ==> after[j].fields["incident_id"] == Get(vars, "id")
  {
  }

  // A scenario "Flood Response Template" with two sites, one task and the
  // map configuration "Flood Default".
  const FloodScenarios := [Row(1, map["name" := Str("Flood Response Template")])]
  const FloodSites := [Row(2, map["scenario_id" := Int(1), "site_id" := Int(10)]),
                       Row(3, map["scenario_id" := Int(1), "site_id" := Int(11)])]
  const FloodTasks := [Row(4, map["scenario_id" := Int(1), "task_id" := Int(20)])]
  const FloodDefault := Row(5, map["name" := Str("Flood Default"), "uuid" := Str("a1")])
  const FloodConfigLinks := [Row(6, map["scenario_id" := Int(1), "config_id" := Int(5)])]

  /** The hook copies every link row of the flood scenario. */
  lemma FloodTemplateLinks()
    ensures ScenarioLinks(FloodScenarios, FloodSites, Int(1)) == FloodSites
    ensures ScenarioLinks(FloodScenarios, FloodTasks, Int(1)) == FloodTasks
  {
    assert Field(FloodScenarios[0], "id") == Int(1);
    SelectAll(FloodSites, Eq("scenario_id", Int(1)));
    SelectAll(FloodTasks, Eq("scenario_id", Int(1)));
  }

  /** The flood scenario's map configuration is found, and its copy for the
      incident "Flood 2024-03" keeps nothing of the template but is named
      after the incident. */
  lemma FloodTemplateConfig()
    ensures LinkedConfig(ScenarioLinks(FloodScenarios, FloodConfigLinks, Int(1)), [FloodDefault]) == Some(FloodDefault)
    ensures NewConfigFields(Some(FloodDefault), Str("Flood 2024-03")) == map["name" := Str("Flood 2024-03")]
  {
    assert Field(FloodScenarios[0], "id") == Int(1);
    SelectAll(FloodConfigLinks, Eq("scenario_id", Int(1)));
    assert First([FloodDefault], Eq("id", Int(5))) == Some(0);
  }
}
