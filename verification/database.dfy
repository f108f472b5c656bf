/**
 * The in-memory database the lifecycle hooks work on: one sequence of rows
 * per table they read or write, the optional scenario link tables that exist
 * only when their modules are enabled, and a counter that hands out fresh
 * primary keys on insert. The session holds the active event.
 */
module Database {
  import opened Records

  /** Every row of the table has an id below `n`. */
  predicate IdsBelow(table: seq<Row>, n: nat) {
    forall i :: 0 <= i < |table| ==> table[i].id < n
  }

  /** No two rows share a primary key. */
  predicate UniqueIds(table: seq<Row>) {
    forall i, j :: 0 <= i < j < |table| ==> table[i].id != table[j].id
  }

  /** The fields of the incident link row made from a scenario link row: the
      incident's id and the linked entity's id under `key`. */
  function LinkRow(src: Row, key: string, incident: Value): map<string, Value> {
    map["incident_id" := incident, key := Field(src, key)]
  }

  /** `after` is `before` followed by one new row per source link, in source
      order, carrying the link's fields, with increasing ids not handed out
      before `fromId`. */
  predicate LinksAppended(before: seq<Row>, after: seq<Row>, src: seq<Row>, key: string, incident: Value, fromId: nat) {
    && |after| == |before| + |src|
    && (forall i :: 0 <= i < |before| ==> after[i] == before[i])
    && (forall j :: |before| <= j < |after| ==> after[j].fields == LinkRow(src[j - |before|], key, incident))
    && (forall j :: |before| <= j < |after| ==> fromId <= after[j].id)
    && (forall i, j :: |before| <= i < j < |after| ==> after[i].id < after[j].id)
  }

  /** The link rows inserted for the source links `src`, in source order,
      under consecutive keys handed out from `start`. */
  function NewLinks(src: seq<Row>, key: string, incident: Value, start: nat): seq<Row>
    decreases |src|
  {
    if src == [] then [] else [Row(start, LinkRow(src[0], key, incident))] + NewLinks(src[1..], key, incident, start + 1)
  }

  /** One more source link is one more row, under the next key. */
  lemma {:induction false} NewLinksSnoc(src: seq<Row>, link: Row, key: string, incident: Value, start: nat)
    ensures NewLinks(src + [link], key, incident, start)
         == NewLinks(src, key, incident, start) + [Row(start + |src|, LinkRow(link, key, incident))]
  {
    if src != [] {
      assert (src + [link])[1..] == src[1..] + [link];
      NewLinksSnoc(src[1..], link, key, incident, start + 1);
    }
  }

  /** Appending `NewLinks` is appending one link row per source link, in
      source order, under increasing keys not handed out before `start`
      (nor, then, before any earlier `from`). */
  lemma {:induction false} NewLinksAppended(before: seq<Row>, src: seq<Row>, key: string, incident: Value, from: nat,
                                            start: nat)
    requires from <= start
    ensures LinksAppended(before, before + NewLinks(src, key, incident, start), src, key, incident, from)
  {
    var added := NewLinks(src, key, incident, start);
    NewLinksKeys(src, key, incident, start);
    assert forall j :: |before| <= j < |before| + |added| ==> (before + added)[j] == added[j - |before|];
  }

  /** Keys handed out from `start` to a table whose keys are all below
      `start` keep all its keys below the counter's next value. */
  lemma NewLinksKeysBelow(target: seq<Row>, src: seq<Row>, key: string, incident: Value, start: nat, end: nat)
    requires IdsBelow(target, start) && start + |src| <= end
    ensures IdsBelow(target + NewLinks(src, key, incident, start), end)
  {
    NewLinksKeys(src, key, incident, start);
  }

  /** The `j`-th new row is made from the `j`-th source link, under key `start + j`. */
  lemma {:induction false} NewLinksKeys(src: seq<Row>, key: string, incident: Value, start: nat)
    ensures |NewLinks(src, key, incident, start)| == |src|
    ensures forall j :: 0 <= j < |src| ==> NewLinks(src, key, incident, start)[j] == Row(start + j, LinkRow(src[j], key, incident))
  {
    if src != [] {
      NewLinksKeys(src[1..], key, incident, start + 1);
    }
  }

  /** The incident link tables the creation hook appends to. */
  datatype LinkTables = LinkTables(sites: seq<Row>, hrs: seq<Row>, assets: seq<Row>, tasks: seq<Row>)

  /** The scenario tables the creation hook copies from. */
  datatype ScenarioTables = ScenarioTables(scenarios: seq<Row>, sites: seq<Row>, hrs: seq<Row>, assets: seq<Row>,
                                           tasks: seq<Row>)

  /** The user's session: `session.s3.event`, the active event. */
  class Session {
    var event: Value

    constructor ()
      ensures event == Null
    {
      event := Null;
    }
  }

  class Db {
    var posts: seq<Row>             // cms_post
    var eventPosts: seq<Row>        // event_post: event_id, post_id
    var scenarios: seq<Row>         // scenario_scenario
    var scenarioSites: seq<Row>     // scenario_site: scenario_id, site_id
    var scenarioHrs: seq<Row>       // scenario_human_resource: scenario_id, human_resource_id
    var scenarioAssets: seq<Row>    // scenario_asset: scenario_id, asset_id
    var scenarioTasks: seq<Row>     // scenario_task: scenario_id, task_id
    var scenarioConfigs: seq<Row>   // scenario_config: scenario_id, config_id
    var eventSites: seq<Row>        // event_site: incident_id, site_id
    var eventHrs: seq<Row>          // event_human_resource: incident_id, human_resource_id
    var eventAssets: seq<Row>       // event_asset: incident_id, asset_id
    var eventTasks: seq<Row>        // event_task: incident_id, task_id
    var eventConfigs: seq<Row>      // event_config: incident_id, config_id
    var configs: seq<Row>           // gis_config
    var nextId: nat
    /** Whether the optional scenario link tables for staff, assets and tasks exist. */
    const hrEnabled: bool
    const assetEnabled: bool
    const taskEnabled: bool

    /** Every id stored in a table the hooks insert into was handed out by
        the counter, so the counter's next value is a fresh key; scenario ids
        are keys. */
    ghost predicate Valid()
      reads this
    {
      && IdsBelow(eventSites, nextId) && IdsBelow(eventHrs, nextId)
      && IdsBelow(eventAssets, nextId) && IdsBelow(eventTasks, nextId)
      && IdsBelow(eventConfigs, nextId) && IdsBelow(configs, nextId)
      && UniqueIds(scenarios)
    }

    function Links(): LinkTables
      reads this`eventSites, this`eventHrs, this`eventAssets, this`eventTasks
    {
      LinkTables(eventSites, eventHrs, eventAssets, eventTasks)
    }

    function Scenarios(): ScenarioTables
      reads this`scenarios, this`scenarioSites, this`scenarioHrs, this`scenarioAssets, this`scenarioTasks
    {
      ScenarioTables(scenarios, scenarioSites, scenarioHrs, scenarioAssets, scenarioTasks)
    }

    constructor (hrEnabled: bool, assetEnabled: bool, taskEnabled: bool)
      ensures Valid()
      ensures this.hrEnabled == hrEnabled && this.assetEnabled == assetEnabled && this.taskEnabled == taskEnabled
      ensures posts == eventPosts == scenarios == scenarioSites == scenarioHrs == scenarioAssets == []
      ensures scenarioTasks == scenarioConfigs == eventSites == eventHrs == eventAssets == eventTasks == []
      ensures eventConfigs == configs == []
      ensures nextId == 1
    {
      this.hrEnabled, this.assetEnabled, this.taskEnabled := hrEnabled, assetEnabled, taskEnabled;
      posts, eventPosts, scenarios, scenarioSites, scenarioHrs, scenarioAssets := [], [], [], [], [], [];
      scenarioTasks, scenarioConfigs, eventSites, eventHrs, eventAssets, eventTasks := [], [], [], [], [], [];
      eventConfigs, configs := [], [];
      nextId := 1;
    }

    /** Inserts, into the link table `target`, one row per source link row:
        the incident's id and the source row's `key` field, each row under
        the next key of the counter (`NewLinksAppended`, `NewLinksKeysBelow`). */
    method InsertLinks(target: seq<Row>, src: seq<Row>, key: string, incident: Value) returns (result: seq<Row>)
      modifies this`nextId
      ensures nextId == old(nextId) + |src|
      ensures result == target + NewLinks(src, key, incident, old(nextId))
    {
      result := target;
      var i := 0;
      while i < |src|
        invariant 0 <= i <= |src|
        invariant nextId == old(nextId) + i
        invariant result == target + NewLinks(src[..i], key, incident, old(nextId))
      {
        assert src[..i + 1] == src[..i] + [src[i]];
        NewLinksSnoc(src[..i], src[i], key, incident, old(nextId));
        result := result + [Row(nextId, LinkRow(src[i], key, incident))];
        nextId := nextId + 1;
        i := i + 1;
      }
      assert src[..i] == src;
    }
  }
}
