/**
 * The deduplication resolvers of the event module (events, event types,
 * event tags, incidents, incident types) and the event "year" virtual field.
 *
 * Each resolver is given twice: a specification function `...DuplicateOf`
 * saying which stored row the incoming record duplicates (the first row that
 * matches it under the resolver's rule, or none), and a method that does what
 * the source does (builds the query, selects the first row, rewrites the item)
 * and is proved to agree with the specification.
 */
module EventDedup {
  import opened Records
  import opened Dal
  import opened Import

  // ---------------------------------------------------------------------------
  // event_duplicate

  /** The row agrees with the data on every listed field whose value in the
      data is truthy. */
  predicate AgreesOn(data: map<string, Value>, fields: seq<string>, row: Row) {
    forall i :: 0 <= i < |fields| && Truthy(Get(data, fields[i])) ==> Field(row, fields[i]) == Get(data, fields[i])
  }

  /** The mandatory part of the event query: one equality per listed field that
      has a truthy value, joined with `&`; no query at all when none has one. */
  method MandatoryQuery(data: map<string, Value>, fields: seq<string>) returns (query: Option<Query>)
    ensures query == None <==> forall i :: 0 <= i < |fields| ==> !Truthy(Get(data, fields[i]))
    ensures query.Some? ==> forall row :: Holds(query.value, row) <==> AgreesOn(data, fields, row)
  {
    query := None;
    var n := 0;
    while n < |fields|
      invariant 0 <= n <= |fields|
      invariant query == None <==> forall i :: 0 <= i < n ==> !Truthy(Get(data, fields[i]))
      invariant query.Some? ==> forall row :: Holds(query.value, row) <==> AgreesOn(data, fields[..n], row)
    {
      var value := Get(data, fields[n]);
      if Truthy(value) {
        var q := Eq(fields[n], value);
        query := if query.Some? then Some(And(query.value, q)) else Some(q);
      }
      assert fields[..n + 1] == fields[..n] + [fields[n]];
      n := n + 1;
    }
    assert fields[..n] == fields;
  }

  lemma AgreesOnNameAndStartDate(data: map<string, Value>, row: Row)
    ensures AgreesOn(data, ["name", "start_date"], row) <==>
              (Truthy(Get(data, "name")) ==> Field(row, "name") == Get(data, "name")) &&
              (Truthy(Get(data, "start_date")) ==> Field(row, "start_date") == Get(data, "start_date"))
  {
    var keys := ["name", "start_date"];
    assert keys[0] == "name" && keys[1] == "start_date";
  }

  /** An event record carries at least one of its mandatory keys. */
  predicate HasEventKey(data: map<string, Value>) {
    Truthy(Get(data, "name")) || Truthy(Get(data, "start_date"))
  }

  /** The event rule: equal on every non-empty key among name and start date,
      and on the event type when one is supplied. */
  predicate EventMatch(data: map<string, Value>, row: Row) {
    && (Truthy(Get(data, "name")) ==> Field(row, "name") == Get(data, "name"))
    && (Truthy(Get(data, "start_date")) ==> Field(row, "start_date") == Get(data, "start_date"))
    && (Truthy(Get(data, "event_type_id")) ==> Field(row, "event_type_id") == Get(data, "event_type_id"))
  }

  function EventDuplicateOf(tablename: string, data: map<string, Value>, table: seq<Row>): (r: Option<nat>)
    ensures tablename != "event_event" || !HasEventKey(data) ==> r == None
    ensures r.Some? ==> r.value < |table| && EventMatch(data, table[r.value])
    ensures r.Some? ==> forall j :: 0 <= j < r.value ==> !EventMatch(data, table[j])
    ensures tablename == "event_event" && HasEventKey(data) && r == None ==>
              forall j :: 0 <= j < |table| ==> !EventMatch(data, table[j])
  {
    if tablename != "event_event" || !HasEventKey(data) then None
    else FirstWhere(table, (row: Row) => EventMatch(data, row))
  }

  method EventDuplicate(item: ImportItem, table: seq<Row>)
    modifies item
    ensures Resolved(item, table, EventDuplicateOf(item.tablename, old(item.data), table), true)
  {
    if item.tablename != "event_event" {
      return;
    }
    var data := item.data;
    var keys := ["name", "start_date"];
    var query := MandatoryQuery(data, keys);
    if query == None {
      assert !Truthy(Get(data, keys[0])) && !Truthy(Get(data, keys[1]));
      return;
    }
    var q := query.value;
    var eventTypeId := Get(data, "event_type_id");
    if Truthy(eventTypeId) {
      q := And(q, Eq("event_type_id", eventTypeId));
    }
    forall row ensures Holds(q, row) == EventMatch(data, row) {
      AgreesOnNameAndStartDate(data, row);
    }
    FirstIsFirstWhere(table, q, (row: Row) => EventMatch(data, row));
    var duplicate := First(table, q);
    if duplicate.Some? {
      item.MarkDuplicate(table[duplicate.value].id, true);
    }
  }

  /** Writing the duplicate's id into the data does not change what the record
      duplicates, so running the resolver again after a rewrite repeats it. */
  lemma EventDuplicateIgnoresDataId(tablename: string, data: map<string, Value>, table: seq<Row>, v: Value)
    ensures EventDuplicateOf(tablename, data["id" := v], table) == EventDuplicateOf(tablename, data, table)
  {
    var data' := data["id" := v];
    assert Get(data', "name") == Get(data, "name");
    assert Get(data', "start_date") == Get(data, "start_date");
    assert Get(data', "event_type_id") == Get(data, "event_type_id");
    FirstWhereCongruent(table, (row: Row) => EventMatch(data', row), (row: Row) => EventMatch(data, row));
  }

  /** Importing the same event twice: once the first import is stored as a new
      last row, the second import is recognised as a duplicate of that row. */
  lemma EventSecondImportUpdatesFirst(data: map<string, Value>, table: seq<Row>, newId: nat)
    requires HasEventKey(data)
    requires EventDuplicateOf("event_event", data, table) == None
    ensures EventDuplicateOf("event_event", data, table + [Row(newId, data - {"id"})]) == Some(|table|)
  {
    var table' := table + [Row(newId, data - {"id"})];
    var stored := table'[|table|];
    assert Field(stored, "name") == Get(data, "name");
    assert Field(stored, "start_date") == Get(data, "start_date");
    assert Field(stored, "event_type_id") == Get(data, "event_type_id");
    assert EventMatch(data, stored);
    forall j | 0 <= j < |table| ensures !EventMatch(data, table'[j]) {
      assert table'[j] == table[j];
    }
  }

  /** Start dates are compared to the second: an event starting on the same
      day at another time is not a duplicate. */
  lemma EventOnSameDayAtOtherTimeIsNew(name: Value, id: nat)
    requires Truthy(name)
    ensures var stored := Row(id, map["name" := name, "start_date" := DateTime(2024, 3, 1, 8 * 3600)]);
            EventDuplicateOf("event_event", map["name" := name, "start_date" := DateTime(2024, 3, 1, 17 * 3600)],
                             [stored]) == None
  {
    var data := map["name" := name, "start_date" := DateTime(2024, 3, 1, 17 * 3600)];
    var stored := Row(id, map["name" := name, "start_date" := DateTime(2024, 3, 1, 8 * 3600)]);
    assert Field(stored, "start_date") != Get(data, "start_date");
    assert !EventMatch(data, stored);
  }

  // ---------------------------------------------------------------------------
  // event_type_duplicate

  function EventTypeDuplicateOf(tablename: string, data: map<string, Value>, table: seq<Row>): (r: Option<nat>)
    ensures tablename != "event_event_type" || !Truthy(Get(data, "name")) ==> r == None
    ensures r.Some? ==> r.value < |table| && Field(table[r.value], "name") == Get(data, "name")
    ensures r.Some? ==> forall j :: 0 <= j < r.value ==> Field(table[j], "name") != Get(data, "name")
    ensures tablename == "event_event_type" && Truthy(Get(data, "name")) && r == None ==>
              forall j :: 0 <= j < |table| ==> Field(table[j], "name") != Get(data, "name")
  {
    if tablename != "event_event_type" || !Truthy(Get(data, "name")) then None
    else FirstWhere(table, (row: Row) => Field(row, "name") == Get(data, "name"))
  }

  method EventTypeDuplicate(item: ImportItem, table: seq<Row>)
    modifies item
    ensures Resolved(item, table, EventTypeDuplicateOf(item.tablename, old(item.data), table), true)
  {
    if item.tablename != "event_event_type" {
      return;
    }
    var data := item.data;
    var name := Get(data, "name");
    if !Truthy(name) {
      return;
    }
    var q := Eq("name", name);
    FirstIsFirstWhere(table, q, (row: Row) => Field(row, "name") == Get(data, "name"));
    var duplicate := First(table, q);
    if duplicate.Some? {
      item.MarkDuplicate(table[duplicate.value].id, true);
    }
  }

  /** Importing the same event type twice: the second import is recognised
      as a duplicate of the row the first one stored. */
  lemma EventTypeSecondImportUpdatesFirst(data: map<string, Value>, table: seq<Row>, newId: nat)
    requires Truthy(Get(data, "name"))
    requires EventTypeDuplicateOf("event_event_type", data, table) == None
    ensures EventTypeDuplicateOf("event_event_type", data, table + [Row(newId, data - {"id"})]) == Some(|table|)
  {
    var table' := table + [Row(newId, data - {"id"})];
    assert Field(table'[|table|], "name") == Get(data, "name");
    forall j | 0 <= j < |table| ensures Field(table'[j], "name") != Get(data, "name") {
      assert table'[j] == table[j];
    }
  }

  // ---------------------------------------------------------------------------
  // event_event_tag_deduplicate

  /** The tag rule: same event, tag equal ignoring case. */
  predicate TagMatch(data: map<string, Value>, row: Row) {
    LowerEq(Field(row, "tag"), Get(data, "tag")) && Field(row, "event_id") == Get(data, "event_id")
  }

  function EventTagDuplicateOf(tablename: string, data: map<string, Value>, table: seq<Row>): (r: Option<nat>)
    ensures tablename != "event_event_tag" || !Truthy(Get(data, "tag")) || !Truthy(Get(data, "event_id")) ==> r == None
    ensures r.Some? ==> r.value < |table| && TagMatch(data, table[r.value])
    ensures r.Some? ==> forall j :: 0 <= j < r.value ==> !TagMatch(data, table[j])
    ensures tablename == "event_event_tag" && Truthy(Get(data, "tag")) && Truthy(Get(data, "event_id")) && r == None ==>
              forall j :: 0 <= j < |table| ==> !TagMatch(data, table[j])
  {
    if tablename != "event_event_tag" || !Truthy(Get(data, "tag")) || !Truthy(Get(data, "event_id")) then None
    else FirstWhere(table, (row: Row) => TagMatch(data, row))
  }

  /** The tag is lower-cased with a string method, so a supplied tag is text. */
  method EventEventTagDeduplicate(item: ImportItem, table: seq<Row>)
    requires item.tablename == "event_event_tag" && Truthy(Get(item.data, "tag")) && Truthy(Get(item.data, "event_id"))
             ==> Get(item.data, "tag").Str?
    modifies item
    ensures Resolved(item, table, EventTagDuplicateOf(item.tablename, old(item.data), table), false)
  {
    if item.tablename != "event_event_tag" {
      return;
    }
    var data := item.data;
    var tag := Get(data, "tag");
    var event := Get(data, "event_id");
    if !Truthy(tag) || !Truthy(event) {
      return;
    }
    var q := And(EqLower("tag", tag.s), Eq("event_id", event));
    FirstIsFirstWhere(table, q, (row: Row) => TagMatch(data, row));
    var duplicate := First(table, q);
    if duplicate.Some? {
      item.MarkDuplicate(table[duplicate.value].id, false);
    }
  }

  /** Importing the same tag of an event twice: the second import is
      recognised as a duplicate of the row the first one stored. */
  lemma EventTagSecondImportUpdatesFirst(data: map<string, Value>, table: seq<Row>, newId: nat)
    requires Truthy(Get(data, "tag")) && Get(data, "tag").Str? && Truthy(Get(data, "event_id"))
    requires EventTagDuplicateOf("event_event_tag", data, table) == None
    ensures EventTagDuplicateOf("event_event_tag", data, table + [Row(newId, data - {"id"})]) == Some(|table|)
  {
    var table' := table + [Row(newId, data - {"id"})];
    assert Field(table'[|table|], "tag") == Get(data, "tag");
    assert Field(table'[|table|], "event_id") == Get(data, "event_id");
    assert TagMatch(data, table'[|table|]);
    forall j | 0 <= j < |table| ensures !TagMatch(data, table'[j]) {
      assert table'[j] == table[j];
    }
  }

  // ---------------------------------------------------------------------------
  // incident_duplicate

  /** The incident rule: same name (a missing name matches a NULL name); when
      an event is given, the row belongs to that event or to no event. */
  predicate IncidentMatch(data: map<string, Value>, row: Row) {
    && Field(row, "name") == Get(data, "name")
    && (Truthy(Get(data, "event_id")) ==>
          Field(row, "event_id") == Get(data, "event_id") || Field(row, "event_id") == Null)
  }

  function IncidentDuplicateOf(tablename: string, data: map<string, Value>, table: seq<Row>): (r: Option<nat>)
    ensures tablename != "event_incident" ==> r == None
    ensures r.Some? ==> r.value < |table| && IncidentMatch(data, table[r.value])
    ensures r.Some? ==> forall j :: 0 <= j < r.value ==> !IncidentMatch(data, table[j])
    ensures tablename == "event_incident" && r == None ==> forall j :: 0 <= j < |table| ==> !IncidentMatch(data, table[j])
  {
    if tablename != "event_incident" then None
    else FirstWhere(table, (row: Row) => IncidentMatch(data, row))
  }

  method IncidentDuplicate(item: ImportItem, table: seq<Row>)
    modifies item
    ensures Resolved(item, table, IncidentDuplicateOf(item.tablename, old(item.data), table), true)
  {
    if item.tablename != "event_incident" {
      return;
    }
    var data := item.data;
    var name := Get(data, "name");
    var eventId := Get(data, "event_id");
    var q := Eq("name", name);
    if Truthy(eventId) {
      var either := Or(Eq("event_id", eventId), Eq("event_id", Null));
      q := And(q, either);
      forall row ensures Holds(q, row) == IncidentMatch(data, row) {
        assert Holds(either, row) <==> Field(row, "event_id") == eventId || Field(row, "event_id") == Null;
      }
    }
    FirstIsFirstWhere(table, q, (row: Row) => IncidentMatch(data, row));
    var duplicate := First(table, q);
    if duplicate.Some? {
      item.MarkDuplicate(table[duplicate.value].id, true);
    }
  }

  /** Without an event the incident rule is the name alone: an incident of the
      same name in any event (or none) is a duplicate. */
  lemma IncidentWithoutEventMatchesByName(data: map<string, Value>, table: seq<Row>)
    requires !Truthy(Get(data, "event_id"))
    ensures IncidentDuplicateOf("event_incident", data, table)
            == FirstWhere(table, (row: Row) => Field(row, "name") == Get(data, "name"))
  {
    FirstWhereCongruent(table, (row: Row) => IncidentMatch(data, row),
                        (row: Row) => Field(row, "name") == Get(data, "name"));
  }

  /** Importing the same incident twice: the second import is recognised as
      a duplicate of the row the first one stored. */
  lemma IncidentSecondImportUpdatesFirst(data: map<string, Value>, table: seq<Row>, newId: nat)
    requires IncidentDuplicateOf("event_incident", data, table) == None
    ensures IncidentDuplicateOf("event_incident", data, table + [Row(newId, data - {"id"})]) == Some(|table|)
  {
    var table' := table + [Row(newId, data - {"id"})];
    assert Field(table'[|table|], "name") == Get(data, "name");
    assert Field(table'[|table|], "event_id") == Get(data, "event_id");
    assert IncidentMatch(data, table'[|table|]);
    forall j | 0 <= j < |table| ensures !IncidentMatch(data, table'[j]) {
      assert table'[j] == table[j];
    }
  }

  // ---------------------------------------------------------------------------
  // incident_type_duplicate

  function IncidentTypeDuplicateOf(tablename: string, data: map<string, Value>, table: seq<Row>): (r: Option<nat>)
    ensures tablename != "event_incident_type" || !Truthy(Get(data, "name")) ==> r == None
    ensures r.Some? ==> r.value < |table| && LowerEq(Field(table[r.value], "name"), Get(data, "name"))
    ensures r.Some? ==> forall j :: 0 <= j < r.value ==> !LowerEq(Field(table[j], "name"), Get(data, "name"))
    ensures tablename == "event_incident_type" && Truthy(Get(data, "name")) && Get(data, "name").Str? && r == None ==>
              forall j :: 0 <= j < |table| ==> !LowerEq(Field(table[j], "name"), Get(data, "name"))
  {
    if tablename != "event_incident_type" || !Truthy(Get(data, "name")) then None
    else FirstWhere(table, (row: Row) => LowerEq(Field(row, "name"), Get(data, "name")))
  }

  /** The name is lower-cased with a string method, so a supplied name is text. */
  method IncidentTypeDuplicate(item: ImportItem, table: seq<Row>)
    requires item.tablename == "event_incident_type" && Truthy(Get(item.data, "name")) ==> Get(item.data, "name").Str?
    modifies item
    ensures Resolved(item, table, IncidentTypeDuplicateOf(item.tablename, old(item.data), table), true)
  {
    if item.tablename != "event_incident_type" {
      return;
    }
    var data := item.data;
    var name := Get(data, "name");
    if !Truthy(name) {
      return;
    }
    var q := EqLower("name", name.s);
    FirstIsFirstWhere(table, q, (row: Row) => LowerEq(Field(row, "name"), Get(data, "name")));
    var duplicate := First(table, q);
    if duplicate.Some? {
      item.MarkDuplicate(table[duplicate.value].id, true);
    }
  }

  /** An incoming incident type "Flood" is a duplicate of a stored "FLOOD". */
  lemma FloodDuplicatesFLOOD(id: nat)
    ensures IncidentTypeDuplicateOf("event_incident_type", map["name" := Str("Flood")],
                                    [Row(id, map["name" := Str("FLOOD")])]) == Some(0)
  {
    var table := [Row(id, map["name" := Str("FLOOD")])];
    assert Lower("Flood") == Lower("FLOOD") == "flood";
    assert LowerEq(Field(table[0], "name"), Str("Flood"));
  }

  /** Importing the same incident type twice: the second import is
      recognised as a duplicate of the row the first one stored. */
  lemma IncidentTypeSecondImportUpdatesFirst(data: map<string, Value>, table: seq<Row>, newId: nat)
    requires Truthy(Get(data, "name")) && Get(data, "name").Str?
    requires IncidentTypeDuplicateOf("event_incident_type", data, table) == None
    ensures IncidentTypeDuplicateOf("event_incident_type", data, table + [Row(newId, data - {"id"})]) == Some(|table|)
  {
    var table' := table + [Row(newId, data - {"id"})];
    assert Field(table'[|table|], "name") == Get(data, "name");
    forall j | 0 <= j < |table| ensures !LowerEq(Field(table'[j], "name"), Get(data, "name")) {
      assert table'[j] == table[j];
    }
  }

  // ---------------------------------------------------------------------------
  // event_event_year

  /** The joined-row key the virtual field reads. */
  const StartDateKey := "event_event.start_date"

  /** The year of an event's start date, or the NONE placeholder when the row
      lacks the start date or it is empty. A non-empty start date is a date. */
  function EventYear(row: map<string, Value>): (r: Label)
    requires StartDateKey in row && Truthy(row[StartDateKey]) ==> row[StartDateKey].DateTime?
    ensures r == NoneMsg <==> StartDateKey !in row || !Truthy(row[StartDateKey])
    ensures r != NoneMsg ==> r == Shown(Int(row[StartDateKey].year))
  {
    if StartDateKey !in row then NoneMsg
    else
      var date := row[StartDateKey];
      if !Truthy(date) then NoneMsg else Shown(Int(date.year))
  }
}
