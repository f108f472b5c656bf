/**
 * Scenarios: the label shown for a scenario reference, and the
 * deduplication resolver for imported scenarios.
 */
module Scenario {
  import opened Records
  import opened Dal
  import opened Import

  /** The label for a scenario reference. A row already at hand is shown as
      its name without a lookup; otherwise an empty id shows NONE, an id with
      a stored scenario shows that scenario's name, and any other id shows
      UNKNOWN_OPT rather than failing. */
  function ScenarioRepresent(id: Value, row: Option<Row>, scenarios: seq<Row>): (r: Label)
    ensures row.Some? ==> r == Shown(Field(row.value, "name"))
    ensures r == NoneMsg <==> row == None && !Truthy(id)
    ensures r == UnknownOpt <==>
              row == None && Truthy(id) && forall j :: 0 <= j < |scenarios| ==> Field(scenarios[j], "id") != id
    ensures row == None && Truthy(id) ==>
              forall j :: 0 <= j < |scenarios| && Field(scenarios[j], "id") == id &&
                          (forall i :: 0 <= i < j ==> Field(scenarios[i], "id") != id)
                          ==> r == Shown(Field(scenarios[j], "name"))
  {
    if row.Some? then Shown(Field(row.value, "name"))
    else if !Truthy(id) then NoneMsg
    else match First(scenarios, Eq("id", id))
      case Some(k) => Shown(Field(scenarios[k], "name"))
      case None => UnknownOpt
  }

  /** The label of a row at hand does not depend on the stored scenarios. */
  lemma ScenarioRepresentNeedsNoLookup(id: Value, id': Value, row: Row, scenarios: seq<Row>, scenarios': seq<Row>)
    ensures ScenarioRepresent(id, Some(row), scenarios) == ScenarioRepresent(id', Some(row), scenarios')
  {
  }

  /** The scenario rule: exact name equality; a missing name is compared as
      NULL, which the non-null name column never is. */
  function ScenarioDuplicateOf(tablename: string, data: map<string, Value>, table: seq<Row>): (r: Option<nat>)
    ensures tablename != "scenario_scenario" ==> r == None
    ensures r.Some? ==> r.value < |table| && Field(table[r.value], "name") == Get(data, "name")
    ensures r.Some? ==> forall j :: 0 <= j < r.value ==> Field(table[j], "name") != Get(data, "name")
    ensures tablename == "scenario_scenario" && r == None ==>
              forall j :: 0 <= j < |table| ==> Field(table[j], "name") != Get(data, "name")
  {
    if tablename != "scenario_scenario" then None
    else FirstWhere(table, (row: Row) => Field(row, "name") == Get(data, "name"))
  }

  method ScenarioDuplicate(item: ImportItem, table: seq<Row>)
    modifies item
    ensures Resolved(item, table, ScenarioDuplicateOf(item.tablename, old(item.data), table), true)
  {
    if item.tablename != "scenario_scenario" {
      return;
    }
    var data := item.data;
    var name := Get(data, "name");
    var q := Eq("name", name);
    FirstIsFirstWhere(table, q, (row: Row) => Field(row, "name") == Get(data, "name"));
    var duplicate := First(table, q);
    if duplicate.Some? {
      item.MarkDuplicate(table[duplicate.value].id, true);
    }
  }

  /** With no name in the data the resolver looks for a scenario with a NULL
      name, so on a table that keeps its names non-null nothing is found. */
  lemma ScenarioWithoutNameIsNew(data: map<string, Value>, table: seq<Row>)
    requires "name" !in data
    requires forall j :: 0 <= j < |table| ==> Field(table[j], "name") != Null
    ensures ScenarioDuplicateOf("scenario_scenario", data, table) == None
  {
  }

  /** Importing the same scenario twice: the second import is recognised as
      a duplicate of the row the first one stored. */
  lemma ScenarioSecondImportUpdatesFirst(data: map<string, Value>, table: seq<Row>, newId: nat)
    requires ScenarioDuplicateOf("scenario_scenario", data, table) == None
    ensures ScenarioDuplicateOf("scenario_scenario", data, table + [Row(newId, data - {"id"})]) == Some(|table|)
  {
    var table' := table + [Row(newId, data - {"id"})];
    assert Field(table'[|table|], "name") == Get(data, "name");
    forall j | 0 <= j < |table| ensures Field(table'[j], "name") != Get(data, "name") {
      assert table'[j] == table[j];
    }
  }
}
