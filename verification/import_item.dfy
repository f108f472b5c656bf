/**
 * The pending import item a deduplication resolver inspects and may rewrite:
 * the target table's name, the record id it will write to, whether it will
 * create or update, and the field values it carries.
 */
module Import {
  import opened Records

  /** `item.METHOD.CREATE` / `item.METHOD.UPDATE`. */
  datatype ImportMethod = Create | Update

  class ImportItem {
    const tablename: string
    var id: Option<nat>
    /** `item.method` (`method` is a keyword here). */
    var importMethod: ImportMethod
    var data: map<string, Value>

    /** A fresh item: a CREATE with no target id yet. */
    constructor (tablename: string, data: map<string, Value>)
      ensures this.tablename == tablename && this.data == data
      ensures id == None && importMethod == Create
    {
      this.tablename := tablename;
      this.data := data;
      id := None;
      importMethod := Create;
    }

    /** The rewrite a resolver performs on a match: target the duplicate's id
        and become an UPDATE; some resolvers also write the id into the data. */
    method MarkDuplicate(dupId: nat, setDataId: bool)
      modifies this
      ensures id == Some(dupId) && importMethod == Update
      ensures data == if setDataId then old(data)["id" := Int(dupId)] else old(data)
    {
      id := Some(dupId);
      if setDataId {
        data := data["id" := Int(dupId)];
      }
      importMethod := Update;
    }
  }

  /** The outcome of a resolver whose lookup found the row at `found` (or none):
      untouched when nothing was found, otherwise rewritten onto that row. */
  twostate predicate Resolved(item: ImportItem, table: seq<Row>, found: Option<nat>, setDataId: bool)
    reads item
  {
    match found
    case None => unchanged(item)
    case Some(k) =>
      && k < |table|
      && item.id == Some(table[k].id)
      && item.importMethod == Update
      && item.data == if setDataId then old(item.data)["id" := Int(table[k].id)] else old(item.data)
  }
}
