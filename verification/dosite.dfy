/**
 * Drop-off sites: the constraint on a stored place and the label shown for a
 * place reference.
 */
module Dosite {
  import opened Records
  import opened Dal

  /** The name column is NOT NULL and at most 64 characters long. */
  const NameLength := 64

  /** A place the table accepts: a name that is not NULL and no longer than
      the column. */
  predicate ValidPlace(row: Row)
    ensures ValidPlace(row) ==> Field(row, "name") != Null
    ensures Field(row, "name").Str? && |Field(row, "name").s| > NameLength ==> !ValidPlace(row)
  {
    Field(row, "name").Str? && |Field(row, "name").s| <= NameLength
  }

  /** The name of the first place with the given id, or "-" when there is
      none. A function of the table: it only reads it. */
  function PlaceRepresent(id: Value, places: seq<Row>): Value {
    if places == [] then Str("-")
    else if Field(places[0], "id") == id then Field(places[0], "name")
    else PlaceRepresent(id, places[1..])
  }

  /** With a place of that id, the label is the name of the first such place. */
  lemma {:induction false} PlaceRepresentNamesFirst(id: Value, places: seq<Row>, j: nat)
    requires j < |places| && Field(places[j], "id") == id
    requires forall i :: 0 <= i < j ==> Field(places[i], "id") != id
    ensures PlaceRepresent(id, places) == Field(places[j], "name")
  {
    if j > 0 {
      assert Field(places[0], "id") != id;
      PlaceRepresentNamesFirst(id, places[1..], j - 1);
    }
  }

  /** With no place of that id, the label is "-". */
  lemma {:induction false} PlaceRepresentFallsBack(id: Value, places: seq<Row>)
    requires forall j :: 0 <= j < |places| ==> Field(places[j], "id") != id
    ensures PlaceRepresent(id, places) == Str("-")
  {
    if places != [] {
      assert Field(places[0], "id") != id;
      PlaceRepresentFallsBack(id, places[1..]);
    }
  }

  /** On a table of valid places the label is always a text of at most 64
      characters: a stored name or the "-" fallback. */
  lemma {:induction false} PlaceRepresentIsShortText(id: Value, places: seq<Row>)
    requires forall j :: 0 <= j < |places| ==> ValidPlace(places[j])
    ensures PlaceRepresent(id, places).Str?
    ensures |PlaceRepresent(id, places).s| <= NameLength
  {
    if places != [] && Field(places[0], "id") != id {
      PlaceRepresentIsShortText(id, places[1..]);
    }
  }
}
