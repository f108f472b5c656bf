/**
 * The part of the database abstraction layer the rules use: queries built
 * from column comparisons, "select first", "select all" and "update where",
 * over an in-memory table in which "first" means first in sequence order.
 */
module Dal {
  import opened Records

  /** A query as the rules build it with `==`, `.lower()`, `&` and `|`.
      `Eq(f, Null)` is `table[f] == None`, which the layer turns into IS NULL. */
  datatype Query =
    | Eq(field: string, value: Value)
    | EqLower(field: string, text: string)
    | And(left: Query, right: Query)
    | Or(left: Query, right: Query)

  /** Whether a row is selected by a query. A NULL column equals only the
      NULL query value, and its lower-case form equals nothing. */
  predicate Holds(q: Query, row: Row) {
    match q
    case Eq(f, v) => Field(row, f) == v
    case EqLower(f, t) => LowerEq(Field(row, f), Str(t))
    case And(l, r) => Holds(l, row) && Holds(r, row)
    case Or(l, r) => Holds(l, row) || Holds(r, row)
  }

  /** The position of the first row satisfying `p` (`select(limitby=(0, 1)).first()`). */
  function FirstWhere(table: seq<Row>, p: Row -> bool): (r: Option<nat>)
    ensures r.Some? ==> r.value < |table| && p(table[r.value])
    ensures r.Some? ==> forall j :: 0 <= j < r.value ==> !p(table[j])
    ensures r.None? <==> forall j :: 0 <= j < |table| ==> !p(table[j])
  {
    if table == [] then None
    else if p(table[0]) then Some(0)
    else match FirstWhere(table[1..], p)
      case None => None
      case Some(k) => Some(k + 1)
  }

  /** Two conditions that agree on every row of a table pick the same first row. */
  lemma {:induction false} FirstWhereCongruent(table: seq<Row>, p: Row -> bool, p': Row -> bool)
    requires forall j :: 0 <= j < |table| ==> p(table[j]) == p'(table[j])
    ensures FirstWhere(table, p) == FirstWhere(table, p')
  {
    if table != [] {
      FirstWhereCongruent(table[1..], p, p');
    }
  }

  /** The first row selected by a query. */
  function First(table: seq<Row>, q: Query): Option<nat> {
    FirstWhere(table, (row: Row) => Holds(q, row))
  }

  /** A query picks the first row of the condition it expresses. */
  lemma FirstIsFirstWhere(table: seq<Row>, q: Query, p: Row -> bool)
    requires forall row :: Holds(q, row) == p(row)
    ensures First(table, q) == FirstWhere(table, p)
  {
    FirstWhereCongruent(table, (row: Row) => Holds(q, row), p);
  }

  /** All rows selected by a query, in table order. */
  function Select(table: seq<Row>, q: Query): seq<Row> {
    if table == [] then []
    else (if Holds(q, table[0]) then [table[0]] else []) + Select(table[1..], q)
  }

  /** `select()` returns only rows of the table, exactly those satisfying
      the query, each as often as the table holds it, and never more rows
      than the table has. */
  lemma {:induction false} SelectFilters(table: seq<Row>, q: Query)
    ensures |Select(table, q)| <= |table|
    ensures forall x :: x in Select(table, q) <==> x in table && Holds(q, x)
    ensures forall x :: multiset(Select(table, q))[x] == if Holds(q, x) then multiset(table)[x] else 0
  {
    if table != [] {
      SelectFilters(table[1..], q);
      assert table == [table[0]] + table[1..];
    }
  }

  /** A query that every row satisfies selects the whole table, in order. */
  lemma {:induction false} SelectAll(table: seq<Row>, q: Query)
    requires forall j :: 0 <= j < |table| ==> Holds(q, table[j])
    ensures Select(table, q) == table
  {
    if table != [] {
      SelectAll(table[1..], q);
    }
  }

  /** `db(q).update(f=v)`: every selected row gets `f` set to `v`; its key
      and its other fields stay, and the rows not selected are unchanged. */
  function UpdateWhere(table: seq<Row>, q: Query, f: string, v: Value): (r: seq<Row>)
    ensures |r| == |table|
    ensures forall i :: 0 <= i < |table| && !Holds(q, table[i]) ==> r[i] == table[i]
    ensures forall i :: 0 <= i < |table| && Holds(q, table[i]) ==>
              r[i].id == table[i].id && Get(r[i].fields, f) == v &&
              forall g :: g != f ==> Get(r[i].fields, g) == Get(table[i].fields, g)
  {
    seq(|table|, i requires 0 <= i < |table| =>
      if Holds(q, table[i]) then Row(table[i].id, table[i].fields[f := v]) else table[i])
  }
}
