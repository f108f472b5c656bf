/**
 * Field values and rows as the record-management layer sees them: every table
 * is a sequence of rows, every row an id plus a map from field names to values.
 */
module Records {

  datatype Option<+T> = None | Some(value: T)

  /** A field value. `Null` is Python's `None` and SQL's NULL. A date-time
      value carries its calendar date and its time of day in seconds since
      midnight, so two values on the same day at different times differ. */
  datatype Value =
    | Null
    | Int(i: int)
    | Str(s: string)
    | Bool(b: bool)
    | DateTime(year: int, month: int, day: int, seconds: int)

  /** Python truthiness of a value: `None`, `0`, `""` and `False` are false,
      every date-time is true. */
  predicate Truthy(v: Value) {
    match v
    case Null => false
    case Int(i) => i != 0
    case Str(s) => s != ""
    case Bool(b) => b
    case DateTime(_, _, _, _) => true
  }

  /** A stored row: its primary key and its other fields. */
  datatype Row = Row(id: nat, fields: map<string, Value>)

  /** `d.get(key, None)` on a dictionary of field values. */
  function Get(m: map<string, Value>, key: string): Value {
    if key in m then m[key] else Null
  }

  /** The value of a column of a row; the `id` column is the primary key. */
  function Field(row: Row, name: string): Value {
    if name == "id" then Int(row.id) else Get(row.fields, name)
  }

  /** Lower-casing of one character (ASCII letters only). */
  function LowerChar(c: char): char {
    if 'A' <= c <= 'Z' then (c as int + 32) as char else c
  }

  function Lower(s: string): string {
    seq(|s|, i requires 0 <= i < |s| => LowerChar(s[i]))
  }

  /** Two values are equal texts ignoring case (`a.lower() == b.lower()`);
      a NULL or non-text value equals nothing. */
  predicate LowerEq(a: Value, b: Value) {
    a.Str? && b.Str? && Lower(a.s) == Lower(b.s)
  }

  /** What a represent function shows: a stored value or one of the two
      framework placeholders (`messages["NONE"]`, `messages.UNKNOWN_OPT`). */
  datatype Label = Shown(v: Value) | NoneMsg | UnknownOpt
}
