/**
 * The record store shared by the three scripts. A CSV row read by
 * `csv.DictReader` is a Python dict from column name to value; a file is the
 * list of those rows, in file order.
 *
 * A row is kept as its list of fields in dict insertion order, so that the
 * behaviour of a dict comprehension over colliding keys can be stated
 * exactly. `Get`, `Set` and `Pop` are `row[k]` / `k in row`, `row[k] = v` and
 * `row.pop(k)`.
 */
module Records {

  import opened Wrappers

  /**
   * The values a row holds during the pipeline: strings read from the CSV,
   * `None` (a short CSV row, or a failed geocode), the integer id, the
   * geocoder's float coordinates and the parsed SDG list.
   */
  datatype Value =
    | Str(s: string)
    | Int(i: int)
    | Float(x: real)
    | Null
    | IntList(xs: seq<int>)

  /** Python truthiness of a value (`if value:`). */
  predicate Truthy(v: Value) {
    match v
    case Str(s) => s != ""
    case Int(i) => i != 0
    case Float(x) => x != 0.0
    case Null => false
    case IntList(xs) => xs != []
  }

  datatype Field = Field(key: string, value: Value)

  type Row = seq<Field>

  /** The exceptions and exits that end a run. */
  datatype Error =
    | InvalidMode(mode: string)   // sys.exit on a mode other than all/minimal
    | AttributeError(key: string) // a string method called on a non-string value of that column
    | ValueError(token: string)   // int() on a token that is not an integer literal

  datatype Result<T> = Ok(value: T) | Err(error: Error) {
    predicate IsFailure() { Err? }

    function PropagateFailure<U>(): Result<U>
      requires Err?
    {
      Err(error)
    }

    function Extract(): T
      requires Ok?
    {
      value
    }
  }

  /** What a method that rewrites rows in place reports. */
  datatype Outcome = Pass | Fail(error: Error)

  function StatusOf<T>(r: Result<T>): Outcome {
    if r.Ok? then Pass else Fail(r.error)
  }

  /** The set of column names of a row (`row.keys()`). */
  function Keys(row: Row): set<string> {
    if row == [] then {} else {row[0].key} + Keys(row[1..])
  }

  /** Every column name occurs once, as in any Python dict. */
  predicate DistinctKeys(row: Row) {
    row == [] || (row[0].key !in Keys(row[1..]) && DistinctKeys(row[1..]))
  }

  /** `row[k]` if `k in row`, otherwise None. */
  function Get(row: Row, k: string): (r: Option<Value>)
    ensures r.Some? <==> k in Keys(row)
  {
    if row == [] then None
    else if row[0].key == k then Some(row[0].value)
    else Get(row[1..], k)
  }

  /** `row.get(k)`: the value, or `None` when the column is absent. */
  function GetOrNull(row: Row, k: string): (r: Value)
    ensures k !in Keys(row) ==> r == Null
    ensures k in Keys(row) ==> Some(r) == Get(row, k)
  {
    match Get(row, k)
    case Some(v) => v
    case None => Null
  }

  /**
   * `row[k] = v`: an existing column keeps its place and takes the new value,
   * a new column goes last.
   */
  function Set(row: Row, k: string, v: Value): (r: Row)
    ensures Keys(r) == Keys(row) + {k}
    ensures forall j :: Get(r, j) == if j == k then Some(v) else Get(row, j)
    ensures DistinctKeys(row) ==> DistinctKeys(r)
    ensures k !in Keys(row) ==> r == row + [Field(k, v)]
    ensures Get(row, k) == Some(v) ==> r == row
  {
    if row == [] then [Field(k, v)]
    else if row[0].key == k then [Field(k, v)] + row[1..]
    else [row[0]] + Set(row[1..], k, v)
  }

  /** `row.pop(k)`: the column is gone, every other column is as it was. */
  function Pop(row: Row, k: string): (r: Row)
    ensures Keys(r) == Keys(row) - {k}
    ensures forall j :: Get(r, j) == if j == k then None else Get(row, j)
    ensures DistinctKeys(row) ==> DistinctKeys(r)
    ensures k !in Keys(row) ==> r == row
  {
    if row == [] then []
    else if row[0].key == k then Pop(row[1..], k)
    else [row[0]] + Pop(row[1..], k)
  }

  /** A name is a key exactly when some field of the row carries it. */
  lemma {:induction false} KeysIndex(row: Row, k: string)
    ensures k in Keys(row) <==> exists j :: 0 <= j < |row| && row[j].key == k
  {
    if row != [] {
      KeysIndex(row[1..], k);
      assert forall j :: 1 <= j < |row| ==> row[j] == row[1..][j - 1];
      if exists j :: 0 <= j < |row[1..]| && row[1..][j].key == k {
        var j :| 0 <= j < |row[1..]| && row[1..][j].key == k;
        assert row[j + 1].key == k;
      }
    }
  }

  lemma {:induction false} KeysAppend(row: Row, f: Field)
    ensures Keys(row + [f]) == Keys(row) + {f.key}
  {
    if row != [] {
      KeysAppend(row[1..], f);
      assert (row + [f])[1..] == row[1..] + [f];
    }
  }

  lemma {:induction false} DistinctAppend(row: Row, f: Field)
    ensures DistinctKeys(row + [f]) <==> DistinctKeys(row) && f.key !in Keys(row)
  {
    if row != [] {
      DistinctAppend(row[1..], f);
      KeysAppend(row[1..], f);
      assert (row + [f])[1..] == row[1..] + [f];
    }
  }

  /**
   * One pass of a per-row transformation that may raise, over a whole file:
   * it succeeds when every row does, row by row in file order, and otherwise
   * fails with the error of the first row that raises.
   */
  function MapRows(f: Row -> Result<Row>, rows: seq<Row>): (r: Result<seq<Row>>)
    ensures r.Ok? <==> forall i :: 0 <= i < |rows| ==> f(rows[i]).Ok?
    ensures r.Ok? ==> |r.value| == |rows|
    ensures r.Ok? ==> forall i :: 0 <= i < |rows| ==> f(rows[i]) == Ok(r.value[i])
    ensures r.Err? ==> exists i :: 0 <= i < |rows| && f(rows[i]).Err? && r.error == f(rows[i]).error
                                   && forall j :: 0 <= j < i ==> f(rows[j]).Ok?
  {
    if rows == [] then Ok([])
    else
      var first :- f(rows[0]);
      var rest :- MapRows(f, rows[1..]);
      assert forall i :: 1 <= i < |rows| ==> rows[i] == rows[1..][i - 1];
      Ok([first] + rest)
  }

  /** The first row that raises decides the error of the whole pass. */
  lemma FirstFailure(f: Row -> Result<Row>, rows: seq<Row>, i: nat)
    requires i < |rows| && f(rows[i]).Err?
    requires forall j :: 0 <= j < i ==> f(rows[j]).Ok?
    ensures MapRows(f, rows) == Err(f(rows[i]).error)
  {
  }
}
