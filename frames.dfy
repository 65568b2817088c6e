/**
 * The table model shared by the three scripts: a pandas DataFrame is a list of
 * column labels and a list of rows, each row a map from label to cell. Steps
 * that pandas writes as expressions are functions from tables to tables; steps
 * that assign a column of the frame they were given work on a `DataFrame`
 * object and change its fields.
 */
module Frames {
  import opened Basics

  /** A cell: missing (None, NaN or NA), text, a whole number, or an exact decimal. */
  datatype Cell = Null | Text(s: string) | Int(i: int) | Num(r: real)

  type Record = map<string, Cell>

  datatype Table = Table(columns: seq<string>, rows: seq<Record>)

  /** Why a step raises, with the column it was working on. */
  datatype Error =
    | MissingColumn(column: string)   // KeyError: the label is not in the frame
    | NoStrings(column: string)       // AttributeError: `.str` on a column that holds no text
    | CastFailed(column: string)      // ValueError or TypeError from `astype`
    | TextInNumbers(column: string)   // TypeError: text where numbers are compared or added
    | NotText(column: string)         // AttributeError: a `str` method called on a non-string
    | NotWhole(column: string)        // a count that is not a whole number

  datatype Result<+T> = Ok(value: T) | Err(error: Error) {
    predicate IsFailure() { Err? }
    function PropagateFailure<U>(): Result<U>
      requires Err?
    {
      Err(error)
    }
    function Extract(): T
      requires Ok?
    {
      value
    }
  }

  function ColumnSet(cols: seq<string>): set<string> {
    set c | c in cols
  }

  /** What every DataFrame satisfies: distinct labels, and every row has exactly the frame's columns. */
  predicate WellFormed(t: Table) {
    && NoDup(t.columns)
    && forall i :: 0 <= i < |t.rows| ==> t.rows[i].Keys == ColumnSet(t.columns)
  }

  /** The cell of row `r` in column `name`. */
  function Get(r: Record, name: string): Cell {
    if name in r then r[name] else Null
  }

  /** `df[name]` as a list of cells. */
  function Column(t: Table, name: string): (cells: seq<Cell>)
    ensures |cells| == |t.rows|
    ensures forall i :: 0 <= i < |t.rows| ==> cells[i] == Get(t.rows[i], name)
  {
    MapSeq(t.rows, (r: Record) => Get(r, name))
  }

  /** The column holds some text, which is what lets the `.str` accessor work on it. */
  predicate HasStrings(t: Table, name: string) {
    |t.rows| == 0 || exists i :: 0 <= i < |t.rows| && Get(t.rows[i], name).Text?
  }

  function MapRow(name: string, f: Cell -> Cell): Record -> Record {
    (r: Record) => r[name := f(Get(r, name))]
  }

  /**
   * `df[name] = f(df[name])` for an existing column: that column gets `f` of its
   * old cells and nothing else changes.
   */
  function MapColumn(t: Table, name: string, f: Cell -> Cell): (u: Table)
    requires name in t.columns
    ensures u.columns == t.columns && |u.rows| == |t.rows|
    ensures forall i :: 0 <= i < |t.rows| ==> Get(u.rows[i], name) == f(Get(t.rows[i], name))
    ensures forall i, k :: 0 <= i < |t.rows| && k != name ==> Get(u.rows[i], k) == Get(t.rows[i], k)
    ensures forall i :: 0 <= i < |t.rows| ==> u.rows[i].Keys == t.rows[i].Keys + {name}
    ensures WellFormed(t) ==> WellFormed(u)
  {
    var u := Table(t.columns, MapSeq(t.rows, MapRow(name, f)));
    assert forall i :: 0 <= i < |t.rows| ==> u.rows[i] == t.rows[i][name := f(Get(t.rows[i], name))];
    u
  }

  /** A frame a method may change in place. */
  class DataFrame {
    var columns: seq<string>
    var rows: seq<Record>

    function Value(): Table
      reads this
    {
      Table(columns, rows)
    }

    constructor (t: Table)
      ensures Value() == t
    {
      columns := t.columns;
      rows := t.rows;
    }
  }
}
