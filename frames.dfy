/**
 * The tables the pipeline passes around (pandas DataFrames), reduced to what
 * the repository's own code does with them: named columns in order, one cell
 * per row in each column, column assignment, renaming and projection.
 */
module Frames {
  import opened Common

  /** One cell of a CSV-backed table: NaN, a text value or an integer. */
  datatype Cell = Missing | Text(text: string) | Number(n: int)

  /** A table value: column names in order, the cells of each column, and the row count. */
  datatype Table = Table(columns: seq<string>, cells: map<string, seq<Cell>>, rows: nat)

  predicate Distinct(names: seq<string>)
  {
    forall i, j :: 0 <= i < j < |names| ==> names[i] != names[j]
  }

  /** Column names are distinct, each has a column, and every column has one cell per row. */
  predicate WellFormed(t: Table)
  {
    Distinct(t.columns) &&
    (forall c :: c in t.cells ==> c in t.columns) &&
    (forall c :: c in t.columns ==> c in t.cells) &&
    (forall c :: c in t.cells ==> |t.cells[c]| == t.rows)
  }

  /**
   * `df[name] = col`: an existing column is replaced where it stands, a new
   * one is appended after the others; every other column is untouched.
   */
  function WithColumn(t: Table, name: string, col: seq<Cell>): (r: Table)
    requires WellFormed(t) && |col| == t.rows
    ensures WellFormed(r) && r.rows == t.rows
    ensures name in r.cells && r.cells[name] == col
    ensures forall c :: c in t.cells && c != name ==> c in r.cells && r.cells[c] == t.cells[c]
    ensures r.columns == if name in t.columns then t.columns else t.columns + [name]
  {
    Table(if name in t.columns then t.columns else t.columns + [name], t.cells[name := col], t.rows)
  }

  /** `df.rename(columns={from: to})`: the column keeps its place and its cells and takes the new name. */
  function Renamed(t: Table, from: string, to: string): (r: Table)
    requires WellFormed(t) && from in t.columns && to !in t.columns
    ensures WellFormed(r) && r.rows == t.rows
    ensures |r.columns| == |t.columns|
    ensures forall i :: 0 <= i < |t.columns| ==>
      r.columns[i] == if t.columns[i] == from then to else t.columns[i]
    ensures to in r.cells && r.cells[to] == t.cells[from] && from !in r.cells
    ensures forall c :: c in t.cells && c != from ==> c in r.cells && r.cells[c] == t.cells[c]
  {
    RenamedNamesFacts(t.columns, from, to);
    Table(RenamedNames(t.columns, from, to), (t.cells - {from})[to := t.cells[from]], t.rows)
  }

  /** The column names with `from` replaced by `to`. */
  function RenamedNames(names: seq<string>, from: string, to: string): (r: seq<string>)
    ensures |r| == |names|
    ensures forall i :: 0 <= i < |names| ==> r[i] == if names[i] == from then to else names[i]
  {
    seq(|names|, i requires 0 <= i < |names| => if names[i] == from then to else names[i])
  }

  lemma RenamedNamesFacts(names: seq<string>, from: string, to: string)
    requires Distinct(names) && from in names && to !in names
    ensures var r := RenamedNames(names, from, to);
      Distinct(r) && to in r && from !in r &&
      (forall c :: c in names && c != from ==> c in r) &&
      (forall c :: c in r ==> c == to || (c in names && c != from))
  {
    var r := RenamedNames(names, from, to);
    forall c | c in names && c != from ensures c in r {
      var i :| 0 <= i < |names| && names[i] == c;
      assert r[i] == c;
    }
    var k :| 0 <= k < |names| && names[k] == from;
    assert r[k] == to;
  }

  /** `df[names]`: the named columns, in the order given, with all rows. */
  function Select(t: Table, names: seq<string>): (r: Table)
    requires WellFormed(t) && Distinct(names)
    requires forall i :: 0 <= i < |names| ==> names[i] in t.columns
    ensures WellFormed(r) && r.rows == t.rows && r.columns == names
    ensures forall c :: c in r.cells ==> c in t.cells && r.cells[c] == t.cells[c]
  {
    Table(names, map c | c in names :: t.cells[c], t.rows)
  }

  /** `str(value)` of a cell, or None for NaN. */
  function CellString(c: Cell): Option<string>
  {
    match c
    case Missing => None
    case Text(s) => Some(s)
    case Number(n) => Some(IntToString(n))
  }

  /** `str(n)` of an integer. */
  function IntToString(n: int): string
  {
    if n < 0 then "-" + NatToString(-n) else NatToString(n)
  }

  function NatToString(n: nat): string
    decreases n
  {
    var digit := ['0' + ((n % 10) as char)];
    if n < 10 then digit else NatToString(n / 10) + digit
  }

  /**
   * A DataFrame that the loading and clustering steps change column by
   * column. Value() is the table it holds.
   */
  class Frame {
    var columns: seq<string>
    var cells: map<string, seq<Cell>>
    var rows: nat

    function Value(): Table
      reads this
    {
      Table(columns, cells, rows)
    }

    ghost predicate Valid()
      reads this
    {
      WellFormed(Value())
    }

    constructor (t: Table)
      requires WellFormed(t)
      ensures Valid() && Value() == t
    {
      columns, cells, rows := t.columns, t.cells, t.rows;
    }

    /** `name in df.columns`. */
    function Has(name: string): bool
      reads this
    {
      name in columns
    }

    /** `df[name]`. */
    function Column(name: string): (col: seq<Cell>)
      reads this
      requires Valid() && name in columns
      ensures |col| == rows
    {
      cells[name]
    }

    /** `df = df.rename(columns={from: to})`. */
    method RenameColumn(from: string, to: string)
      requires Valid() && from in columns && to !in columns
      modifies this
      ensures Valid() && Value() == Renamed(old(Value()), from, to)
    {
      var r := Renamed(Value(), from, to);
      columns, cells := r.columns, r.cells;
    }

    /** `df[name] = col`. */
    method SetColumn(name: string, col: seq<Cell>)
      requires Valid() && |col| == rows
      modifies this
      ensures Valid() && Value() == WithColumn(old(Value()), name, col)
    {
      if name !in columns {
        columns := columns + [name];
      }
      cells := cells[name := col];
    }
  }
}
