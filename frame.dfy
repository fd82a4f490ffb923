/**
 * The data frame that `load_csv` returns and `plot_aggregation` reads:
 * named columns over rows of cells, each cell missing (NaN), text or a number.
 */
module Frame {
  import opened Optional

  datatype Cell = Missing | Text(s: string) | Number(x: real)

  type Row = seq<Cell>

  datatype Table = Table(columns: seq<string>, rows: seq<Row>)

  predicate DistinctNames(names: seq<string>) {
    forall i, j :: 0 <= i < j < |names| ==> names[i] != names[j]
  }

  /**
   * A rectangular frame whose header names are distinct (read_csv renames a
   * repeated header, so a name picks out one column).
   */
  predicate WellFormed(t: Table) {
    && DistinctNames(t.columns)
    && forall i :: 0 <= i < |t.rows| ==> |t.rows[i]| == |t.columns|
  }

  /** The position of the column called `name`, or None when `name not in df.columns`. */
  function IndexOf(names: seq<string>, name: string): (r: Option<nat>)
    ensures r.None? <==> name !in names
    ensures r.Some? ==> r.value < |names| && names[r.value] == name
  {
    if names == [] then None
    else if names[0] == name then Some(0)
    else match IndexOf(names[1..], name)
      case None => None
      case Some(j) => Some(j + 1)
  }

  /** With distinct names, looking a column's own name up finds that column. */
  lemma IndexOfDistinct(names: seq<string>, k: nat)
    requires DistinctNames(names) && k < |names|
    ensures IndexOf(names, names[k]) == Some(k)
  {
  }

  /** `df[col] = df[col].<f>`: column `j` rewritten cell by cell, everything else kept. */
  function MapColumn(t: Table, j: nat, f: Cell -> Cell): (r: Table)
    requires WellFormed(t) && j < |t.columns|
    ensures WellFormed(r) && r.columns == t.columns && |r.rows| == |t.rows|
    ensures forall i, k :: 0 <= i < |t.rows| && 0 <= k < |t.columns| ==>
              r.rows[i][k] == if k == j then f(t.rows[i][j]) else t.rows[i][k]
  {
    Table(t.columns, seq(|t.rows|, i requires 0 <= i < |t.rows| => t.rows[i][j := f(t.rows[i][j])]))
  }

  /** Column `j` holds at least one text cell, so pandas gives it the object (string) dtype. */
  predicate ColumnHasText(t: Table, j: nat)
    requires WellFormed(t) && j < |t.columns|
  {
    exists i | 0 <= i < |t.rows| :: t.rows[i][j].Text?
  }
}
