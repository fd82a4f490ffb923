/**
 * What `load_csv` does to the frame read_csv returns: drop the empty rows and
 * then the empty columns, coerce the numeric columns, strip the text columns,
 * and turn any failure into None.
 */
module Cleanup {
  import opened Optional
  import opened Text
  import opened Frame

  /** The columns coerced with `pd.to_numeric(..., errors='coerce')`. */
  const NumericCols: seq<string> := ["Qty", "Purchase Costs", "Hours", "Times Out", "Income"]

  /** The columns whose strings are stripped of surrounding whitespace. */
  const StrCols: seq<string> := ["Category", "Item Key", "Name"]

  predicate AllMissing(r: Row) {
    forall k :: 0 <= k < |r| ==> r[k].Missing?
  }

  /** `dropna(how='all')`: the rows holding at least one value, in their original order. */
  function DropEmptyRows(rows: seq<Row>): (r: seq<Row>)
    ensures |r| <= |rows|
    ensures forall x :: x in r <==> x in rows && !AllMissing(x)
  {
    if rows == [] then []
    else (if AllMissing(rows[0]) then [] else [rows[0]]) + DropEmptyRows(rows[1..])
  }

  /** Dropping distributes over concatenation: surviving rows keep their relative order. */
  lemma {:induction false} DropEmptyRowsAppend(a: seq<Row>, b: seq<Row>)
    ensures DropEmptyRows(a + b) == DropEmptyRows(a) + DropEmptyRows(b)
  {
    if a == [] {
      assert a + b == b;
    } else {
      assert (a + b)[1..] == a[1..] + b;
      DropEmptyRowsAppend(a[1..], b);
    }
  }

  /** A second `dropna(how='all')` finds nothing left to drop. */
  lemma {:induction false} DropEmptyRowsIdempotent(rows: seq<Row>)
    ensures DropEmptyRows(DropEmptyRows(rows)) == DropEmptyRows(rows)
  {
    if rows != [] {
      var head := if AllMissing(rows[0]) then [] else [rows[0]];
      DropEmptyRowsAppend(head, DropEmptyRows(rows[1..]));
      DropEmptyRowsIdempotent(rows[1..]);
      if head != [] {
        assert head[1..] == [];
      }
    }
  }

  /** Some row has a value in column `j`. */
  predicate ColumnHasValue(rows: seq<Row>, j: nat) {
    exists i | 0 <= i < |rows| :: j < |rows[i]| && !rows[i][j].Missing?
  }

  /** The positions `j <= c < n` of the columns `dropna(axis=1, how='all')` keeps, ascending. */
  function KeptColumns(rows: seq<Row>, j: nat, n: nat): (keep: seq<nat>)
    decreases n - j
    ensures forall k :: 0 <= k < |keep| ==> j <= keep[k] < n && ColumnHasValue(rows, keep[k])
    ensures forall c: nat :: j <= c < n && ColumnHasValue(rows, c) ==> c in keep
    ensures forall a, b :: 0 <= a < b < |keep| ==> keep[a] < keep[b]
  {
    if j >= n then []
    else (if ColumnHasValue(rows, j) then [j] else []) + KeptColumns(rows, j + 1, n)
  }

  /** The cells of `row` at the positions `keep`. */
  function Project(row: Row, keep: seq<nat>): (r: Row)
    requires forall k :: 0 <= k < |keep| ==> keep[k] < |row|
    ensures |r| == |keep|
    ensures forall k :: 0 <= k < |keep| ==> r[k] == row[keep[k]]
  {
    seq(|keep|, k requires 0 <= k < |keep| => row[keep[k]])
  }

  /**
   * `dropna(axis=1, how='all')`: the columns holding at least one value, in
   * their original order. A column is kept exactly when it holds a value, each
   * kept column keeps its cells, and so no column is entirely missing and a row
   * that had a value still has one.
   */
  function DropEmptyColumns(t: Table): (d: Table)
    requires WellFormed(t)
    ensures WellFormed(d) && |d.rows| == |t.rows|
    ensures forall j :: 0 <= j < |t.columns| ==> (t.columns[j] in d.columns <==> ColumnHasValue(t.rows, j))
    ensures forall name :: name in d.columns ==> name in t.columns
    ensures forall a, b :: 0 <= a < b < |d.columns| ==>
              IndexOf(t.columns, d.columns[a]).value < IndexOf(t.columns, d.columns[b]).value
    ensures forall i, j :: 0 <= i < |d.rows| && 0 <= j < |d.columns| ==>
              d.rows[i][j] == t.rows[i][IndexOf(t.columns, d.columns[j]).value]
    ensures forall j :: 0 <= j < |d.columns| ==> ColumnHasValue(d.rows, j)
    ensures forall i :: 0 <= i < |t.rows| && !AllMissing(t.rows[i]) ==> !AllMissing(d.rows[i])
  {
    var keep := KeptColumns(t.rows, 0, |t.columns|);
    var d := Table(seq(|keep|, k requires 0 <= k < |keep| => t.columns[keep[k]]),
                   seq(|t.rows|, i requires 0 <= i < |t.rows| => Project(t.rows[i], keep)));
    KeptWellFormed(t, keep, d);
    KeptNames(t, keep, d.columns);
    KeptPositions(t, keep, d);
    forall i | 0 <= i < |t.rows| && !AllMissing(t.rows[i]) ensures !AllMissing(d.rows[i]) {
      KeptRowHasValue(t, keep, i);
    }
    forall j | 0 <= j < |d.columns| ensures ColumnHasValue(d.rows, j) {
      KeptColumnHasValue(t, keep, d.rows, j);
    }
    d
  }

  /** Each kept name is found at the position it was kept from, and the kept cells are the cells there. */
  lemma KeptPositions(t: Table, keep: seq<nat>, d: Table)
    requires WellFormed(t) && keep == KeptColumns(t.rows, 0, |t.columns|)
    requires d.columns == seq(|keep|, k requires 0 <= k < |keep| => t.columns[keep[k]])
    requires d.rows == seq(|t.rows|, i requires 0 <= i < |t.rows| => Project(t.rows[i], keep))
    ensures forall a, b :: 0 <= a < b < |d.columns| ==>
              IndexOf(t.columns, d.columns[a]).value < IndexOf(t.columns, d.columns[b]).value
    ensures forall i, j :: 0 <= i < |d.rows| && 0 <= j < |d.columns| ==>
              d.rows[i][j] == t.rows[i][IndexOf(t.columns, d.columns[j]).value]
    ensures forall j :: 0 <= j < |t.columns| && t.columns[j] in d.columns ==> ColumnHasValue(t.rows, j)
  {
    KeptIndex(t.columns, keep, d.columns);
    forall i, j | 0 <= i < |d.rows| && 0 <= j < |d.columns|
      ensures d.rows[i][j] == t.rows[i][IndexOf(t.columns, d.columns[j]).value]
    {
      assert d.rows[i] == Project(t.rows[i], keep);
    }
    KeptOnlyValued(t.rows, t.columns, keep, d.columns);
  }

  /** Looking up a kept name finds the position it was kept from. */
  lemma KeptIndex(columns: seq<string>, keep: seq<nat>, names: seq<string>)
    requires DistinctNames(columns)
    requires forall k :: 0 <= k < |keep| ==> keep[k] < |columns|
    requires names == seq(|keep|, k requires 0 <= k < |keep| => columns[keep[k]])
    ensures forall m :: 0 <= m < |names| ==> IndexOf(columns, names[m]) == Some(keep[m])
  {
    forall m | 0 <= m < |names| ensures IndexOf(columns, names[m]) == Some(keep[m]) {
      IndexOfDistinct(columns, keep[m]);
    }
  }

  /** A column whose name is kept is one holding a value. */
  lemma KeptOnlyValued(rows: seq<Row>, columns: seq<string>, keep: seq<nat>, names: seq<string>)
    requires DistinctNames(columns)
    requires forall k :: 0 <= k < |keep| ==> keep[k] < |columns| && ColumnHasValue(rows, keep[k])
    requires names == seq(|keep|, k requires 0 <= k < |keep| => columns[keep[k]])
    ensures forall j :: 0 <= j < |columns| && columns[j] in names ==> ColumnHasValue(rows, j)
  {
    forall j | 0 <= j < |columns| && columns[j] in names ensures ColumnHasValue(rows, j) {
      var m :| 0 <= m < |names| && names[m] == columns[j];
      assert columns[keep[m]] == columns[j];
    }
  }

  lemma KeptWellFormed(t: Table, keep: seq<nat>, d: Table)
    requires WellFormed(t) && keep == KeptColumns(t.rows, 0, |t.columns|)
    requires d.columns == seq(|keep|, k requires 0 <= k < |keep| => t.columns[keep[k]])
    requires d.rows == seq(|t.rows|, i requires 0 <= i < |t.rows| => Project(t.rows[i], keep))
    ensures WellFormed(d)
  {
    forall a, b | 0 <= a < b < |d.columns| ensures d.columns[a] != d.columns[b] {
      assert keep[a] < keep[b];
    }
  }

  lemma KeptNames(t: Table, keep: seq<nat>, names: seq<string>)
    requires WellFormed(t) && keep == KeptColumns(t.rows, 0, |t.columns|)
    requires names == seq(|keep|, k requires 0 <= k < |keep| => t.columns[keep[k]])
    ensures forall j :: 0 <= j < |t.columns| && ColumnHasValue(t.rows, j) ==> t.columns[j] in names
    ensures forall name :: name in names ==> name in t.columns
  {
    KeptNamesComplete(t.rows, t.columns, keep, names);
    KeptNamesSound(t.columns, keep, names);
  }

  lemma KeptNamesComplete(rows: seq<Row>, columns: seq<string>, keep: seq<nat>, names: seq<string>)
    requires forall k :: 0 <= k < |keep| ==> keep[k] < |columns|
    requires forall c: nat :: c < |columns| && ColumnHasValue(rows, c) ==> c in keep
    requires names == seq(|keep|, k requires 0 <= k < |keep| => columns[keep[k]])
    ensures forall j :: 0 <= j < |columns| && ColumnHasValue(rows, j) ==> columns[j] in names
  {
    forall j | 0 <= j < |columns| && ColumnHasValue(rows, j) ensures columns[j] in names {
      var m :| 0 <= m < |keep| && keep[m] == j;
      assert names[m] == columns[j];
    }
  }

  lemma KeptNamesSound(columns: seq<string>, keep: seq<nat>, names: seq<string>)
    requires forall k :: 0 <= k < |keep| ==> keep[k] < |columns|
    requires names == seq(|keep|, k requires 0 <= k < |keep| => columns[keep[k]])
    ensures forall name :: name in names ==> name in columns
  {
    forall name | name in names ensures name in columns {
      var m :| 0 <= m < |names| && names[m] == name;
      assert columns[keep[m]] == name;
    }
  }


  lemma KeptRowHasValue(t: Table, keep: seq<nat>, i: nat)
    requires WellFormed(t) && keep == KeptColumns(t.rows, 0, |t.columns|)
    requires i < |t.rows| && !AllMissing(t.rows[i])
    ensures !AllMissing(Project(t.rows[i], keep))
  {
    var c :| 0 <= c < |t.rows[i]| && !t.rows[i][c].Missing?;
    assert ColumnHasValue(t.rows, c);
    var m :| 0 <= m < |keep| && keep[m] == c;
    assert !Project(t.rows[i], keep)[m].Missing?;
  }

  lemma KeptColumnHasValue(t: Table, keep: seq<nat>, rows: seq<Row>, j: nat)
    requires WellFormed(t) && keep == KeptColumns(t.rows, 0, |t.columns|)
    requires rows == seq(|t.rows|, i requires 0 <= i < |t.rows| => Project(t.rows[i], keep))
    requires j < |keep|
    ensures ColumnHasValue(rows, j)
  {
    assert ColumnHasValue(t.rows, keep[j]);
    var i :| 0 <= i < |t.rows| && keep[j] < |t.rows[i]| && !t.rows[i][keep[j]].Missing?;
    assert !rows[i][j].Missing?;
  }

  /**
   * `df.dropna(how='all').dropna(axis=1, how='all')`: the rows DropEmptyRows
   * keeps, in order, restricted to the columns that still hold a value among
   * them. Afterwards no row and no column is entirely missing.
   */
  function DropEmpty(t: Table): (d: Table)
    requires WellFormed(t)
    ensures WellFormed(d)
    ensures |d.rows| == |DropEmptyRows(t.rows)|
    ensures forall i :: 0 <= i < |DropEmptyRows(t.rows)| ==> |DropEmptyRows(t.rows)[i]| == |t.columns|
    ensures forall j :: 0 <= j < |t.columns| ==>
              (t.columns[j] in d.columns <==> ColumnHasValue(DropEmptyRows(t.rows), j))
    ensures forall name :: name in d.columns ==> name in t.columns
    ensures forall a, b :: 0 <= a < b < |d.columns| ==>
              IndexOf(t.columns, d.columns[a]).value < IndexOf(t.columns, d.columns[b]).value
    ensures forall i, j :: 0 <= i < |d.rows| && 0 <= j < |d.columns| ==>
              d.rows[i][j] == DropEmptyRows(t.rows)[i][IndexOf(t.columns, d.columns[j]).value]
    ensures forall i :: 0 <= i < |d.rows| ==> !AllMissing(d.rows[i])
    ensures forall j :: 0 <= j < |d.columns| ==> ColumnHasValue(d.rows, j)
  {
    var rows := DropEmptyRows(t.rows);
    forall i | 0 <= i < |rows| ensures |rows[i]| == |t.columns| && !AllMissing(rows[i]) {
      assert rows[i] in rows;
    }
    DropEmptyColumns(Table(t.columns, rows))
  }

  /** `pd.to_numeric(cell, errors='coerce')`, with the number parser left abstract. */
  function CoerceCell(c: Cell, parse: string -> Option<real>): (r: Cell)
    ensures !r.Text?
    ensures !c.Text? ==> r == c
    ensures c.Text? ==> (r.Number? <==> parse(c.s).Some?)
    ensures c.Text? && parse(c.s).Some? ==> r == Number(parse(c.s).value)
  {
    match c
    case Text(s) => (match parse(s) case Some(x) => Number(x) case None => Missing)
    case _ => c
  }

  /**
   * `Series.str.strip()` on an object column: text is stripped, a missing cell
   * stays missing, and a non-string value becomes NaN.
   */
  function StripCell(c: Cell): (r: Cell)
    ensures r.Missing? || (r.Text? && IsTrimmed(r.s))
    ensures c.Missing? ==> r.Missing?
    ensures c.Text? ==> r == Text(Strip(c.s)) && (exists i, j :: 0 <= i <= j <= |c.s| && r.s == c.s[i..j])
    ensures c.Number? ==> r.Missing?
  {
    if c.Text? then Text(Strip(c.s)) else Missing
  }

  /** What `load_csv` leaves in a cell of the column called `name`. */
  function CleanCell(name: string, c: Cell, parse: string -> Option<real>): (r: Cell)
    ensures name in NumericCols ==> !r.Text?
    ensures name in StrCols ==> r.Missing? || (r.Text? && IsTrimmed(r.s))
    ensures name in NumericCols ==> r == CoerceCell(c, parse)
    ensures name in StrCols ==> r == StripCell(c)
    ensures name !in NumericCols && name !in StrCols ==> r == c
    ensures c.Missing? ==> r.Missing?
  {
    if name in NumericCols then CoerceCell(c, parse)
    else if name in StrCols then StripCell(c)
    else c
  }

  /** Cleaning a clean cell again changes nothing: trimmed text stays, missing stays missing. */
  lemma CleanCellIdempotent(name: string, c: Cell, parse: string -> Option<real>)
    ensures CleanCell(name, CleanCell(name, c, parse), parse) == CleanCell(name, c, parse)
  {
    if name !in NumericCols && name in StrCols && c.Text? {
      StripIdempotent(c.s);
    }
  }

  /** A row of the frame `load_csv` returns, cell by cell. */
  function CleanRow(names: seq<string>, row: Row, parse: string -> Option<real>): (r: Row)
    requires |row| == |names|
    ensures |r| == |row|
    ensures forall k :: 0 <= k < |row| ==> r[k] == CleanCell(names[k], row[k], parse)
  {
    seq(|row|, k requires 0 <= k < |row| => CleanCell(names[k], row[k], parse))
  }

  /**
   * Coercion runs after the empty rows were dropped, so a row whose only value
   * is unparseable text in a numeric column comes out entirely missing:
   * the frame `load_csv` returns may hold an all-missing row.
   */
  lemma CoercionCanEmptyRow(parse: string -> Option<real>)
    requires parse("abc").None?
    ensures !AllMissing([Text("abc")])
    ensures AllMissing(CleanRow(["Income"], [Text("abc")], parse))
  {
    assert "Income" in NumericCols;
    assert CleanRow(["Income"], [Text("abc")], parse)[0] == Missing;
  }

  /** No column name is both numeric and text. */
  lemma NoTextInNumericCols()
    ensures forall name :: name in StrCols ==> name !in NumericCols
  {
  }

  /** Numeric columns hold no text and text columns hold no number. */
  predicate Typed(t: Table)
    requires WellFormed(t)
  {
    forall i, j :: 0 <= i < |t.rows| && 0 <= j < |t.columns| ==>
      && (t.columns[j] in NumericCols ==> !t.rows[i][j].Text?)
      && (t.columns[j] in StrCols ==> !t.rows[i][j].Number?)
  }

  /** `df[name] = pd.to_numeric(df[name], errors='coerce')` when the column exists. */
  function CoerceColumn(t: Table, name: string, parse: string -> Option<real>): (r: Table)
    requires WellFormed(t)
    ensures WellFormed(r) && r.columns == t.columns && |r.rows| == |t.rows|
    ensures forall i, k :: 0 <= i < |t.rows| && 0 <= k < |t.columns| ==>
              r.rows[i][k] == if t.columns[k] == name then CoerceCell(t.rows[i][k], parse) else t.rows[i][k]
  {
    match IndexOf(t.columns, name)
    case None => t
    case Some(j) => MapColumn(t, j, c => CoerceCell(c, parse))
  }

  /**
   * `df[name] = df[name].str.strip()` when the column exists; None when the
   * column holds no string, so that pandas gave it a non-string dtype and the
   * `.str` accessor raises.
   */
  function StripColumn(t: Table, name: string): (r: Option<Table>)
    requires WellFormed(t)
    ensures r.None? <==> exists j :: 0 <= j < |t.columns| && t.columns[j] == name && !ColumnHasText(t, j)
    ensures r.Some? ==> && WellFormed(r.value) && r.value.columns == t.columns && |r.value.rows| == |t.rows|
                        && forall i, k :: 0 <= i < |t.rows| && 0 <= k < |t.columns| ==>
                             r.value.rows[i][k] == if t.columns[k] == name then StripCell(t.rows[i][k]) else t.rows[i][k]
  {
    match IndexOf(t.columns, name)
    case None => Some(t)
    case Some(j) => if ColumnHasText(t, j) then Some(MapColumn(t, j, StripCell)) else None
  }

  /** `df` is `d` with the numeric columns among `done` coerced. */
  predicate CoercedUpTo(d: Table, df: Table, done: seq<string>, parse: string -> Option<real>)
    requires WellFormed(d)
  {
    && WellFormed(df) && df.columns == d.columns && |df.rows| == |d.rows|
    && forall i, j :: 0 <= i < |d.rows| && 0 <= j < |d.columns| ==>
         df.rows[i][j] == if d.columns[j] in done then CoerceCell(d.rows[i][j], parse) else d.rows[i][j]
  }

  lemma CoerceStep(d: Table, df: Table, done: seq<string>, name: string, parse: string -> Option<real>)
    requires WellFormed(d) && CoercedUpTo(d, df, done, parse) && name !in done
    ensures CoercedUpTo(d, CoerceColumn(df, name, parse), done + [name], parse)
  {
  }

  /** The loop of `load_csv` over NumericCols: each numeric column present is coerced. */
  method CoerceNumericColumns(d: Table, parse: string -> Option<real>) returns (df: Table)
    requires WellFormed(d)
    ensures CoercedUpTo(d, df, NumericCols, parse)
  {
    df := d;
    for n := 0 to |NumericCols|
      invariant CoercedUpTo(d, df, NumericCols[..n], parse)
    {
      assert NumericCols[n] !in NumericCols[..n];
      CoerceStep(d, df, NumericCols[..n], NumericCols[n], parse);
      df := CoerceColumn(df, NumericCols[n], parse);
      assert NumericCols[..n + 1] == NumericCols[..n] + [NumericCols[n]];
    }
    assert NumericCols[..|NumericCols|] == NumericCols;
  }

  /** `df` is `d` with the text columns among `done` stripped, each of which holds some string. */
  predicate StrippedUpTo(d: Table, df: Table, done: seq<string>)
    requires WellFormed(d)
  {
    && WellFormed(df) && df.columns == d.columns && |df.rows| == |d.rows|
    && (forall j :: 0 <= j < |d.columns| && d.columns[j] in done ==> ColumnHasText(d, j))
    && forall i, j :: 0 <= i < |d.rows| && 0 <= j < |d.columns| ==>
         df.rows[i][j] == if d.columns[j] in done then StripCell(d.rows[i][j]) else d.rows[i][j]
  }

  /** A strip that raises in the loop names a text column of `d` holding no string. */
  lemma StripStepFails(d: Table, df: Table, done: seq<string>, name: string)
    requires WellFormed(d) && StrippedUpTo(d, df, done) && name !in done
    requires StripColumn(df, name).None?
    ensures exists j :: 0 <= j < |d.columns| && d.columns[j] == name && !ColumnHasText(d, j)
  {
    var j :| 0 <= j < |df.columns| && df.columns[j] == name && !ColumnHasText(df, j);
    forall i | 0 <= i < |d.rows| ensures !d.rows[i][j].Text? {
      assert df.rows[i][j] == d.rows[i][j];
    }
  }

  /** A strip that succeeds in the loop extends the stripped columns by `name`. */
  lemma StripStepKeeps(d: Table, df: Table, done: seq<string>, name: string)
    requires WellFormed(d) && StrippedUpTo(d, df, done) && name !in done
    requires StripColumn(df, name).Some?
    ensures StrippedUpTo(d, StripColumn(df, name).value, done + [name])
  {
    var s := StripColumn(df, name).value;
    forall j | 0 <= j < |d.columns| && d.columns[j] in done + [name] ensures ColumnHasText(d, j) {
      if d.columns[j] == name {
        assert ColumnHasText(df, j);
        var i :| 0 <= i < |df.rows| && df.rows[i][j].Text?;
        assert df.rows[i][j] == d.rows[i][j];
      }
    }
    forall i, j | 0 <= i < |d.rows| && 0 <= j < |d.columns|
      ensures s.rows[i][j] == if d.columns[j] in done + [name] then StripCell(d.rows[i][j]) else d.rows[i][j]
    {
      assert s.rows[i][j] == if df.columns[j] == name then StripCell(df.rows[i][j]) else df.rows[i][j];
    }
  }

  /**
   * The loop of `load_csv` over StrCols: each text column present is stripped,
   * and the first one holding no string at all makes the load fail.
   */
  method StripTextColumns(d: Table) returns (r: Option<Table>)
    requires WellFormed(d)
    ensures r.None? <==> exists j :: 0 <= j < |d.columns| && d.columns[j] in StrCols && !ColumnHasText(d, j)
    ensures r.Some? ==> StrippedUpTo(d, r.value, StrCols)
  {
    var df := d;
    for n := 0 to |StrCols|
      invariant StrippedUpTo(d, df, StrCols[..n])
    {
      assert StrCols[n] !in StrCols[..n];
      var stripped := StripColumn(df, StrCols[n]);
      if stripped.None? {
        StripStepFails(d, df, StrCols[..n], StrCols[n]);
        // `.str` raises AttributeError, which load_csv turns into None
        return None;
      }
      StripStepKeeps(d, df, StrCols[..n], StrCols[n]);
      df := stripped.value;
      assert StrCols[..n + 1] == StrCols[..n] + [StrCols[n]];
    }
    assert StrCols[..|StrCols|] == StrCols;
    r := Some(df);
  }

  /** Some text column holds no string at all, so stripping it raises. */
  predicate StripFails(d: Table)
    requires WellFormed(d)
  {
    exists j | 0 <= j < |d.columns| :: d.columns[j] in StrCols && !ColumnHasText(d, j)
  }

  /**
   * The frame the loops of `load_csv` leave when they do not raise: every
   * cell cleaned by CleanCell. Numeric columns hold no text, text columns hold
   * no number and only trimmed strings, a missing cell stays missing, and the
   * other columns are untouched.
   */
  function Clean(d: Table, parse: string -> Option<real>): (c: Table)
    requires WellFormed(d)
    ensures WellFormed(c) && Typed(c)
    ensures c.columns == d.columns && |c.rows| == |d.rows|
    ensures forall i, j :: 0 <= i < |c.rows| && 0 <= j < |c.columns| ==>
              c.rows[i][j] == CleanCell(d.columns[j], d.rows[i][j], parse)
    ensures forall i, j :: 0 <= i < |c.rows| && 0 <= j < |c.columns| && c.columns[j] in StrCols && c.rows[i][j].Text? ==>
              IsTrimmed(c.rows[i][j].s)
    ensures forall i, j :: 0 <= i < |c.rows| && 0 <= j < |c.columns| && d.rows[i][j].Missing? ==> c.rows[i][j].Missing?
    ensures forall i, j :: 0 <= i < |c.rows| && 0 <= j < |c.columns| && c.columns[j] !in NumericCols && c.columns[j] !in StrCols ==>
              c.rows[i][j] == d.rows[i][j]
  {
    var c := Table(d.columns, seq(|d.rows|, i requires 0 <= i < |d.rows| => CleanRow(d.columns, d.rows[i], parse)));
    assert forall i :: 0 <= i < |c.rows| ==> c.rows[i] == CleanRow(d.columns, d.rows[i], parse);
    c
  }

  /** Cleaning a cleaned frame again changes nothing, and it raises exactly when the first cleaning did. */
  lemma {:induction false} CleanIdempotent(d: Table, parse: string -> Option<real>)
    requires WellFormed(d)
    ensures Clean(Clean(d, parse), parse) == Clean(d, parse)
    ensures StripFails(Clean(d, parse)) <==> StripFails(d)
  {
    var c := Clean(d, parse);
    var cc := Clean(c, parse);
    forall i | 0 <= i < |d.rows| ensures cc.rows[i] == c.rows[i] {
      forall k | 0 <= k < |d.columns| ensures cc.rows[i][k] == c.rows[i][k] {
        CleanCellIdempotent(d.columns[k], d.rows[i][k], parse);
      }
    }
    NoTextInNumericCols();
    forall j | 0 <= j < |d.columns| && d.columns[j] in StrCols ensures ColumnHasText(c, j) <==> ColumnHasText(d, j) {
      assert forall i :: 0 <= i < |d.rows| ==> c.rows[i][j] == StripCell(d.rows[i][j]);
    }
  }

  /** Coercing then stripping, as the two loops do, is cleaning. */
  lemma CleanCellSteps(name: string, c: Cell, parse: string -> Option<real>)
    ensures var coerced := if name in NumericCols then CoerceCell(c, parse) else c;
            CleanCell(name, c, parse) == if name in StrCols then StripCell(coerced) else coerced
  {
    NoTextInNumericCols();
  }

  /**
   * The two loops of `load_csv` (lines 28-38) on the frame `d`: None when a
   * text column holds no string, otherwise `d` cleaned cell by cell.
   */
  method CleanColumns(d: Table, parse: string -> Option<real>) returns (r: Option<Table>)
    requires WellFormed(d)
    ensures r == if StripFails(d) then None else Some(Clean(d, parse))
  {
    var df := CoerceNumericColumns(d, parse);
    r := StripTextColumns(df);
    NoTextInNumericCols();
    forall j | 0 <= j < |d.columns| && d.columns[j] in StrCols ensures ColumnHasText(d, j) <==> ColumnHasText(df, j) {
      assert forall i :: 0 <= i < |d.rows| ==> df.rows[i][j] == d.rows[i][j];
    }
    if r.Some? {
      var c := Clean(d, parse);
      forall i | 0 <= i < |d.rows| ensures r.value.rows[i] == c.rows[i] {
        forall k | 0 <= k < |d.columns| ensures r.value.rows[i][k] == c.rows[i][k] {
          CleanCellSteps(d.columns[k], d.rows[i][k], parse);
        }
      }
      assert r.value.rows == c.rows;
      assert !StripFails(d);
    } else {
      var j :| 0 <= j < |df.columns| && df.columns[j] in StrCols && !ColumnHasText(df, j);
      assert StripFails(d);
    }
  }

  /**
   * `load_csv`: `read` is what `pd.read_csv` produced, None when it raised.
   * Every failure yields None instead of an exception: reading failed, or a
   * text column holds no string at all. Otherwise the result is the frame
   * DropEmpty kept, cleaned cell by cell.
   */
  method LoadCsv(read: Option<Table>, parse: string -> Option<real>) returns (r: Option<Table>)
    requires read.Some? ==> WellFormed(read.value)
    ensures read.None? ==> r.None?
    ensures read.Some? ==>
              var d := DropEmpty(read.value);
              r == if StripFails(d) then None else Some(Clean(d, parse))
  {
    if read.None? {
      return None;
    }
    var d := DropEmpty(read.value);
    r := CleanColumns(d, parse);
  }
}
