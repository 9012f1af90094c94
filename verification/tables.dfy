/** The slice of pandas DataFrame behaviour the loaders use: a table is an
    ordered list of column names and a sequence of rows, each row a map from
    column name to cell. Failing pandas calls (a `KeyError` for an absent
    column, a `ValueError` for a rename of the wrong width, an exception from
    a cell of the wrong kind) become `Err` results. */
module Tables {
  import opened Seqs

  /** A cell: a string, an integer, a float (modelled exactly), or NaN. */
  datatype Value = Text(text: string) | Whole(number: int) | Real(amount: real) | Missing

  type Row = map<string, Value>

  datatype Table = Table(columns: seq<string>, rows: seq<Row>)

  datatype Error =
    | MissingColumns(names: seq<string>)          // KeyError from `df[[...]]` or `df[col]`
    | LengthMismatch(expected: nat, given: nat)   // ValueError from `df.columns = [...]`
    | NotAString(column: string)                  // a string method applied to a non-string cell
    | NotNumeric(column: string)                  // arithmetic or `astype(int)` on a non-number

  datatype Result<+T> = Ok(value: T) | Err(error: Error) {
    predicate IsFailure() { Err? }

    function PropagateFailure<U>(): Result<U>
      requires Err?
    {
      Err(error)
    }

    function Extract(): T
      requires Ok?
    {
      value
    }
  }

  /** The cell of `r` under `k`; an absent cell reads as NaN. */
  function Get(r: Row, k: string): Value {
    if k in r then r[k] else Missing
  }

  /** The row has a cell under exactly the names in `cols`. */
  ghost predicate HasExactly(r: Row, cols: seq<string>) {
    forall c :: c in r <==> c in cols
  }

  predicate Distinct(xs: seq<string>) {
    forall i, j :: 0 <= i < j < |xs| ==> xs[i] != xs[j]
  }

  /** Column names are unique and every row has exactly the table's columns. */
  ghost predicate WellFormed(t: Table) {
    Distinct(t.columns) && forall i :: 0 <= i < |t.rows| ==> HasExactly(t.rows[i], t.columns)
  }

  /** pandas `df.empty`: no rows or no columns. */
  predicate IsEmpty(t: Table) {
    |t.rows| == 0 || |t.columns| == 0
  }

  /* ---------------- df[[c1, c2, ...]] ---------------- */

  /** The names in `wanted` that `have` lacks, in order. */
  function Absent(wanted: seq<string>, have: seq<string>): (r: seq<string>)
    ensures r == [] <==> forall c :: c in wanted ==> c in have
  {
    var r := Filter(wanted, c => c !in have);
    forall c | c in wanted && c !in have
      ensures c in r
    {
      FilterKeeps(wanted, c => c !in have, c);
    }
    assert r != [] ==> r[0] in r;
    r
  }

  /** The cells of `r` under `cols`. */
  function Project(r: Row, cols: seq<string>): (p: Row)
    ensures forall c :: c in p <==> c in cols
    ensures forall c :: c in cols ==> p[c] == Get(r, c)
  {
    map c | c in cols :: Get(r, c)
  }

  /** `df[cols]`: fails with the absent names when any column is missing. */
  function Select(t: Table, cols: seq<string>): (r: Result<Table>)
    ensures r.Ok? <==> forall c :: c in cols ==> c in t.columns
    ensures r.Err? ==> r.error.MissingColumns? && r.error.names != []
    ensures r.Ok? ==> r.value.columns == cols && |r.value.rows| == |t.rows|
    ensures r.Ok? ==> forall i :: 0 <= i < |t.rows| ==> r.value.rows[i] == Project(t.rows[i], cols)
  {
    var absent := Absent(cols, t.columns);
    if absent != [] then Err(MissingColumns(absent))
    else Ok(Table(cols, seq(|t.rows|, i requires 0 <= i < |t.rows| => Project(t.rows[i], cols))))
  }

  /* ---------------- df.columns = [...] ---------------- */

  /** The row with the cell of `cols[j]` moved to `names[j]`. */
  function Relabel(r: Row, cols: seq<string>, names: seq<string>): (p: Row)
    requires |cols| == |names| && Distinct(names)
    ensures forall c :: c in p <==> c in names
    ensures forall j :: 0 <= j < |names| ==> names[j] in p && p[names[j]] == Get(r, cols[j])
  {
    map j | 0 <= j < |names| :: names[j] := Get(r, cols[j])
  }

  /** Positional rename: needs exactly one new name per existing column. */
  function SetColumns(t: Table, names: seq<string>): (r: Result<Table>)
    requires Distinct(names)
    ensures r.Ok? <==> |names| == |t.columns|
    ensures r.Err? ==> r.error == LengthMismatch(|t.columns|, |names|)
    ensures r.Ok? ==> r.value.columns == names && |r.value.rows| == |t.rows|
    ensures r.Ok? ==> forall i :: 0 <= i < |t.rows| ==> r.value.rows[i] == Relabel(t.rows[i], t.columns, names)
  {
    if |names| != |t.columns| then Err(LengthMismatch(|t.columns|, |names|))
    else Ok(Table(names, seq(|t.rows|, i requires 0 <= i < |t.rows| => Relabel(t.rows[i], t.columns, names))))
  }

  /* ---------------- df[df[col] != v] ---------------- */

  /** The marker of the summary row both survey tables end with. */
  const TotalMarker: Value := Text("Total")

  function CellDiffers(col: string, v: Value): Row -> bool {
    r => Get(r, col) != v
  }

  /** `df[df[col] != v]`: a missing column is a `KeyError`. */
  function DropWhere(t: Table, col: string, v: Value): (r: Result<Table>)
    ensures r.Ok? <==> col in t.columns
    ensures r.Err? ==> r.error == MissingColumns([col])
    ensures r.Ok? ==> r.value.columns == t.columns
  {
    if col !in t.columns then Err(MissingColumns([col]))
    else Ok(Table(t.columns, Filter(t.rows, CellDiffers(col, v))))
  }

  /* ---------------- df[name] = ... ---------------- */

  /** Assigning a column keeps the position of an existing one and appends a new one. */
  function WithColumn(cols: seq<string>, name: string): (r: seq<string>)
    ensures name in r
    ensures Distinct(cols) ==> Distinct(r)
    ensures forall c :: c in r <==> c in cols || c == name
  {
    if name in cols then cols else cols + [name]
  }

  /** `df[name] = <a value computed from each row>`, for a computation that cannot fail. */
  function AssignWith(t: Table, name: string, f: Row -> Value): (r: Table)
    ensures r.columns == WithColumn(t.columns, name)
    ensures |r.rows| == |t.rows|
    ensures forall i :: 0 <= i < |t.rows| ==> r.rows[i] == t.rows[i][name := f(t.rows[i])]
  {
    Table(WithColumn(t.columns, name), seq(|t.rows|, i requires 0 <= i < |t.rows| => t.rows[i][name := f(t.rows[i])]))
  }

  /** Each row extended with `name := f(row)`; the first failing row fails the whole column. */
  function ComputeRows(rows: seq<Row>, name: string, f: Row -> Result<Value>): (r: Result<seq<Row>>)
    ensures r.Ok? <==> forall i :: 0 <= i < |rows| ==> f(rows[i]).Ok?
    ensures r.Ok? ==> |r.value| == |rows|
    ensures r.Ok? ==> forall i :: 0 <= i < |rows| ==> r.value[i] == rows[i][name := f(rows[i]).value]
    ensures r.Err? ==> exists i :: 0 <= i < |rows| && f(rows[i]) == Err(r.error)
  {
    if |rows| == 0 then Ok([])
    else
      var v :- f(rows[0]);
      var rest :- ComputeRows(rows[1..], name, f);
      Ok([rows[0][name := v]] + rest)
  }

  /** `df[name] = <a column computed from each row>`, for a computation that may raise. */
  function ComputeColumn(t: Table, name: string, f: Row -> Result<Value>): (r: Result<Table>)
    ensures r.Ok? <==> forall i :: 0 <= i < |t.rows| ==> f(t.rows[i]).Ok?
    ensures r.Ok? ==> r.value.columns == WithColumn(t.columns, name) && |r.value.rows| == |t.rows|
    ensures r.Ok? ==> forall i :: 0 <= i < |t.rows| ==> r.value.rows[i] == t.rows[i][name := f(t.rows[i]).value]
    ensures r.Err? ==> exists i :: 0 <= i < |t.rows| && f(t.rows[i]) == Err(r.error)
  {
    var rows :- ComputeRows(t.rows, name, f);
    Ok(Table(WithColumn(t.columns, name), rows))
  }

  /** `df[df[col] != v]` removes exactly the rows holding `v` under `col` and keeps the rest in order. */
  lemma DropWhereKeeps(t: Table, col: string, v: Value)
    requires col in t.columns
    ensures var kept := DropWhere(t, col, v).value.rows;
      && IsSubsequence(kept, t.rows)
      && (forall row :: row in kept ==> Get(row, col) != v)
      && (forall row :: row in t.rows && Get(row, col) != v ==> row in kept)
      && (forall row :: multiset(kept)[row] == if Get(row, col) != v then multiset(t.rows)[row] else 0)
      && ((forall i :: 0 <= i < |t.rows| ==> Get(t.rows[i], col) != v) ==> kept == t.rows)
  {
    var keep := CellDiffers(col, v);
    FilterIsSubsequence(t.rows, keep);
    forall row | row in t.rows && keep(row)
      ensures row in Filter(t.rows, keep)
    {
      FilterKeeps(t.rows, keep, row);
    }
    forall row
      ensures multiset(Filter(t.rows, keep))[row] == if keep(row) then multiset(t.rows)[row] else 0
    {
      FilterCount(t.rows, keep, row);
    }
    if forall i :: 0 <= i < |t.rows| ==> Get(t.rows[i], col) != v {
      FilterAll(t.rows, keep);
    }
  }

  /** Keeping rows by a test keeps the column set of each row, so well-formedness survives. */
  lemma FilterWellFormed(t: Table, keep: Row -> bool)
    requires WellFormed(t)
    ensures WellFormed(Table(t.columns, Filter(t.rows, keep)))
  {
    var kept := Filter(t.rows, keep);
    forall i | 0 <= i < |kept|
      ensures HasExactly(kept[i], t.columns)
    {
      assert kept[i] in kept;
    }
  }
}
