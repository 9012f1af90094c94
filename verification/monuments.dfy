/** The local fallback of the monuments table (`load_monuments_data` in app.py
    and `upload_monuments_data` in upload_missing_data.py): drop the "Total"
    row, rename the three columns positionally, and rewrite four state names
    to the spelling the other tables use. */
module Monuments {
  import opened Seqs
  import opened Tables

  const MonumentColumns: seq<string> := ["SL_NO", "STATE", "MONUMENTS"]

  /** The four spellings that are rewritten, and what they become. */
  const StateNameMapping: map<string, string> := map[
    "N.C.T. Delhi" := "Delhi",
    "Daman & Diu (UT)" := "Daman and Diu",
    "Puducherry (U.T.)" := "Puducherry",
    "Jammu & Kashmir" := "Jammu and Kashmir"
  ]

  /** `Series.replace(mapping)` on one cell: a string equal to a key becomes its value;
      every other cell, strings and non-strings alike, is left as it is. */
  function MapStateName(v: Value): (r: Value)
    ensures r.Text? <==> v.Text?
    ensures !v.Text? ==> r == v
  {
    if v.Text? && v.text in StateNameMapping then Text(StateNameMapping[v.text]) else v
  }

  /** No replacement is itself a key. */
  lemma NoValueIsKey()
    ensures forall k :: k in StateNameMapping ==> StateNameMapping[k] !in StateNameMapping
  {
  }

  /** The mapping changes a cell exactly when it is one of the four listed names. */
  lemma MapStateNameChangesExactlyKeys(v: Value)
    ensures MapStateName(v) != v <==>
      v in {Text("N.C.T. Delhi"), Text("Daman & Diu (UT)"), Text("Puducherry (U.T.)"), Text("Jammu & Kashmir")}
  {
  }

  /** Applying the mapping twice is applying it once. */
  lemma MapStateNameIdempotent(v: Value)
    ensures MapStateName(MapStateName(v)) == MapStateName(v)
  {
    NoValueIsKey();
  }

  /** The clean-up: drop the "Total" row, rename positionally, map the state names. */
  function CleanMonuments(t: Table): Result<Table> {
    assert Distinct(MonumentColumns);
    var kept :- DropWhere(t, "Sl.No", TotalMarker);
    var renamed :- SetColumns(kept, MonumentColumns);
    Ok(AssignWith(renamed, "STATE", (r: Row) => MapStateName(Get(r, "STATE"))))
  }

  /** The rows left after dropping the "Total" row. */
  function KeptMonuments(t: Table): seq<Row> {
    Filter(t.rows, CellDiffers("Sl.No", TotalMarker))
  }

  /** The clean-up fails exactly when "Sl.No" is absent (a `KeyError`) or the table
      does not have three columns (a `ValueError` from the rename). */
  lemma CleanMonumentsSucceedsIff(t: Table)
    ensures CleanMonuments(t).Ok? <==> "Sl.No" in t.columns && |t.columns| == 3
    ensures "Sl.No" !in t.columns ==> CleanMonuments(t) == Err(MissingColumns(["Sl.No"]))
    ensures "Sl.No" in t.columns && |t.columns| != 3 ==> CleanMonuments(t) == Err(LengthMismatch(|t.columns|, 3))
  {
  }

  /** One cleaned row: the three cells of the source row under the new names, with STATE mapped. */
  lemma CleanedRow(src: Row, cols: seq<string>)
    requires |cols| == 3
    ensures var p := Relabel(src, cols, MonumentColumns);
      var r := p["STATE" := MapStateName(Get(p, "STATE"))];
      && HasExactly(r, MonumentColumns)
      && Get(r, "SL_NO") == Get(src, cols[0])
      && Get(r, "STATE") == MapStateName(Get(src, cols[1]))
      && Get(r, "MONUMENTS") == Get(src, cols[2])
  {
    assert Distinct(MonumentColumns);
    var p := Relabel(src, cols, MonumentColumns);
    assert p[MonumentColumns[0]] == Get(src, cols[0]);
    assert p[MonumentColumns[1]] == Get(src, cols[1]);
    assert p[MonumentColumns[2]] == Get(src, cols[2]);
  }

  /** The cleaned table: columns SL_NO, STATE, MONUMENTS; one row per non-"Total"
      source row, in order, carrying that row's cells with the state name mapped. */
  lemma CleanMonumentsRows(t: Table)
    requires CleanMonuments(t).Ok?
    ensures var out := CleanMonuments(t).value;
      && out.columns == MonumentColumns
      && |out.rows| == |KeptMonuments(t)|
      && forall i :: 0 <= i < |out.rows| ==>
           && HasExactly(out.rows[i], MonumentColumns)
           && Get(out.rows[i], "SL_NO") == Get(KeptMonuments(t)[i], t.columns[0])
           && Get(out.rows[i], "STATE") == MapStateName(Get(KeptMonuments(t)[i], t.columns[1]))
           && Get(out.rows[i], "MONUMENTS") == Get(KeptMonuments(t)[i], t.columns[2])
  {
    assert Distinct(MonumentColumns);
    var kept := KeptMonuments(t);
    assert "STATE" in MonumentColumns;
    forall i | 0 <= i < |kept|
      ensures var p := Relabel(kept[i], t.columns, MonumentColumns);
        var r := p["STATE" := MapStateName(Get(p, "STATE"))];
        && HasExactly(r, MonumentColumns)
        && Get(r, "SL_NO") == Get(kept[i], t.columns[0])
        && Get(r, "STATE") == MapStateName(Get(kept[i], t.columns[1]))
        && Get(r, "MONUMENTS") == Get(kept[i], t.columns[2])
    {
      CleanedRow(kept[i], t.columns);
    }
  }

  /** Only the "Total" rows are dropped, and the others keep their order. */
  lemma TotalRowRemoved(t: Table)
    requires "Sl.No" in t.columns
    ensures IsSubsequence(KeptMonuments(t), t.rows)
    ensures forall row :: row in t.rows ==> (row in KeptMonuments(t) <==> Get(row, "Sl.No") != TotalMarker)
    ensures forall row :: multiset(KeptMonuments(t))[row] == (if Get(row, "Sl.No") != TotalMarker then multiset(t.rows)[row] else 0)
  {
    DropWhereKeeps(t, "Sl.No", TotalMarker);
  }

  /** Cleaning an already cleaned table's STATE column again changes nothing. */
  lemma CleanStatesIdempotent(t: Table)
    requires CleanMonuments(t).Ok?
    ensures var out := CleanMonuments(t).value;
      forall i :: 0 <= i < |out.rows| ==>
        MapStateName(Get(out.rows[i], "STATE")) == Get(out.rows[i], "STATE")
  {
    CleanMonumentsRows(t);
    var out := CleanMonuments(t).value;
    forall i | 0 <= i < |out.rows|
      ensures MapStateName(Get(out.rows[i], "STATE")) == Get(out.rows[i], "STATE")
    {
      MapStateNameIdempotent(Get(KeptMonuments(t)[i], t.columns[1]));
    }
  }
}
