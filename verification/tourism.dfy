/** The local fallback of the tourism statistics (`load_local_tourism_data`
    and the `except` branch of `load_tourism_stats` in app.py, two copies of
    one procedure). Two survey tables with different column conventions are
    cut into one block per year, renamed to a common shape, tagged with the
    year and stacked; state names are then stripped and MONTH is set to 1. */
module Tourism {
  import opened Strings
  import opened Seqs
  import opened Tables

  const VisitorColumns: seq<string> := ["STATE", "DOMESTIC_VISITORS", "FOREIGN_VISITORS"]
  /** The columns of the stacked blocks, before MONTH is added. */
  const StackedColumns: seq<string> := VisitorColumns + ["YEAR"]
  const OutputColumns: seq<string> := ["STATE", "DOMESTIC_VISITORS", "FOREIGN_VISITORS", "YEAR", "MONTH"]

  /** The years of each survey table, as the year string and its `int(year)`. */
  const RecentYears: seq<(string, int)> := [("2019", 2019), ("2020", 2020), ("2021", 2021)]
  const EarlierYears: seq<(string, int)> := [("2016", 2016), ("2017", 2017), ("2018", 2018)]

  /** Columns read from the 2019-2021 table for one year. */
  function RecentColumns(year: string): seq<string> {
    ["State/ UT", year + " - Domestic", year + " - Foreign"]
  }

  /** Columns read from the 2016-2018 table for one year; only 2018 carries " (Revised)". */
  function EarlierColumns(year: string): seq<string> {
    var suffix := if year == "2018" then " (Revised)" else "";
    ["States", year + suffix + " - DTV", year + suffix + " - FTV"]
  }

  /** `.str.strip()` on one cell: strings are stripped, anything else becomes NaN. */
  function StripValue(v: Value): Value {
    match v
    case Text(s) => Text(Strip(s))
    case _ => Missing
  }

  /** One year's block: select three columns, rename them, add YEAR. */
  function YearBlock(t: Table, cols: seq<string>, year: int): Result<Table> {
    assert Distinct(VisitorColumns);
    var selected :- Select(t, cols);
    var renamed :- SetColumns(selected, VisitorColumns);
    Ok(AssignWith(renamed, "YEAR", (r: Row) => Whole(year)))
  }

  /** The blocks of the listed years, stacked in list order; the first failing year fails. */
  function StackYears(t: Table, years: seq<(string, int)>, colsFor: string -> seq<string>): Result<seq<Row>> {
    if |years| == 0 then Ok([])
    else
      var block :- YearBlock(t, colsFor(years[0].0), years[0].1);
      var rest :- StackYears(t, years[1..], colsFor);
      Ok(block.rows + rest)
  }

  /** The two assignments after stacking: strip STATE, then set MONTH to 1. */
  function Finalise(combined: Table): Table {
    var stripped := AssignWith(combined, "STATE", (r: Row) => StripValue(Get(r, "STATE")));
    AssignWith(stripped, "MONTH", (r: Row) => Whole(1))
  }

  /** The whole harmonisation: drop the "Total" row of the first table, stack
      2019, 2020, 2021 from it and 2016, 2017, 2018 from the second, strip STATE, add MONTH. */
  function Harmonise(df1: Table, df2: Table): Result<Table> {
    var recent :- DropWhere(df1, "Sl. No.", TotalMarker);
    var part1 :- StackYears(recent, RecentYears, RecentColumns);
    var part2 :- StackYears(df2, EarlierYears, EarlierColumns);
    Ok(Finalise(Table(StackedColumns, part1 + part2)))
  }

  /* ---------------- reference description of the output ---------------- */

  /** The output row that one source row yields for one year. */
  function HarmonisedRow(src: Row, cols: seq<string>, year: int): Row
    requires |cols| == 3
  {
    map["STATE" := StripValue(Get(src, cols[0])),
        "DOMESTIC_VISITORS" := Get(src, cols[1]),
        "FOREIGN_VISITORS" := Get(src, cols[2]),
        "YEAR" := Whole(year),
        "MONTH" := Whole(1)]
  }

  function ExpectedBlock(rows: seq<Row>, cols: seq<string>, year: int): seq<Row>
    requires |cols| == 3
  {
    seq(|rows|, i requires 0 <= i < |rows| => HarmonisedRow(rows[i], cols, year))
  }

  /** The rows of the first table that survive the "Total" filter. */
  function KeptRows(df1: Table): seq<Row> {
    Filter(df1.rows, CellDiffers("Sl. No.", TotalMarker))
  }

  /** The 2019, 2020 and 2021 blocks of the first table. */
  function ExpectedRecent(rows: seq<Row>): seq<Row> {
    ExpectedBlock(rows, RecentColumns("2019"), 2019)
    + ExpectedBlock(rows, RecentColumns("2020"), 2020)
    + ExpectedBlock(rows, RecentColumns("2021"), 2021)
  }

  /** The 2016, 2017 and 2018 blocks of the second table. */
  function ExpectedEarlier(rows: seq<Row>): seq<Row> {
    ExpectedBlock(rows, EarlierColumns("2016"), 2016)
    + ExpectedBlock(rows, EarlierColumns("2017"), 2017)
    + ExpectedBlock(rows, EarlierColumns("2018"), 2018)
  }

  /** Six blocks in the order 2019, 2020, 2021, 2016, 2017, 2018. */
  function ExpectedRows(df1: Table, df2: Table): seq<Row> {
    ExpectedRecent(KeptRows(df1)) + ExpectedEarlier(df2.rows)
  }

  /** Every column the first table must have, after "Sl. No.". */
  const RecentNeeded: seq<string> := RecentColumns("2019") + RecentColumns("2020") + RecentColumns("2021")
  /** Every column the second table must have. */
  const EarlierNeeded: seq<string> := EarlierColumns("2016") + EarlierColumns("2017") + EarlierColumns("2018")

  predicate HasAll(have: seq<string>, needed: seq<string>) {
    forall c :: c in needed ==> c in have
  }

  /** What every harmonised row looks like: exactly the five output columns,
      a YEAR in 2016..2021, MONTH 1, and a STATE that is NaN or a string with
      no whitespace at either end. */
  ghost predicate IsHarmonised(row: Row) {
    && HasExactly(row, OutputColumns)
    && Get(row, "YEAR").Whole? && 2016 <= Get(row, "YEAR").number <= 2021
    && Get(row, "MONTH") == Whole(1)
    && (Get(row, "STATE").Missing? || (Get(row, "STATE").Text? && Trimmed(Get(row, "STATE").text)))
  }

  /* ---------------- proofs ---------------- */

  /** A block row before STATE is stripped and MONTH is added. */
  function BlockRow(src: Row, cols: seq<string>, year: int): Row
    requires |cols| == 3
  {
    map["STATE" := Get(src, cols[0]),
        "DOMESTIC_VISITORS" := Get(src, cols[1]),
        "FOREIGN_VISITORS" := Get(src, cols[2]),
        "YEAR" := Whole(year)]
  }

  function BlockRows(rows: seq<Row>, cols: seq<string>, year: int): seq<Row>
    requires |cols| == 3
  {
    seq(|rows|, i requires 0 <= i < |rows| => BlockRow(rows[i], cols, year))
  }

  function StackedRows(rows: seq<Row>, years: seq<(string, int)>, colsFor: string -> seq<string>): seq<Row>
    requires forall k :: 0 <= k < |years| ==> |colsFor(years[k].0)| == 3
  {
    if |years| == 0 then []
    else BlockRows(rows, colsFor(years[0].0), years[0].1) + StackedRows(rows, years[1..], colsFor)
  }

  /** The source row's three cells under the visitor column names. */
  function RenamedVisitors(src: Row, cols: seq<string>): Row
    requires |cols| == 3
  {
    assert Distinct(VisitorColumns);
    Relabel(Project(src, cols), cols, VisitorColumns)
  }

  /** The renamed cells of one source row, before YEAR is added. */
  lemma RelabelledCells(src: Row, cols: seq<string>)
    requires |cols| == 3
    ensures var p := RenamedVisitors(src, cols);
      && "STATE" in p && p["STATE"] == Get(src, cols[0])
      && "DOMESTIC_VISITORS" in p && p["DOMESTIC_VISITORS"] == Get(src, cols[1])
      && "FOREIGN_VISITORS" in p && p["FOREIGN_VISITORS"] == Get(src, cols[2])
  {
    assert Distinct(VisitorColumns);
    var p := RenamedVisitors(src, cols);
    assert cols[0] in cols && cols[1] in cols && cols[2] in cols;
    assert p[VisitorColumns[0]] == Get(src, cols[0]);
    assert p[VisitorColumns[1]] == Get(src, cols[1]);
    assert p[VisitorColumns[2]] == Get(src, cols[2]);
  }

  /** A renamed row has exactly the three visitor columns. */
  lemma RelabelledKeys(src: Row, cols: seq<string>)
    requires |cols| == 3
    ensures forall k :: k in RenamedVisitors(src, cols) <==>
      k == "STATE" || k == "DOMESTIC_VISITORS" || k == "FOREIGN_VISITORS"
  {
    assert Distinct(VisitorColumns);
    assert forall k :: k in VisitorColumns <==> k == "STATE" || k == "DOMESTIC_VISITORS" || k == "FOREIGN_VISITORS";
  }

  /** Two rows with the same cells are the same row. */
  lemma SameRow(a: Row, b: Row)
    requires forall k :: k in a <==> k in b
    requires forall k :: k in a ==> a[k] == b[k]
    ensures a == b
  {
    assert a.Keys == b.Keys;
  }

  /** A row with exactly the three visitor cells is the literal three-cell row. */
  lemma ThreeCellRow(p: Row, st: Value, dom: Value, fgn: Value)
    requires forall k :: k in p <==> k == "STATE" || k == "DOMESTIC_VISITORS" || k == "FOREIGN_VISITORS"
    requires "STATE" in p && p["STATE"] == st
    requires "DOMESTIC_VISITORS" in p && p["DOMESTIC_VISITORS"] == dom
    requires "FOREIGN_VISITORS" in p && p["FOREIGN_VISITORS"] == fgn
    ensures p == map["STATE" := st, "DOMESTIC_VISITORS" := dom, "FOREIGN_VISITORS" := fgn]
  {
    var m := map["STATE" := st, "DOMESTIC_VISITORS" := dom, "FOREIGN_VISITORS" := fgn];
    assert |"STATE"| == 5 && |"DOMESTIC_VISITORS"| == 17 && |"FOREIGN_VISITORS"| == 16;
    SameRow(p, m);
  }

  /** A renamed row is the three-cell row of the visitor columns. */
  lemma RelabelledLiteral(src: Row, cols: seq<string>)
    requires |cols| == 3
    ensures RenamedVisitors(src, cols) ==
      map["STATE" := Get(src, cols[0]),
          "DOMESTIC_VISITORS" := Get(src, cols[1]),
          "FOREIGN_VISITORS" := Get(src, cols[2])]
  {
    RelabelledCells(src, cols);
    RelabelledKeys(src, cols);
    ThreeCellRow(RenamedVisitors(src, cols), Get(src, cols[0]), Get(src, cols[1]), Get(src, cols[2]));
  }

  lemma BlockRowOf(src: Row, cols: seq<string>, year: int)
    requires |cols| == 3
    ensures RenamedVisitors(src, cols)["YEAR" := Whole(year)] == BlockRow(src, cols, year)
  {
    RelabelledLiteral(src, cols);
  }

  lemma YearBlockSpec(t: Table, cols: seq<string>, year: int)
    requires |cols| == 3
    ensures YearBlock(t, cols, year).Ok? <==> HasAll(t.columns, cols)
    ensures YearBlock(t, cols, year).Ok? ==> YearBlock(t, cols, year).value.rows == BlockRows(t.rows, cols, year)
  {
    assert Distinct(VisitorColumns);
    var r := YearBlock(t, cols, year);
    if r.Ok? {
      forall i | 0 <= i < |t.rows|
        ensures r.value.rows[i] == BlockRow(t.rows[i], cols, year)
      {
        BlockRowOf(t.rows[i], cols, year);
      }
    }
  }

  lemma {:induction false} StackYearsSpec(t: Table, years: seq<(string, int)>, colsFor: string -> seq<string>)
    requires forall k :: 0 <= k < |years| ==> |colsFor(years[k].0)| == 3
    ensures StackYears(t, years, colsFor).Ok? <==>
            forall k :: 0 <= k < |years| ==> HasAll(t.columns, colsFor(years[k].0))
    ensures StackYears(t, years, colsFor).Ok? ==>
            StackYears(t, years, colsFor).value == StackedRows(t.rows, years, colsFor)
  {
    if |years| > 0 {
      YearBlockSpec(t, colsFor(years[0].0), years[0].1);
      StackYearsSpec(t, years[1..], colsFor);
      assert forall k :: 1 <= k < |years| ==> years[k] == years[1..][k - 1];
    }
  }

  /** Stacking three years: all three column triples are needed, and the blocks come in list order. */
  lemma StackThree(t: Table, years: seq<(string, int)>, colsFor: string -> seq<string>)
    requires |years| == 3 && forall k :: 0 <= k < 3 ==> |colsFor(years[k].0)| == 3
    ensures StackYears(t, years, colsFor).Ok? <==>
      HasAll(t.columns, colsFor(years[0].0) + colsFor(years[1].0) + colsFor(years[2].0))
    ensures StackYears(t, years, colsFor).Ok? ==> (StackYears(t, years, colsFor).value ==
      BlockRows(t.rows, colsFor(years[0].0), years[0].1)
      + BlockRows(t.rows, colsFor(years[1].0), years[1].1)
      + BlockRows(t.rows, colsFor(years[2].0), years[2].1))
  {
    StackYearsSpec(t, years, colsFor);
    StackedThree(t.rows, years, colsFor);
    HasAllThree(t.columns, colsFor(years[0].0), colsFor(years[1].0), colsFor(years[2].0));
  }

  lemma StackedThree(rows: seq<Row>, years: seq<(string, int)>, colsFor: string -> seq<string>)
    requires |years| == 3 && forall k :: 0 <= k < 3 ==> |colsFor(years[k].0)| == 3
    ensures StackedRows(rows, years, colsFor) ==
      BlockRows(rows, colsFor(years[0].0), years[0].1)
      + BlockRows(rows, colsFor(years[1].0), years[1].1)
      + BlockRows(rows, colsFor(years[2].0), years[2].1)
  {
    assert years[1..][0] == years[1] && years[1..][1..][0] == years[2] && years[1..][1..][1..] == [];
    var b0 := BlockRows(rows, colsFor(years[0].0), years[0].1);
    var b1 := BlockRows(rows, colsFor(years[1].0), years[1].1);
    var b2 := BlockRows(rows, colsFor(years[2].0), years[2].1);
    assert StackedRows(rows, years[1..][1..], colsFor) == b2 + [];
    assert StackedRows(rows, years[1..], colsFor) == b1 + (b2 + []);
    assert b0 + (b1 + (b2 + [])) == b0 + b1 + b2;
  }

  lemma HasAllThree(have: seq<string>, a: seq<string>, b: seq<string>, c: seq<string>)
    ensures HasAll(have, a + b + c) <==> HasAll(have, a) && HasAll(have, b) && HasAll(have, c)
  {
  }

  lemma RecentColumnNames(year: string)
    ensures |RecentColumns(year)| == 3
  {
  }

  lemma EarlierColumnNames(year: string)
    ensures |EarlierColumns(year)| == 3
  {
  }

  /** The three blocks of the first table, stacked. */
  lemma RecentStack(recent: Table)
    ensures StackYears(recent, RecentYears, RecentColumns).Ok? <==> HasAll(recent.columns, RecentNeeded)
    ensures StackYears(recent, RecentYears, RecentColumns).Ok? ==>
      StackYears(recent, RecentYears, RecentColumns).value ==
        BlockRows(recent.rows, RecentColumns("2019"), 2019)
        + BlockRows(recent.rows, RecentColumns("2020"), 2020)
        + BlockRows(recent.rows, RecentColumns("2021"), 2021)
  {
    assert RecentYears[0] == ("2019", 2019) && RecentYears[1] == ("2020", 2020) && RecentYears[2] == ("2021", 2021);
    StackThree(recent, RecentYears, RecentColumns);
  }

  /** The three blocks of the second table, stacked. */
  lemma EarlierStack(df2: Table)
    ensures StackYears(df2, EarlierYears, EarlierColumns).Ok? <==> HasAll(df2.columns, EarlierNeeded)
    ensures StackYears(df2, EarlierYears, EarlierColumns).Ok? ==>
      StackYears(df2, EarlierYears, EarlierColumns).value ==
        BlockRows(df2.rows, EarlierColumns("2016"), 2016)
        + BlockRows(df2.rows, EarlierColumns("2017"), 2017)
        + BlockRows(df2.rows, EarlierColumns("2018"), 2018)
  {
    assert EarlierYears[0] == ("2016", 2016) && EarlierYears[1] == ("2017", 2017) && EarlierYears[2] == ("2018", 2018);
    StackThree(df2, EarlierYears, EarlierColumns);
  }

  /** Harmonisation succeeds exactly when both tables carry every column it reads
      (and the first carries "Sl. No."); otherwise the result is an error. */
  lemma HarmoniseSucceedsIff(df1: Table, df2: Table)
    ensures Harmonise(df1, df2).Ok? <==>
      "Sl. No." in df1.columns && HasAll(df1.columns, RecentNeeded) && HasAll(df2.columns, EarlierNeeded)
  {
    if "Sl. No." in df1.columns {
      RecentStack(DropWhere(df1, "Sl. No.", TotalMarker).value);
      EarlierStack(df2);
    }
  }

  /** Without the " (Revised)" 2018 names in the second table the load fails. */
  lemma RevisedColumnsRequired(df1: Table, df2: Table)
    ensures "2018 (Revised) - DTV" !in df2.columns ==> Harmonise(df1, df2).Err?
    ensures "2018 (Revised) - FTV" !in df2.columns ==> Harmonise(df1, df2).Err?
  {
    HarmoniseSucceedsIff(df1, df2);
    var c18 := EarlierColumns("2018");
    assert c18[1] == "2018 (Revised) - DTV" && c18[2] == "2018 (Revised) - FTV";
    assert c18[1] in EarlierNeeded && c18[2] in EarlierNeeded;
  }

  /** The unrevised 2018 names are never read, so a table carrying only them is rejected. */
  lemma UnrevisedNamesUnused()
    ensures "2018 - DTV" !in EarlierNeeded && "2018 - FTV" !in EarlierNeeded
  {
    var a, b, c := EarlierColumns("2016"), EarlierColumns("2017"), EarlierColumns("2018");
    assert a == ["States", "2016 - DTV", "2016 - FTV"] by {
      assert a[1] == "2016 - DTV" && a[2] == "2016 - FTV";
    }
    assert b == ["States", "2017 - DTV", "2017 - FTV"] by {
      assert b[1] == "2017 - DTV" && b[2] == "2017 - FTV";
    }
    assert c == ["States", "2018 (Revised) - DTV", "2018 (Revised) - FTV"] by {
      assert c[1] == "2018 (Revised) - DTV" && c[2] == "2018 (Revised) - FTV";
    }
  }

  /** The two clean-up assignments, applied to one row. */
  function Finish(r: Row): Row {
    r["STATE" := StripValue(Get(r, "STATE"))]["MONTH" := Whole(1)]
  }

  function FinishAll(rows: seq<Row>): seq<Row> {
    seq(|rows|, i requires 0 <= i < |rows| => Finish(rows[i]))
  }

  lemma FinaliseSpec(t: Table)
    requires t.columns == StackedColumns
    ensures Finalise(t).columns == OutputColumns
    ensures Finalise(t).rows == FinishAll(t.rows)
  {
    assert t.columns[0] == "STATE";
    assert "MONTH" !in t.columns;
    assert t.columns + ["MONTH"] == OutputColumns;
  }

  lemma FinishAllAppend(a: seq<Row>, b: seq<Row>)
    ensures FinishAll(a + b) == FinishAll(a) + FinishAll(b)
  {
  }

  lemma FinishThree(a: seq<Row>, b: seq<Row>, c: seq<Row>)
    ensures FinishAll(a + b + c) == FinishAll(a) + FinishAll(b) + FinishAll(c)
  {
    FinishAllAppend(a + b, c);
    FinishAllAppend(a, b);
  }

  lemma FinishAllBlock(rows: seq<Row>, cols: seq<string>, year: int)
    requires |cols| == 3
    ensures FinishAll(BlockRows(rows, cols, year)) == ExpectedBlock(rows, cols, year)
  {
    forall i | 0 <= i < |rows|
      ensures Finish(BlockRows(rows, cols, year)[i]) == ExpectedBlock(rows, cols, year)[i]
    {
      FinishBlockRow(rows[i], cols, year);
    }
  }

  /** Overwriting STATE and adding MONTH to a four-cell row gives the five-cell row. */
  lemma FinishLiteral(st: Value, dom: Value, fgn: Value, yr: Value)
    ensures FinishedFour(st, dom, fgn, yr)
         == map["STATE" := StripValue(st), "DOMESTIC_VISITORS" := dom, "FOREIGN_VISITORS" := fgn,
                "YEAR" := yr, "MONTH" := Whole(1)]
  {
    FinishedFourKeys(st, dom, fgn, yr);
    FinishedFourCells(st, dom, fgn, yr);
    FiveCellRow(FinishedFour(st, dom, fgn, yr), StripValue(st), dom, fgn, yr, Whole(1));
  }

  /** The two clean-up assignments applied to a stacked row given by its four cells. */
  function FinishedFour(st: Value, dom: Value, fgn: Value, yr: Value): Row {
    map["STATE" := st, "DOMESTIC_VISITORS" := dom, "FOREIGN_VISITORS" := fgn, "YEAR" := yr]
      ["STATE" := StripValue(st)]["MONTH" := Whole(1)]
  }

  lemma FinishedFourKeys(st: Value, dom: Value, fgn: Value, yr: Value)
    ensures forall k :: k in FinishedFour(st, dom, fgn, yr) <==>
      k == "STATE" || k == "DOMESTIC_VISITORS" || k == "FOREIGN_VISITORS" || k == "YEAR" || k == "MONTH"
  {
  }

  lemma FinishedFourCells(st: Value, dom: Value, fgn: Value, yr: Value)
    ensures var a := FinishedFour(st, dom, fgn, yr);
      && "STATE" in a && a["STATE"] == StripValue(st)
      && "DOMESTIC_VISITORS" in a && a["DOMESTIC_VISITORS"] == dom
      && "FOREIGN_VISITORS" in a && a["FOREIGN_VISITORS"] == fgn
      && "YEAR" in a && a["YEAR"] == yr
      && "MONTH" in a && a["MONTH"] == Whole(1)
  {
    assert |"STATE"| == 5 && |"DOMESTIC_VISITORS"| == 17 && |"FOREIGN_VISITORS"| == 16 && |"YEAR"| == 4;
    assert "STATE"[0] != "MONTH"[0];
  }

  /** A row with exactly the five output cells is the literal five-cell row. */
  lemma FiveCellRow(p: Row, st: Value, dom: Value, fgn: Value, yr: Value, mo: Value)
    requires forall k :: k in p <==>
      k == "STATE" || k == "DOMESTIC_VISITORS" || k == "FOREIGN_VISITORS" || k == "YEAR" || k == "MONTH"
    requires "STATE" in p && p["STATE"] == st
    requires "DOMESTIC_VISITORS" in p && p["DOMESTIC_VISITORS"] == dom
    requires "FOREIGN_VISITORS" in p && p["FOREIGN_VISITORS"] == fgn
    requires "YEAR" in p && p["YEAR"] == yr
    requires "MONTH" in p && p["MONTH"] == mo
    ensures p == map["STATE" := st, "DOMESTIC_VISITORS" := dom, "FOREIGN_VISITORS" := fgn, "YEAR" := yr, "MONTH" := mo]
  {
    var m := map["STATE" := st, "DOMESTIC_VISITORS" := dom, "FOREIGN_VISITORS" := fgn, "YEAR" := yr, "MONTH" := mo];
    assert |"STATE"| == 5 && |"DOMESTIC_VISITORS"| == 17 && |"FOREIGN_VISITORS"| == 16 && |"YEAR"| == 4;
    assert "STATE"[0] != "MONTH"[0];
    SameRow(p, m);
  }

  lemma FinishBlockRow(src: Row, cols: seq<string>, year: int)
    requires |cols| == 3
    ensures Finish(BlockRow(src, cols, year)) == HarmonisedRow(src, cols, year)
  {
    var b := BlockRow(src, cols, year);
    assert Get(b, "STATE") == Get(src, cols[0]);
    FinishLiteral(Get(src, cols[0]), Get(src, cols[1]), Get(src, cols[2]), Whole(year));
    assert Finish(b) == FinishedFour(Get(src, cols[0]), Get(src, cols[1]), Get(src, cols[2]), Whole(year));
  }

  lemma RecentFinished(recent: Table)
    requires StackYears(recent, RecentYears, RecentColumns).Ok?
    ensures FinishAll(StackYears(recent, RecentYears, RecentColumns).value) == ExpectedRecent(recent.rows)
  {
    RecentStack(recent);
    var rows := recent.rows;
    FinishThree(BlockRows(rows, RecentColumns("2019"), 2019), BlockRows(rows, RecentColumns("2020"), 2020),
                BlockRows(rows, RecentColumns("2021"), 2021));
    FinishAllBlock(rows, RecentColumns("2019"), 2019);
    FinishAllBlock(rows, RecentColumns("2020"), 2020);
    FinishAllBlock(rows, RecentColumns("2021"), 2021);
  }

  lemma EarlierFinished(df2: Table)
    requires StackYears(df2, EarlierYears, EarlierColumns).Ok?
    ensures FinishAll(StackYears(df2, EarlierYears, EarlierColumns).value) == ExpectedEarlier(df2.rows)
  {
    EarlierStack(df2);
    var rows := df2.rows;
    FinishThree(BlockRows(rows, EarlierColumns("2016"), 2016), BlockRows(rows, EarlierColumns("2017"), 2017),
                BlockRows(rows, EarlierColumns("2018"), 2018));
    FinishAllBlock(rows, EarlierColumns("2016"), 2016);
    FinishAllBlock(rows, EarlierColumns("2017"), 2017);
    FinishAllBlock(rows, EarlierColumns("2018"), 2018);
  }

  /** The harmonised table, row by row: the kept rows of the first table three times
      (2019, 2020, 2021) and the rows of the second three times (2016, 2017, 2018),
      each with the block's columns renamed, STATE stripped, YEAR and MONTH set. */
  lemma HarmoniseRows(df1: Table, df2: Table)
    ensures Harmonise(df1, df2).Ok? ==>
      && Harmonise(df1, df2).value.columns == OutputColumns
      && Harmonise(df1, df2).value.rows == ExpectedRows(df1, df2)
      && |Harmonise(df1, df2).value.rows| == 3 * |KeptRows(df1)| + 3 * |df2.rows|
  {
    if Harmonise(df1, df2).Ok? {
      var recent := DropWhere(df1, "Sl. No.", TotalMarker).value;
      assert recent.rows == KeptRows(df1);
      var p1 := StackYears(recent, RecentYears, RecentColumns).value;
      var p2 := StackYears(df2, EarlierYears, EarlierColumns).value;
      FinaliseSpec(Table(StackedColumns, p1 + p2));
      FinishAllAppend(p1, p2);
      RecentFinished(recent);
      EarlierFinished(df2);
    }
  }

  /** One output row has the shape `IsHarmonised` describes. */
  lemma HarmonisedRowShape(src: Row, cols: seq<string>, year: int)
    requires |cols| == 3 && 2016 <= year <= 2021
    ensures IsHarmonised(HarmonisedRow(src, cols, year))
  {
  }

  lemma BlockShape(rows: seq<Row>, cols: seq<string>, year: int)
    requires |cols| == 3 && 2016 <= year <= 2021
    ensures forall row :: row in ExpectedBlock(rows, cols, year) ==> IsHarmonised(row)
  {
    forall i | 0 <= i < |rows|
      ensures IsHarmonised(ExpectedBlock(rows, cols, year)[i])
    {
      HarmonisedRowShape(rows[i], cols, year);
    }
  }

  lemma ExpectedShape(df1: Table, df2: Table)
    ensures forall row :: row in ExpectedRows(df1, df2) ==> IsHarmonised(row)
  {
    var kept := KeptRows(df1);
    RecentColumnNames("2019");
    RecentColumnNames("2020");
    RecentColumnNames("2021");
    EarlierColumnNames("2016");
    EarlierColumnNames("2017");
    EarlierColumnNames("2018");
    BlockShape(kept, RecentColumns("2019"), 2019);
    BlockShape(kept, RecentColumns("2020"), 2020);
    BlockShape(kept, RecentColumns("2021"), 2021);
    BlockShape(df2.rows, EarlierColumns("2016"), 2016);
    BlockShape(df2.rows, EarlierColumns("2017"), 2017);
    BlockShape(df2.rows, EarlierColumns("2018"), 2018);
  }

  /** Every harmonised row has the shape `IsHarmonised` describes, and the table is well formed. */
  lemma HarmonisedRowInvariants(df1: Table, df2: Table)
    requires Harmonise(df1, df2).Ok?
    ensures WellFormed(Harmonise(df1, df2).value)
    ensures forall row :: row in Harmonise(df1, df2).value.rows ==> IsHarmonised(row)
  {
    HarmoniseRows(df1, df2);
    ExpectedShape(df1, df2);
    OutputColumnsDistinct();
    var t := Harmonise(df1, df2).value;
    forall i | 0 <= i < |t.rows|
      ensures HasExactly(t.rows[i], t.columns)
    {
      assert t.rows[i] in t.rows;
    }
  }

  lemma OutputColumnsDistinct()
    ensures Distinct(OutputColumns)
  {
  }

  /* ---------------- the year-range filter of the statistics page ---------------- */

  /** `lo <= YEAR <= hi` on one cell; NaN compares false. */
  predicate YearWithin(v: Value, lo: int, hi: int) {
    match v
    case Whole(n) => lo <= n <= hi
    case Real(q) => lo as real <= q <= hi as real
    case _ => false
  }

  /** `t[(t['YEAR'] >= lo) & (t['YEAR'] <= hi)]`; comparing a string YEAR with a number raises. */
  function FilterYearRange(t: Table, lo: int, hi: int): (r: Result<Table>)
    ensures r.Ok? <==> "YEAR" in t.columns && forall i :: 0 <= i < |t.rows| ==> !Get(t.rows[i], "YEAR").Text?
  {
    if "YEAR" !in t.columns then Err(MissingColumns(["YEAR"]))
    else if exists i :: 0 <= i < |t.rows| && Get(t.rows[i], "YEAR").Text? then Err(NotNumeric("YEAR"))
    else Ok(Table(t.columns, Filter(t.rows, (r: Row) => YearWithin(Get(r, "YEAR"), lo, hi))))
  }

  /** The filter keeps exactly the rows whose YEAR lies in the range, in their order. */
  lemma FilterYearRangeKeeps(t: Table, lo: int, hi: int)
    requires FilterYearRange(t, lo, hi).Ok?
    ensures var kept := FilterYearRange(t, lo, hi).value.rows;
      && IsSubsequence(kept, t.rows)
      && (forall row :: row in t.rows ==> (row in kept <==> YearWithin(Get(row, "YEAR"), lo, hi)))
      && (forall row :: multiset(kept)[row] == if YearWithin(Get(row, "YEAR"), lo, hi) then multiset(t.rows)[row] else 0)
  {
    var keep := (r: Row) => YearWithin(Get(r, "YEAR"), lo, hi);
    FilterIsSubsequence(t.rows, keep);
    forall row | row in t.rows && keep(row)
      ensures row in Filter(t.rows, keep)
    {
      FilterKeeps(t.rows, keep, row);
    }
    forall row
      ensures multiset(Filter(t.rows, keep))[row] == if keep(row) then multiset(t.rows)[row] else 0
    {
      FilterCount(t.rows, keep, row);
    }
  }

  /** With the slider at its full extent nothing of the harmonised table is dropped. */
  lemma FullYearRangeKeepsAll(df1: Table, df2: Table)
    requires Harmonise(df1, df2).Ok?
    ensures FilterYearRange(Harmonise(df1, df2).value, 2016, 2021) == Harmonise(df1, df2)
  {
    var t := Harmonise(df1, df2).value;
    HarmonisedRowInvariants(df1, df2);
    HarmoniseRows(df1, df2);
    assert "YEAR" in t.columns by { assert t.columns[3] == "YEAR"; }
    assert forall i :: 0 <= i < |t.rows| ==> t.rows[i] in t.rows;
    FilterAll(t.rows, (r: Row) => YearWithin(Get(r, "YEAR"), 2016, 2021));
  }
}
