/** The local fallback of the gender table (`load_gender_tourism_data` in app.py
    and `upload_gender_tourism_data` in upload_missing_data.py): rename the five
    columns positionally, then add a count column for each percentage column,
    `(TOTAL_ARRIVALS * pct / 100).round().astype(int)`. Numbers are exact
    rationals here; pandas `.round()` rounds halves to the even neighbour. */
module GenderTourism {
  import opened Strings
  import opened Tables

  const GenderColumns: seq<string> := ["YEAR", "TOTAL_ARRIVALS", "MALE_PCT", "FEMALE_PCT", "NOT_REPORTED_PCT"]
  const PctColumns: seq<string> := ["MALE_PCT", "FEMALE_PCT", "NOT_REPORTED_PCT"]

  /* ---------------- rounding ---------------- */

  /** The nearest integer to `x`; of two equally near, the even one. */
  function RoundHalfEven(x: real): (n: int)
    ensures -0.5 <= n as real - x <= 0.5
    ensures (n as real - x == 0.5 || x - n as real == 0.5) ==> n % 2 == 0
  {
    var f := x.Floor;
    var d := x - f as real;
    if d < 0.5 then f
    else if d > 0.5 then f + 1
    else if f % 2 == 0 then f
    else f + 1
  }

  /** The rounding is determined by its contract: any integer within a half,
      and even on a tie, is the rounded value. */
  lemma RoundHalfEvenUnique(x: real, n: int)
    requires -0.5 <= n as real - x <= 0.5
    requires (n as real - x == 0.5 || x - n as real == 0.5) ==> n % 2 == 0
    ensures RoundHalfEven(x) == n
  {
  }

  /** A whole number rounds to itself. */
  lemma RoundWhole(k: int)
    ensures RoundHalfEven(k as real) == k
  {
    RoundHalfEvenUnique(k as real, k);
  }

  /** Rounding keeps order. */
  lemma RoundMonotone(x: real, y: real)
    requires x <= y
    ensures RoundHalfEven(x) <= RoundHalfEven(y)
  {
  }

  /* ---------------- the derived count ---------------- */

  /** `round(total * pct / 100)`. */
  function Count(total: real, pct: real): int {
    RoundHalfEven(total * pct / 100.0)
  }

  /** The count is within a half of the exact share, and even on a tie. */
  lemma CountNearShare(total: real, pct: real)
    ensures var share := total * pct / 100.0;
      && -0.5 <= Count(total, pct) as real - share <= 0.5
      && ((Count(total, pct) as real - share == 0.5 || share - Count(total, pct) as real == 0.5) ==>
            Count(total, pct) % 2 == 0)
  {
  }

  lemma CountExample()
    ensures Count(1000.0, 60.0) == 600
    ensures Count(1000.0, 0.05) == 0
    ensures Count(1000.0, 0.15) == 2
  {
    RoundWhole(600);
    RoundHalfEvenUnique(0.5, 0);
    RoundHalfEvenUnique(1.5, 2);
  }

  /** The three counts are rounded independently, so with percentages summing to 100
      they land within one and a half of the total, but need not add up to it. */
  lemma CountsSumNearTotal(total: real, male: real, female: real, notReported: real)
    requires male + female + notReported == 100.0
    ensures var sum := Count(total, male) + Count(total, female) + Count(total, notReported);
      -1.5 <= sum as real - total <= 1.5
  {
    var a, b, c := total * male / 100.0, total * female / 100.0, total * notReported / 100.0;
    CountNearShare(total, male);
    CountNearShare(total, female);
    CountNearShare(total, notReported);
    assert a + b + c == total by {
      assert a + b + c == total * (male + female + notReported) / 100.0;
    }
  }

  /** Three arrivals split 50/50/0 give counts 2, 2 and 0: the counts need not add up to the total. */
  lemma CountsNeedNotSum()
    ensures Count(3.0, 50.0) + Count(3.0, 50.0) + Count(3.0, 0.0) == 4
  {
    RoundHalfEvenUnique(1.5, 2);
    RoundWhole(0);
  }

  /** A percentage between 0 and 100 of a non-negative whole total gives a count between 0 and the total. */
  lemma CountBounds(total: int, pct: real)
    requires 0 <= total && 0.0 <= pct <= 100.0
    ensures 0 <= Count(total as real, pct) <= total
  {
    var x := total as real * pct / 100.0;
    assert 0.0 <= x <= total as real by {
      assert total as real * pct <= total as real * 100.0;
    }
    RoundMonotone(0.0, x);
    RoundMonotone(x, total as real);
    RoundWhole(0);
    RoundWhole(total);
  }

  /* ---------------- the derived columns ---------------- */

  /** `col.replace('_PCT', '_COUNT')`. */
  function CountColumnName(col: string): string {
    Replace(col, "_PCT", "_COUNT")
  }

  /** A stem without '_' keeps its text and swaps the "_PCT" ending for "_COUNT". */
  lemma StemCountName(stem: string)
    requires '_' !in stem
    ensures CountColumnName(stem + "_PCT") == stem + "_COUNT"
  {
    ReplaceAfterPlain(stem, "_PCT", "_PCT", "_COUNT");
    ReplaceWhole("_PCT", "_COUNT");
  }

  lemma MaleCountName()
    ensures CountColumnName("MALE_PCT") == "MALE_COUNT"
  {
    StemCountName("MALE");
    assert "MALE_PCT" == "MALE" + "_PCT";
    assert "MALE_COUNT" == "MALE" + "_COUNT";
  }

  lemma FemaleCountName()
    ensures CountColumnName("FEMALE_PCT") == "FEMALE_COUNT"
  {
    StemCountName("FEMALE");
    assert "FEMALE_PCT" == "FEMALE" + "_PCT";
    assert "FEMALE_COUNT" == "FEMALE" + "_COUNT";
  }

  /** The one name with an inner '_': "_REPORTED" is not "_PCT" at its second character. */
  lemma NotReportedCountName()
    ensures CountColumnName("NOT_REPORTED_PCT") == "NOT_REPORTED_COUNT"
  {
    NotReportedParts();
    InnerUnderscoreKept("REPORTED");
    ReplaceAfterPlain("NOT", "_" + ("REPORTED" + "_PCT"), "_PCT", "_COUNT");
  }

  lemma NotReportedParts()
    ensures "NOT_REPORTED_PCT" == "NOT" + ("_" + ("REPORTED" + "_PCT"))
    ensures "NOT_REPORTED_COUNT" == "NOT" + ("_" + ("REPORTED" + "_COUNT"))
    ensures "REPORTED"[0] != 'P' && '_' !in "REPORTED" && '_' !in "NOT"
  {
  }

  /** An '_' followed by a stem that does not start with 'P' is kept before the stem's count name. */
  lemma InnerUnderscoreKept(stem: string)
    requires |stem| > 0 && stem[0] != 'P' && '_' !in stem
    ensures Replace("_" + (stem + "_PCT"), "_PCT", "_COUNT") == "_" + (stem + "_COUNT")
  {
    var tail := "_" + (stem + "_PCT");
    NotStartsWithAt(tail, "_PCT", 1);
    ReplaceSkip(tail, "_PCT", "_COUNT");
    assert tail[1..] == stem + "_PCT";
    StemCountName(stem);
  }

  /** The three derived columns are MALE_COUNT, FEMALE_COUNT and NOT_REPORTED_COUNT. */
  lemma CountColumnNames()
    ensures CountColumnName(PctColumns[0]) == "MALE_COUNT"
    ensures CountColumnName(PctColumns[1]) == "FEMALE_COUNT"
    ensures CountColumnName(PctColumns[2]) == "NOT_REPORTED_COUNT"
  {
    MaleCountName();
    FemaleCountName();
    NotReportedCountName();
  }

  /** A number cell as an exact rational; anything else is not a number. */
  predicate IsNumber(v: Value) {
    v.Whole? || v.Real?
  }

  function AsReal(v: Value): real
    requires IsNumber(v)
  {
    if v.Whole? then v.number as real else v.amount
  }

  /** One row's count for one percentage column; a non-number (NaN included, since
      `.astype(int)` refuses it) makes the whole column fail. */
  function CountOf(r: Row, pctColumn: string): (c: Result<Value>)
    ensures c.Ok? <==> IsNumber(Get(r, "TOTAL_ARRIVALS")) && IsNumber(Get(r, pctColumn))
    ensures c.Err? ==> c.error.NotNumeric?
  {
    var total := Get(r, "TOTAL_ARRIVALS");
    var pct := Get(r, pctColumn);
    if !IsNumber(total) then Err(NotNumeric("TOTAL_ARRIVALS"))
    else if !IsNumber(pct) then Err(NotNumeric(pctColumn))
    else Ok(Whole(Count(AsReal(total), AsReal(pct))))
  }

  function CountCell(pctColumn: string): Row -> Result<Value> {
    (r: Row) => CountOf(r, pctColumn)
  }

  /** Adds the count columns of the listed percentage columns, left to right. */
  function AddCounts(t: Table, pcts: seq<string>): Result<Table>
    decreases |pcts|
  {
    if |pcts| == 0 then Ok(t)
    else
      var next :- ComputeColumn(t, CountColumnName(pcts[0]), CountCell(pcts[0]));
      AddCounts(next, pcts[1..])
  }

  /** The five names differ already in length. */
  lemma GenderColumnsDistinct()
    ensures Distinct(GenderColumns)
  {
    forall i, j | 0 <= i < j < |GenderColumns|
      ensures GenderColumns[i] != GenderColumns[j]
    {
      assert |GenderColumns[i]| != |GenderColumns[j]|;
    }
  }

  /** The fallback: rename positionally, then add the three counts. */
  function DeriveCounts(t: Table): Result<Table> {
    GenderColumnsDistinct();
    var renamed :- SetColumns(t, GenderColumns);
    AddCounts(renamed, PctColumns)
  }

  const CountColumns: seq<string> := ["MALE_COUNT", "FEMALE_COUNT", "NOT_REPORTED_COUNT"]

  /** The source table's total and percentage cells are numbers in every row. */
  ghost predicate AllNumeric(t: Table)
    requires |t.columns| == 5
  {
    forall i :: 0 <= i < |t.rows| ==> NumericRow(t.rows[i], t.columns)
  }

  ghost predicate NumericRow(src: Row, cols: seq<string>)
    requires |cols| == 5
  {
    IsNumber(Get(src, cols[1])) && IsNumber(Get(src, cols[2]))
    && IsNumber(Get(src, cols[3])) && IsNumber(Get(src, cols[4]))
  }

  /** What one output row holds: the five source cells under the new names and the
      three counts computed from the source's total and percentages. */
  ghost predicate CountsRow(r: Row, src: Row, cols: seq<string>)
    requires |cols| == 5
  {
    && NumericRow(src, cols)
    && Get(r, "YEAR") == Get(src, cols[0])
    && Get(r, "TOTAL_ARRIVALS") == Get(src, cols[1])
    && Get(r, "MALE_PCT") == Get(src, cols[2])
    && Get(r, "FEMALE_PCT") == Get(src, cols[3])
    && Get(r, "NOT_REPORTED_PCT") == Get(src, cols[4])
    && Get(r, "MALE_COUNT") == Whole(Count(AsReal(Get(src, cols[1])), AsReal(Get(src, cols[2]))))
    && Get(r, "FEMALE_COUNT") == Whole(Count(AsReal(Get(src, cols[1])), AsReal(Get(src, cols[3]))))
    && Get(r, "NOT_REPORTED_COUNT") == Whole(Count(AsReal(Get(src, cols[1])), AsReal(Get(src, cols[4]))))
  }

  predicate Countable(r: Row) {
    CountOf(r, "MALE_PCT").Ok? && CountOf(r, "FEMALE_PCT").Ok? && CountOf(r, "NOT_REPORTED_PCT").Ok?
  }

  /** The row after all three count steps. */
  function WithCounts(r: Row): Row
    requires Countable(r)
  {
    r["MALE_COUNT" := CountOf(r, "MALE_PCT").value]
     ["FEMALE_COUNT" := CountOf(r, "FEMALE_PCT").value]
     ["NOT_REPORTED_COUNT" := CountOf(r, "NOT_REPORTED_PCT").value]
  }

  /** Adding a cell under another name does not change what a count reads. */
  lemma CountOfUnaffected(row: Row, pct: string, name: string, v: Value)
    requires name != "TOTAL_ARRIVALS" && name != pct
    ensures CountOf(row[name := v], pct) == CountOf(row, pct)
  {
    assert Get(row[name := v], "TOTAL_ARRIVALS") == Get(row, "TOTAL_ARRIVALS");
    assert Get(row[name := v], pct) == Get(row, pct);
  }

  /** The cells of a renamed source row under the five new names. */
  lemma RenamedCells(src: Row, cols: seq<string>)
    requires |cols| == 5
    ensures var r := Relabel(src, cols, GenderColumns);
      && Get(r, "YEAR") == Get(src, cols[0])
      && Get(r, "TOTAL_ARRIVALS") == Get(src, cols[1])
      && Get(r, "MALE_PCT") == Get(src, cols[2])
      && Get(r, "FEMALE_PCT") == Get(src, cols[3])
      && Get(r, "NOT_REPORTED_PCT") == Get(src, cols[4])
  {
    GenderColumnsDistinct();
    var r := Relabel(src, cols, GenderColumns);
    assert r[GenderColumns[0]] == Get(src, cols[0]);
    assert r[GenderColumns[1]] == Get(src, cols[1]);
    assert r[GenderColumns[2]] == Get(src, cols[2]);
    assert r[GenderColumns[3]] == Get(src, cols[3]);
    assert r[GenderColumns[4]] == Get(src, cols[4]);
  }

  /** The three count steps, unrolled. */
  lemma AddCountsUnrolled(t: Table)
    ensures AddCounts(t, PctColumns) ==
      var r1 :- ComputeColumn(t, "MALE_COUNT", CountCell("MALE_PCT"));
      var r2 :- ComputeColumn(r1, "FEMALE_COUNT", CountCell("FEMALE_PCT"));
      ComputeColumn(r2, "NOT_REPORTED_COUNT", CountCell("NOT_REPORTED_PCT"))
  {
    CountColumnNames();
    assert PctColumns[1..][0] == "FEMALE_PCT" && PctColumns[1..][1..][0] == "NOT_REPORTED_PCT";
    assert PctColumns[1..][1..][1..] == [];
  }

  /** The cells the later count steps read are untouched by the earlier steps. */
  lemma LaterCountsUnaffected(t: Table)
    ensures var s1 := ComputeColumn(t, "MALE_COUNT", CountCell("MALE_PCT"));
      s1.Ok? ==> forall i :: 0 <= i < |t.rows| ==>
        && CountOf(s1.value.rows[i], "FEMALE_PCT") == CountOf(t.rows[i], "FEMALE_PCT")
        && CountOf(s1.value.rows[i], "NOT_REPORTED_PCT") == CountOf(t.rows[i], "NOT_REPORTED_PCT")
    ensures var s1 := ComputeColumn(t, "MALE_COUNT", CountCell("MALE_PCT"));
      s1.Ok? ==> var s2 := ComputeColumn(s1.value, "FEMALE_COUNT", CountCell("FEMALE_PCT"));
      s2.Ok? ==> forall i :: 0 <= i < |t.rows| ==>
        CountOf(s2.value.rows[i], "NOT_REPORTED_PCT") == CountOf(t.rows[i], "NOT_REPORTED_PCT")
  {
    var s1 := ComputeColumn(t, "MALE_COUNT", CountCell("MALE_PCT"));
    if s1.Ok? {
      var r1 := s1.value;
      forall i | 0 <= i < |t.rows|
        ensures CountOf(r1.rows[i], "FEMALE_PCT") == CountOf(t.rows[i], "FEMALE_PCT")
        ensures CountOf(r1.rows[i], "NOT_REPORTED_PCT") == CountOf(t.rows[i], "NOT_REPORTED_PCT")
      {
        CountOfUnaffected(t.rows[i], "FEMALE_PCT", "MALE_COUNT", CountOf(t.rows[i], "MALE_PCT").value);
        CountOfUnaffected(t.rows[i], "NOT_REPORTED_PCT", "MALE_COUNT", CountOf(t.rows[i], "MALE_PCT").value);
      }
      var s2 := ComputeColumn(r1, "FEMALE_COUNT", CountCell("FEMALE_PCT"));
      if s2.Ok? {
        forall i | 0 <= i < |t.rows|
          ensures CountOf(s2.value.rows[i], "NOT_REPORTED_PCT") == CountOf(t.rows[i], "NOT_REPORTED_PCT")
        {
          CountOfUnaffected(r1.rows[i], "NOT_REPORTED_PCT", "FEMALE_COUNT", CountOf(r1.rows[i], "FEMALE_PCT").value);
        }
      }
    }
  }

  /** The three count steps on an already renamed table succeed exactly when every row's counts
      can be computed, and fail only on a non-number. */
  lemma AddCountsSucceedsIff(t: Table)
    ensures AddCounts(t, PctColumns).Ok? <==> forall i :: 0 <= i < |t.rows| ==> Countable(t.rows[i])
    ensures AddCounts(t, PctColumns).Err? ==> AddCounts(t, PctColumns).error.NotNumeric?
  {
    AddCountsUnrolled(t);
    LaterCountsUnaffected(t);
    var s1 := ComputeColumn(t, "MALE_COUNT", CountCell("MALE_PCT"));
    if s1.Err? {
      var i :| 0 <= i < |t.rows| && CountOf(t.rows[i], "MALE_PCT") == Err(s1.error);
    } else {
      var r1 := s1.value;
      var s2 := ComputeColumn(r1, "FEMALE_COUNT", CountCell("FEMALE_PCT"));
      if s2.Err? {
        var i :| 0 <= i < |r1.rows| && CountOf(r1.rows[i], "FEMALE_PCT") == Err(s2.error);
      } else {
        var r2 := s2.value;
        var s3 := ComputeColumn(r2, "NOT_REPORTED_COUNT", CountCell("NOT_REPORTED_PCT"));
        if s3.Err? {
          var i :| 0 <= i < |r2.rows| && CountOf(r2.rows[i], "NOT_REPORTED_PCT") == Err(s3.error);
        }
      }
    }
  }

  /** After the three count steps each row has gained its three counts, and the count columns
      follow the existing ones. */
  lemma AddCountsRows(t: Table)
    requires forall i :: 0 <= i < |t.rows| ==> Countable(t.rows[i])
    ensures AddCounts(t, PctColumns).Ok?
    ensures AddCounts(t, PctColumns).value.columns ==
           WithColumn(WithColumn(WithColumn(t.columns, "MALE_COUNT"), "FEMALE_COUNT"), "NOT_REPORTED_COUNT")
    ensures |AddCounts(t, PctColumns).value.rows| == |t.rows|
    ensures forall i :: 0 <= i < |t.rows| ==> AddCounts(t, PctColumns).value.rows[i] == WithCounts(t.rows[i])
  {
    AddCountsUnrolled(t);
    LaterCountsUnaffected(t);
    AddCountsSucceedsIff(t);
  }

  /** The three count columns are new, so they are appended in order. */
  lemma CountColumnsAppended()
    ensures WithColumn(WithColumn(WithColumn(GenderColumns, "MALE_COUNT"), "FEMALE_COUNT"), "NOT_REPORTED_COUNT")
            == GenderColumns + CountColumns
  {
    var c1 := GenderColumns + ["MALE_COUNT"];
    var c2 := c1 + ["FEMALE_COUNT"];
    assert "MALE_COUNT" !in GenderColumns;
    assert "FEMALE_COUNT" !in c1;
    assert "NOT_REPORTED_COUNT" !in c2;
    assert c2 + ["NOT_REPORTED_COUNT"] == GenderColumns + CountColumns;
  }

  /** A renamed row can be counted exactly when its source row's total and percentages are numbers. */
  lemma RenamedCountable(src: Row, cols: seq<string>)
    requires |cols| == 5
    ensures Countable(Relabel(src, cols, GenderColumns)) <==> NumericRow(src, cols)
  {
    RenamedCells(src, cols);
  }

  /** The three count steps keep the other cells and add the counts. */
  lemma WithCountsCells(r: Row)
    requires Countable(r)
    ensures Get(WithCounts(r), "YEAR") == Get(r, "YEAR")
    ensures Get(WithCounts(r), "TOTAL_ARRIVALS") == Get(r, "TOTAL_ARRIVALS")
    ensures Get(WithCounts(r), "MALE_PCT") == Get(r, "MALE_PCT")
    ensures Get(WithCounts(r), "FEMALE_PCT") == Get(r, "FEMALE_PCT")
    ensures Get(WithCounts(r), "NOT_REPORTED_PCT") == Get(r, "NOT_REPORTED_PCT")
    ensures Get(WithCounts(r), "MALE_COUNT") == CountOf(r, "MALE_PCT").value
    ensures Get(WithCounts(r), "FEMALE_COUNT") == CountOf(r, "FEMALE_PCT").value
    ensures Get(WithCounts(r), "NOT_REPORTED_COUNT") == CountOf(r, "NOT_REPORTED_PCT").value
  {
  }

  /** One output row, from its renamed row. */
  lemma CountsRowOf(src: Row, cols: seq<string>)
    requires |cols| == 5 && NumericRow(src, cols)
    ensures Countable(RenamedRow(src, cols))
    ensures CountsRow(WithCounts(RenamedRow(src, cols)), src, cols)
  {
    var r := RenamedRow(src, cols);
    RenamedCells(src, cols);
    WithCountsCells(r);
    var w := WithCounts(r);
    var total := AsReal(Get(src, cols[1]));
    assert Get(w, "MALE_COUNT") == Whole(Count(total, AsReal(Get(src, cols[2]))));
    assert Get(w, "FEMALE_COUNT") == Whole(Count(total, AsReal(Get(src, cols[3]))));
    assert Get(w, "NOT_REPORTED_COUNT") == Whole(Count(total, AsReal(Get(src, cols[4]))));
  }

  /** A table whose width is not five fails at the positional rename. */
  lemma DeriveCountsWrongWidth(t: Table)
    requires |t.columns| != 5
    ensures DeriveCounts(t) == Err(LengthMismatch(|t.columns|, 5))
  {
    GenderColumnsDistinct();
  }

  /** A five-column table derives its counts exactly when every total and percentage is a number. */
  lemma DeriveCountsSucceedsIff(t: Table)
    requires |t.columns| == 5
    ensures DeriveCounts(t).Ok? <==> AllNumeric(t)
  {
    DeriveCountsUnfold(t);
    RenamedAllCountable(t);
    AddCountsSucceedsIff(Renamed(t));
  }

  /** A five-column table under the gender column names. */
  function Renamed(t: Table): Table
    requires |t.columns| == 5
  {
    GenderColumnsDistinct();
    SetColumns(t, GenderColumns).value
  }

  lemma DeriveCountsUnfold(t: Table)
    requires |t.columns| == 5
    ensures DeriveCounts(t) == AddCounts(Renamed(t), PctColumns)
  {
  }

  /** Every renamed row is countable exactly when every source row is numeric. */
  lemma RenamedAllCountable(t: Table)
    requires |t.columns| == 5
    ensures (forall i :: 0 <= i < |Renamed(t).rows| ==> Countable(Renamed(t).rows[i])) <==> AllNumeric(t)
  {
    GenderColumnsDistinct();
    forall i | 0 <= i < |t.rows|
      ensures Countable(Renamed(t).rows[i]) <==> NumericRow(t.rows[i], t.columns)
    {
      RenamedCountable(t.rows[i], t.columns);
    }
  }

  /** Once the width is right, the only failure left is a cell that is not a number. */
  lemma DeriveCountsFailsOnNonNumber(t: Table)
    requires |t.columns| == 5 && DeriveCounts(t).Err?
    ensures DeriveCounts(t).error.NotNumeric?
  {
    GenderColumnsDistinct();
    AddCountsSucceedsIff(SetColumns(t, GenderColumns).value);
  }

  /** A source row under the five new names. */
  function RenamedRow(src: Row, cols: seq<string>): Row
    requires |cols| == 5
  {
    GenderColumnsDistinct();
    Relabel(src, cols, GenderColumns)
  }

  /** The derivation of a five-column, all-numeric table: the renamed columns followed by the
      counts, and each source row renamed and extended with its counts. */
  lemma DeriveCountsShape(t: Table)
    requires |t.columns| == 5 && AllNumeric(t)
    ensures DeriveCounts(t).Ok?
    ensures DeriveCounts(t).value.columns == GenderColumns + CountColumns
    ensures |DeriveCounts(t).value.rows| == |t.rows|
    ensures forall i :: 0 <= i < |t.rows| ==>
      Countable(RenamedRow(t.rows[i], t.columns)) && DeriveCounts(t).value.rows[i] == WithCounts(RenamedRow(t.rows[i], t.columns))
  {
    GenderColumnsDistinct();
    var r0 := SetColumns(t, GenderColumns).value;
    forall i | 0 <= i < |t.rows|
      ensures Countable(r0.rows[i])
    {
      RenamedCountable(t.rows[i], t.columns);
    }
    AddCountsRows(r0);
    CountColumnsAppended();
    var d := AddCounts(r0, PctColumns).value;
    assert DeriveCounts(t) == Ok(d);
    forall i | 0 <= i < |t.rows|
      ensures Countable(RenamedRow(t.rows[i], t.columns)) && d.rows[i] == WithCounts(RenamedRow(t.rows[i], t.columns))
    {
      assert r0.rows[i] == RenamedRow(t.rows[i], t.columns);
    }
  }

  /** A successful derivation has the five renamed columns followed by the three counts,
      one row per source row, each holding `round(total * pct / 100)` for each percentage. */
  lemma DeriveCountsRows(t: Table)
    requires |t.columns| == 5 && AllNumeric(t)
    ensures DeriveCounts(t).Ok?
    ensures DeriveCounts(t).value.columns == GenderColumns + CountColumns
    ensures |DeriveCounts(t).value.rows| == |t.rows|
    ensures forall i :: 0 <= i < |t.rows| ==> CountsRow(DeriveCounts(t).value.rows[i], t.rows[i], t.columns)
  {
    DeriveCountsShape(t);
    forall i | 0 <= i < |t.rows|
      ensures CountsRow(DeriveCounts(t).value.rows[i], t.rows[i], t.columns)
    {
      CountsRowOf(t.rows[i], t.columns);
    }
  }
}
