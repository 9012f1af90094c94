/** The local fallback of the geological sites table (`load_geological_sites` in
    app.py, `upload_geological_sites_data` in upload_missing_data.py) and the
    directory filter of the geological page: rename the three columns
    positionally, title-case STATE, classify each site name into SITE_TYPE, and
    narrow the listing by state and type, where 'All States' and 'All Types'
    select everything. */
module GeologicalSites {
  import opened Strings
  import opened Seqs
  import opened Tables
  import opened SiteClassifier

  const SiteColumns: seq<string> := ["SL_NO", "STATE", "SITE_NAME"]
  const LoadedColumns: seq<string> := ["SL_NO", "STATE", "SITE_NAME", "SITE_TYPE"]

  /** `.str.title()` on one cell: strings are title-cased, anything else becomes NaN. */
  function TitleValue(v: Value): (r: Value)
    ensures v.Text? ==> r.Text? && |r.text| == |v.text|
    ensures !v.Text? ==> r.Missing?
  {
    if v.Text? then Text(Title(v.text)) else Missing
  }

  /** `df['SITE_NAME'].apply(classify_site)` on one row: `name.lower()` raises on a non-string. */
  function SiteTypeOf(r: Row): (c: Result<Value>)
    ensures c.Ok? <==> Get(r, "SITE_NAME").Text?
    ensures c.Ok? ==> c.value.Text? && c.value.text in Labels
  {
    match Get(r, "SITE_NAME")
    case Text(name) =>
      ClassifySiteLabels(name);
      Ok(Text(ClassifySite(name)))
    case _ => Err(NotAString("SITE_NAME"))
  }

  /** `df['STATE'] = df['STATE'].str.title()` on one row. */
  function TitleState(r: Row): Value {
    TitleValue(Get(r, "STATE"))
  }

  function LoadGeologicalSites(t: Table): Result<Table> {
    LoadedColumnsOf();
    var renamed :- SetColumns(t, SiteColumns);
    var titled := AssignWith(renamed, "STATE", TitleState);
    ComputeColumn(titled, "SITE_TYPE", SiteTypeOf)
  }

  /** A source row under the three new names. */
  function RenamedSite(src: Row, cols: seq<string>): Row
    requires |cols| == 3
  {
    LoadedColumnsOf();
    Relabel(src, cols, SiteColumns)
  }

  /** A three-column table renamed and with STATE title-cased. */
  function Titled(t: Table): Table
    requires |t.columns| == 3
  {
    LoadedColumnsOf();
    AssignWith(SetColumns(t, SiteColumns).value, "STATE", TitleState)
  }

  lemma LoadGeologicalSitesUnfold(t: Table)
    requires |t.columns| == 3
    ensures LoadGeologicalSites(t) == ComputeColumn(Titled(t), "SITE_TYPE", SiteTypeOf)
  {
  }

  /** Renaming and title-casing keep each row's site name, and the row count. */
  lemma TitledRows(t: Table)
    requires |t.columns| == 3
    ensures |Titled(t).rows| == |t.rows|
    ensures forall i :: 0 <= i < |t.rows| ==>
      Titled(t).rows[i] == RenamedSite(t.rows[i], t.columns)["STATE" := TitleState(RenamedSite(t.rows[i], t.columns))]
  {
    LoadedColumnsOf();
  }

  /** What one loaded row holds, in terms of its source row. */
  ghost predicate LoadedRow(r: Row, src: Row, cols: seq<string>)
    requires |cols| == 3
  {
    && HasExactly(r, LoadedColumns)
    && Get(r, "SL_NO") == Get(src, cols[0])
    && Get(r, "STATE") == TitleValue(Get(src, cols[1]))
    && Get(src, cols[2]).Text?
    && Get(r, "SITE_NAME") == Get(src, cols[2])
    && Get(r, "SITE_TYPE") == Text(ClassifySite(Get(src, cols[2]).text))
  }

  lemma RenamedSiteCells(src: Row, cols: seq<string>)
    requires |cols| == 3
    ensures var r := RenamedSite(src, cols);
      && HasExactly(r, SiteColumns)
      && Get(r, "SL_NO") == Get(src, cols[0])
      && Get(r, "STATE") == Get(src, cols[1])
      && Get(r, "SITE_NAME") == Get(src, cols[2])
  {
    LoadedColumnsOf();
    var r := RenamedSite(src, cols);
    assert r[SiteColumns[0]] == Get(src, cols[0]);
    assert r[SiteColumns[1]] == Get(src, cols[1]);
    assert r[SiteColumns[2]] == Get(src, cols[2]);
  }

  /** One loaded row: title-cased STATE, then SITE_TYPE. */
  lemma LoadedRowOf(src: Row, cols: seq<string>)
    requires |cols| == 3 && Get(src, cols[2]).Text?
    ensures var r := RenamedSite(src, cols);
      var titled := r["STATE" := TitleState(r)];
      && SiteTypeOf(titled).Ok?
      && LoadedRow(titled["SITE_TYPE" := SiteTypeOf(titled).value], src, cols)
  {
    RenamedSiteCells(src, cols);
    var r := RenamedSite(src, cols);
    var titled := r["STATE" := TitleState(r)];
    assert Get(titled, "SITE_NAME") == Get(src, cols[2]);
    var out := titled["SITE_TYPE" := SiteTypeOf(titled).value];
    assert forall k :: k in out <==> k in LoadedColumns;
  }

  /** Renaming and title-casing keep the row count and each row's site name. */
  lemma TitledSiteName(t: Table, i: int)
    requires |t.columns| == 3 && 0 <= i < |t.rows|
    ensures |Titled(t).rows| == |t.rows|
    ensures Get(Titled(t).rows[i], "SITE_NAME") == Get(t.rows[i], t.columns[2])
    ensures SiteTypeOf(Titled(t).rows[i]).Ok? <==> Get(t.rows[i], t.columns[2]).Text?
  {
    TitledRows(t);
    RenamedSiteCells(t.rows[i], t.columns);
  }

  /** One row of a loaded table, read off the source row. */
  lemma LoadedRowAt(t: Table, i: int)
    requires |t.columns| == 3 && 0 <= i < |t.rows| && Get(t.rows[i], t.columns[2]).Text?
    ensures |Titled(t).rows| == |t.rows|
    ensures SiteTypeOf(Titled(t).rows[i]).Ok?
    ensures LoadedRow(Titled(t).rows[i]["SITE_TYPE" := SiteTypeOf(Titled(t).rows[i]).value], t.rows[i], t.columns)
  {
    TitledRows(t);
    LoadedRowOf(t.rows[i], t.columns);
  }

  /** Every site name of a three-column table is a string. */
  predicate NamesAreStrings(t: Table)
    requires |t.columns| == 3
  {
    forall i :: 0 <= i < |t.rows| ==> Get(t.rows[i], t.columns[2]).Text?
  }

  /** A table whose width is not three fails at the positional rename. */
  lemma LoadGeologicalSitesWrongWidth(t: Table)
    requires |t.columns| != 3
    ensures LoadGeologicalSites(t) == Err(LengthMismatch(|t.columns|, 3))
  {
    LoadedColumnsOf();
  }

  /** A three-column table loads exactly when every site name is a string. */
  lemma LoadGeologicalSitesSucceedsIff(t: Table)
    requires |t.columns| == 3
    ensures LoadGeologicalSites(t).Ok? <==> NamesAreStrings(t)
  {
    LoadGeologicalSitesUnfold(t);
    TitledNamesClassifiable(t);
  }

  /** Every renamed, title-cased row can be classified exactly when every source name is a string. */
  lemma TitledNamesClassifiable(t: Table)
    requires |t.columns| == 3
    ensures (forall i :: 0 <= i < |Titled(t).rows| ==> SiteTypeOf(Titled(t).rows[i]).Ok?) <==> NamesAreStrings(t)
  {
    TitledRows(t);
    forall i | 0 <= i < |t.rows|
      ensures SiteTypeOf(Titled(t).rows[i]).Ok? <==> Get(t.rows[i], t.columns[2]).Text?
    {
      TitledSiteName(t, i);
    }
  }

  /** Once the width is right, the only failure left is a site name that is not a string. */
  lemma LoadGeologicalSitesFailsOnName(t: Table)
    requires |t.columns| == 3 && LoadGeologicalSites(t).Err?
    ensures LoadGeologicalSites(t).error == NotAString("SITE_NAME")
  {
    LoadGeologicalSitesUnfold(t);
    var r := ComputeColumn(Titled(t), "SITE_TYPE", SiteTypeOf);
    var i :| 0 <= i < |Titled(t).rows| && SiteTypeOf(Titled(t).rows[i]) == Err(r.error);
  }

  /** A loaded table has SL_NO, STATE, SITE_NAME, SITE_TYPE and one row per source row. */
  lemma LoadGeologicalSitesShape(t: Table)
    requires |t.columns| == 3 && NamesAreStrings(t)
    ensures LoadGeologicalSites(t).Ok?
    ensures LoadGeologicalSites(t).value.columns == LoadedColumns
    ensures |LoadGeologicalSites(t).value.rows| == |t.rows|
  {
    LoadedColumnsOf();
    LoadGeologicalSitesSucceedsIff(t);
    LoadGeologicalSitesUnfold(t);
    TitledRows(t);
  }

  /** Each loaded row carries the source cells with STATE title-cased and the site's classification. */
  lemma LoadGeologicalSitesRows(t: Table)
    requires |t.columns| == 3 && NamesAreStrings(t)
    ensures LoadGeologicalSites(t).Ok?
    ensures forall i :: 0 <= i < |LoadGeologicalSites(t).value.rows| ==>
      i < |t.rows| && LoadedRow(LoadGeologicalSites(t).value.rows[i], t.rows[i], t.columns)
  {
    LoadGeologicalSitesSucceedsIff(t);
    LoadGeologicalSitesUnfold(t);
    forall i | 0 <= i < |LoadGeologicalSites(t).value.rows|
      ensures i < |t.rows| && LoadedRow(LoadGeologicalSites(t).value.rows[i], t.rows[i], t.columns)
    {
      LoadedRowAt(t, i);
    }
  }

  /** STATE is already a column; SITE_TYPE is appended. */
  lemma LoadedColumnsOf()
    ensures Distinct(SiteColumns)
    ensures WithColumn(WithColumn(SiteColumns, "STATE"), "SITE_TYPE") == LoadedColumns
  {
    forall i, j | 0 <= i < j < |SiteColumns|
      ensures SiteColumns[i] != SiteColumns[j]
    {
      assert SiteColumns[i][1] != SiteColumns[j][1];
    }
    assert SiteColumns[1] == "STATE";
    assert SiteColumns + ["SITE_TYPE"] == LoadedColumns;
  }

  /** Title-casing a loaded STATE again changes nothing, and keeps its length. */
  lemma LoadedStatesTitled(t: Table)
    requires |t.columns| == 3 && NamesAreStrings(t)
    ensures LoadGeologicalSites(t).Ok?
    ensures var out := LoadGeologicalSites(t).value;
      forall i :: 0 <= i < |out.rows| ==> TitleValue(Get(out.rows[i], "STATE")) == Get(out.rows[i], "STATE")
  {
    LoadGeologicalSitesShape(t);
    LoadGeologicalSitesRows(t);
    var out := LoadGeologicalSites(t).value;
    forall i | 0 <= i < |out.rows|
      ensures TitleValue(Get(out.rows[i], "STATE")) == Get(out.rows[i], "STATE")
    {
      var v := Get(t.rows[i], t.columns[1]);
      if v.Text? {
        TitleIdempotent(v.text);
      }
    }
  }

  /* ---------------- the directory filter ---------------- */

  const AllStates: string := "All States"
  const AllTypes: string := "All Types"

  /** The row passes the selection: a sentinel passes everything, otherwise the cell must equal it. */
  predicate Selected(r: Row, state: string, siteType: string) {
    (state == AllStates || Get(r, "STATE") == Text(state))
    && (siteType == AllTypes || Get(r, "SITE_TYPE") == Text(siteType))
  }

  /** The two optional `df[df[col] == selected]` steps of the directory. */
  function FilterSites(sites: seq<Row>, state: string, siteType: string): (r: seq<Row>)
    ensures IsSubsequence(r, sites)
    ensures forall row :: row in sites ==> (row in r <==> Selected(row, state, siteType))
    ensures forall row :: multiset(r)[row] == if Selected(row, state, siteType) then multiset(sites)[row] else 0
  {
    var byState := if state != AllStates then Filter(sites, (r: Row) => Get(r, "STATE") == Text(state)) else sites;
    var byType := if siteType != AllTypes then Filter(byState, (r: Row) => Get(r, "SITE_TYPE") == Text(siteType)) else byState;
    FilterSitesFacts(sites, state, siteType, byState, byType);
    byType
  }

  lemma FilterSitesFacts(sites: seq<Row>, state: string, siteType: string, byState: seq<Row>, byType: seq<Row>)
    requires byState == if state != AllStates then Filter(sites, (r: Row) => Get(r, "STATE") == Text(state)) else sites
    requires byType == if siteType != AllTypes then Filter(byState, (r: Row) => Get(r, "SITE_TYPE") == Text(siteType)) else byState
    ensures IsSubsequence(byType, sites)
    ensures forall row :: row in sites ==> (row in byType <==> Selected(row, state, siteType))
    ensures forall row :: multiset(byType)[row] == if Selected(row, state, siteType) then multiset(sites)[row] else 0
  {
    var keepState := (r: Row) => Get(r, "STATE") == Text(state);
    var keepType := (r: Row) => Get(r, "SITE_TYPE") == Text(siteType);
    if state != AllStates {
      FilterIsSubsequence(sites, keepState);
      forall row | row in sites && keepState(row) ensures row in byState {
        FilterKeeps(sites, keepState, row);
      }
    } else {
      SubsequenceRefl(sites);
    }
    if siteType != AllTypes {
      FilterIsSubsequence(byState, keepType);
      forall row | row in byState && keepType(row) ensures row in byType {
        FilterKeeps(byState, keepType, row);
      }
    } else {
      SubsequenceRefl(byState);
    }
    SubsequenceTrans(byType, byState, sites);
    forall row
      ensures multiset(byType)[row] == if Selected(row, state, siteType) then multiset(sites)[row] else 0
    {
      if state != AllStates {
        FilterCount(sites, keepState, row);
      }
      if siteType != AllTypes {
        FilterCount(byState, keepType, row);
      }
    }
  }

  /** With both sentinels selected the directory lists every site. */
  lemma FilterSitesAll(sites: seq<Row>)
    ensures FilterSites(sites, AllStates, AllTypes) == sites
  {
  }
}
