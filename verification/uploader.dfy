/** `load_data_to_snowflake` in data_uploader.py: each CSV file of a fixed map is
    read, its column names are normalised, and it is written to its table. The
    file system, `pd.read_csv` and `write_pandas` are parameters; a raised
    exception is an outcome of its own. */
module Uploader {
  import opened Strings
  import opened Tables
  import opened Wrappers

  /* ---------------- column names ---------------- */

  /** The character a name character becomes: space and '-' become '_', letters are upper-cased. */
  function NormaliseChar(c: char): (d: char)
    ensures d != ' ' && d != '-' && !IsLowerAscii(d)
    ensures IsSpace(d) ==> IsSpace(c)
    ensures c != ' ' && c != '-' && !IsLowerAscii(c) ==> d == c
  {
    if c == ' ' || c == '-' then '_' else UpperChar(c)
  }

  /** `col.strip().upper().replace(' ', '_').replace('-', '_')`. */
  function NormaliseColumn(col: string): (name: string)
    ensures |name| == |Strip(col)|
    ensures forall i :: 0 <= i < |name| ==> name[i] == NormaliseChar(Strip(col)[i])
  {
    var upper := Upper(Strip(col));
    ReplaceChar(upper, ' ', '_');
    var spaced := Replace(upper, " ", "_");
    ReplaceChar(spaced, '-', '_');
    Replace(spaced, "-", "_")
  }

  /** A normalised name holds no space, no '-', no lower-case letter, and no whitespace at its ends. */
  lemma NormalisedShape(col: string)
    ensures ' ' !in NormaliseColumn(col) && '-' !in NormaliseColumn(col)
    ensures forall i :: 0 <= i < |NormaliseColumn(col)| ==> !IsLowerAscii(NormaliseColumn(col)[i])
    ensures Trimmed(NormaliseColumn(col))
  {
    var name := NormaliseColumn(col);
    var s := Strip(col);
    if |name| > 0 {
      assert name[0] == NormaliseChar(s[0]);
      assert name[|name| - 1] == NormaliseChar(s[|s| - 1]);
    }
  }

  /** Normalising a normalised name changes nothing. */
  lemma NormaliseIdempotent(col: string)
    ensures NormaliseColumn(NormaliseColumn(col)) == NormaliseColumn(col)
  {
    var name := NormaliseColumn(col);
    NormalisedShape(col);
    StripOfTrimmed(name);
    var again := NormaliseColumn(name);
    forall i | 0 <= i < |name|
      ensures again[i] == name[i]
    {
      assert name[i] != ' ' && name[i] != '-' && !IsLowerAscii(name[i]);
    }
  }

  /** The list comprehension over `df.columns`. */
  function NormaliseColumns(cols: seq<string>): (names: seq<string>)
    ensures |names| == |cols|
    ensures forall i :: 0 <= i < |cols| ==> names[i] == NormaliseColumn(cols[i])
  {
    seq(|cols|, i requires 0 <= i < |cols| => NormaliseColumn(cols[i]))
  }

  /* ---------------- the upload loop ---------------- */

  /** The map from file name to table name, in insertion order. */
  const FileTableMap: seq<(string, string)> := [
    ("art_forms.csv", "ART_FORMS"),
    ("cultural_sites.csv", "CULTURAL_SITES"),
    ("tourism_data.csv", "TOURISM_STATS")
  ]

  /** What `write_pandas` does: report success with a row count, report failure, or raise. */
  datatype WriteOutcome = Success(rows: nat) | Failure | Raised

  /** What the log says about one file. */
  datatype Outcome =
    | NotFound                                        // "File not found"
    | ReadFailed                                      // `pd.read_csv` raised
    | Uploaded(columns: seq<string>, rows: nat)       // "Successfully loaded"
    | NotUploaded(columns: seq<string>)               // "Failed to load"
    | WriteFailed(columns: seq<string>)               // `write_pandas` raised

  datatype LogEntry = LogEntry(file: string, table: string, outcome: Outcome)

  /** One iteration of the loop body; `read` returns None when `pd.read_csv` raises, and
      `write` receives the table name, the normalised column names and the frame. */
  function Process(file: string, table: string, present: string -> bool, read: string -> Option<Table>,
                   write: (string, seq<string>, Table) -> WriteOutcome): LogEntry
  {
    if !present(file) then LogEntry(file, table, NotFound)
    else
      match read(file)
      case None => LogEntry(file, table, ReadFailed)
      case Some(df) =>
        var columns := NormaliseColumns(df.columns);
        match write(table, columns, df)
        case Success(n) => LogEntry(file, table, Uploaded(columns, n))
        case Failure => LogEntry(file, table, NotUploaded(columns))
        case Raised => LogEntry(file, table, WriteFailed(columns))
  }

  /** The loop over the file map: one log entry per file, in map order, each decided by its own
      file alone, so a missing or failing file does not stop the others. */
  method LoadDataToSnowflake(present: string -> bool, read: string -> Option<Table>,
                             write: (string, seq<string>, Table) -> WriteOutcome)
    returns (log: seq<LogEntry>)
    ensures |log| == |FileTableMap| == 3
    ensures forall i :: 0 <= i < 3 ==> log[i].file == FileTableMap[i].0 && log[i].table == FileTableMap[i].1
    ensures forall i :: 0 <= i < 3 ==> log[i] == Process(FileTableMap[i].0, FileTableMap[i].1, present, read, write)
  {
    log := [];
    var i := 0;
    while i < |FileTableMap|
      invariant 0 <= i <= |FileTableMap|
      invariant |log| == i
      invariant forall j :: 0 <= j < i ==> log[j] == Process(FileTableMap[j].0, FileTableMap[j].1, present, read, write)
    {
      var (file, table) := FileTableMap[i];
      var entry := Process(file, table, present, read, write);
      log := log + [entry];
      i := i + 1;
    }
  }

  /** A file is reported missing exactly when it is absent, and whatever reaches `write_pandas`
      carries normalised column names, one per column of the frame read. */
  lemma ProcessSpec(file: string, table: string, present: string -> bool, read: string -> Option<Table>,
                    write: (string, seq<string>, Table) -> WriteOutcome)
    ensures var e := Process(file, table, present, read, write);
      && (e.outcome.NotFound? <==> !present(file))
      && (e.outcome.ReadFailed? <==> present(file) && read(file).None?)
      && (e.outcome.Uploaded? <==> (present(file) && read(file).Some?
            && write(table, NormaliseColumns(read(file).value.columns), read(file).value).Success?))
      && (!e.outcome.NotFound? && !e.outcome.ReadFailed? ==>
            && e.outcome.columns == NormaliseColumns(read(file).value.columns)
            && forall k :: 0 <= k < |e.outcome.columns| ==>
                 ' ' !in e.outcome.columns[k] && '-' !in e.outcome.columns[k])
  {
    var e := Process(file, table, present, read, write);
    if !e.outcome.NotFound? && !e.outcome.ReadFailed? {
      var cols := read(file).value.columns;
      forall k | 0 <= k < |cols|
        ensures ' ' !in NormaliseColumns(cols)[k] && '-' !in NormaliseColumns(cols)[k]
      {
        NormalisedShape(cols[k]);
      }
    }
  }

  /** A missing file does not stop the others: with one file absent, every other file's entry
      is what it would have been with that file present. */
  lemma MissingFileSkipped(present: string -> bool, read: string -> Option<Table>,
                           write: (string, seq<string>, Table) -> WriteOutcome, i: int, log: seq<LogEntry>)
    requires 0 <= i < 3 && !present(FileTableMap[i].0)
    requires |log| == 3
    requires forall j :: 0 <= j < 3 ==> log[j] == Process(FileTableMap[j].0, FileTableMap[j].1, present, read, write)
    ensures log[i].outcome == NotFound
    ensures forall j :: 0 <= j < 3 && j != i ==>
      log[j] == Process(FileTableMap[j].0, FileTableMap[j].1,
                        f => if f == FileTableMap[i].0 then true else present(f), read, write)
  {
    assert FileTableMap[0].0 != FileTableMap[1].0 && FileTableMap[0].0 != FileTableMap[2].0;
    assert FileTableMap[1].0 != FileTableMap[2].0;
  }
}
