/** The local-file fallback of `load_all_data` in combined_analysis.py: reading a
    CSV under a chain of encodings, deriving a dataset key from a file name,
    collecting the tourism and parliament files into an ordered dictionary, and
    the per-year tabs of the tourism page. The file system and `pd.read_csv`
    are parameters: `present` says whether a file is present, `read` what
    parsing it under an encoding gives. */
module LocalFallback {
  import opened Strings
  import opened Seqs
  import opened Tables
  import opened Wrappers

  /** What `pd.read_csv(path, encoding=e)` does: parse, raise `UnicodeDecodeError`,
      or raise anything else. */
  datatype ReadOutcome = Parsed(table: Table) | DecodeError | OtherError

  const Encodings: seq<string> := ["utf-8", "latin1", "iso-8859-1", "cp1252"]

  /** The table returned, and the encodings tried, in order. */
  datatype Attempt = Attempt(table: Option<Table>, tried: seq<string>)

  /** Only a decode error moves on to the next encoding. */
  predicate DecodeFailsBefore(read: string -> ReadOutcome, encodings: seq<string>, i: int)
    requires 0 <= i <= |encodings|
  {
    forall j :: 0 <= j < i ==> read(encodings[j]).DecodeError?
  }

  /** The chain of attempts: each encoding is tried in order until one does not raise a decode
      error; a parse there is the result, any other error or running out of encodings gives None. */
  function TryEncodings(read: string -> ReadOutcome, encodings: seq<string>): (a: Attempt)
    ensures |a.tried| <= |encodings| && a.tried == encodings[..|a.tried|]
    ensures DecodeFailsBefore(read, encodings, if |a.tried| == 0 then 0 else |a.tried| - 1)
    ensures |a.tried| < |encodings| ==> |a.tried| > 0 && !read(a.tried[|a.tried| - 1]).DecodeError?
    ensures a.table.Some? <==> |a.tried| > 0 && read(a.tried[|a.tried| - 1]).Parsed?
    ensures a.table.Some? ==> read(a.tried[|a.tried| - 1]) == Parsed(a.table.value)
    decreases |encodings|
  {
    if |encodings| == 0 then Attempt(None, [])
    else
      match read(encodings[0])
      case Parsed(t) => Attempt(Some(t), [encodings[0]])
      case OtherError => Attempt(None, [encodings[0]])
      case DecodeError =>
        var rest := TryEncodings(read, encodings[1..]);
        Attempt(rest.table, [encodings[0]] + rest.tried)
  }

  /** The result is a table exactly when some encoding parses and every encoding before it
      raises a decode error. */
  lemma TryEncodingsFinds(read: string -> ReadOutcome, encodings: seq<string>)
    ensures TryEncodings(read, encodings).table.Some? <==>
      exists i :: 0 <= i < |encodings| && DecodeFailsBefore(read, encodings, i) && read(encodings[i]).Parsed?
  {
    var a := TryEncodings(read, encodings);
    ChainFinds(read, encodings, a.tried, a.table.Some?);
  }

  /** The same, for any chain of attempts that stops only where the encoding chain stops. */
  lemma ChainFinds(read: string -> ReadOutcome, encodings: seq<string>, tried: seq<string>, found: bool)
    requires |tried| <= |encodings| && tried == encodings[..|tried|]
    requires DecodeFailsBefore(read, encodings, if |tried| == 0 then 0 else |tried| - 1)
    requires |tried| < |encodings| ==> |tried| > 0 && !read(tried[|tried| - 1]).DecodeError?
    requires found <==> |tried| > 0 && read(tried[|tried| - 1]).Parsed?
    ensures found <==>
      exists i :: 0 <= i < |encodings| && DecodeFailsBefore(read, encodings, i) && read(encodings[i]).Parsed?
  {
    var n := |tried|;
    if found {
      assert encodings[n - 1] == tried[n - 1];
    }
    if i :| 0 <= i < |encodings| && DecodeFailsBefore(read, encodings, i) && read(encodings[i]).Parsed? {
      ChainStopsAt(read, encodings, tried, i);
    }
  }

  /** A chain of attempts that stops only on a non-decode error reaches the first encoding
      that parses after decode errors, and stops there. */
  lemma ChainStopsAt(read: string -> ReadOutcome, encodings: seq<string>, tried: seq<string>, i: int)
    requires |tried| <= |encodings| && tried == encodings[..|tried|]
    requires DecodeFailsBefore(read, encodings, if |tried| == 0 then 0 else |tried| - 1)
    requires |tried| < |encodings| ==> |tried| > 0 && !read(tried[|tried| - 1]).DecodeError?
    requires 0 <= i < |encodings| && DecodeFailsBefore(read, encodings, i) && read(encodings[i]).Parsed?
    ensures |tried| == i + 1 && read(tried[i]).Parsed?
  {
    var n := |tried|;
    assert n > 0;
    assert tried[n - 1] == encodings[n - 1];
  }

  /** `try_read_csv`, with its loop: the result agrees with the reference reading. */
  method TryReadCsv(read: string -> ReadOutcome) returns (df: Option<Table>)
    ensures df == TryEncodings(read, Encodings).table
  {
    var k := 0;
    while k < |Encodings|
      invariant 0 <= k <= |Encodings|
      invariant DecodeFailsBefore(read, Encodings, k)
      invariant TryEncodings(read, Encodings).table == TryEncodings(read, Encodings[k..]).table
    {
      assert Encodings[k..][1..] == Encodings[k + 1..];
      match read(Encodings[k])
      case Parsed(t) =>
        return Some(t);
      case DecodeError =>
        k := k + 1;
      case OtherError =>
        return None;
    }
    return None;
  }

  /** latin1 maps every byte to a character, so it never raises a decode error: the last two
      encodings are never tried. */
  lemma LatinEndsTheChain(read: string -> ReadOutcome)
    requires !read("latin1").DecodeError?
    ensures |TryEncodings(read, Encodings).tried| <= 2
    ensures TryEncodings(read, Encodings).table.Some? <==> read("utf-8").Parsed? || (read("utf-8").DecodeError? && read("latin1").Parsed?)
  {
    assert Encodings[0] == "utf-8" && Encodings[1] == "latin1";
  }

  /* ---------------- dataset keys ---------------- */

  /** `file.replace('.csv', '').replace('-', '_').lower()`. */
  function DatasetKey(file: string): (key: string)
    ensures |key| == |Replace(file, ".csv", "")|
    ensures '-' !in key
    ensures forall i :: 0 <= i < |key| ==> !IsUpperAscii(key[i])
  {
    var stem := Replace(file, ".csv", "");
    ReplaceChar(stem, '-', '_');
    var key := Lower(Replace(stem, "-", "_"));
    assert forall i :: 0 <= i < |key| ==> key[i] != '-';
    key
  }

  /** For a name ending in ".csv" once, the key is the rest of the name, position by position
      lower-cased with every '-' turned into '_'. */
  lemma DatasetKeyOfCsv(stem: string)
    requires !Contains(stem, ".csv")
    ensures |DatasetKey(stem + ".csv")| == |stem|
    ensures forall i :: 0 <= i < |stem| ==>
      DatasetKey(stem + ".csv")[i] == if stem[i] == '-' then '_' else LowerChar(stem[i])
  {
    ReplaceSuffixNoBorder(stem, ".csv");
    ReplaceChar(stem, '-', '_');
  }

  /** Removing a pattern that ends the string and occurs nowhere else, when the pattern's first
      character does not recur in it, leaves the rest of the string. */
  lemma {:induction false} ReplaceSuffixNoBorder(stem: string, pattern: string)
    requires |pattern| > 0 && pattern[0] !in pattern[1..]
    requires !Contains(stem, pattern)
    ensures Replace(stem + pattern, pattern, "") == stem
    decreases |stem|
  {
    if |stem| == 0 {
      assert stem + pattern == pattern;
      ReplaceWhole(pattern, "");
    } else {
      var s := stem + pattern;
      if |stem| >= |pattern| {
        assert s[..|pattern|] == stem[..|pattern|];
        NotStartsWithFromContains(stem, pattern);
      } else {
        assert s[|stem|] == pattern[0];
        assert pattern[|stem|] == pattern[1..][|stem| - 1];
        NotStartsWithAt(s, pattern, |stem|);
      }
      ReplaceSkip(s, pattern, "");
      assert s[1..] == stem[1..] + pattern;
      ReplaceSuffixNoBorder(stem[1..], pattern);
      assert [stem[0]] + stem[1..] == stem;
    }
  }

  lemma NotStartsWithFromContains(s: string, sub: string)
    requires !Contains(s, sub) && |sub| <= |s|
    ensures s[..|sub|] != sub
  {
  }

  /* ---------------- the file loop ---------------- */

  /** A dataset dictionary in insertion order. */
  type Datasets = seq<(string, Table)>

  function Keys(d: Datasets): (ks: seq<string>)
    ensures |ks| == |d| && forall i :: 0 <= i < |d| ==> ks[i] == d[i].0
  {
    seq(|d|, i requires 0 <= i < |d| => d[i].0)
  }

  /** `d[key] = t`: an existing key keeps its place and takes the new value; a new key is appended. */
  function Store(d: Datasets, key: string, t: Table): (r: Datasets)
    requires Distinct(Keys(d))
    ensures Distinct(Keys(r))
    ensures forall k :: k in Keys(r) <==> k in Keys(d) || k == key
    ensures forall i :: 0 <= i < |r| ==> r[i] == (if r[i].0 == key then (key, t) else r[i])
    ensures forall e :: e in r && e.0 != key ==> e in d
    ensures key in Keys(d) ==> |r| == |d| && forall i :: 0 <= i < |d| && d[i].0 != key ==> r[i] == d[i]
    ensures key !in Keys(d) ==> r == d + [(key, t)]
  {
    if key in Keys(d) then
      var r := seq(|d|, i requires 0 <= i < |d| => if d[i].0 == key then (key, t) else d[i]);
      assert forall i :: 0 <= i < |d| ==> Keys(r)[i] == Keys(d)[i];
      assert Keys(r) == Keys(d);
      r
    else
      assert Keys(d + [(key, t)]) == Keys(d) + [key];
      d + [(key, t)]
  }

  /** The table a present file contributes: read under the encoding chain, kept if non-empty. */
  function Contribution(file: string, present: string -> bool, read: string -> string -> ReadOutcome): Option<Table> {
    if !present(file) then None
    else
      var df := TryEncodings(read(file), Encodings).table;
      if df.Some? && !IsEmpty(df.value) then df else None
  }

  /** Among the first `n` files, file `i` is the last whose contribution was stored under `key`. */
  predicate LastWriter(files: seq<string>, n: int, contribution: string -> Option<Table>, key: string, i: int)
    requires 0 <= n <= |files|
  {
    && 0 <= i < n
    && contribution(files[i]).Some?
    && DatasetKey(files[i]) == key
    && forall j :: i < j < n && contribution(files[j]).Some? ==> DatasetKey(files[j]) != key
  }

  /** Some file among the first `n` contributed a table under `key`. */
  predicate Produced(files: seq<string>, n: int, contribution: string -> Option<Table>, key: string)
    requires 0 <= n <= |files|
  {
    exists i :: 0 <= i < n && contribution(files[i]).Some? && DatasetKey(files[i]) == key
  }

  /** The dictionary after the first `n` files, each storing its contribution, if any, under its key. */
  function LoadedUpTo(files: seq<string>, n: int, contribution: string -> Option<Table>): (d: Datasets)
    requires 0 <= n <= |files|
    ensures Distinct(Keys(d))
    decreases n
  {
    if n == 0 then []
    else
      var d := LoadedUpTo(files, n - 1, contribution);
      var c := contribution(files[n - 1]);
      if c.Some? then Store(d, DatasetKey(files[n - 1]), c.value) else d
  }

  /** A key is in the dictionary exactly when some file so far produced it. */
  lemma {:induction false} LoadedUpToKeys(files: seq<string>, n: int, contribution: string -> Option<Table>)
    requires 0 <= n <= |files|
    ensures forall k :: k in Keys(LoadedUpTo(files, n, contribution)) <==> Produced(files, n, contribution, k)
    decreases n
  {
    if n > 0 {
      LoadedUpToKeys(files, n - 1, contribution);
      var c := contribution(files[n - 1]);
      var key := DatasetKey(files[n - 1]);
      forall k
        ensures Produced(files, n, contribution, k) <==>
          Produced(files, n - 1, contribution, k) || (c.Some? && k == key)
      {
        if Produced(files, n, contribution, k) {
          var i :| 0 <= i < n && contribution(files[i]).Some? && DatasetKey(files[i]) == k;
          if i < n - 1 {
            assert Produced(files, n - 1, contribution, k);
          }
        }
        if c.Some? && k == key {
          assert Produced(files, n, contribution, k) by {
            assert 0 <= n - 1 < n && contribution(files[n - 1]).Some? && DatasetKey(files[n - 1]) == k;
          }
        }
      }
    }
  }

  /** Every entry holds the table of the last file so far that produced its key. */
  lemma {:induction false} LoadedUpToValues(files: seq<string>, n: int, contribution: string -> Option<Table>)
    requires 0 <= n <= |files|
    ensures forall e :: e in LoadedUpTo(files, n, contribution) ==>
      exists i :: LastWriter(files, n, contribution, e.0, i) && e.1 == contribution(files[i]).value
    decreases n
  {
    if n > 0 {
      LoadedUpToValues(files, n - 1, contribution);
      var before := LoadedUpTo(files, n - 1, contribution);
      var c := contribution(files[n - 1]);
      var key := DatasetKey(files[n - 1]);
      forall e | e in LoadedUpTo(files, n, contribution)
        ensures exists i :: LastWriter(files, n, contribution, e.0, i) && e.1 == contribution(files[i]).value
      {
        if c.Some? && e.0 == key {
          assert e == (key, c.value);
          assert LastWriter(files, n, contribution, e.0, n - 1);
        } else {
          assert e in before;
          var i :| LastWriter(files, n - 1, contribution, e.0, i) && e.1 == contribution(files[i]).value;
          assert LastWriter(files, n, contribution, e.0, i);
        }
      }
    }
  }

  /** The loops over `tourism_files` and `parliament_files`: a missing, unreadable or empty file
      is skipped without stopping the others, every key some file produced is present, and each
      key holds the table of the last file that produced it. */
  method LoadKeyed(files: seq<string>, present: string -> bool, read: string -> string -> ReadOutcome)
    returns (datasets: Datasets)
    ensures var contribution := f => Contribution(f, present, read);
      && Distinct(Keys(datasets))
      && (forall k :: k in Keys(datasets) <==> Produced(files, |files|, contribution, k))
      && (forall e :: e in datasets ==>
            exists i :: LastWriter(files, |files|, contribution, e.0, i) && e.1 == contribution(files[i]).value)
  {
    var contribution := f => Contribution(f, present, read);
    datasets := [];
    var n := 0;
    while n < |files|
      invariant 0 <= n <= |files|
      invariant datasets == LoadedUpTo(files, n, contribution)
    {
      var file := files[n];
      if present(file) {
        var df := TryReadCsv(read(file));
        if df.Some? && !IsEmpty(df.value) {
          datasets := Store(datasets, DatasetKey(file), df.value);
        }
      }
      n := n + 1;
    }
    LoadedUpToKeys(files, n, contribution);
    LoadedUpToValues(files, n, contribution);
  }

  /* ---------------- year tabs ---------------- */

  /** `{k: v for k, v in tourism_data.items() if year in k}`. */
  function YearTab(data: Datasets, year: string): (r: Datasets)
    ensures IsSubsequence(r, data)
    ensures forall e :: e in r <==> e in data && Contains(e.0, year)
  {
    var keep := (e: (string, Table)) => Contains(e.0, year);
    FilterIsSubsequence(data, keep);
    forall e | e in data && keep(e)
      ensures e in Filter(data, keep)
    {
      FilterKeeps(data, keep, e);
    }
    Filter(data, keep)
  }

  /** A year tab of a dictionary keeps its keys distinct, and a key holds the same table in the
      tab as in the whole dictionary. */
  lemma YearTabKeys(data: Datasets, year: string)
    requires Distinct(Keys(data))
    ensures Distinct(Keys(YearTab(data, year)))
    ensures forall k :: k in Keys(YearTab(data, year)) <==> k in Keys(data) && Contains(k, year)
  {
    SubsequenceKeysDistinct(YearTab(data, year), data);
    YearTabKeySet(data, year);
  }

  /** A subsequence of a dictionary with distinct keys has distinct keys. */
  lemma SubsequenceKeysDistinct(r: Datasets, data: Datasets)
    requires IsSubsequence(r, data) && Distinct(Keys(data))
    ensures Distinct(Keys(r))
  {
    forall i, j | 0 <= i < j < |r|
      ensures r[i].0 != r[j].0
    {
      SubsequenceIndices(r, data, i, j);
      var a, b :| 0 <= a < b < |data| && data[a] == r[i] && data[b] == r[j];
      assert Keys(data)[a] != Keys(data)[b];
    }
  }

  /** The keys of a year tab are the keys holding the year. */
  lemma YearTabKeySet(data: Datasets, year: string)
    ensures forall k :: k in Keys(YearTab(data, year)) <==> k in Keys(data) && Contains(k, year)
  {
    var r := YearTab(data, year);
    forall k | k in Keys(data) && Contains(k, year)
      ensures k in Keys(r)
    {
      var i :| 0 <= i < |data| && data[i].0 == k;
      assert data[i] in r;
      var m :| 0 <= m < |r| && r[m] == data[i];
      assert Keys(r)[m] == k;
    }
    forall k | k in Keys(r)
      ensures k in Keys(data) && Contains(k, year)
    {
      var m :| 0 <= m < |r| && r[m].0 == k;
      assert r[m] in r;
      var i :| 0 <= i < |data| && data[i] == r[m];
      assert Keys(data)[i] == k;
    }
  }
}
