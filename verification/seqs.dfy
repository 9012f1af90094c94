/** Order-preserving filtering of sequences: the shape of a pandas boolean
    mask (`df[mask]`) and of a Python dict comprehension with an `if`. */
module Seqs {

  /** `sub` is obtained from `s` by deleting elements, keeping the order of the rest. */
  predicate IsSubsequence<T(==)>(sub: seq<T>, s: seq<T>)
    decreases |s|
  {
    if |sub| == 0 then true
    else if |s| == 0 then false
    else if sub[0] == s[0] then IsSubsequence(sub[1..], s[1..])
    else IsSubsequence(sub, s[1..])
  }

  /** The elements of `s` that satisfy `keep`, in their original order. */
  function Filter<T>(s: seq<T>, keep: T -> bool): (r: seq<T>)
    ensures |r| <= |s|
    ensures forall x :: x in r ==> x in s && keep(x)
  {
    if |s| == 0 then []
    else if keep(s[0]) then [s[0]] + Filter(s[1..], keep)
    else Filter(s[1..], keep)
  }

  /** Nothing that satisfies `keep` is lost. */
  lemma {:induction false} FilterKeeps<T>(s: seq<T>, keep: T -> bool, x: T)
    requires x in s && keep(x)
    ensures x in Filter(s, keep)
  {
    if s[0] != x {
      FilterKeeps(s[1..], keep, x);
    }
  }

  /** The kept elements appear in the order they had. */
  lemma {:induction false} FilterIsSubsequence<T>(s: seq<T>, keep: T -> bool)
    ensures IsSubsequence(Filter(s, keep), s)
  {
    if |s| > 0 {
      FilterIsSubsequence(s[1..], keep);
      if keep(s[0]) {
        assert Filter(s, keep)[1..] == Filter(s[1..], keep);
      } else {
        SubsequenceOfTail(Filter(s, keep), s);
      }
    }
  }

  /** Deleting the head of the longer sequence preserves the relation. */
  lemma {:induction false} SubsequenceOfTail<T>(sub: seq<T>, s: seq<T>)
    requires |s| > 0 && IsSubsequence(sub, s[1..])
    ensures IsSubsequence(sub, s)
    decreases |s|, |sub|
  {
    if |sub| > 0 && sub[0] == s[0] {
      SubsequenceDropHead(sub, s[1..]);
    }
  }

  /** Dropping the head of the shorter sequence preserves the relation. */
  lemma {:induction false} SubsequenceDropHead<T>(sub: seq<T>, s: seq<T>)
    requires |sub| > 0 && IsSubsequence(sub, s)
    ensures IsSubsequence(sub[1..], s)
    decreases |s|, |sub|
  {
    if |sub[1..]| > 0 {
      if sub[0] == s[0] {
        SubsequenceOfTail(sub[1..], s);
      } else {
        SubsequenceDropHead(sub, s[1..]);
        SubsequenceOfTail(sub[1..], s);
      }
    }
  }

  lemma {:induction false} SubsequenceRefl<T>(s: seq<T>)
    ensures IsSubsequence(s, s)
  {
    if |s| > 0 {
      SubsequenceRefl(s[1..]);
    }
  }

  /** A subsequence of a subsequence is a subsequence. */
  lemma {:induction false} SubsequenceTrans<T>(a: seq<T>, b: seq<T>, c: seq<T>)
    requires IsSubsequence(a, b) && IsSubsequence(b, c)
    ensures IsSubsequence(a, c)
    decreases |c|, |b|
  {
    if |a| > 0 && |c| > 0 {
      if b[0] == c[0] {
        if a[0] == b[0] {
          SubsequenceTrans(a[1..], b[1..], c[1..]);
        } else {
          SubsequenceTrans(a, b[1..], c[1..]);
          SubsequenceOfTail(a, c);
        }
      } else {
        SubsequenceTrans(a, b, c[1..]);
        SubsequenceOfTail(a, c);
      }
    }
  }

  /** Every element of a subsequence sits at some index of the sequence. */
  lemma {:induction false} SubsequenceIndex<T>(sub: seq<T>, s: seq<T>, j: int)
    requires IsSubsequence(sub, s) && 0 <= j < |sub|
    ensures exists a :: 0 <= a < |s| && s[a] == sub[j]
    decreases |s|
  {
    if sub[0] == s[0] {
      if j > 0 {
        SubsequenceIndex(sub[1..], s[1..], j - 1);
        var a :| 0 <= a < |s[1..]| && s[1..][a] == sub[1..][j - 1];
        assert s[a + 1] == sub[j];
      } else {
        assert s[0] == sub[j];
      }
    } else {
      SubsequenceIndex(sub, s[1..], j);
      var a :| 0 <= a < |s[1..]| && s[1..][a] == sub[j];
      assert s[a + 1] == sub[j];
    }
  }

  /** Two positions of a subsequence come from two positions of the sequence, in the same order. */
  lemma {:induction false} SubsequenceIndices<T>(sub: seq<T>, s: seq<T>, i: int, j: int)
    requires IsSubsequence(sub, s) && 0 <= i < j < |sub|
    ensures exists a, b :: 0 <= a < b < |s| && s[a] == sub[i] && s[b] == sub[j]
    decreases |s|
  {
    if sub[0] == s[0] {
      if i == 0 {
        SubsequenceIndex(sub[1..], s[1..], j - 1);
        var b :| 0 <= b < |s[1..]| && s[1..][b] == sub[1..][j - 1];
        assert s[0] == sub[i] && s[b + 1] == sub[j];
      } else {
        SubsequenceIndices(sub[1..], s[1..], i - 1, j - 1);
        var a, b :| 0 <= a < b < |s[1..]| && s[1..][a] == sub[1..][i - 1] && s[1..][b] == sub[1..][j - 1];
        assert s[a + 1] == sub[i] && s[b + 1] == sub[j];
      }
    } else {
      SubsequenceIndices(sub, s[1..], i, j);
      var a, b :| 0 <= a < b < |s[1..]| && s[1..][a] == sub[i] && s[1..][b] == sub[j];
      assert s[a + 1] == sub[i] && s[b + 1] == sub[j];
    }
  }

  /** Filtering a concatenation filters each part. */
  lemma {:induction false} FilterAppend<T>(a: seq<T>, b: seq<T>, keep: T -> bool)
    ensures Filter(a + b, keep) == Filter(a, keep) + Filter(b, keep)
  {
    if |a| > 0 {
      FilterAppend(a[1..], b, keep);
      assert (a + b)[1..] == a[1..] + b;
    } else {
      assert a + b == b;
    }
  }

  /** A filter keeps every copy of an element it keeps and no copy of one it drops. */
  lemma {:induction false} FilterCount<T>(s: seq<T>, keep: T -> bool, x: T)
    ensures multiset(Filter(s, keep))[x] == if keep(x) then multiset(s)[x] else 0
  {
    if |s| > 0 {
      FilterCount(s[1..], keep, x);
      assert s == [s[0]] + s[1..];
      if keep(s[0]) {
        assert Filter(s, keep) == [s[0]] + Filter(s[1..], keep);
      }
    }
  }

  /** A filter that keeps every element is the identity. */
  lemma {:induction false} FilterAll<T>(s: seq<T>, keep: T -> bool)
    requires forall i :: 0 <= i < |s| ==> keep(s[i])
    ensures Filter(s, keep) == s
  {
    if |s| > 0 {
      FilterAll(s[1..], keep);
    }
  }

  /** Filtering twice by the same test is filtering once. */
  lemma FilterIdempotent<T>(s: seq<T>, keep: T -> bool)
    ensures Filter(Filter(s, keep), keep) == Filter(s, keep)
  {
    var r := Filter(s, keep);
    forall i | 0 <= i < |r|
      ensures keep(r[i])
    {
      assert r[i] in r;
    }
    FilterAll(r, keep);
  }

  /** What a filter keeps and what its complement keeps together account for every element. */
  lemma {:induction false} FilterSplit<T>(s: seq<T>, keep: T -> bool)
    ensures |Filter(s, keep)| + |Filter(s, x => !keep(x))| == |s|
  {
    if |s| > 0 {
      FilterSplit(s[1..], keep);
    }
  }
}
