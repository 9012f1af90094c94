/** ASCII models of the Python string methods the loaders rely on:
    `lower`, `upper`, `title`, `strip`, `in` (substring test), `replace`
    and `join`. Case mapping is restricted to ASCII letters; `strip` uses
    Python's full whitespace set. */
module Strings {

  /* ---------------- characters ---------------- */

  predicate IsUpperAscii(c: char) { 'A' <= c <= 'Z' }

  predicate IsLowerAscii(c: char) { 'a' <= c <= 'z' }

  /** The cased characters of the model (Python `str.title` tracks these). */
  predicate IsLetter(c: char) { IsUpperAscii(c) || IsLowerAscii(c) }

  function LowerChar(c: char): (r: char)
    ensures !IsUpperAscii(r)
    ensures IsLetter(c) <==> IsLetter(r)
    ensures !IsLetter(c) ==> r == c
  {
    if IsUpperAscii(c) then (c as int + 32) as char else c
  }

  function UpperChar(c: char): (r: char)
    ensures !IsLowerAscii(r)
    ensures IsLetter(c) <==> IsLetter(r)
    ensures !IsLetter(c) ==> r == c
  {
    if IsLowerAscii(c) then (c as int - 32) as char else c
  }

  /** The characters Python's `str.isspace` accepts, hence those `str.strip()` removes. */
  predicate IsSpace(c: char) {
    var n := c as int;
    (9 <= n <= 13) || (28 <= n <= 32) || n == 0x85 || n == 0xA0 || n == 0x1680
    || (0x2000 <= n <= 0x200A) || n == 0x2028 || n == 0x2029 || n == 0x202F
    || n == 0x205F || n == 0x3000
  }

  /* ---------------- lower / upper ---------------- */

  function Lower(s: string): (r: string)
    ensures |r| == |s|
    ensures forall i :: 0 <= i < |s| ==> r[i] == LowerChar(s[i])
  {
    seq(|s|, i requires 0 <= i < |s| => LowerChar(s[i]))
  }

  function Upper(s: string): (r: string)
    ensures |r| == |s|
    ensures forall i :: 0 <= i < |s| ==> r[i] == UpperChar(s[i])
  {
    seq(|s|, i requires 0 <= i < |s| => UpperChar(s[i]))
  }

  lemma LowerIdempotent(s: string)
    ensures Lower(Lower(s)) == Lower(s)
  {
  }

  /** Lower-casing forgets the case a string was written in. */
  lemma LowerOfUpper(s: string)
    ensures Lower(Upper(s)) == Lower(s)
  {
    assert forall i :: 0 <= i < |s| ==> LowerChar(UpperChar(s[i])) == LowerChar(s[i]);
  }

  /* ---------------- strip ---------------- */

  /** `str.lstrip()`: the longest suffix that does not start with whitespace. */
  function StripLeft(s: string): (r: string)
    ensures |r| <= |s| && r == s[|s| - |r|..]
    ensures forall k :: 0 <= k < |s| - |r| ==> IsSpace(s[k])
    ensures |r| > 0 ==> !IsSpace(r[0])
  {
    if |s| > 0 && IsSpace(s[0]) then StripLeft(s[1..]) else s
  }

  /** `str.rstrip()`: the longest prefix that does not end with whitespace. */
  function StripRight(s: string): (r: string)
    ensures |r| <= |s| && r == s[..|r|]
    ensures forall k :: |r| <= k < |s| ==> IsSpace(s[k])
    ensures |r| > 0 ==> !IsSpace(r[|r| - 1])
  {
    if |s| > 0 && IsSpace(s[|s| - 1]) then StripRight(s[..|s| - 1]) else s
  }

  /** No whitespace at either end. */
  predicate Trimmed(s: string) {
    |s| == 0 || (!IsSpace(s[0]) && !IsSpace(s[|s| - 1]))
  }

  /** `r` is the window of `s` starting at `i`, and everything outside it is whitespace. */
  predicate SpaceFramed(s: string, r: string, i: int) {
    0 <= i <= |s| - |r| && r == s[i..i + |r|]
    && (forall k :: 0 <= k < i ==> IsSpace(s[k]))
    && (forall k :: i + |r| <= k < |s| ==> IsSpace(s[k]))
  }

  /** `str.strip()`: removes the whitespace at both ends and nothing else. */
  function Strip(s: string): (r: string)
    ensures Trimmed(r)
    ensures exists i :: SpaceFramed(s, r, i)
  {
    var l := StripLeft(s);
    var r := StripRight(l);
    StripFrame(s, l, r);
    assert SpaceFramed(s, r, |s| - |l|);
    r
  }

  /** Cutting a whitespace prefix and then a whitespace suffix leaves a window framed by whitespace. */
  lemma StripFrame(s: string, l: string, r: string)
    requires |l| <= |s| && l == s[|s| - |l|..]
    requires forall k :: 0 <= k < |s| - |l| ==> IsSpace(s[k])
    requires |r| <= |l| && r == l[..|r|]
    requires forall k :: |r| <= k < |l| ==> IsSpace(l[k])
    requires |l| > 0 ==> !IsSpace(l[0])
    requires |r| > 0 ==> !IsSpace(r[|r| - 1])
    ensures SpaceFramed(s, r, |s| - |l|)
    ensures Trimmed(r)
  {
    var i := |s| - |l|;
    forall k | 0 <= k < |r|
      ensures r[k] == s[i + k]
    {
      assert r[k] == l[k];
    }
    assert r == s[i..i + |r|];
    forall k | i + |r| <= k < |s|
      ensures IsSpace(s[k])
    {
      assert s[k] == l[k - i];
    }
  }

  lemma StripLeftOfTrimmed(s: string)
    requires Trimmed(s)
    ensures StripLeft(s) == s
  {
  }

  lemma StripRightOfTrimmed(s: string)
    requires Trimmed(s)
    ensures StripRight(s) == s
  {
  }

  /** A string with no whitespace at its ends is left alone by `strip`. */
  lemma StripOfTrimmed(s: string)
    requires Trimmed(s)
    ensures Strip(s) == s
  {
    StripLeftOfTrimmed(s);
    StripRightOfTrimmed(s);
  }

  lemma StripIdempotent(s: string)
    ensures Strip(Strip(s)) == Strip(s)
  {
    StripOfTrimmed(Strip(s));
  }

  /* ---------------- title ---------------- */

  /** The loop of `str.title()`: a letter is upper-cased when the character before
      it was not a letter and lower-cased otherwise; other characters pass through. */
  function TitleFrom(s: string, afterLetter: bool): (r: string)
    ensures |r| == |s|
  {
    if |s| == 0 then []
    else
      var c := s[0];
      var c' := if !IsLetter(c) then c else if afterLetter then LowerChar(c) else UpperChar(c);
      [c'] + TitleFrom(s[1..], IsLetter(c))
  }

  function Title(s: string): (r: string)
    ensures |r| == |s|
  {
    TitleFrom(s, false)
  }

  /** Whether position `i` of `s` starts a word: the first character, or one after a non-letter. */
  predicate WordStart(s: string, i: int)
    requires 0 <= i < |s|
  {
    i == 0 || !IsLetter(s[i - 1])
  }

  /** Position-wise reference for `TitleFrom`. */
  lemma {:induction false} TitleFromAt(s: string, afterLetter: bool, i: int)
    requires 0 <= i < |s|
    ensures TitleFrom(s, afterLetter)[i] ==
      if !IsLetter(s[i]) then s[i]
      else if (if i == 0 then afterLetter else IsLetter(s[i - 1])) then LowerChar(s[i])
      else UpperChar(s[i])
    decreases i
  {
    if i > 0 {
      TitleFromAt(s[1..], IsLetter(s[0]), i - 1);
      assert TitleFrom(s, afterLetter)[i] == TitleFrom(s[1..], IsLetter(s[0]))[i - 1];
    }
  }

  /** `str.title()` upper-cases exactly the word-initial letters and lower-cases the other letters. */
  lemma TitleAt(s: string, i: int)
    requires 0 <= i < |s|
    ensures !IsLetter(s[i]) ==> Title(s)[i] == s[i]
    ensures IsLetter(s[i]) && WordStart(s, i) ==> Title(s)[i] == UpperChar(s[i])
    ensures IsLetter(s[i]) && !WordStart(s, i) ==> Title(s)[i] == LowerChar(s[i])
  {
    TitleFromAt(s, false, i);
  }

  /** Title-casing keeps the letter/non-letter shape of the string. */
  lemma TitleKeepsLetters(s: string)
    ensures forall i :: 0 <= i < |s| ==> (IsLetter(Title(s)[i]) <==> IsLetter(s[i]))
  {
    forall i | 0 <= i < |s|
      ensures IsLetter(Title(s)[i]) <==> IsLetter(s[i])
    {
      TitleAt(s, i);
    }
  }

  /** Title-casing a title-cased string changes nothing. */
  lemma TitleIdempotent(s: string)
    ensures Title(Title(s)) == Title(s)
  {
    var t := Title(s);
    TitleKeepsLetters(s);
    forall i | 0 <= i < |s|
      ensures Title(t)[i] == t[i]
    {
      TitleAt(s, i);
      TitleAt(t, i);
    }
  }

  /* ---------------- substring test ---------------- */

  predicate StartsWith(s: string, prefix: string) {
    |prefix| <= |s| && s[..|prefix|] == prefix
  }

  /** Python's `sub in s`. */
  predicate Contains(s: string, sub: string)
    decreases |s|
  {
    StartsWith(s, sub) || (|s| > 0 && Contains(s[1..], sub))
  }

  /** `sub` occurs in `s` starting at index `i`. */
  predicate OccursAt(s: string, sub: string, i: int) {
    0 <= i && i + |sub| <= |s| && s[i..i + |sub|] == sub
  }

  /** The recursive test agrees with "some window of `s` equals `sub`". */
  lemma ContainsIffOccurs(s: string, sub: string)
    ensures Contains(s, sub) <==> exists i :: OccursAt(s, sub, i)
  {
    if Contains(s, sub) {
      var i := ContainsAt(s, sub);
    }
    if i :| OccursAt(s, sub, i) {
      OccursContains(s, sub, i);
    }
  }

  /** A string that contains `sub` has a window equal to it. */
  lemma {:induction false} ContainsAt(s: string, sub: string) returns (i: int)
    requires Contains(s, sub)
    ensures OccursAt(s, sub, i)
    decreases |s|
  {
    if StartsWith(s, sub) {
      i := 0;
    } else {
      var j := ContainsAt(s[1..], sub);
      assert s[1..][j..j + |sub|] == s[j + 1..j + 1 + |sub|];
      i := j + 1;
    }
  }

  /** A window equal to `sub` makes the recursive test succeed. */
  lemma {:induction false} OccursContains(s: string, sub: string, i: int)
    requires OccursAt(s, sub, i)
    ensures Contains(s, sub)
    decreases i
  {
    if i > 0 {
      assert s[1..][i - 1..i - 1 + |sub|] == s[i..i + |sub|];
      OccursContains(s[1..], sub, i - 1);
    }
  }

  /** Every character of a substring occurs in the string. */
  lemma ContainsHasChars(s: string, sub: string, c: char)
    requires Contains(s, sub) && c in sub
    ensures c in s
  {
    ContainsIffOccurs(s, sub);
    var i :| OccursAt(s, sub, i);
    var k :| 0 <= k < |sub| && sub[k] == c;
    assert s[i + k] == s[i..i + |sub|][k] == c;
  }

  /** A string with no occurrence of `c` contains no substring holding `c`. */
  lemma NotContainsWithoutChar(s: string, sub: string, c: char)
    requires c in sub && c !in s
    ensures !Contains(s, sub)
  {
    if Contains(s, sub) {
      ContainsHasChars(s, sub, c);
    }
  }

  /* ---------------- replace ---------------- */

  /** Python's `s.replace(pattern, replacement)`: every non-overlapping occurrence of `pattern`,
      scanned from the left, becomes `replacement`; an empty `pattern` inserts `replacement` around
      every character. */
  function Replace(s: string, pattern: string, replacement: string): string
    decreases |s|
  {
    if |pattern| == 0 then
      if |s| == 0 then replacement else replacement + [s[0]] + Replace(s[1..], pattern, replacement)
    else if StartsWith(s, pattern) then replacement + Replace(s[|pattern|..], pattern, replacement)
    else if |s| == 0 then []
    else [s[0]] + Replace(s[1..], pattern, replacement)
  }

  /** Replacing one character by another rewrites exactly that character, position by position. */
  lemma {:induction false} ReplaceChar(s: string, a: char, b: char)
    ensures |Replace(s, [a], [b])| == |s|
    ensures forall i :: 0 <= i < |s| ==> Replace(s, [a], [b])[i] == if s[i] == a then b else s[i]
    decreases |s|
  {
    if |s| > 0 {
      ReplaceChar(s[1..], a, b);
      if StartsWith(s, [a]) {
        assert s[|[a]|..] == s[1..];
      }
    }
  }

  /** With a non-empty pattern that does not occur, `replace` changes nothing. */
  lemma {:induction false} ReplaceAbsent(s: string, pattern: string, replacement: string)
    requires |pattern| > 0 && !Contains(s, pattern)
    ensures Replace(s, pattern, replacement) == s
    decreases |s|
  {
    if |s| > 0 {
      ReplaceAbsent(s[1..], pattern, replacement);
      assert [s[0]] + s[1..] == s;
    }
  }

  /** A string that differs from `prefix` at some position does not start with it. */
  lemma NotStartsWithAt(s: string, prefix: string, k: int)
    requires 0 <= k < |prefix| && k < |s| && s[k] != prefix[k]
    ensures !StartsWith(s, prefix)
  {
  }

  /** A prefix that lacks the pattern's first character passes through `replace` unchanged. */
  lemma {:induction false} ReplaceAfterPlain(a: string, s: string, pattern: string, replacement: string)
    requires |pattern| > 0 && pattern[0] !in a
    ensures Replace(a + s, pattern, replacement) == a + Replace(s, pattern, replacement)
    decreases |a|
  {
    if |a| == 0 {
      assert a + s == s;
    } else {
      NotStartsWithAt(a + s, pattern, 0);
      assert (a + s)[1..] == a[1..] + s;
      ReplaceAfterPlain(a[1..], s, pattern, replacement);
      assert [a[0]] + (a[1..] + Replace(s, pattern, replacement)) == a + Replace(s, pattern, replacement);
    }
  }

  /** Where the pattern does not start, `replace` keeps the first character and moves on. */
  lemma ReplaceSkip(s: string, pattern: string, replacement: string)
    requires |s| > 0 && |pattern| > 0 && !StartsWith(s, pattern)
    ensures Replace(s, pattern, replacement) == [s[0]] + Replace(s[1..], pattern, replacement)
  {
  }

  /** The pattern alone is replaced by the replacement. */
  lemma ReplaceWhole(pattern: string, replacement: string)
    requires |pattern| > 0
    ensures Replace(pattern, pattern, replacement) == replacement
  {
    assert pattern[|pattern|..] == [];
  }

  /* ---------------- join ---------------- */

  /** Python's `sep.join(parts)`. */
  function Join(parts: seq<string>, sep: string): string {
    if |parts| == 0 then []
    else if |parts| == 1 then parts[0]
    else parts[0] + sep + Join(parts[1..], sep)
  }
}
