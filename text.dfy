/**
 * The string primitives the query code is built from, with the meaning
 * Python gives them: `pat in s`, `s.find(pat)`, `s.find(pat, start)`,
 * `s[lo:hi]` (with negative and out-of-range bounds) and
 * `s.replace("\n", " ")`.
 */
module Text {

  /** `pat` occurs in `s` starting at index `i`. */
  predicate OccursAt(s: string, pat: string, i: int)
  {
    0 <= i && i + |pat| <= |s| && s[i..i + |pat|] == pat
  }

  /** Python's `pat in s`; the empty string occurs in every string. */
  predicate Contains(s: string, pat: string)
    ensures pat == [] ==> Contains(s, pat)
    ensures Contains(s, pat) ==> |pat| <= |s|
  {
    assert pat == [] ==> OccursAt(s, pat, 0);
    exists i :: 0 <= i <= |s| && OccursAt(s, pat, i)
  }

  /**
   * Python's `s.find(pat, from)`: the first index at or after `from` where
   * `pat` occurs, or -1 when there is none.
   */
  function FindFrom(s: string, pat: string, from: nat): (r: int)
    ensures r == -1 || (from <= r <= |s| && OccursAt(s, pat, r))
    ensures r == -1 ==> forall i :: from <= i ==> !OccursAt(s, pat, i)
    ensures r != -1 ==> forall i :: from <= i < r ==> !OccursAt(s, pat, i)
    decreases |s| - from
  {
    if from + |pat| > |s| then -1
    else if s[from..from + |pat|] == pat then from
    else
      assert |pat| > 0;
      FindFrom(s, pat, from + 1)
  }

  /** Python's `s.find(pat)`. */
  function Find(s: string, pat: string): (r: int)
    ensures r == -1 || (0 <= r <= |s| - |pat| && OccursAt(s, pat, r))
    ensures r == -1 ==> forall i :: 0 <= i ==> !OccursAt(s, pat, i)
    ensures r != -1 ==> forall i :: 0 <= i < r ==> !OccursAt(s, pat, i)
  {
    FindFrom(s, pat, 0)
  }

  /** `in` and `find` agree: a pattern is contained exactly when `find` does not give -1. */
  lemma ContainsIffFound(s: string, pat: string)
    ensures Contains(s, pat) <==> Find(s, pat) != -1
  {
    if Find(s, pat) != -1 {
      assert OccursAt(s, pat, Find(s, pat));
    }
  }

  /** The first occurrence at or after `from` is the one `find` reports. */
  lemma FindFromFirst(s: string, pat: string, from: nat, k: int)
    requires from <= k && OccursAt(s, pat, k)
    requires forall i :: from <= i < k ==> !OccursAt(s, pat, i)
    ensures FindFrom(s, pat, from) == k
  {
  }

  /** A pattern holding a character that `s` lacks does not occur in `s`. */
  lemma AbsentCharNotContained(s: string, pat: string, c: char)
    requires c in pat && c !in s
    ensures !Contains(s, pat)
  {
    forall i | 0 <= i <= |s|
      ensures !OccursAt(s, pat, i)
    {
      var j :| 0 <= j < |pat| && pat[j] == c;
      if i + |pat| <= |s| {
        assert s[i..i + |pat|][j] == s[i + j] != c;
      }
    }
  }

  /** A pattern whose first character is absent from `pre` is first found just after `pre`. */
  lemma FindAfterPlainPrefix(pre: string, pat: string, rest: string)
    requires |pat| > 0 && pat[0] !in pre
    ensures Find(pre + pat + rest, pat) == |pre|
  {
    var s := pre + pat + rest;
    assert s[|pre|..|pre| + |pat|] == pat;
    forall i | 0 <= i < |pre|
      ensures !OccursAt(s, pat, i)
    {
      if i + |pat| <= |s| {
        assert s[i..i + |pat|][0] == pre[i] != pat[0];
      }
    }
    FindFromFirst(s, pat, 0, |pre|);
  }

  /** Between `from` and the character `find` reports (or the end, when there is none) `c` does not occur. */
  lemma CharAbsentBeforeFound(s: string, c: char, from: nat)
    ensures var r := FindFrom(s, [c], from);
            forall i :: from <= i < |s| && (r == -1 || i < r) ==> s[i] != c
  {
    var r := FindFrom(s, [c], from);
    forall i | from <= i < |s| && (r == -1 || i < r)
      ensures s[i] != c
    {
      assert !OccursAt(s, [c], i);
      assert s[i..i + 1] == [s[i]];
    }
  }

  /** Python's normalisation of one slice bound against a length `n`. */
  function SliceIndex(i: int, n: nat): (r: nat)
    ensures r <= n
    ensures 0 <= i <= n ==> r == i
  {
    if i < 0 then (if n + i < 0 then 0 else n + i)
    else if i > n then n
    else i
  }

  /** Python's `s[lo:hi]`: bounds are normalised, and a start at or after the end gives `""`. */
  function Slice(s: string, lo: int, hi: int): (r: string)
    ensures 0 <= lo <= hi <= |s| ==> r == s[lo..hi]
    ensures 0 <= hi <= lo ==> r == []
    ensures hi == -1 && 0 <= lo <= |s| && |s| > 0 ==>
              r == if lo < |s| - 1 then s[lo..|s| - 1] else []
  {
    var a, b := SliceIndex(lo, |s|), SliceIndex(hi, |s|);
    if a < b then s[a..b] else []
  }

  /** The character `c` becomes after `replace("\n", " ")`. */
  function SpaceForNewline(c: char): char
  {
    if c == '\n' then ' ' else c
  }

  /**
   * Python's `s.replace("\n", " ")`: one character for one character, so
   * the length is kept, every newline becomes a space and nothing else changes.
   */
  function ReplaceNewlines(s: string): (r: string)
    ensures |r| == |s|
    ensures forall i :: 0 <= i < |s| ==> r[i] == SpaceForNewline(s[i])
    ensures '\n' !in r
  {
    if s == [] then []
    else [SpaceForNewline(s[0])] + ReplaceNewlines(s[1..])
  }

  /** Text without newlines is left as it is. */
  lemma ReplaceNewlinesWithoutNewline(s: string)
    requires '\n' !in s
    ensures ReplaceNewlines(s) == s
  {
    assert forall i :: 0 <= i < |s| ==> ReplaceNewlines(s)[i] == s[i];
  }
}
