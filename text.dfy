/** The few Python string operations the core relies on. */
module Text {

  /** `s.startswith(p)` */
  predicate StartsWith(s: string, p: string) {
    |p| <= |s| && s[..|p|] == p
  }

  /** `s.endswith(p)` */
  predicate EndsWith(s: string, p: string) {
    |p| <= |s| && s[|s| - |p|..] == p
  }

  /** `needle in hay` for strings: `hay` starts with `needle`, or its tail contains it. */
  predicate Contains(hay: string, needle: string) {
    StartsWith(hay, needle) || (hay != [] && Contains(hay[1..], needle))
  }

  /** `str.lower()` on one character, for the ASCII letters. */
  function LowerChar(c: char): char {
    if 'A' <= c <= 'Z' then (c as int + 32) as char else c
  }

  /** `str.lower()`, for the ASCII letters. */
  function Lower(s: string): (r: string)
    ensures |r| == |s|
    ensures forall i :: 0 <= i < |s| ==> r[i] == LowerChar(s[i])
  {
    seq(|s|, i requires 0 <= i < |s| => LowerChar(s[i]))
  }

  /** A string cannot contain a longer one. */
  lemma {:induction false} ContainsNoLonger(hay: string, needle: string)
    requires Contains(hay, needle)
    ensures |needle| <= |hay|
  {
    if !StartsWith(hay, needle) {
      ContainsNoLonger(hay[1..], needle);
    }
  }

  /** `needle` occurs in `hay` starting at index `i` (the index form of `needle in hay`). */
  predicate OccursAt(hay: string, needle: string, i: int) {
    0 <= i <= |hay| - |needle| && hay[i..i + |needle|] == needle
  }

  /** A match at index `i` makes `needle in hay` hold. */
  lemma {:induction false} ContainsAt(hay: string, needle: string, i: int)
    requires OccursAt(hay, needle, i)
    ensures Contains(hay, needle)
  {
    if i > 0 {
      assert hay[1..][i - 1..i - 1 + |needle|] == hay[i..i + |needle|];
      ContainsAt(hay[1..], needle, i - 1);
    } else {
      assert hay[..|needle|] == hay[i..i + |needle|];
    }
  }

  /** When `needle in hay` holds, the needle occurs at some index. */
  lemma {:induction false} ContainsHasIndex(hay: string, needle: string)
    requires Contains(hay, needle)
    ensures exists i :: OccursAt(hay, needle, i)
  {
    if StartsWith(hay, needle) {
      assert OccursAt(hay, needle, 0);
    } else {
      ContainsHasIndex(hay[1..], needle);
      var j :| OccursAt(hay[1..], needle, j);
      assert hay[j + 1..j + 1 + |needle|] == hay[1..][j..j + |needle|];
      assert OccursAt(hay, needle, j + 1);
    }
  }

  /** Two suffixes of one string, the shorter is a suffix of the longer. */
  lemma SuffixOfSuffix(s: string, p: string, q: string)
    requires EndsWith(s, p) && EndsWith(s, q) && |q| <= |p|
    ensures EndsWith(p, q)
  {
    assert p[|p| - |q|..] == s[|s| - |q|..];
  }
}
