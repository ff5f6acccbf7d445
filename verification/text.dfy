/**
 * The string primitives the screens rely on: `trim`, `toLowerCase` and
 * `includes`. Lower-casing covers ASCII letters only.
 */
module Text {

  /** The code points JavaScript's `trim` strips: WhiteSpace and LineTerminator. */
  const WhitespaceChars: set<char> := {
    '\t', '\n', '\U{000B}', '\U{000C}', '\r', ' ', '\U{00A0}', '\U{1680}',
    '\U{2000}', '\U{2001}', '\U{2002}', '\U{2003}', '\U{2004}', '\U{2005}',
    '\U{2006}', '\U{2007}', '\U{2008}', '\U{2009}', '\U{200A}',
    '\U{2028}', '\U{2029}', '\U{202F}', '\U{205F}', '\U{3000}', '\U{FEFF}'
  }

  predicate IsWhitespace(c: char) {
    c in WhitespaceChars
  }

  /** Drops leading whitespace. */
  function TrimStart(s: string): (r: string)
    ensures |r| <= |s| && r == s[|s| - |r|..]
    ensures forall k :: 0 <= k < |s| - |r| ==> IsWhitespace(s[k])
    ensures |r| > 0 ==> !IsWhitespace(r[0])
  {
    if |s| > 0 && IsWhitespace(s[0]) then
      var r := TrimStart(s[1..]);
      assert forall k :: 1 <= k < |s| ==> s[k] == s[1..][k - 1];
      r
    else s
  }

  /** Drops trailing whitespace. */
  function TrimEnd(s: string): (r: string)
    ensures |r| <= |s| && r == s[..|r|]
    ensures forall k :: |r| <= k < |s| ==> IsWhitespace(s[k])
    ensures |r| > 0 ==> !IsWhitespace(r[|r| - 1])
  {
    if |s| > 0 && IsWhitespace(s[|s| - 1]) then
      var r := TrimEnd(s[..|s| - 1]);
      assert forall k :: 0 <= k < |s| - 1 ==> s[k] == s[..|s| - 1][k];
      r
    else s
  }

  /** `r` is `s[a..]` cut short, and only whitespace lies in `s` before and after it. */
  ghost predicate TrimmedAt(s: string, r: string, a: int) {
    && 0 <= a && a + |r| <= |s| && r == s[a..a + |r|]
    && (forall k :: 0 <= k < a ==> IsWhitespace(s[k]))
    && (forall k :: a + |r| <= k < |s| ==> IsWhitespace(s[k]))
  }

  /** A prefix `r` of a suffix `t` of `s`, with whitespace cut on both sides, is framed by it. */
  lemma FramedSlice(s: string, t: string, r: string)
    requires |t| <= |s| && t == s[|s| - |t|..]
    requires forall k :: 0 <= k < |s| - |t| ==> IsWhitespace(s[k])
    requires |r| <= |t| && r == t[..|r|]
    requires forall k :: |r| <= k < |t| ==> IsWhitespace(t[k])
    ensures TrimmedAt(s, r, |s| - |t|)
  {
    var a := |s| - |t|;
    assert r == s[a..a + |r|];
    forall k | a + |r| <= k < |s|
      ensures IsWhitespace(s[k])
    {
      assert s[k] == t[k - a];
    }
  }

  /**
   * `trim`: the slice of `s` left once the leading and the trailing runs of
   * whitespace are cut off; it neither starts nor ends with whitespace.
   */
  function Trim(s: string): (r: string)
    ensures exists a :: TrimmedAt(s, r, a)
    ensures |r| > 0 ==> !IsWhitespace(r[0]) && !IsWhitespace(r[|r| - 1])
  {
    var t := TrimStart(s);
    FramedSlice(s, t, TrimEnd(t));
    TrimEnd(t)
  }

  /** Made only of whitespace, the empty string included. */
  predicate IsBlank(s: string) {
    forall k :: 0 <= k < |s| ==> IsWhitespace(s[k])
  }

  /** Trimming gives the empty string exactly for the blank strings. */
  lemma TrimEmptyIffBlank(s: string)
    ensures Trim(s) == [] <==> IsBlank(s)
  {
    var t := TrimStart(s);
    var off := |s| - |t|;
    assert |t| > 0 ==> t[0] == s[off];
    if exists k :: 0 <= k < |s| && !IsWhitespace(s[k]) {
      var k :| 0 <= k < |s| && !IsWhitespace(s[k]);
      assert k >= off;
      assert t[k - off] == s[k];
      assert |TrimEnd(t)| > k - off;
    }
  }

  function LowerChar(c: char): (r: char)
    ensures 'A' <= c <= 'Z' ==> 'a' <= r <= 'z' && r as int - 'a' as int == c as int - 'A' as int
    ensures !('A' <= c <= 'Z') ==> r == c
  {
    if 'A' <= c <= 'Z' then (c as int - 'A' as int + 'a' as int) as char else c
  }

  /** `toLowerCase`, restricted to ASCII letters. */
  function Lower(s: string): (r: string)
    ensures |r| == |s|
    ensures forall k :: 0 <= k < |s| ==> r[k] == LowerChar(s[k])
  {
    seq(|s|, k requires 0 <= k < |s| => LowerChar(s[k]))
  }

  /** Lower-casing a lower-cased string changes nothing. */
  lemma LowerIdempotent(s: string)
    ensures Lower(Lower(s)) == Lower(s)
  {
    var l := Lower(s);
    forall k | 0 <= k < |s|
      ensures Lower(l)[k] == l[k]
    {
      assert !('A' <= l[k] <= 'Z');
    }
  }

  predicate OccursAt(s: string, q: string, i: int) {
    0 <= i && i + |q| <= |s| && s[i..i + |q|] == q
  }

  /** `s.includes(q)`, scanning start positions from the left. */
  predicate Contains(s: string, q: string)
    decreases |s|
  {
    (|q| <= |s| && s[..|q|] == q) || (|s| > 0 && Contains(s[1..], q))
  }

  /** `includes` holds exactly when `q` occurs at some position of `s`. */
  lemma {:induction false} ContainsIffOccurs(s: string, q: string)
    ensures Contains(s, q) <==> exists i :: OccursAt(s, q, i)
    decreases |s|
  {
    if |q| <= |s| && s[..|q|] == q {
      assert OccursAt(s, q, 0);
    } else if |s| > 0 {
      ContainsIffOccurs(s[1..], q);
      forall i | OccursAt(s[1..], q, i)
        ensures OccursAt(s, q, i + 1)
      {
        assert s[1..][i..i + |q|] == s[i + 1..i + 1 + |q|];
      }
      forall i | OccursAt(s, q, i)
        ensures OccursAt(s[1..], q, i - 1)
      {
        assert |q| <= |s| ==> s[..|q|] == s[0..|q|];
        assert s[1..][i - 1..i - 1 + |q|] == s[i..i + |q|];
      }
    }
  }

  /** A query with a character the string lacks is not contained in it. */
  lemma MissingCharNotContained(s: string, q: string, k: int)
    requires 0 <= k < |q| && q[k] !in s
    ensures !Contains(s, q)
  {
    ContainsIffOccurs(s, q);
    forall i | 0 <= i && i + |q| <= |s|
      ensures !OccursAt(s, q, i)
    {
      assert s[i..i + |q|][k] == s[i + k];
    }
  }
}
