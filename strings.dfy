/**
 * The part of Go's `strings` package the log parsers rely on: `Index`, `Count`
 * and `Split` for a non-empty separator, with `Join` as the inverse that the
 * properties of `Split` are stated against.
 */
module Strings {

  /** `sep` occurs in `s` starting at position `i`. */
  predicate OccursAt(s: string, sep: string, i: int)
  {
    0 <= i && i + |sep| <= |s| && s[i..i + |sep|] == sep
  }

  predicate Contains(s: string, sep: string)
  {
    exists i :: 0 <= i <= |s| && OccursAt(s, sep, i)
  }

  /** Dropping the first character shifts every occurrence one place left. */
  lemma OccursAtTail(s: string, sep: string, j: int)
    requires |s| > 0 && 0 <= j
    ensures OccursAt(s, sep, j + 1) <==> OccursAt(s[1..], sep, j)
  {
    if j + 1 + |sep| <= |s| {
      assert s[1..][j..j + |sep|] == s[j + 1..j + 1 + |sep|];
    }
  }

  /** Go's `strings.Index`: the leftmost position at which `sep` occurs, or -1. */
  function Index(s: string, sep: string): (r: int)
    ensures r == -1 <==> !Contains(s, sep)
    ensures r != -1 ==> OccursAt(s, sep, r)
    ensures forall j :: 0 <= j < r ==> !OccursAt(s, sep, j)
    decreases |s|
  {
    if |s| < |sep| then
      -1
    else if s[..|sep|] == sep then
      assert OccursAt(s, sep, 0);
      0
    else
      var k := Index(s[1..], sep);
      IndexStep(s, sep, k);
      if k < 0 then -1 else k + 1
  }

  /** How the occurrences of `s` relate to those of `s[1..]` when none starts at 0. */
  lemma IndexStep(s: string, sep: string, k: int)
    requires |sep| <= |s| && s[..|sep|] != sep
    requires k == -1 <==> !Contains(s[1..], sep)
    requires k != -1 ==> OccursAt(s[1..], sep, k)
    requires forall j :: 0 <= j < k ==> !OccursAt(s[1..], sep, j)
    ensures k < 0 ==> !Contains(s, sep)
    ensures k >= 0 ==> OccursAt(s, sep, k + 1)
    ensures forall j :: 0 <= j < k + 1 ==> !OccursAt(s, sep, j)
  {
    assert !OccursAt(s, sep, 0);
    forall j | 1 <= j
      ensures OccursAt(s, sep, j) <==> OccursAt(s[1..], sep, j - 1)
    {
      OccursAtTail(s, sep, j - 1);
    }
    if k >= 0 {
      OccursAtTail(s, sep, k);
    }
  }

  /** Go's `strings.Count` for a non-empty separator: non-overlapping occurrences, scanned left to right. */
  function Count(s: string, sep: string): (n: nat)
    requires |sep| > 0
    ensures n == 0 <==> !Contains(s, sep)
    decreases |s|
  {
    var m := Index(s, sep);
    if m < 0 then 0 else 1 + Count(s[m + |sep|..], sep)
  }

  /** Go's `strings.Split` for a non-empty separator: the text between successive leftmost occurrences. */
  function Split(s: string, sep: string): (parts: seq<string>)
    requires |sep| > 0
    ensures |parts| >= 1
    decreases |s|
  {
    var m := Index(s, sep);
    if m < 0 then [s] else [s[..m]] + Split(s[m + |sep|..], sep)
  }

  /** The inverse of `Split`: the parts glued back together with `sep` between them. */
  function Join(parts: seq<string>, sep: string): string
    requires |parts| >= 1
  {
    if |parts| == 1 then parts[0] else parts[0] + sep + Join(parts[1..], sep)
  }

  /** Split yields one more part than there are (non-overlapping) occurrences. */
  lemma {:induction false} SplitLength(s: string, sep: string)
    requires |sep| > 0
    ensures |Split(s, sep)| == Count(s, sep) + 1
    decreases |s|
  {
    var m := Index(s, sep);
    if m >= 0 {
      SplitLength(s[m + |sep|..], sep);
    }
  }

  /** Joining the parts of a split restores the original string. */
  lemma {:induction false} SplitJoin(s: string, sep: string)
    requires |sep| > 0
    ensures Join(Split(s, sep), sep) == s
    decreases |s|
  {
    var m := Index(s, sep);
    if m >= 0 {
      var rest := s[m + |sep|..];
      SplitJoin(rest, sep);
      assert s == s[..m] + sep + rest;
    }
  }

  /** No part of a split contains the separator. */
  lemma {:induction false} SplitPartsFree(s: string, sep: string)
    requires |sep| > 0
    ensures forall i :: 0 <= i < |Split(s, sep)| ==> !Contains(Split(s, sep)[i], sep)
    decreases |s|
  {
    var m := Index(s, sep);
    if m >= 0 {
      var rest := s[m + |sep|..];
      SplitPartsFree(rest, sep);
      var head := s[..m];
      if Contains(head, sep) {
        var j :| 0 <= j <= |head| && OccursAt(head, sep, j);
        assert j + |sep| <= m <= |s|;
        assert s[j..j + |sep|] == head[j..j + |sep|];
        assert OccursAt(s, sep, j);
        assert false;
      }
    }
  }

  /** A string without the separator splits into itself alone. */
  lemma SplitFree(s: string, sep: string)
    requires |sep| > 0 && !Contains(s, sep)
    ensures Split(s, sep) == [s]
  {
  }

  /**
   * `a + sep + b` splits into exactly `a` and `b` when `b` holds no separator
   * and no occurrence of `sep` in `a + sep` begins before `|a|` (the inserted
   * separator is the leftmost one).
   */
  lemma SplitInTwo(a: string, b: string, sep: string)
    requires |sep| > 0
    requires forall i :: 0 <= i < |a| ==> !OccursAt(a + sep, sep, i)
    requires !Contains(b, sep)
    ensures Split(a + sep + b, sep) == [a, b]
  {
    var s := a + sep + b;
    assert s[|a|..|a| + |sep|] == sep;
    assert OccursAt(s, sep, |a|);
    forall j | 0 <= j < |a|
      ensures !OccursAt(s, sep, j)
    {
      assert !OccursAt(a + sep, sep, j);
      if j + |sep| <= |s| {
        assert s[j..j + |sep|] == (a + sep)[j..j + |sep|];
      }
    }
    var m := Index(s, sep);
    assert m == |a|;
    assert s[..m] == a;
    assert s[m + |sep|..] == b;
    SplitFree(b, sep);
  }
}
