/** `sorted(set_of_strings)`: the distinct strings of a sequence in ascending order
    under Python's `str` comparison. */
module Sorting {
  import opened Strings
  import opened Seqs

  predicate StrictlySorted(s: seq<string>)
  {
    forall i, j :: 0 <= i < j < |s| ==> LexLess(s[i], s[j])
  }

  /** Inserts `x` into a strictly sorted sequence, unless it is already there. */
  function InsertUnique(s: seq<string>, x: string): (r: seq<string>)
    requires StrictlySorted(s)
    ensures StrictlySorted(r)
    ensures forall y :: y in r <==> y in s || y == x
    decreases |s|
  {
    if |s| == 0 then [x]
    else if x == s[0] then s
    else if LexLess(x, s[0]) then
      assert forall j :: 0 <= j < |s| ==> LexLess(x, s[j]) by {
        forall j | 0 < j < |s| { LexLessTransitive(x, s[0], s[j]); }
      }
      [x] + s
    else
      LexLessTotal(x, s[0]);
      var rest := InsertUnique(s[1..], x);
      assert forall y :: y in rest ==> LexLess(s[0], y);
      [s[0]] + rest
  }

  /** The distinct elements of `s`, ascending. */
  function SortUnique(s: seq<string>): (r: seq<string>)
    ensures StrictlySorted(r)
    ensures forall y :: y in r <==> y in s
    decreases |s|
  {
    if |s| == 0 then []
    else
      var n := |s| - 1;
      assert s == s[..n] + [s[n]];
      InsertUnique(SortUnique(s[..n]), s[n])
  }

  /** No value occurs twice in a strictly sorted sequence. */
  lemma StrictlySortedDistinct(s: seq<string>, i: int, j: int)
    requires StrictlySorted(s) && 0 <= i < j < |s|
    ensures s[i] != s[j]
  {
    if s[i] == s[j] { LexLessIrreflexive(s[i]); }
  }

  /** A strictly sorted sequence is determined by its elements. */
  lemma {:induction false} StrictlySortedUnique(a: seq<string>, b: seq<string>)
    requires StrictlySorted(a) && StrictlySorted(b)
    requires forall y :: y in a <==> y in b
    ensures a == b
    decreases |a|
  {
    assert |a| > 0 ==> a[0] in b;
    assert |b| > 0 ==> b[0] in a;
    if |a| > 0 && |b| > 0 {
      if a[0] != b[0] {
        LexLessTotal(a[0], b[0]);
        assert a[0] in a && b[0] in b;
        if LexLess(a[0], b[0]) {
          var k :| 0 <= k < |b| && b[k] == a[0];
          assert k != 0;
          LexLessAsymmetric(b[0], b[k]);
        }
      }
      forall y | y in a[1..] ensures y in b[1..] {
        var k :| 1 <= k < |a| && a[k] == y;
        StrictlySortedDistinct(a, 0, k);
        assert y in b;
        var m :| 0 <= m < |b| && b[m] == y;
        assert b[1..][m - 1] == y;
      }
      forall y | y in b[1..] ensures y in a[1..] {
        var k :| 1 <= k < |b| && b[k] == y;
        StrictlySortedDistinct(b, 0, k);
        assert y in a;
        var m :| 0 <= m < |a| && a[m] == y;
        assert a[1..][m - 1] == y;
      }
      StrictlySortedUnique(a[1..], b[1..]);
      assert a == [a[0]] + a[1..] && b == [b[0]] + b[1..];
    }
  }

  lemma SortedHasNoDuplicates(s: seq<string>)
    requires StrictlySorted(s)
    ensures NoDuplicates(s)
  {
    forall i, j | 0 <= i < j < |s| ensures s[i] != s[j] {
      StrictlySortedDistinct(s, i, j);
    }
  }
}
