/** Sequence operations behind the DataFrame queries: first matching row, all matching
    rows in table order (boolean-mask selection), and `drop_duplicates`/`unique`, which
    keep the first occurrence of each value. */
module Seqs {
  import opened Wrappers

  predicate NoDuplicates<T(==)>(s: seq<T>)
  {
    forall i, j :: 0 <= i < j < |s| ==> s[i] != s[j]
  }

  /** `r` is `s` with some elements left out and the rest kept in order. */
  predicate IsSubsequence<T(==)>(r: seq<T>, s: seq<T>)
    decreases |s|
  {
    if |r| == 0 then true
    else if |s| == 0 then false
    else if r[0] == s[0] then IsSubsequence(r[1..], s[1..])
    else IsSubsequence(r, s[1..])
  }

  /** Index `i` holds the first element of `s` that satisfies `p`. */
  ghost predicate IsFirstMatch<T>(s: seq<T>, p: T -> bool, i: int)
  {
    0 <= i < |s| && p(s[i]) && forall j :: 0 <= j < i ==> !p(s[j])
  }

  /** The position of the first element satisfying `p` (what `.iloc[0]` picks after a mask). */
  function FirstIndex<T>(s: seq<T>, p: T -> bool): (r: Option<nat>)
    ensures r.None? <==> forall j :: 0 <= j < |s| ==> !p(s[j])
    ensures r.Some? ==> IsFirstMatch(s, p, r.value)
    decreases |s|
  {
    if |s| == 0 then None
    else if p(s[0]) then Some(0)
    else match FirstIndex(s[1..], p)
      case None => None
      case Some(k) => Some(k + 1)
  }

  /** `r` holds exactly the elements of `s` that satisfy `p`, each as often as in `s`,
      in the order of `s`. */
  ghost predicate SelectsExactly<T>(r: seq<T>, s: seq<T>, p: T -> bool)
  {
    && (forall x :: x in r ==> p(x))
    && (forall x :: x in s && p(x) ==> multiset(r)[x] == multiset(s)[x])
    && IsSubsequence(r, s)
  }

  /** Boolean-mask selection: the elements of `s` that satisfy `p`, in order. */
  function Filter<T(==)>(s: seq<T>, p: T -> bool): (r: seq<T>)
    ensures SelectsExactly(r, s, p)
    ensures forall x :: x in r ==> x in s
    decreases |s|
  {
    if |s| == 0 then []
    else
      var rest := Filter(s[1..], p);
      assert s == [s[0]] + s[1..];
      if p(s[0]) then
        assert ([s[0]] + rest)[1..] == rest;
        SubsequenceMultiset(rest, s[1..]);
        [s[0]] + rest
      else
        assert |rest| > 0 ==> rest[0] != s[0] by {
          if |rest| > 0 { assert rest[0] in rest; }
        }
        rest
  }

  lemma {:induction false} SubsequenceMultiset<T>(r: seq<T>, s: seq<T>)
    requires IsSubsequence(r, s)
    ensures multiset(r) <= multiset(s)
    decreases |s|
  {
    if |r| > 0 {
      assert s == [s[0]] + s[1..];
      if r[0] == s[0] {
        SubsequenceMultiset(r[1..], s[1..]);
        assert r == [r[0]] + r[1..];
      } else {
        SubsequenceMultiset(r, s[1..]);
      }
    }
  }

  /** The description `SelectsExactly` leaves no choice: it is met by `Filter` alone. */
  lemma {:induction false} SelectsExactlyIsFilter<T>(r: seq<T>, s: seq<T>, p: T -> bool)
    requires SelectsExactly(r, s, p)
    ensures r == Filter(s, p)
    decreases |s|
  {
    if |s| > 0 {
      var a := s[0];
      assert s == [a] + s[1..];
      if p(a) {
        assert multiset(r)[a] == multiset(s)[a] >= 1;
        assert |r| > 0;
        if r[0] != a {
          assert IsSubsequence(r, s[1..]);
          SubsequenceMultiset(r, s[1..]);
        }
        assert r == [a] + r[1..];
        assert forall x :: x in r[1..] ==> x in r;
        SelectsExactlyIsFilter(r[1..], s[1..], p);
      } else {
        if |r| > 0 {
          assert r[0] in r;
        }
        assert IsSubsequence(r, s[1..]);
        SelectsExactlyIsFilter(r, s[1..], p);
      }
    }
  }

  /** A weaker test selects more: with `p` implying `q`, the rows selected by `p` are
      a subsequence of those selected by `q`. */
  lemma {:induction false} FilterMonotone<T>(s: seq<T>, p: T -> bool, q: T -> bool)
    requires forall x :: x in s && p(x) ==> q(x)
    ensures IsSubsequence(Filter(s, p), Filter(s, q))
    decreases |s|
  {
    if |s| > 0 {
      assert s[0] in s;
      assert forall x :: x in s[1..] ==> x in s;
      FilterMonotone(s[1..], p, q);
      var fp, fq := Filter(s[1..], p), Filter(s[1..], q);
      if !p(s[0]) && q(s[0]) {
        SubsequenceExtend(fp, fq, s[0]);
      } else if p(s[0]) {
        assert ([s[0]] + fp)[1..] == fp && ([s[0]] + fq)[1..] == fq;
      }
    }
  }

  lemma {:induction false} SubsequenceExtend<T>(r: seq<T>, s: seq<T>, x: T)
    requires IsSubsequence(r, s)
    ensures IsSubsequence(r, [x] + s)
    decreases |s|, 1
  {
    assert ([x] + s)[1..] == s;
    if |r| > 0 && r[0] == x {
      SubsequenceDropHead(r, s);
    }
  }

  lemma {:induction false} SubsequenceDropHead<T>(r: seq<T>, s: seq<T>)
    requires |r| > 0 && IsSubsequence(r, s)
    ensures IsSubsequence(r[1..], s)
    decreases |s|, 0
  {
    assert [s[0]] + s[1..] == s;
    if r[0] != s[0] {
      SubsequenceDropHead(r, s[1..]);
    }
    SubsequenceExtend(r[1..], s[1..], s[0]);
  }

  /** The first match, when there is one, is the head of the full selection. */
  lemma {:induction false} FirstIndexHeadsFilter<T>(s: seq<T>, p: T -> bool)
    ensures FirstIndex(s, p).None? <==> Filter(s, p) == []
    ensures FirstIndex(s, p).Some? ==> Filter(s, p)[0] == s[FirstIndex(s, p).value]
    decreases |s|
  {
    if |s| > 0 && !p(s[0]) {
      FirstIndexHeadsFilter(s[1..], p);
    }
  }

  /** The position of the first occurrence of `x` in `s`. */
  function FirstPos<T(==)>(s: seq<T>, x: T): (k: nat)
    requires x in s
    ensures k < |s| && s[k] == x && x !in s[..k]
    decreases |s|
  {
    if s[0] == x then 0
    else
      var k := FirstPos(s[1..], x);
      assert s[..k + 1] == [s[0]] + s[1..][..k];
      k + 1
  }

  lemma FirstPosPrefix<T>(s: seq<T>, n: nat, x: T)
    requires n <= |s| && x in s[..n]
    ensures FirstPos(s, x) == FirstPos(s[..n], x)
  {
    var k, k' := FirstPos(s, x), FirstPos(s[..n], x);
    assert s[..n][..k'] == s[..k'];
  }

  /** `drop_duplicates`/`unique`: one copy of each element, ordered by first appearance. */
  function Distinct<T(==)>(s: seq<T>): (r: seq<T>)
    ensures forall x :: x in r ==> x in s
    ensures forall x :: x in s ==> x in r
    ensures NoDuplicates(r)
    ensures forall i, j :: 0 <= i < j < |r| ==> FirstPos(s, r[i]) < FirstPos(s, r[j])
    decreases |s|
  {
    if |s| == 0 then []
    else
      var n := |s| - 1;
      var d := Distinct(s[..n]);
      assert s == s[..n] + [s[n]];
      assert forall x :: x in d ==> FirstPos(s, x) == FirstPos(s[..n], x) by {
        forall x | x in d { FirstPosPrefix(s, n, x); }
      }
      if s[n] in d then d
      else
        assert FirstPos(s, s[n]) == n by {
          var k := FirstPos(s, s[n]);
          assert s[..n][..k] == s[..k];
        }
        d + [s[n]]
  }

  lemma {:induction false} NoDuplicatesCardinality<T>(s: seq<T>)
    requires NoDuplicates(s)
    ensures |set x | x in s| == |s|
    decreases |s|
  {
    if |s| > 0 {
      var n := |s| - 1;
      assert s == s[..n] + [s[n]];
      NoDuplicatesCardinality(s[..n]);
      assert (set x | x in s) == (set x | x in s[..n]) + {s[n]};
      assert s[n] !in s[..n];
    }
  }

  /** `nunique`: the number of distinct elements is the length of `Distinct`. */
  lemma DistinctCardinality<T>(s: seq<T>)
    ensures |Distinct(s)| == |set x | x in s|
  {
    var d := Distinct(s);
    NoDuplicatesCardinality(d);
    assert (set x | x in d) == (set x | x in s);
  }

  lemma NoDuplicatesConcat<T>(a: seq<T>, b: seq<T>)
    requires NoDuplicates(a) && NoDuplicates(b)
    requires forall x :: x in a ==> x !in b
    ensures NoDuplicates(a + b)
  {
    var c := a + b;
    forall i, j | 0 <= i < j < |c| ensures c[i] != c[j] {
      if i < |a| && j >= |a| {
        assert c[i] in a && c[j] == b[j - |a|];
      }
    }
  }
}
