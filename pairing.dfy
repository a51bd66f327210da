/** The pairs `get_all_distances` visits: its nested loops run over the de-duplicated
    (id, name) entries twice and keep a pair only when the first id is smaller than the
    second under Python's `str` comparison. */
module Pairing {
  import opened Strings
  import opened Seqs
  import opened Records

  /** One de-duplicated (hospital_id, hospital_name) entry; the name cell may be NaN. */
  datatype IdName = IdName(id: string, name: Cell)

  /** The pairs the inner loop keeps on outer iteration `i`, from inner iteration `j`
      to the end. */
  function RowFrom(h: seq<IdName>, i: nat, j: nat): seq<(IdName, IdName)>
    requires i < |h| && j <= |h|
    decreases |h| - j
  {
    if j == |h| then []
    else (if LexLess(h[i].id, h[j].id) then [(h[i], h[j])] else []) + RowFrom(h, i, j + 1)
  }

  /** The pairs the two loops keep from outer iteration `k` to the end. */
  function RowsFrom(h: seq<IdName>, k: nat): seq<(IdName, IdName)>
    requires k <= |h|
    decreases |h| - k
  {
    if k == |h| then [] else RowFrom(h, k, 0) + RowsFrom(h, k + 1)
  }

  /** Every pair the two loops keep, in the order they keep them. */
  function Pairs(h: seq<IdName>): seq<(IdName, IdName)>
  {
    RowsFrom(h, 0)
  }

  /** One inner iteration takes the pair `(h[i], h[j])`, kept or not, off the front of
      the pairs still to visit. */
  lemma RowFromStep(h: seq<IdName>, i: nat, j: nat)
    requires i < |h| && j < |h|
    ensures var now := RowFrom(h, i, j) + RowsFrom(h, i + 1);
      var rest := RowFrom(h, i, j + 1) + RowsFrom(h, i + 1);
      && (LexLess(h[i].id, h[j].id) ==> now == [(h[i], h[j])] + rest)
      && (!LexLess(h[i].id, h[j].id) ==> now == rest)
  {
    var head := if LexLess(h[i].id, h[j].id) then [(h[i], h[j])] else [];
    assert RowFrom(h, i, j) == head + RowFrom(h, i, j + 1);
    assert (head + RowFrom(h, i, j + 1)) + RowsFrom(h, i + 1) == head + (RowFrom(h, i, j + 1) + RowsFrom(h, i + 1));
  }

  lemma {:induction false} RowFromMembership(h: seq<IdName>, i: nat, j: nat)
    requires i < |h| && j <= |h|
    ensures forall x, y :: (x, y) in RowFrom(h, i, j) <==> x == h[i] && y in h[j..] && LexLess(h[i].id, y.id)
    decreases |h| - j
  {
    if j < |h| {
      RowFromMembership(h, i, j + 1);
      assert h[j..] == [h[j]] + h[j + 1..];
    }
  }

  lemma {:induction false} RowsFromMembership(h: seq<IdName>, k: nat)
    requires k <= |h|
    ensures forall x, y :: (x, y) in RowsFrom(h, k) <==> x in h[k..] && y in h && LexLess(x.id, y.id)
    decreases |h| - k
  {
    if k < |h| {
      RowsFromMembership(h, k + 1);
      RowFromMembership(h, k, 0);
      assert h[k..] == [h[k]] + h[k + 1..];
      assert h[0..] == h;
    }
  }

  /** A pair is kept exactly when both entries are hospitals and the first id is smaller;
      so no entry is paired with itself and no pair is kept in both orders. */
  lemma PairsMembership(h: seq<IdName>, x: IdName, y: IdName)
    ensures (x, y) in Pairs(h) <==> x in h && y in h && LexLess(x.id, y.id)
    ensures (x, y) in Pairs(h) ==> x.id != y.id && (y, x) !in Pairs(h)
  {
    RowsFromMembership(h, 0);
    assert h[0..] == h;
    if LexLess(x.id, y.id) {
      LexLessAsymmetric(x.id, y.id);
      LexLessIrreflexive(x.id);
    }
  }

  lemma {:induction false} RowFromDistinct(h: seq<IdName>, i: nat, j: nat)
    requires i < |h| && j <= |h| && NoDuplicates(h)
    ensures NoDuplicates(RowFrom(h, i, j))
    decreases |h| - j
  {
    if j < |h| {
      RowFromDistinct(h, i, j + 1);
      RowFromMembership(h, i, j + 1);
      assert h[j] !in h[j + 1..];
      var head := if LexLess(h[i].id, h[j].id) then [(h[i], h[j])] else [];
      NoDuplicatesConcat(head, RowFrom(h, i, j + 1));
    }
  }

  /** With distinct entries, no pair is kept twice. */
  lemma {:induction false} RowsFromDistinct(h: seq<IdName>, k: nat)
    requires k <= |h| && NoDuplicates(h)
    ensures NoDuplicates(RowsFrom(h, k))
    decreases |h| - k
  {
    if k < |h| {
      RowsFromDistinct(h, k + 1);
      RowFromDistinct(h, k, 0);
      RowFromMembership(h, k, 0);
      RowsFromMembership(h, k + 1);
      assert h[k] !in h[k + 1..];
      var a, b := RowFrom(h, k, 0), RowsFrom(h, k + 1);
      forall p | p in a ensures p !in b {
        assert (p.0, p.1) == p;
      }
      NoDuplicatesConcat(a, b);
    }
  }

  /** Distinct entries give distinct pairs: no pair is visited twice. */
  lemma PairsDistinct(h: seq<IdName>)
    requires NoDuplicates(h)
    ensures NoDuplicates(Pairs(h))
  {
    RowsFromDistinct(h, 0);
  }

  /** The hospital ids of the entries, in order. */
  function Ids(h: seq<IdName>): (ids: seq<string>)
    ensures |ids| == |h| && forall i :: 0 <= i < |h| ==> ids[i] == h[i].id
  {
    seq(|h|, i requires 0 <= i < |h| => h[i].id)
  }

  /** How many of `ids` are above `x`. */
  function CountAbove(x: string, ids: seq<string>): nat
    decreases |ids|
  {
    if |ids| == 0 then 0 else (if LexLess(x, ids[0]) then 1 else 0) + CountAbove(x, ids[1..])
  }

  /** How many of `ids` are below `x`. */
  function CountBelow(x: string, ids: seq<string>): nat
    decreases |ids|
  {
    if |ids| == 0 then 0 else (if LexLess(ids[0], x) then 1 else 0) + CountBelow(x, ids[1..])
  }

  /** For each of `xs`, how many of `ids` are above it, summed. */
  function SumAbove(xs: seq<string>, ids: seq<string>): nat
    decreases |xs|
  {
    if |xs| == 0 then 0 else CountAbove(xs[0], ids) + SumAbove(xs[1..], ids)
  }

  lemma {:induction false} RowFromLength(h: seq<IdName>, i: nat, j: nat)
    requires i < |h| && j <= |h|
    ensures |RowFrom(h, i, j)| == CountAbove(h[i].id, Ids(h)[j..])
    decreases |h| - j
  {
    if j < |h| {
      RowFromLength(h, i, j + 1);
      assert Ids(h)[j..][1..] == Ids(h)[j + 1..];
    }
  }

  lemma {:induction false} RowsFromLength(h: seq<IdName>, k: nat)
    requires k <= |h|
    ensures |RowsFrom(h, k)| == SumAbove(Ids(h)[k..], Ids(h))
    decreases |h| - k
  {
    if k < |h| {
      RowsFromLength(h, k + 1);
      RowFromLength(h, k, 0);
      assert Ids(h)[k..][1..] == Ids(h)[k + 1..];
      assert Ids(h)[0..] == Ids(h);
    }
  }

  lemma {:induction false} AboveAndBelow(x: string, ids: seq<string>)
    requires x !in ids
    ensures CountAbove(x, ids) + CountBelow(x, ids) == |ids|
    decreases |ids|
  {
    if |ids| > 0 {
      assert ids[0] in ids;
      assert forall y :: y in ids[1..] ==> y in ids;
      AboveAndBelow(x, ids[1..]);
      LexLessTotal(x, ids[0]);
      if LexLess(x, ids[0]) { LexLessAsymmetric(x, ids[0]); }
    }
  }

  lemma {:induction false} SumAbovePrepend(xs: seq<string>, y: string, ids: seq<string>)
    ensures SumAbove(xs, [y] + ids) == SumAbove(xs, ids) + CountBelow(y, xs)
    decreases |xs|
  {
    if |xs| > 0 {
      SumAbovePrepend(xs[1..], y, ids);
      assert ([y] + ids)[1..] == ids;
    }
  }

  lemma NextTriangle(n: nat, a: nat)
    requires 2 * a == n * (n - 1)
    ensures 2 * (a + n) == (n + 1) * n
  {
  }

  /** Among `n` distinct ids, exactly `n * (n - 1) / 2` ordered pairs have the first id
      below the second. */
  lemma {:induction false} HalfOfAllPairs(ids: seq<string>)
    requires NoDuplicates(ids)
    ensures 2 * SumAbove(ids, ids) == |ids| * (|ids| - 1)
    decreases |ids|
  {
    if |ids| > 0 {
      var y, p := ids[0], ids[1..];
      assert ids == [y] + p;
      assert y !in p;
      HalfOfAllPairs(p);
      SumAbovePrepend(p, y, p);
      LexLessIrreflexive(y);
      AboveAndBelow(y, p);
      assert CountAbove(y, ids) == CountAbove(y, p);
      assert SumAbove(ids, ids) == SumAbove(p, p) + |p|;
      NextTriangle(|p|, SumAbove(p, p));
    }
  }

  /** Distinct ids give `n * (n - 1) / 2` pairs. */
  lemma PairsCount(h: seq<IdName>)
    requires NoDuplicates(Ids(h))
    ensures 2 * |Pairs(h)| == |h| * (|h| - 1)
  {
    RowsFromLength(h, 0);
    assert Ids(h)[0..] == Ids(h);
    HalfOfAllPairs(Ids(h));
  }
}
