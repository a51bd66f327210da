/** Text primitives the query layer relies on: the case-insensitive containment test
    behind pandas' `str.contains(q, case=False)`, Python's ordering of `str` values, and
    Python's `str.split` on a one-character separator. */
module Strings {

  /** ASCII lower-casing of one character; every other character is left as it is. */
  function Lower(c: char): char
  {
    if 'A' <= c <= 'Z' then (c as int + 32) as char else c
  }

  /** `pat` occurs in `text` at offset `k`, ignoring ASCII case. */
  predicate MatchesAt(text: string, pat: string, k: nat)
    requires k + |pat| <= |text|
  {
    forall i :: 0 <= i < |pat| ==> Lower(text[k + i]) == Lower(pat[i])
  }

  /** Some offset of `text` matches `pat`, ignoring ASCII case. */
  ghost predicate Occurs(text: string, pat: string)
  {
    exists k: nat :: k + |pat| <= |text| && MatchesAt(text, pat, k)
  }

  lemma OccursStep(text: string, pat: string)
    requires |pat| <= |text| && !MatchesAt(text, pat, 0)
    ensures Occurs(text, pat) <==> Occurs(text[1..], pat)
  {
    if Occurs(text, pat) {
      var k: nat :| k + |pat| <= |text| && MatchesAt(text, pat, k);
      assert k != 0;
      assert MatchesAt(text[1..], pat, k - 1);
    }
    if Occurs(text[1..], pat) {
      var k: nat :| k + |pat| <= |text[1..]| && MatchesAt(text[1..], pat, k);
      assert MatchesAt(text, pat, k + 1);
    }
  }

  /** Case-insensitive substring test, scanning `text` from the left. */
  function ContainsIgnoreCase(text: string, pat: string): (b: bool)
    ensures b <==> Occurs(text, pat)
    decreases |text|
  {
    if |pat| > |text| then false
    else if MatchesAt(text, pat, 0) then true
    else
      OccursStep(text, pat);
      ContainsIgnoreCase(text[1..], pat)
  }

  /** ASCII lower-casing of a whole string. */
  function LowerAll(s: string): (r: string)
    ensures |r| == |s|
    ensures forall i :: 0 <= i < |s| ==> r[i] == Lower(s[i])
  {
    seq(|s|, i requires 0 <= i < |s| => Lower(s[i]))
  }

  /** `case=False`: the case of the query does not change the answer. */
  lemma ContainsIgnoresQueryCase(text: string, pat: string)
    ensures ContainsIgnoreCase(text, pat) == ContainsIgnoreCase(text, LowerAll(pat))
  {
    var low := LowerAll(pat);
    assert forall c :: Lower(Lower(c)) == Lower(c);
    forall k: nat | k + |pat| <= |text|
      ensures MatchesAt(text, pat, k) == MatchesAt(text, low, k)
    {
    }
  }

  /** A piece of a query that is found is found too: the shorter the query, the more
      rows a containment test accepts. */
  lemma FragmentContained(text: string, pat: string, a: nat, b: nat)
    requires a <= b <= |pat| && ContainsIgnoreCase(text, pat)
    ensures ContainsIgnoreCase(text, pat[a..b])
  {
    var k: nat :| k + |pat| <= |text| && MatchesAt(text, pat, k);
    var frag := pat[a..b];
    assert forall i :: 0 <= i < |frag| ==> frag[i] == pat[a + i];
    assert MatchesAt(text, frag, k + a);
  }

  /** Python's `a < b` on `str`: lexicographic comparison of code points, where a
      proper prefix comes first. */
  predicate LexLess(a: string, b: string)
    decreases |a|
  {
    if |a| == 0 then |b| > 0
    else if |b| == 0 then false
    else if a[0] != b[0] then a[0] < b[0]
    else LexLess(a[1..], b[1..])
  }

  lemma {:induction false} LexLessIrreflexive(a: string)
    ensures !LexLess(a, a)
    decreases |a|
  {
    if |a| > 0 {
      LexLessIrreflexive(a[1..]);
    }
  }

  lemma {:induction false} LexLessAsymmetric(a: string, b: string)
    requires LexLess(a, b)
    ensures !LexLess(b, a)
    decreases |a|
  {
    if |a| > 0 && |b| > 0 && a[0] == b[0] {
      LexLessAsymmetric(a[1..], b[1..]);
    }
  }

  lemma {:induction false} LexLessTransitive(a: string, b: string, c: string)
    requires LexLess(a, b) && LexLess(b, c)
    ensures LexLess(a, c)
    decreases |a|
  {
    if |a| > 0 && a[0] == b[0] && b[0] == c[0] {
      LexLessTransitive(a[1..], b[1..], c[1..]);
    }
  }

  lemma {:induction false} LexLessTotal(a: string, b: string)
    requires a != b
    ensures LexLess(a, b) || LexLess(b, a)
    decreases |a|
  {
    if |a| > 0 && |b| > 0 && a[0] == b[0] {
      assert a == [a[0]] + a[1..] && b == [b[0]] + b[1..];
      LexLessTotal(a[1..], b[1..]);
    }
  }

  /** Python's `s.split(sep)`: the pieces between separators, always at least one. */
  function Split(s: string, sep: char): (r: seq<string>)
    ensures |r| >= 1
    ensures forall t :: t in r ==> sep !in t
    ensures Join(r, sep) == s
    decreases |s|
  {
    if |s| == 0 then [""]
    else
      var rest := Split(s[1..], sep);
      if s[0] == sep then
        assert Join([""] + rest, sep) == [sep] + Join(rest, sep) by {
          assert ([""] + rest)[1..] == rest;
        }
        [""] + rest
      else
        var r := [[s[0]] + rest[0]] + rest[1..];
        assert Join(r, sep) == [s[0]] + Join(rest, sep) by {
          if |rest| > 1 {
            assert r[1..] == rest[1..];
          }
        }
        assert forall t :: t in r ==> sep !in t by {
          assert forall k :: 1 <= k < |r| ==> r[k] in rest;
        }
        r
  }

  /** Python's `sep.join(ts)`: the inverse of `Split`. */
  function Join(ts: seq<string>, sep: char): string
    requires |ts| >= 1
    decreases |ts|
  {
    if |ts| == 1 then ts[0] else ts[0] + [sep] + Join(ts[1..], sep)
  }

  lemma {:induction false} SplitWhole(t: string, sep: char)
    requires sep !in t
    ensures Split(t, sep) == [t]
    decreases |t|
  {
    if |t| > 0 {
      SplitWhole(t[1..], sep);
      assert [t[0]] + t[1..] == t;
    }
  }

  lemma {:induction false} SplitPiece(t: string, u: string, sep: char)
    requires sep !in t
    ensures Split(t + [sep] + u, sep) == [t] + Split(u, sep)
    decreases |t|
  {
    var s := t + [sep] + u;
    if |t| == 0 {
      assert s == [sep] + u;
      assert s[1..] == u;
    } else {
      SplitPiece(t[1..], u, sep);
      assert s[0] == t[0] != sep by { assert t[0] in t; }
      assert s[1..] == t[1..] + [sep] + u;
      var rest := Split(s[1..], sep);
      assert rest[0] == t[1..] && rest[1..] == Split(u, sep);
      assert [t[0]] + t[1..] == t;
    }
  }

  /** Splitting joined separator-free pieces gives the pieces back. */
  lemma {:induction false} SplitJoin(ts: seq<string>, sep: char)
    requires |ts| >= 1
    requires forall t :: t in ts ==> sep !in t
    ensures Split(Join(ts, sep), sep) == ts
    decreases |ts|
  {
    if |ts| == 1 {
      SplitWhole(ts[0], sep);
    } else {
      SplitJoin(ts[1..], sep);
      SplitPiece(ts[0], Join(ts[1..], sep), sep);
      assert [ts[0]] + ts[1..] == ts;
    }
  }
}
