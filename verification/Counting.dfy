/** Counting distinct indices: the pigeonhole arguments of the interleaver and of the block pools. */
module Counting {

  lemma {:induction false} DistinctCount(s: seq<nat>, values: set<nat>)
    requires forall i, j | 0 <= i < j < |s| :: s[i] != s[j]
    requires values == set x | x in s
    ensures |values| == |s|
  {
    if s != [] {
      var init, last := s[..|s| - 1], s[|s| - 1];
      DistinctCount(init, set x | x in init);
      assert s == init + [last];
      assert values == (set x | x in init) + {last};
    }
  }

  ghost function Below(n: nat): (all: set<nat>)
    ensures |all| == n
    ensures forall v: nat :: v in all <==> v < n
  {
    if n == 0 then {} else Below(n - 1) + {n - 1}
  }

  lemma SubsetCount(a: set<nat>, b: set<nat>)
    requires a < b
    ensures |a| < |b|
  {
    assert b == a + (b - a);
    var x :| x in b - a;
    assert |b - a| >= 1;
  }

  /** Distinct indices below n number at most n. */
  lemma DistinctAtMost(s: seq<nat>, n: nat)
    requires forall i | 0 <= i < |s| :: s[i] < n
    requires forall i, j | 0 <= i < j < |s| :: s[i] != s[j]
    ensures |s| <= n
  {
    var values := set x | x in s;
    DistinctCount(s, values);
    assert values <= Below(n);
    if values != Below(n) {
      SubsetCount(values, Below(n));
    }
  }
}
