/** Sizes of finite sets: the counting arguments behind quorums, visited nodes and merged results. */
module FiniteSets {

  /** The numbers below `size`. */
  function Members(size: nat): (ids: set<nat>)
    ensures |ids| == size && forall p: nat :: p in ids <==> p < size
  {
    if size == 0 then {} else Members(size - 1) + {size - 1}
  }

  lemma SubsetSize<T>(a: set<T>, b: set<T>)
    requires a <= b
    ensures |a| <= |b| && (|a| == |b| ==> a == b)
  {
    assert b == a + (b - a);
  }

  lemma BelowSize(s: set<nat>, bound: nat)
    requires forall x :: x in s ==> x < bound
    ensures |s| <= bound
  {
    SubsetSize(s, Members(bound));
  }

  /** Two sets of members that are together larger than the whole share one. */
  lemma SetsMeet(a: set<nat>, b: set<nat>, size: nat) returns (p: nat)
    requires a <= Members(size) && b <= Members(size) && |a| + |b| > size
    ensures p in a && p in b
  {
    var both := a * b;
    SubsetSize(a + b, Members(size));
    assert |a + b| + |both| == |a| + |b|;
    p :| p in both;
  }
}
