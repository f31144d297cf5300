/** The leader's commit decision (compute_new_commit_index in cluster/raft_node.hpp). */
module CommitRule {

  /** How many of `values` are at least `bound`. */
  function CountAtLeast(values: seq<nat>, bound: nat): (c: nat)
    ensures c <= |values|
  {
    if values == [] then 0
    else (if values[0] >= bound then 1 else 0) + CountAtLeast(values[1..], bound)
  }

  predicate Descending(values: seq<nat>) {
    forall i :: 0 < i < |values| ==> values[i - 1] >= values[i]
  }

  function InsertDescending(x: nat, sorted: seq<nat>): (r: seq<nat>)
    ensures |r| == |sorted| + 1
  {
    if sorted == [] || x >= sorted[0] then [x] + sorted
    else [sorted[0]] + InsertDescending(x, sorted[1..])
  }

  /** The library sort with std::greater; `SortDescends` and `SortKeepsCount` say what it gives. */
  function SortDescending(values: seq<nat>): (r: seq<nat>)
    ensures |r| == |values|
  {
    if values == [] then [] else InsertDescending(values[0], SortDescending(values[1..]))
  }

  function Majority(clusterSize: nat): nat {
    clusterSize / 2 + 1
  }

  function NewCommitIndex(values: seq<nat>, clusterSize: nat, commitIndex: nat, term: nat, termAt: nat -> nat): nat
    requires |values| >= Majority(clusterSize)
  {
    var candidate := SortDescending(values)[Majority(clusterSize) - 1];
    if candidate > commitIndex && termAt(candidate) == term then candidate else commitIndex
  }

  // ---- The shortcut equals the paper's rule ----

  /** Section 5.4.2 of the Raft paper: an index the leader may commit directly. */
  predicate MayCommit(n: nat, values: seq<nat>, clusterSize: nat, commitIndex: nat, term: nat, termAt: nat -> nat) {
    n > commitIndex && CountAtLeast(values, n) >= Majority(clusterSize) && termAt(n) == term
  }

  lemma {:induction false} InsertDescends(x: nat, sorted: seq<nat>)
    requires Descending(sorted)
    ensures var r := InsertDescending(x, sorted);
            Descending(r) && (r[0] == x || (sorted != [] && r[0] == sorted[0]))
  {
    if sorted == [] || x >= sorted[0] {
    } else {
      InsertDescends(x, sorted[1..]);
    }
  }

  lemma {:induction false} SortDescends(values: seq<nat>)
    ensures Descending(SortDescending(values))
  {
    if values == [] {
    } else {
      SortDescends(values[1..]);
      InsertDescends(values[0], SortDescending(values[1..]));
    }
  }

  lemma {:induction false} InsertKeepsCount(x: nat, sorted: seq<nat>, bound: nat)
    ensures CountAtLeast(InsertDescending(x, sorted), bound) == CountAtLeast([x] + sorted, bound)
  {
    if sorted == [] || x >= sorted[0] {
    } else {
      InsertKeepsCount(x, sorted[1..], bound);
      var rest := InsertDescending(x, sorted[1..]);
      assert ([sorted[0]] + rest)[1..] == rest;
      assert ([x] + sorted[1..])[1..] == sorted[1..];
      assert ([x] + sorted)[1..] == sorted;
    }
  }

  lemma {:induction false} SortKeepsCount(values: seq<nat>, bound: nat)
    ensures CountAtLeast(SortDescending(values), bound) == CountAtLeast(values, bound)
  {
    if values == [] {
    } else {
      SortKeepsCount(values[1..], bound);
      InsertKeepsCount(values[0], SortDescending(values[1..]), bound);
      assert ([values[0]] + SortDescending(values[1..]))[1..] == SortDescending(values[1..]);
    }
  }

  /** In a descending list the k-th value bounds what k members reach. */
  lemma {:induction false} CountOfDescending(sorted: seq<nat>, bound: nat, k: nat)
    requires Descending(sorted) && 0 < k <= |sorted|
    ensures CountAtLeast(sorted, bound) >= k <==> sorted[k - 1] >= bound
  {
    if sorted[0] < bound {
      DescendingBelow(sorted, bound);
      NoneReach(sorted, bound);
    } else if k > 1 {
      CountOfDescending(sorted[1..], bound, k - 1);
    }
  }

  lemma {:induction false} DescendingBelow(sorted: seq<nat>, bound: nat)
    requires Descending(sorted) && 0 < |sorted| && sorted[0] < bound
    ensures forall i :: 0 <= i < |sorted| ==> sorted[i] < bound
  {
    if |sorted| <= 1 {
    } else {
      DescendingBelow(sorted[1..], bound);
      assert forall i :: 0 < i < |sorted| ==> sorted[i] == sorted[1..][i - 1];
    }
  }

  lemma {:induction false} NoneReach(values: seq<nat>, bound: nat)
    requires forall i :: 0 <= i < |values| ==> values[i] < bound
    ensures CountAtLeast(values, bound) == 0
  {
    if values == [] {
    } else {
      NoneReach(values[1..], bound);
    }
  }

  /** The candidate is the highest index that a majority has reached. */
  lemma CandidateIsHighestMajorityIndex(values: seq<nat>, clusterSize: nat)
    requires |values| >= Majority(clusterSize)
    ensures var c := SortDescending(values)[Majority(clusterSize) - 1];
            forall n: nat :: CountAtLeast(values, n) >= Majority(clusterSize) <==> n <= c
  {
    var sorted := SortDescending(values);
    SortDescends(values);
    forall n: nat
      ensures CountAtLeast(values, n) >= Majority(clusterSize) <==> n <= sorted[Majority(clusterSize) - 1]
    {
      SortKeepsCount(values, n);
      CountOfDescending(sorted, n, Majority(clusterSize));
    }
  }

  /** A new commit index has been reached by a majority, and its entry is of the leader's term. */
  lemma NewCommitIsMajority(values: seq<nat>, clusterSize: nat, commitIndex: nat, term: nat, termAt: nat -> nat)
    requires |values| >= Majority(clusterSize)
    ensures var r := NewCommitIndex(values, clusterSize, commitIndex, term, termAt);
            r != commitIndex ==> MayCommit(r, values, clusterSize, commitIndex, term, termAt)
  {
    CandidateIsHighestMajorityIndex(values, clusterSize);
  }

  /** Testing only the highest majority index finds the largest index the paper's rule allows, and
      finds one whenever the rule allows any. `last` is the leader's last log index. */
  lemma CommitShortcutIsThePaperRule(values: seq<nat>, clusterSize: nat, commitIndex: nat, term: nat,
                                     termAt: nat -> nat, last: nat)
    requires |values| >= Majority(clusterSize)
    requires forall k :: 0 <= k < |values| ==> values[k] <= last
    requires forall i, j :: 1 <= i <= j <= last ==> termAt(i) <= termAt(j) <= term
    ensures var r := NewCommitIndex(values, clusterSize, commitIndex, term, termAt);
            && (r != commitIndex <==> exists n: nat :: MayCommit(n, values, clusterSize, commitIndex, term, termAt))
            && (r != commitIndex ==> MayCommit(r, values, clusterSize, commitIndex, term, termAt))
            && (forall n: nat :: MayCommit(n, values, clusterSize, commitIndex, term, termAt) ==> n <= r)
  {
    var candidate := SortDescending(values)[Majority(clusterSize) - 1];
    CandidateIsHighestMajorityIndex(values, clusterSize);
    NoneReach(values, last + 1);
    forall n: nat | MayCommit(n, values, clusterSize, commitIndex, term, termAt)
      ensures n <= candidate && termAt(candidate) == term
    {
      assert termAt(n) <= termAt(candidate) <= term;
    }
    var r := NewCommitIndex(values, clusterSize, commitIndex, term, termAt);
    assert r != commitIndex ==> MayCommit(r, values, clusterSize, commitIndex, term, termAt);
  }
}
