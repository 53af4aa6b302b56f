/** Heat-map intensity of a calendar cell (app.js, commitLevel). */
module Levels {

  /** The intensity bucket (0..4) drawn for a day with `count` commits. */
  function CommitLevel(count: int): (level: nat)
    ensures level <= 4
  {
    if count <= 0 then 0
    else if count <= 2 then 1
    else if count <= 4 then 2
    else if count <= 7 then 3
    else 4
  }

  /** The least count of each of the levels 1, 2, 3 and 4, in increasing order. */
  const Thresholds: seq<int> := [1, 3, 5, 8]

  /** Reference definition: how many of the `thresholds` a count has reached. */
  function Reached(thresholds: seq<int>, count: int): (n: nat)
    ensures n <= |thresholds|
  {
    if thresholds == [] then 0
    else (if thresholds[0] <= count then 1 else 0) + Reached(thresholds[1..], count)
  }

  predicate Increasing(s: seq<int>) {
    forall i, j :: 0 <= i < j < |s| ==> s[i] < s[j]
  }

  /** Over increasing thresholds, a larger count never reaches fewer of them. */
  lemma {:induction false} ReachedMonotone(thresholds: seq<int>, a: int, b: int)
    requires Increasing(thresholds)
    requires a <= b
    ensures Reached(thresholds, a) <= Reached(thresholds, b)
  {
    if thresholds != [] {
      ReachedMonotone(thresholds[1..], a, b);
    }
  }

  /** The level of a count is the number of level thresholds it has reached. */
  lemma CommitLevelIsThresholdsReached(count: int)
    ensures CommitLevel(count) == Reached(Thresholds, count)
  {
    assert Thresholds[1..][1..][1..][1..] == [];
    assert Reached(Thresholds[1..][1..][1..], count) == if 8 <= count then 1 else 0;
    assert Reached(Thresholds[1..][1..], count) == (if 5 <= count then 1 else 0) + (if 8 <= count then 1 else 0);
    assert Reached(Thresholds[1..], count)
        == (if 3 <= count then 1 else 0) + (if 5 <= count then 1 else 0) + (if 8 <= count then 1 else 0);
  }

  /** The buckets of the heat map, each as an if-and-only-if. */
  lemma CommitLevelBuckets(count: int)
    ensures CommitLevel(count) == 0 <==> count <= 0
    ensures CommitLevel(count) == 1 <==> 1 <= count <= 2
    ensures CommitLevel(count) == 2 <==> 3 <= count <= 4
    ensures CommitLevel(count) == 3 <==> 5 <= count <= 7
    ensures CommitLevel(count) == 4 <==> 8 <= count
  {
  }

  /** More commits never draw a lighter cell. */
  lemma CommitLevelMonotone(a: int, b: int)
    requires a <= b
    ensures CommitLevel(a) <= CommitLevel(b)
  {
    CommitLevelIsThresholdsReached(a);
    CommitLevelIsThresholdsReached(b);
    assert Increasing(Thresholds);
    ReachedMonotone(Thresholds, a, b);
  }
}
