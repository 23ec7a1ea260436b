/** Arm-selection building blocks shared by the UCB policies: the
    pre-exploration scan over `counts` and numpy's first-maximum `argmax`. */
module Selection {

  /** Some arm has never been pulled. */
  predicate HasUnpulled(counts: seq<nat>) {
    exists i :: 0 <= i < |counts| && counts[i] == 0
  }

  /** The index the pre-exploration scan stops at: the lowest arm whose
      count is zero, or |counts| when every arm has been pulled. */
  function FirstUnpulled(counts: seq<nat>): (i: nat)
    ensures i <= |counts|
    ensures forall j :: 0 <= j < i ==> counts[j] > 0
    ensures i < |counts| ==> counts[i] == 0
    ensures i < |counts| <==> HasUnpulled(counts)
  {
    if |counts| == 0 then 0
    else if counts[0] == 0 then 0
    else 1 + FirstUnpulled(counts[1..])
  }

  /** `a` is what numpy's `argmax` returns for `scores`: an index of a
      maximal score, and the first such index. */
  predicate IsFirstArgMax(scores: seq<real>, a: int) {
    && 0 <= a < |scores|
    && (forall j :: 0 <= j < |scores| ==> scores[j] <= scores[a])
    && (forall j :: 0 <= j < a ==> scores[j] < scores[a])
  }

  /** First index of the largest score (ties go to the lower index). */
  function ArgMax(scores: seq<real>): (a: nat)
    requires |scores| > 0
    ensures IsFirstArgMax(scores, a)
  {
    if |scores| == 1 then 0
    else
      var m := ArgMax(scores[..|scores| - 1]);
      if scores[|scores| - 1] > scores[m] then |scores| - 1 else m
  }

  /** The first-maximum index is determined by the scores alone. */
  lemma FirstArgMaxUnique(scores: seq<real>, a: int, b: int)
    requires IsFirstArgMax(scores, a) && IsFirstArgMax(scores, b)
    ensures a == b
  {
    assert scores[a] == scores[b];
  }

  /** What the base class's `update` does to `counts` between two calls of
      `select_arm`: the returned arm's count goes up by one, no other
      count moves. */
  predicate Bumped(before: seq<nat>, arm: nat, after: seq<nat>) {
    arm < |before| && after == before[arm := before[arm] + 1]
  }

  /** A weaker form of the same hypothesis: counts never decrease, and only
      the returned arm's count may change. */
  predicate CountsAdvance(before: seq<nat>, arm: nat, after: seq<nat>) {
    && |after| == |before|
    && (forall j :: 0 <= j < |before| && j != arm ==> after[j] == before[j])
    && (arm < |before| ==> before[arm] <= after[arm])
  }

  /** `k` counts, all zero: the state of a freshly constructed policy. */
  function Zeros(k: nat): seq<nat> {
    seq(k, _ => 0)
  }

  /** Counts after the first `n` calls of pre-exploration: one pull each for
      arms below `n`, none for the rest. */
  function Explored(k: nat, n: nat): seq<nat> {
    seq(k, a => if a < n then 1 else 0)
  }

  /** Calls that each return the lowest unpulled arm while there is one,
      starting from zero counts, with the returned arm's count incremented
      after every call: the first `n <= k` of them return 0, 1, ..., n-1, in
      order, and leave exactly those arms with one pull each. */
  lemma {:induction false} ExploresInOrder(countsTrace: seq<seq<nat>>, arms: seq<nat>, n: nat)
    requires |countsTrace| == |arms| + 1 && countsTrace[0] == Zeros(|countsTrace[0]|)
    requires forall i :: 0 <= i < |arms| ==>
               && Bumped(countsTrace[i], arms[i], countsTrace[i + 1])
               && (HasUnpulled(countsTrace[i]) ==>
                     countsTrace[i][arms[i]] == 0 && forall j :: 0 <= j < arms[i] ==> countsTrace[i][j] > 0)
    requires n <= |arms| && n <= |countsTrace[0]|
    ensures countsTrace[n] == Explored(|countsTrace[0]|, n)
    ensures forall i :: 0 <= i < n ==> arms[i] == i
  {
    var k := |countsTrace[0]|;
    if n > 0 {
      var i := n - 1;
      ExploresInOrder(countsTrace, arms, i);
      assert countsTrace[i][i] == 0;
      assert arms[i] == i;
      assert countsTrace[n] == countsTrace[i][i := 1];
    } else {
      assert countsTrace[0] == Explored(k, 0);
    }
  }
}
