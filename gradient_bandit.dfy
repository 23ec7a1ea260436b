/** The gradient bandit of src/algorithms/gradient_bandit.py: a running
    average of the rewards and a preference vector moved by a gradient step
    against the softmax probabilities of the preferences before the step.
    The probabilities are an input here. */
module GradientPolicy {

  function Sum(s: seq<real>): real {
    if |s| == 0 then 0.0 else Sum(s[..|s| - 1]) + s[|s| - 1]
  }

  /** Arithmetic mean of the rewards seen so far (0 before the first one). */
  function Mean(rewards: seq<real>): real {
    if |rewards| == 0 then 0.0 else Sum(rewards) / (|rewards| as real)
  }

  /** What a softmax yields: positive probabilities summing to 1. */
  predicate IsDistribution(p: seq<real>) {
    (forall i :: 0 <= i < |p| ==> 0.0 < p[i]) && Sum(p) == 1.0
  }

  /** The preferences after one gradient step of size `step` (that is,
      `alpha * (reward - avg_reward)`) for the arm `chosen`. */
  function GradientStep(h: seq<real>, chosen: int, step: real, p: seq<real>): seq<real>
    requires |p| == |h|
  {
    seq(|h|, i requires 0 <= i < |h| =>
      if i == chosen then h[i] + step * (1.0 - p[i]) else h[i] - step * p[i])
  }

  /** The object's own state: the update counter, the running average reward
      and the preferences. */
  datatype GradientState = GradientState(t: nat, avgReward: real, preferences: seq<real>)

  /** State right after construction. */
  function Initial(k: nat): GradientState {
    GradientState(0, 0.0, seq(k, _ => 0.0))
  }

  /** One `update(chosen_arm, reward)`, with `p` the softmax of the
      preferences before it. */
  function Updated(s: GradientState, alpha: real, chosen: int, reward: real, p: seq<real>): GradientState
    requires |p| == |s.preferences|
  {
    var t := s.t + 1;
    var avg := s.avgReward + (reward - s.avgReward) / (t as real);
    GradientState(t, avg, GradientStep(s.preferences, chosen, alpha * (reward - avg), p))
  }

  /** Summing `h[i] - d[i]`, plus `step` at index `chosen`. */
  lemma {:induction false} ShiftedSum(g: seq<real>, h: seq<real>, d: seq<real>, chosen: int, step: real)
    requires |g| == |h| == |d|
    requires forall i :: 0 <= i < |g| ==> g[i] == h[i] - d[i] + (if i == chosen then step else 0.0)
    ensures Sum(g) == Sum(h) - Sum(d) + (if 0 <= chosen < |g| then step else 0.0)
  {
    if |g| > 0 {
      var n := |g| - 1;
      ShiftedSum(g[..n], h[..n], d[..n], chosen, step);
    }
  }

  /** Summing `step * p[i]` gives `step` times the sum of `p`. */
  lemma {:induction false} ScaledSum(d: seq<real>, step: real, p: seq<real>)
    requires |d| == |p|
    requires forall i :: 0 <= i < |d| ==> d[i] == step * p[i]
    ensures Sum(d) == step * Sum(p)
  {
    if |d| > 0 {
      var n := |d| - 1;
      ScaledSum(d[..n], step, p[..n]);
      Distribute(step, Sum(p[..n]), p[n]);
    }
  }

  lemma Distribute(x: real, a: real, b: real)
    ensures x * (a + b) == x * a + x * b
  {
  }

  /** The step moves the preferences' sum by `step` for an arm in range and
      takes `step` times the probability mass away from it. */
  lemma GradientStepSum(h: seq<real>, chosen: int, step: real, p: seq<real>)
    requires |p| == |h|
    ensures Sum(GradientStep(h, chosen, step, p)) ==
            Sum(h) + (if 0 <= chosen < |h| then step else 0.0) - step * Sum(p)
  {
    var d := seq(|p|, i requires 0 <= i < |p| => step * p[i]);
    ScaledSum(d, step, p);
    ShiftedSum(GradientStep(h, chosen, step, p), h, d, chosen, step);
  }

  /** With `p` summing to 1 and a chosen arm in range, an update leaves the
      sum of the preferences where it was. */
  lemma UpdateConservesPreferenceSum(s: GradientState, alpha: real, chosen: int, reward: real, p: seq<real>)
    requires |p| == |s.preferences| && Sum(p) == 1.0 && 0 <= chosen < |p|
    ensures Sum(Updated(s, alpha, chosen, reward, p).preferences) == Sum(s.preferences)
  {
    var s' := Updated(s, alpha, chosen, reward, p);
    GradientStepSum(s.preferences, chosen, alpha * (reward - s'.avgReward), p);
  }

  /** With `alpha >= 0` and probabilities in [0, 1], the chosen arm's
      preference moves with the sign of `reward - avg_reward` (the average
      after the update) and every other preference moves against it. */
  lemma UpdateDirection(s: GradientState, alpha: real, chosen: int, reward: real, p: seq<real>)
    requires |p| == |s.preferences| && alpha >= 0.0
    requires forall i :: 0 <= i < |p| ==> 0.0 <= p[i] <= 1.0
    ensures var s' := Updated(s, alpha, chosen, reward, p);
            var gain := reward - s'.avgReward;
            forall i :: 0 <= i < |p| ==>
              var moved := s'.preferences[i] - s.preferences[i];
              && (i == chosen ==> (gain >= 0.0 ==> moved >= 0.0) && (gain <= 0.0 ==> moved <= 0.0))
              && (i != chosen ==> (gain >= 0.0 ==> moved <= 0.0) && (gain <= 0.0 ==> moved >= 0.0))
  {
    var s' := Updated(s, alpha, chosen, reward, p);
    var step := alpha * (reward - s'.avgReward);
    assert reward - s'.avgReward >= 0.0 ==> step >= 0.0;
    assert reward - s'.avgReward <= 0.0 ==> step <= 0.0;
    forall i | 0 <= i < |p|
      ensures step >= 0.0 ==> step * p[i] >= 0.0 && step * (1.0 - p[i]) >= 0.0
      ensures step <= 0.0 ==> step * p[i] <= 0.0 && step * (1.0 - p[i]) <= 0.0
    {
    }
  }

  /** With `alpha == 0` an update leaves the preferences as they were. */
  lemma ZeroStepSizeKeepsPreferences(s: GradientState, chosen: int, reward: real, p: seq<real>)
    requires |p| == |s.preferences|
    ensures Updated(s, 0.0, chosen, reward, p).preferences == s.preferences
  {
  }

  /** The running average after the rewards `rewards`, one update each. */
  function RunningAverage(rewards: seq<real>): real {
    if |rewards| == 0 then 0.0
    else
      var a := RunningAverage(rewards[..|rewards| - 1]);
      a + (rewards[|rewards| - 1] - a) / (|rewards| as real)
  }

  /** The incremental update `avg += (reward - avg) / t` keeps `avg` equal to
      the mean of all rewards so far. */
  lemma {:induction false} RunningAverageIsMean(rewards: seq<real>)
    ensures RunningAverage(rewards) == Mean(rewards)
  {
    if |rewards| > 0 {
      var n := |rewards| - 1;
      var prefix := rewards[..n];
      var r := rewards[n];
      var a := RunningAverage(prefix);
      RunningAverageIsMean(prefix);
      assert a * (n as real) == Sum(prefix);
      var m := (n + 1) as real;
      var a' := a + (r - a) / m;
      assert a' * m == a * m + (r - a);
      assert a' * m == Sum(rewards);
    }
  }

  /** A run of updates from a fresh object: update `i` gets `chosen[i]`,
      `rewards[i]` and the softmax `probs[i]` of the preferences before it. */
  ghost predicate IsRun(alpha: real, states: seq<GradientState>, chosen: seq<int>, rewards: seq<real>,
                        probs: seq<seq<real>>)
  {
    && |states| == |chosen| + 1 && |rewards| == |chosen| && |probs| == |chosen|
    && forall i :: 0 <= i < |chosen| ==>
         && |probs[i]| == |states[i].preferences|
         && states[i + 1] == Updated(states[i], alpha, chosen[i], rewards[i], probs[i])
  }

  /** After `n` updates from a fresh object `t == n` and `avg_reward` is the
      mean of the first `n` rewards. */
  lemma {:induction false} RunAverageIsMean(alpha: real, states: seq<GradientState>, chosen: seq<int>,
                                            rewards: seq<real>, probs: seq<seq<real>>, n: nat)
    requires IsRun(alpha, states, chosen, rewards, probs) && states[0] == Initial(|states[0].preferences|)
    requires n <= |chosen|
    ensures states[n].t == n && states[n].avgReward == Mean(rewards[..n])
  {
    if n > 0 {
      RunAverageIsMean(alpha, states, chosen, rewards, probs, n - 1);
      assert rewards[..n][..n - 1] == rewards[..n - 1];
      RunningAverageIsMean(rewards[..n - 1]);
      RunningAverageIsMean(rewards[..n]);
    }
  }

  /** Starting from zero preferences, with softmax probabilities and chosen
      arms in range, the preferences keep summing to 0. */
  lemma {:induction false} RunPreferenceSumStaysZero(alpha: real, states: seq<GradientState>, chosen: seq<int>,
                                                     rewards: seq<real>, probs: seq<seq<real>>, n: nat)
    requires IsRun(alpha, states, chosen, rewards, probs) && states[0] == Initial(|states[0].preferences|)
    requires forall i :: 0 <= i < |chosen| ==> IsDistribution(probs[i]) && 0 <= chosen[i] < |probs[i]|
    requires n <= |chosen|
    ensures Sum(states[n].preferences) == 0.0
  {
    if n > 0 {
      RunPreferenceSumStaysZero(alpha, states, chosen, rewards, probs, n - 1);
      UpdateConservesPreferenceSum(states[n - 1], alpha, chosen[n - 1], rewards[n - 1], probs[n - 1]);
    } else {
      ZerosSum(|states[0].preferences|);
    }
  }

  lemma {:induction false} ZerosSum(k: nat)
    ensures Sum(seq(k, _ => 0.0)) == 0.0
  {
    if k > 0 {
      ZerosSum(k - 1);
      assert seq(k, _ => 0.0)[..k - 1] == seq(k - 1, _ => 0.0);
    }
  }

  /** The policy object of src/algorithms/gradient_bandit.py. `counts` and
      `values` belong to the base class, which fills them with zeros. */
  class GradientBandit {
    const k: nat
    const alpha: real
    const preferences: array<real>
    var avgReward: real
    var t: nat
    const counts: array<nat>
    const values: array<real>

    ghost predicate Valid() {
      preferences.Length == k && counts.Length == k && values.Length == k && preferences != values
    }

    ghost function State(): GradientState
      reads this, preferences
    {
      GradientState(t, avgReward, preferences[..])
    }

    constructor (k: nat, alpha: real := 0.1)
      ensures Valid() && this.k == k && this.alpha == alpha
      ensures fresh(preferences) && fresh(counts) && fresh(values)
      ensures State() == Initial(k)
      ensures counts[..] == seq(k, _ => 0) && values[..] == seq(k, _ => 0.0)
    {
      this.k := k;
      this.alpha := alpha;
      preferences := new real[k](_ => 0.0);
      avgReward := 0.0;
      t := 0;
      counts := new nat[k](_ => 0);
      values := new real[k](_ => 0.0);
    }

    /** `update(chosen_arm, reward)`, given the softmax `probabilities` of the
        preferences before it: bump `t`, fold `reward` into the running
        average, then move every preference in place. */
    method Update(chosenArm: int, reward: real, probabilities: seq<real>)
      requires Valid() && |probabilities| == k
      modifies this, preferences
      ensures Valid()
      ensures State() == Updated(old(State()), alpha, chosenArm, reward, probabilities)
      ensures counts[..] == old(counts[..]) && values[..] == old(values[..])
    {
      ghost var next := Updated(State(), alpha, chosenArm, reward, probabilities);
      t := t + 1;
      avgReward := avgReward + (reward - avgReward) / (t as real);
      assert avgReward == next.avgReward;
      for i := 0 to k
        invariant t == next.t && avgReward == next.avgReward
        invariant forall j :: 0 <= j < i ==> preferences[j] == next.preferences[j]
        invariant forall j :: i <= j < k ==> preferences[j] == old(preferences[j])
      {
        if i == chosenArm {
          preferences[i] := preferences[i] + alpha * (reward - avgReward) * (1.0 - probabilities[i]);
        } else {
          preferences[i] := preferences[i] - alpha * (reward - avgReward) * probabilities[i];
        }
        assert preferences[i] == next.preferences[i];
      }
    }
  }
}
