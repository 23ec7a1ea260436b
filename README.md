# k-armed bandit policies, modelled in Dafny

This project models the decision logic of the bandit policies in a Python
k-armed bandit testbed, and the parameter checks of two of its arm types.

- **UCB2**, in both of the repository's copies:
  - `src/algorithms/ucb2.py`: epoch lengths start at 1, the score clamps
    them to at least 1, and a recomputed epoch length is capped at 10^6;
  - `algorithms/ucb2.py`: epoch lengths start at 0, with no clamp and no
    cap.
- **UCB1**, in `algorithms/ucb1.py`.
- **The gradient bandit's update**, in `src/algorithms/gradient_bandit.py`.
- **The arms**: the binomial arm (`arms/armbinomial.py`) and the Bernoulli
  arm (`src/arms/armbernoulli.py`).

Each policy object is a Dafny `class` whose fields change in place, as in
the source:
- the step counter `t`;
- the epoch counters `ka` and epoch lengths `tau`, as arrays;
- the preferences, as an array, and the running average reward.

`select_arm` and `update` are methods. Each has the same scan loop with an
early return, or the same per-arm update loop, as the source. Each method is
proved equal to a pure function of the old state: `Step`, `Choose` or
`Updated`. What holds over several calls is stated as lemmas over runs of
that function. A run is a sequence of states, one function call apart.

The arms are values. Each constructor returns a `Result`, whose error
records which of the constructor's assertions failed.

Modules:
- `Selection`: the "lowest unpulled arm" scan and numpy's first-maximum
  `argmax`.
- `Epochs`: exact real powers, the ceiling, and the epoch length
  `ceil((1 + alpha) ** ka)`.
- `UCB2Schedule`: the state both UCB2 copies add to the base class (`t`,
  `ka`, `tau`) and the result of one call.
- `UCB2Policy` and `UCB2CappedPolicy`: the two UCB2 copies.
- `UCB2Copies`: proves that the two UCB2 copies agree while the cap is not
  reached, for real-valued scores (a NaN score splits them; see
  "## Left out").
- `UCB1Policy`.
- `GradientPolicy`.
- `ArmParams`, `BinomialArm` and `BernoulliArm`.

The square root and logarithm terms of the UCB scores are a function
parameter, `bonus(t, n)`. The policies' logic lies in the scan, the argmax
and the array updates around those terms. The per-arm `counts` and `values`
belong to a base class that is not part of this model. They are fields that
the methods read but never write. Where a property needs the base class's
own update, a run states it as a hypothesis:
- for UCB1: the returned arm's count is incremented, and nothing else
  changes (`Selection.Bumped`);
- for UCB2: counts change only at the returned arm and never decrease
  (`Selection.CountsAdvance`).

## Where the code departs from the published algorithms

- **The UCB2 epoch rule.** In UCB2 as published by Auer, Cesa-Bianchi and
  Fischer ("Finite-time Analysis of the Multiarmed Bandit Problem", 2002),
  epoch `r` of an arm lasts `tau(r + 1) - tau(r)` pulls, with
  `tau(r) = ceil((1 + alpha) ** r)`. Both UCB2 copies instead compare the
  arm's *total* pull count with `tau` (`src/algorithms/ucb2.py:33`,
  `algorithms/ucb2.py:41`). The model follows the code.
- **The range of `alpha`.** The same paper takes `0 < alpha < 1`, but
  neither UCB2 constructor checks it. The model accepts any `alpha`. The
  lemmas that need a lower bound assume `alpha > -1`, which is what makes
  `1 + alpha` positive.
- **The gradient bandit's counts.** `GradientBandit.update` never calls the
  base class's `update` (`src/algorithms/gradient_bandit.py:32-41`), so the
  inherited `counts` and `values` never move for that policy.
  `GradientPolicy.GradientBandit.Update` states that they are unchanged.
- **Indentation.** In `src/algorithms/ucb2.py` the bodies of `__init__` and
  `select_arm` (lines 7-37) are not indented under `class UCB2` (line 6).
  As written, the file is not valid Python. The model is the class that
  those methods evidently belong to.

## Model

| member | source | states |
|---|---|---|
| Selection.FirstUnpulled | algorithms/ucb1.py:27-29 | the index the pre-exploration scan stops at: every lower arm has been pulled; it is in range exactly when some arm has a zero count, and that arm's count is then 0 |
| Selection.ArgMax | algorithms/ucb1.py:35 | numpy's `argmax`: an index in range whose score is at least every score and strictly above the score of every lower index |
| Selection.FirstArgMaxUnique | algorithms/ucb1.py:35 | the first maximum is unique, so any two indices with that property are equal |
| Selection.ExploresInOrder | algorithms/ucb1.py:27-29 | calls that each return the lowest unpulled arm while one exists, from zero counts, with the returned arm's count incremented after each call: the first `n <= k` return 0, 1, ..., n-1 in order, and exactly those arms then have one pull each |
| Epochs.EpochLength | algorithms/ucb2.py:43 | `ceil((1 + alpha) ** ka)` over exact reals: it is 1 in epoch 0, and it is at least 1 whenever `alpha > -1` |
| Epochs.EpochLengthMonotone | algorithms/ucb2.py:42-43 | with `alpha > -1` the epoch length never shrinks as `ka` grows (it stays 1 for `-1 < alpha <= 0`) |
| UCB2Policy.Step | algorithms/ucb2.py:28-45 | one `select_arm`: `t` rises by 1; only the returned arm's `ka`/`tau` can change; with an unpulled arm it returns the lowest one, sets its `tau` to 1 and leaves `ka` alone; otherwise it returns the first maximum of `values + bonus(t, tau)`, advances that arm's epoch to `ka + 1` with `tau = ceil((1 + alpha) ** (ka + 1))` when `counts[arm] >= tau[arm]`, and else changes nothing but `t` |
| UCB2Policy.StepKeepsEpochsConsistent | algorithms/ucb2.py:31-43 | if counts change only at the returned arm and never fall, one call keeps this invariant: an arm never pulled is in epoch 0, and a pulled arm's `tau` is the epoch length of its `ka` |
| UCB2Policy.RunKeepsEpochsConsistent | algorithms/ucb2.py:21-45 | the same invariant holds at every state of a run that starts from a fresh object |
| UCB2Policy.FormulaNeverDividesByZero | algorithms/ucb2.py:26-37 | although `tau` starts at 0, whenever the score formula is reached in such a run (all counts positive) every `tau` is at least 1, given `alpha > -1` |
| UCB2Policy.RunExploresInOrder | algorithms/ucb2.py:31-34 | from a fresh object, when each returned arm's count is incremented before the next call, the first `n <= k` calls return 0, 1, ..., n-1 in order, and afterwards `t == n`, `ka` is all zeros, and `tau` is 1 for arms below `n` and still 0 for the rest |
| UCB2Policy.UCB2.constructor | algorithms/ucb2.py:21-26 | `t == 0`, with `ka` and `tau` all zeros, and the base class's counts and values zero |
| UCB2Policy.UCB2.SelectArm | algorithms/ucb2.py:28-45 | the in-place scan and epoch update return the arm of `Step` and leave the object in `Step`'s new state; `counts` and `values` are unchanged |
| UCB2CappedPolicy.CappedEpochLength | src/algorithms/ucb2.py:35 | `min(ceil((1 + alpha) ** ka), 10**6)`: never above 10^6, equal to the uncapped length up to the cap and 10^6 beyond it, and at least 1 when `alpha > -1` |
| UCB2CappedPolicy.CappedEpochLengthMonotone | src/algorithms/ucb2.py:34-35 | with `alpha > -1` the capped epoch length never shrinks as `ka` grows |
| UCB2CappedPolicy.Step | src/algorithms/ucb2.py:14-37 | like `UCB2Policy.Step`, except the score uses `max(tau, 1)` and the new `tau` is capped; in addition, `ka` never decreases at any arm, and the bounds `tau <= 10^6` (and `tau >= 1` when `alpha > -1`) are kept |
| UCB2CappedPolicy.StepKeepsEpochsConsistent | src/algorithms/ucb2.py:17-35 | if counts change only at the returned arm and never fall, one call keeps this invariant: every `tau` is the capped epoch length of its `ka`, and an unpulled arm is in epoch 0 |
| UCB2CappedPolicy.RunKeepsEpochsConsistent | src/algorithms/ucb2.py:7-37 | that invariant holds at every state of a run from a fresh object |
| UCB2CappedPolicy.RunTauNeverDecreases | src/algorithms/ucb2.py:33-35 | along such a run, with `alpha > -1`, no arm's `tau` ever decreases from one call to the next |
| UCB2CappedPolicy.RunExploresInOrder | src/algorithms/ucb2.py:17-20 | from a fresh object, when each returned arm's count is incremented before the next call, the first `n <= k` calls return 0, 1, ..., n-1 in order, and afterwards `t == n` with `ka` all zeros and `tau` all ones |
| UCB2CappedPolicy.UCB2.constructor | src/algorithms/ucb2.py:7-12 | `t == 0`, with `ka` all zeros, `tau` all ones, and the bounds on `tau` established |
| UCB2CappedPolicy.UCB2.SelectArm | src/algorithms/ucb2.py:14-37 | the in-place scan and capped epoch update return the arm of `Step` and leave the object in `Step`'s new state; the bounds on `tau` are preserved; `counts` and `values` are unchanged |
| UCB2Copies.ScoresAgree | src/algorithms/ucb2.py:23-25 | with `alpha > -1`, from states that agree on `t` and `ka`, once every arm has been pulled, with epochs consistent with the counts (`EpochsConsistent` of each copy) and no epoch length above the cap (`EpochsWithinCap`), the clamped scores of the capped copy equal the raw scores of the other copy (algorithms/ucb2.py:37) |
| UCB2Copies.ExplorationAgrees | src/algorithms/ucb2.py:17-20 | while some arm is unpulled, both copies return the same arm and set its `tau` to 1 (algorithms/ucb2.py:31-34) |
| UCB2Copies.SameArm | src/algorithms/ucb2.py:23-30 | with `alpha > -1`, from states that agree on `t` and `ka`, once every arm has been pulled, with epochs consistent with the counts (`EpochsConsistent` of each copy) and within the cap (`EpochsWithinCap`), both copies' first maximum is the same arm (algorithms/ucb2.py:37-38) |
| UCB2Copies.FormulaAgrees | src/algorithms/ucb2.py:30-35 | in the formula branch, with `alpha > -1`, epochs consistent with the counts, and every epoch length within the cap before and after the call, both copies return the same arm and make the same epoch advance (algorithms/ucb2.py:38-43) |
| UCB2Copies.StepsAgree | src/algorithms/ucb2.py:14-37 | with `alpha > -1`, from states that agree on `t` and `ka`, whose epochs are consistent with the same counts (`EpochsConsistent` of each copy), and whose epoch lengths are within 10^6 before and after the call (`EpochsWithinCap`), one call of each copy returns the same arm, sets the same `t` and `ka`, and gives the same `tau` to every pulled or returned arm (algorithms/ucb2.py:28-45) |
| UCB2Copies.RunsAgree | src/algorithms/ucb2.py:7-37 | two runs from fresh objects, fed the same counts and values, return the same arms and keep the same `t` and `ka`, for their first `n` calls, as long as every epoch length `ceil((1 + alpha) ** ka)` the capped run reaches in those calls stays within 10^6, that is, as long as the cap has not taken effect so far (algorithms/ucb2.py:21-45) |
| UCB1Policy.Choose | algorithms/ucb1.py:25-35 | the arm `select_arm` returns at step `t`: the lowest unpulled arm if there is one; otherwise the first maximum of `values + c * bonus(t, counts)`, which is formed only when every count is positive |
| UCB1Policy.PreExplorationPrefix | algorithms/ucb1.py:27-29 | after `n <= k` calls from a fresh object, each followed by incrementing the returned arm's count, arms `0..n-1` have been returned in order, and exactly they have count 1 |
| UCB1Policy.FirstCallsExploreInOrder | algorithms/ucb1.py:27-29 | under that hypothesis, the first `k` calls return 0, 1, ..., k-1 |
| UCB1Policy.UCB1.constructor | algorithms/ucb1.py:20-23 | `t == 0` and `c` stored; counts and values zero |
| UCB1Policy.UCB1.SelectArm | algorithms/ucb1.py:25-35 | `t` rises by exactly 1, the returned arm is `Choose` at the new `t`, and `counts` and `values` are unchanged (`c` is a constant) |
| GradientPolicy.GradientStepSum | src/algorithms/gradient_bandit.py:37-41 | the gradient step adds `step` at the chosen arm and removes `step * p[i]` at every arm, so the sum of preferences changes by `step * (1 - sum(p))` for a chosen arm in range |
| GradientPolicy.UpdateConservesPreferenceSum | src/algorithms/gradient_bandit.py:33-41 | when `p` sums to 1 and the chosen arm is in range, an update leaves the sum of the preferences unchanged |
| GradientPolicy.UpdateDirection | src/algorithms/gradient_bandit.py:39-41 | with `alpha >= 0` and each `p[i]` in [0, 1], the chosen arm's preference moves with the sign of `reward - avg_reward` and every other arm's moves against it |
| GradientPolicy.ZeroStepSizeKeepsPreferences | src/algorithms/gradient_bandit.py:39-41 | with `alpha == 0` an update leaves the preferences as they were |
| GradientPolicy.RunningAverageIsMean | src/algorithms/gradient_bandit.py:34 | the incremental update `avg += (reward - avg) / t` yields exactly the arithmetic mean of the rewards so far |
| GradientPolicy.RunAverageIsMean | src/algorithms/gradient_bandit.py:24-34 | after `n` updates from a fresh object, `t == n` and `avg_reward` is the mean of the first `n` rewards |
| GradientPolicy.RunPreferenceSumStaysZero | src/algorithms/gradient_bandit.py:23-41 | from zero preferences, with softmax probabilities (positive, summing to 1) and chosen arms in range, the preferences sum to 0 after every update |
| GradientPolicy.GradientBandit.constructor | src/algorithms/gradient_bandit.py:20-25 | `k` zero preferences, `avg_reward == 0` and `t == 0` |
| GradientPolicy.GradientBandit.Update | src/algorithms/gradient_bandit.py:32-41 | the in-place update takes the object to `Updated` of its old state: `t + 1`, the new running average, and for each arm `h + step * (1 - p)` at the chosen arm or `h - step * p` elsewhere, where `step = alpha * (reward - new average)`; `counts` and `values` are unchanged |
| BinomialArm.New | arms/armbinomial.py:20-24 | accepted exactly when `n > 0` and `0 <= p <= 1`, with `n` checked first; an accepted arm stores `n` and `p` unchanged |
| BinomialArm.ExpectedValue | arms/armbinomial.py:29-30 | `n * p` lies in [0, n], and it is 0 exactly when `p == 0` and `n` exactly when `p == 1` |
| BinomialArm.GenerateArms | arms/armbinomial.py:32-35 | for draws in [0, 1), it fails (with the `n > 0` assertion) exactly when there is at least one draw and `n <= 0`; otherwise it yields one valid arm per draw, in order, each with the given `n` and that draw as `p` |
| BernoulliArm.New | src/arms/armbernoulli.py:21-23 | accepted exactly when `0 <= p <= 1`; an accepted arm stores `p` unchanged |
| BernoulliArm.ExpectedValue | src/arms/armbernoulli.py:28-29 | the expected value lies in [0, 1] |
| BernoulliArm.GenerateArms | src/arms/armbernoulli.py:31-34 | for draws in [0, 1), one arm per draw, in order, each the one the constructor accepts for that draw |
| BernoulliArm.SameAsOneTrialBinomial | src/arms/armbernoulli.py:25-29 | a Bernoulli arm is accepted exactly when a one-trial binomial arm with the same `p` is, and both have the same expected value (arms/armbinomial.py:29-30) |

## Left out

- The square root, logarithm and `math.e` inside the UCB1 and UCB2 scores are not modelled. They are the `bonus` parameter, an arbitrary real function of the step and the pull count or epoch length. The model covers which arm wins given the scores, not the scores' values.
- The NaN guard `np.nan_to_num(..., nan=-np.inf)` of `src/algorithms/ucb2.py:28`, and the infinities and NaNs of floating point in general, have no counterpart over Dafny reals.
- UCB2Copies.SameArm, UCB2Copies.FormulaAgrees, UCB2Copies.StepsAgree, UCB2Copies.RunsAgree: the agreement of the two UCB2 copies is proved for real-valued scores only. When a stored `tau` exceeds `e * t`, the logarithm in the score is negative and the square root is NaN. `algorithms/ucb2.py:38` then returns the NaN arm from `np.argmax`, while `src/algorithms/ucb2.py:28` turns the NaN into minus infinity and picks another arm. This can happen below the cap once `alpha > e - 1`: for example, with `alpha = 3`, two arms and `values == [10, 0]`, arm 0 reaches `ka = 3`, `tau = 64` at `t = 18`, and at `t = 19` the two copies differ. For `-1 < alpha <= e - 1` a new `tau` stays below `e * t`, and the scores stay real; that bound also relies on the base class raising a count by exactly one per call, so that `counts[arm] <= t - 1`, which the weaker `CountsAdvance` hypothesis of the model does not give. For `alpha <= -1` the scores can be NaN as well (for `alpha < -1` the factor `1 + alpha` is negative), and at `alpha = -1` the copies split: the uncapped copy's `tau` drops to 0 after one epoch advance, its score for that arm is `0 * log(inf)`, a NaN that `np.argmax` returns, while the capped copy's `np.maximum(tau, 1)` keeps the score real. All four lemmas require `alpha > -1`.
- UCB2CappedPolicy.Step, UCB2CappedPolicy.UCB2.SelectArm: the `OverflowError` of `src/algorithms/ucb2.py:35` is not modelled; the model always returns. An arm held at `tau == 10^6` with at least 10^6 pulls advances `ka` on every selection, and the code computes the float `(1 + alpha) ** ka` before taking the `min` with 10^6. With the default `alpha = 0.5`, that power overflows at `ka = 1751`, and `math.ceil` of the infinite result raises. This is a defect of the cap, which is applied after the power it was meant to bound; over exact reals the model computes the intended capped value.
- Float rounding in `(1 + alpha) ** ka`, the running average and the preference update is not modelled, and neither is numpy's fixed-width integer overflow. The model uses exact reals and unbounded integers, with the 10^6 cap written out where the code has it.
- `GradientBandit.select_arm` and the softmax recomputed inside `update` (`src/algorithms/gradient_bandit.py:27-30, 35`) are left out. They need `np.exp` and `np.random.choice`. The probability vector is an input to `Update`; the lemmas that need it assume positive entries summing to 1.
- `Arm.pull` (`np.random.binomial`), the `np.random.uniform` draws of `generate_arms` and `__str__` are randomness and formatting. The draws are an input sequence of values in [0, 1), so `k` is its length; a negative `k`, which numpy rejects, cannot be expressed.
- The base `Algorithm` class (`counts`, `values` and its `update`) is not part of this model. `counts` and `values` are zero-filled fields. Its update enters only as the `Bumped` / `CountsAdvance` hypotheses of the run lemmas.
- `UCB2Policy.UCB2.constructor`, `UCB2CappedPolicy.UCB2.constructor` and `UCB1Policy.UCB1.constructor` require `k > 0`. With `k == 0`, `np.argmax` of an empty score vector raises. The model rules that object out at construction instead of modelling the exception.
- `algorithms/softmax.py`, `plotting/plotting.py`, the simulator loop and the regret aggregation are not part of this model.
