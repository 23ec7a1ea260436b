/** UCB1 as in algorithms/ucb1.py: a step counter, a pre-exploration scan,
    and the first arm maximising `values[a] + c * sqrt(2 * log(t) / counts[a])`. */
module UCB1Policy {
  import opened Selection

  /** `bonus(t, n)` stands for `sqrt(2 * log(t) / n)`; it need only be
      defined for positive pull counts `n`, since the formula divides by `n`. */
  ghost predicate BonusDefinedOnPulled(bonus: (int, int) --> real) {
    forall t: int, n: int :: n > 0 ==> bonus.requires(t, n)
  }

  /** The UCB1 score of every arm at step `t`; it can be formed only when
      every arm has been pulled. */
  function Scores(values: seq<real>, counts: seq<nat>, t: int, c: real, bonus: (int, int) --> real): seq<real>
    requires |counts| == |values| && !HasUnpulled(counts) && BonusDefinedOnPulled(bonus)
  {
    seq(|values|, a requires 0 <= a < |values| => values[a] + c * bonus(t, counts[a]))
  }

  /** The arm `select_arm` returns at step `t` (already incremented). */
  function Choose(counts: seq<nat>, values: seq<real>, t: int, c: real, bonus: (int, int) --> real): (arm: nat)
    requires |counts| > 0 && |values| == |counts| && BonusDefinedOnPulled(bonus)
    ensures arm < |counts|
    ensures HasUnpulled(counts) ==>
              counts[arm] == 0 && forall j :: 0 <= j < arm ==> counts[j] > 0
    ensures !HasUnpulled(counts) ==> IsFirstArgMax(Scores(values, counts, t, c, bonus), arm)
  {
    var i := FirstUnpulled(counts);
    if i < |counts| then i else ArgMax(Scores(values, counts, t, c, bonus))
  }

  /** A run of calls from a fresh object: call `i` sees `countsTrace[i]`
      and any `valuesTrace[i]`, runs at step `i + 1`, returns `arms[i]`,
      and the base class then increments that arm's count. */
  ghost predicate IsRun(c: real, bonus: (int, int) --> real, countsTrace: seq<seq<nat>>,
                        valuesTrace: seq<seq<real>>, arms: seq<nat>)
  {
    && BonusDefinedOnPulled(bonus)
    && |countsTrace| == |arms| + 1 && |valuesTrace| == |arms|
    && |countsTrace[0]| > 0 && countsTrace[0] == Zeros(|countsTrace[0]|)
    && forall i :: 0 <= i < |arms| ==>
         && |countsTrace[i]| == |countsTrace[0]| && |valuesTrace[i]| == |countsTrace[i]|
         && arms[i] == Choose(countsTrace[i], valuesTrace[i], i + 1, c, bonus)
         && Bumped(countsTrace[i], arms[i], countsTrace[i + 1])
  }

  /** After the first `n <= k` calls of a run, arms 0..n-1 have been
      returned in order and exactly they have been pulled once. */
  lemma PreExplorationPrefix(c: real, bonus: (int, int) --> real, countsTrace: seq<seq<nat>>,
                             valuesTrace: seq<seq<real>>, arms: seq<nat>, n: nat)
    requires IsRun(c, bonus, countsTrace, valuesTrace, arms)
    requires n <= |arms| && n <= |countsTrace[0]|
    ensures countsTrace[n] == Explored(|countsTrace[0]|, n)
    ensures forall i :: 0 <= i < n ==> arms[i] == i
  {
    ExploresInOrder(countsTrace, arms, n);
  }

  /** From a fresh object, when each returned arm's count is incremented
      before the next call, the first `k` calls return arms 0, 1, ..., k-1. */
  lemma FirstCallsExploreInOrder(c: real, bonus: (int, int) --> real, countsTrace: seq<seq<nat>>,
                                 valuesTrace: seq<seq<real>>, arms: seq<nat>)
    requires IsRun(c, bonus, countsTrace, valuesTrace, arms)
    requires |arms| <= |countsTrace[0]|
    ensures forall i :: 0 <= i < |arms| ==> arms[i] == i
  {
    PreExplorationPrefix(c, bonus, countsTrace, valuesTrace, arms, |arms|);
  }

  /** The policy object of algorithms/ucb1.py. `counts` and `values` belong
      to the base class, which fills them with zeros. */
  class UCB1 {
    const k: nat
    const c: real
    var t: int
    const counts: array<nat>
    const values: array<real>

    ghost predicate Valid() {
      k > 0 && counts.Length == k && values.Length == k
    }

    constructor (k: nat, c: real := 1.0)
      requires k > 0
      ensures Valid() && this.k == k && this.c == c && t == 0
      ensures fresh(counts) && fresh(values)
      ensures counts[..] == Zeros(k) && values[..] == seq(k, _ => 0.0)
    {
      this.k := k;
      this.c := c;
      t := 0;
      counts := new nat[k](_ => 0);
      values := new real[k](_ => 0.0);
    }

    /** `select_arm`: bump `t`, pre-explore the lowest unpulled arm, else
        return the first arm of maximal score. Only `t` changes. */
    method SelectArm(bonus: (int, int) --> real) returns (arm: nat)
      requires Valid() && BonusDefinedOnPulled(bonus)
      modifies this
      ensures t == old(t) + 1
      ensures arm == Choose(counts[..], values[..], t, c, bonus)
      ensures counts[..] == old(counts[..]) && values[..] == old(values[..])
    {
      t := t + 1;
      for i := 0 to k
        invariant forall j :: 0 <= j < i ==> counts[j] > 0
      {
        if counts[i] == 0 {
          return i;
        }
      }
      var ucb := Scores(values[..], counts[..], t, c, bonus);
      arm := ArgMax(ucb);
    }
  }
}
