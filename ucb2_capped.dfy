/** UCB2 as in src/algorithms/ucb2.py: epoch lengths start at 1, the score
    clamps the epoch length to at least 1, and a recomputed epoch length is
    capped at 10^6. (In that file the methods are not indented under the
    class; the model is the class those methods evidently belong to.) */
module UCB2CappedPolicy {
  import opened Selection
  import opened Epochs
  import opened UCB2Schedule

  /** The largest epoch length the policy stores. */
  const TauMax: int := 1000000

  /** `np.maximum(tau, 1)` for one arm. */
  function AtLeastOne(x: int): int {
    if x < 1 then 1 else x
  }

  /** The UCB2 score of every arm at step `t`, with each epoch length clamped
      to at least 1. `bonus(t, tau)` stands for
      `sqrt((1 + alpha) * log(e * t / tau) / (2 * tau))`. */
  function Scores(values: seq<real>, tau: seq<int>, t: int, bonus: (int, int) -> real): seq<real>
    requires |tau| == |values|
  {
    seq(|values|, a requires 0 <= a < |values| => values[a] + bonus(t, AtLeastOne(tau[a])))
  }

  /** `min(ceil((1 + alpha) ** ka), 10**6)`. */
  function CappedEpochLength(alpha: real, ka: nat): (tau: int)
    ensures tau <= TauMax
    ensures alpha > -1.0 ==> tau >= 1
    ensures EpochLength(alpha, ka) <= TauMax ==> tau == EpochLength(alpha, ka)
    ensures EpochLength(alpha, ka) > TauMax ==> tau == TauMax
  {
    var e := EpochLength(alpha, ka);
    if e < TauMax then e else TauMax
  }

  /** With `alpha > -1` the capped epoch length, too, never shrinks as the
      epoch counter grows. */
  lemma CappedEpochLengthMonotone(alpha: real, m: nat, n: nat)
    requires alpha > -1.0 && m <= n
    ensures CappedEpochLength(alpha, m) <= CappedEpochLength(alpha, n)
  {
    EpochLengthMonotone(alpha, m, n);
  }

  /** State right after construction: `ka` all zero, `tau` all one, `t == 0`. */
  function Initial(k: nat): Schedule {
    Schedule(0, seq(k, _ => 0), seq(k, _ => 1))
  }

  /** The bounds the epoch lengths keep from construction on: never above
      10^6 and, when `alpha > -1`, never below 1. */
  predicate TauInRange(alpha: real, tau: seq<int>) {
    forall a :: 0 <= a < |tau| ==> tau[a] <= TauMax && (alpha > -1.0 ==> tau[a] >= 1)
  }

  /** One call of `select_arm` on the scheduler state `s`, given the base
      class's `counts` and `values`. */
  function Step(s: Schedule, counts: seq<nat>, values: seq<real>, alpha: real,
                bonus: (int, int) -> real): (d: Decision)
    requires Shaped(s, counts, values)
    ensures d.arm < |counts| && d.next.t == s.t + 1
    ensures |d.next.ka| == |counts| && |d.next.tau| == |counts|
    ensures forall j :: 0 <= j < |counts| && j != d.arm ==>
              d.next.ka[j] == s.ka[j] && d.next.tau[j] == s.tau[j]
    ensures forall j :: 0 <= j < |counts| ==> s.ka[j] <= d.next.ka[j]
    ensures TauInRange(alpha, s.tau) ==> TauInRange(alpha, d.next.tau)
    ensures HasUnpulled(counts) ==>
              && counts[d.arm] == 0
              && (forall j :: 0 <= j < d.arm ==> counts[j] > 0)
              && d.next.tau[d.arm] == 1 && d.next.ka == s.ka
    ensures !HasUnpulled(counts) ==>
              && IsFirstArgMax(Scores(values, s.tau, s.t + 1, bonus), d.arm)
              && (counts[d.arm] >= s.tau[d.arm] ==>
                    d.next.ka[d.arm] == s.ka[d.arm] + 1 &&
                    d.next.tau[d.arm] == CappedEpochLength(alpha, d.next.ka[d.arm]))
              && (counts[d.arm] < s.tau[d.arm] ==> d.next == s.(t := s.t + 1))
  {
    var t := s.t + 1;
    var i := FirstUnpulled(counts);
    if i < |counts| then
      Decision(i, Schedule(t, s.ka, s.tau[i := 1]))
    else
      var arm := ArgMax(Scores(values, s.tau, t, bonus));
      if counts[arm] >= s.tau[arm] then
        var ka := s.ka[arm] + 1;
        Decision(arm, Schedule(t, s.ka[arm := ka], s.tau[arm := CappedEpochLength(alpha, ka)]))
      else
        Decision(arm, Schedule(t, s.ka, s.tau))
  }

  /** Once every arm has been pulled, the returned arm is the first maximum
      of the scores. */
  lemma FormulaArm(s: Schedule, counts: seq<nat>, values: seq<real>, alpha: real, bonus: (int, int) -> real)
    requires Shaped(s, counts, values) && !HasUnpulled(counts)
    ensures IsFirstArgMax(Scores(values, s.tau, s.t + 1, bonus), Step(s, counts, values, alpha, bonus).arm)
  {
  }

  /** Every arm's epoch length is the capped `ceil((1 + alpha) ** ka)` of its
      current epoch counter, and an arm never pulled is still in epoch 0. */
  predicate EpochsConsistent(alpha: real, counts: seq<nat>, s: Schedule) {
    && |s.ka| == |counts| && |s.tau| == |counts|
    && forall a :: 0 <= a < |counts| ==>
         (counts[a] == 0 ==> s.ka[a] == 0) &&
         s.tau[a] == CappedEpochLength(alpha, s.ka[a])
  }

  lemma StepKeepsEpochsConsistent(s: Schedule, counts: seq<nat>, values: seq<real>, alpha: real,
                                  bonus: (int, int) -> real, counts': seq<nat>)
    requires Shaped(s, counts, values) && EpochsConsistent(alpha, counts, s)
    requires CountsAdvance(counts, Step(s, counts, values, alpha, bonus).arm, counts')
    ensures EpochsConsistent(alpha, counts', Step(s, counts, values, alpha, bonus).next)
  {
  }

  /** A run of `n` calls: `scheds[i]` is the state before call `i`, which
      sees `countsTrace[i]`/`valuesTrace[i]` and returns `arms[i]`; between
      calls the counts rise only at the returned arm. `IsRun`, `StartsFresh`
      and `RunKeepsEpochsConsistent` have the shape of their namesakes in
      `UCB2Policy`; what differs is the `Step`, `Initial` and
      `EpochsConsistent` of this module (capped epoch lengths, tau starting
      at 1). */
  ghost predicate IsRun(alpha: real, bonus: (int, int) -> real, scheds: seq<Schedule>,
                        countsTrace: seq<seq<nat>>, valuesTrace: seq<seq<real>>, arms: seq<nat>)
  {
    && |scheds| == |arms| + 1 && |countsTrace| == |arms| + 1 && |valuesTrace| == |arms|
    && forall i :: 0 <= i < |arms| ==>
         && Shaped(scheds[i], countsTrace[i], valuesTrace[i])
         && Step(scheds[i], countsTrace[i], valuesTrace[i], alpha, bonus) == Decision(arms[i], scheds[i + 1])
         && CountsAdvance(countsTrace[i], arms[i], countsTrace[i + 1])
  }

  /** The run starts from a fresh policy. */
  ghost predicate StartsFresh(scheds: seq<Schedule>, countsTrace: seq<seq<nat>>) {
    && |scheds| > 0 && |countsTrace| > 0
    && scheds[0] == Initial(|countsTrace[0]|) && countsTrace[0] == Zeros(|countsTrace[0]|)
  }

  lemma {:induction false} RunKeepsEpochsConsistent(alpha: real, bonus: (int, int) -> real, scheds: seq<Schedule>,
                                                    countsTrace: seq<seq<nat>>, valuesTrace: seq<seq<real>>,
                                                    arms: seq<nat>, n: nat)
    requires IsRun(alpha, bonus, scheds, countsTrace, valuesTrace, arms) && StartsFresh(scheds, countsTrace)
    requires n <= |arms|
    ensures EpochsConsistent(alpha, countsTrace[n], scheds[n])
  {
    if n > 0 {
      RunKeepsEpochsConsistent(alpha, bonus, scheds, countsTrace, valuesTrace, arms, n - 1);
      StepKeepsEpochsConsistent(scheds[n - 1], countsTrace[n - 1], valuesTrace[n - 1], alpha, bonus, countsTrace[n]);
    }
  }

  /** Along a run, with `alpha > -1`, no arm's epoch length ever decreases. */
  lemma {:induction false} RunTauNeverDecreases(alpha: real, bonus: (int, int) -> real, scheds: seq<Schedule>,
                                                countsTrace: seq<seq<nat>>, valuesTrace: seq<seq<real>>,
                                                arms: seq<nat>, n: nat, a: nat)
    requires alpha > -1.0
    requires IsRun(alpha, bonus, scheds, countsTrace, valuesTrace, arms) && StartsFresh(scheds, countsTrace)
    requires n < |arms| && a < |countsTrace[0]|
    ensures a < |scheds[n].tau| && a < |scheds[n + 1].tau|
    ensures scheds[n].tau[a] <= scheds[n + 1].tau[a]
  {
    RunKeepsEpochsConsistent(alpha, bonus, scheds, countsTrace, valuesTrace, arms, n);
    RunKeepsEpochsConsistent(alpha, bonus, scheds, countsTrace, valuesTrace, arms, n + 1);
    CappedCountsKeepLength(alpha, bonus, scheds, countsTrace, valuesTrace, arms, n);
    CappedEpochLengthMonotone(alpha, scheds[n].ka[a], scheds[n + 1].ka[a]);
  }

  /** From a fresh object, when each returned arm's count is incremented
      before the next call, the first `n <= k` calls return 0, 1, ..., n-1 in
      order; every `ka` stays 0, every `tau` stays 1 and `t` reaches `n`. */
  lemma {:induction false} RunExploresInOrder(alpha: real, bonus: (int, int) -> real, scheds: seq<Schedule>,
                                              countsTrace: seq<seq<nat>>, valuesTrace: seq<seq<real>>,
                                              arms: seq<nat>, n: nat)
    requires IsRun(alpha, bonus, scheds, countsTrace, valuesTrace, arms) && StartsFresh(scheds, countsTrace)
    requires forall i :: 0 <= i < |arms| ==> Bumped(countsTrace[i], arms[i], countsTrace[i + 1])
    requires n <= |arms| && n <= |countsTrace[0]|
    ensures forall i :: 0 <= i < n ==> arms[i] == i
    ensures scheds[n] == Initial(|countsTrace[0]|).(t := n)
  {
    var k := |countsTrace[0]|;
    forall i | 0 <= i < |arms|
      ensures arms[i] < |countsTrace[i]|
      ensures HasUnpulled(countsTrace[i]) ==>
                countsTrace[i][arms[i]] == 0 && forall j :: 0 <= j < arms[i] ==> countsTrace[i][j] > 0
    {
      assert Step(scheds[i], countsTrace[i], valuesTrace[i], alpha, bonus) == Decision(arms[i], scheds[i + 1]);
    }
    ExploresInOrder(countsTrace, arms, n);
    if n > 0 {
      var i := n - 1;
      RunExploresInOrder(alpha, bonus, scheds, countsTrace, valuesTrace, arms, i);
      ExploresInOrder(countsTrace, arms, i);
      assert countsTrace[i][i] == 0;
      assert scheds[n].tau == Initial(k).tau;
    }
  }

  /** Every count vector of a run has the initial number of arms. */
  lemma {:induction false} CappedCountsKeepLength(alpha: real, bonus: (int, int) -> real, scheds: seq<Schedule>,
                                                  countsTrace: seq<seq<nat>>, valuesTrace: seq<seq<real>>,
                                                  arms: seq<nat>, n: nat)
    requires IsRun(alpha, bonus, scheds, countsTrace, valuesTrace, arms) && n <= |arms|
    ensures |countsTrace[n]| == |countsTrace[0]|
  {
    if n > 0 {
      CappedCountsKeepLength(alpha, bonus, scheds, countsTrace, valuesTrace, arms, n - 1);
    }
  }

  /** The policy object of src/algorithms/ucb2.py. `counts` and `values`
      belong to the base class, which fills them with zeros. The object
      keeps `TauInRange` from construction on. */
  class UCB2 {
    const k: nat
    const alpha: real
    var t: int
    const ka: array<nat>
    const tau: array<int>
    const counts: array<nat>
    const values: array<real>

    ghost predicate Valid()
      reads tau
    {
      && k > 0
      && ka.Length == k && tau.Length == k && counts.Length == k && values.Length == k
      && ka != counts
      && TauInRange(alpha, tau[..])
    }

    /** The scheduler part of the object's state. */
    ghost function State(): Schedule
      reads this, ka, tau
    {
      Schedule(t, ka[..], tau[..])
    }

    constructor (k: nat, alpha: real := 0.5)
      requires k > 0
      ensures Valid() && this.k == k && this.alpha == alpha
      ensures fresh(ka) && fresh(tau) && fresh(counts) && fresh(values)
      ensures State() == Initial(k)
      ensures counts[..] == Zeros(k) && values[..] == seq(k, _ => 0.0)
    {
      this.k := k;
      this.alpha := alpha;
      t := 0;
      ka := new nat[k](_ => 0);
      tau := new int[k](_ => 1);
      counts := new nat[k](_ => 0);
      values := new real[k](_ => 0.0);
    }

    /** `select_arm`: bump `t`, pre-explore the lowest unpulled arm, else take
        the first arm of maximal clamped score and advance its epoch, with
        the capped length, once its count has reached its epoch length. */
    method SelectArm(bonus: (int, int) -> real) returns (arm: nat)
      requires Valid()
      modifies this, ka, tau
      ensures Valid()
      ensures Step(old(State()), counts[..], values[..], alpha, bonus) == Decision(arm, State())
      ensures counts[..] == old(counts[..]) && values[..] == old(values[..])
    {
      ghost var d := Step(State(), counts[..], values[..], alpha, bonus);
      t := t + 1;
      for i := 0 to k
        invariant t == d.next.t
        invariant ka[..] == old(ka[..]) && tau[..] == old(tau[..])
        invariant forall j :: 0 <= j < i ==> counts[j] > 0
      {
        if counts[i] == 0 {
          assert FirstUnpulled(counts[..]) == i;
          tau[i] := 1;
          assert ka[..] == d.next.ka && tau[..] == d.next.tau;
          return i;
        }
      }
      assert FirstUnpulled(counts[..]) == k;
      var ucb := Scores(values[..], tau[..], t, bonus);
      arm := ArgMax(ucb);
      assert arm == d.arm;
      if counts[arm] >= tau[arm] {
        ka[arm] := ka[arm] + 1;
        tau[arm] := CappedEpochLength(alpha, ka[arm]);
      }
      assert ka[..] == d.next.ka && tau[..] == d.next.tau;
    }
  }
}
