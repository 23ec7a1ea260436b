/** UCB2 as in algorithms/ucb2.py: epoch lengths start at 0 and are
    recomputed as `ceil((1 + alpha) ** ka)` with no upper bound, and the
    score divides by the raw epoch length. */
module UCB2Policy {
  import opened Selection
  import opened Epochs
  import opened UCB2Schedule

  /** The UCB2 score of every arm at step `t`. `bonus(t, tau)` stands for
      `sqrt((1 + alpha) * log(e * t / tau) / (2 * tau))`. */
  function Scores(values: seq<real>, tau: seq<int>, t: int, bonus: (int, int) -> real): seq<real>
    requires |tau| == |values|
  {
    seq(|values|, a requires 0 <= a < |values| => values[a] + bonus(t, tau[a]))
  }

  /** State right after construction: `ka` and `tau` all zero, `t == 0`. */
  function Initial(k: nat): Schedule {
    Schedule(0, seq(k, _ => 0), seq(k, _ => 0))
  }

  /** One call of `select_arm` on the scheduler state `s`, given the base
      class's `counts` and `values`. */
  function Step(s: Schedule, counts: seq<nat>, values: seq<real>, alpha: real,
                bonus: (int, int) -> real): (d: Decision)
    requires Shaped(s, counts, values)
    ensures d.arm < |counts| && d.next.t == s.t + 1
    ensures |d.next.ka| == |counts| && |d.next.tau| == |counts|
    ensures forall j :: 0 <= j < |counts| && j != d.arm ==>
              d.next.ka[j] == s.ka[j] && d.next.tau[j] == s.tau[j]
    ensures HasUnpulled(counts) ==>
              && counts[d.arm] == 0
              && (forall j :: 0 <= j < d.arm ==> counts[j] > 0)
              && d.next.tau[d.arm] == 1 && d.next.ka == s.ka
    ensures !HasUnpulled(counts) ==>
              && IsFirstArgMax(Scores(values, s.tau, s.t + 1, bonus), d.arm)
              && (counts[d.arm] >= s.tau[d.arm] ==>
                    d.next.ka[d.arm] == s.ka[d.arm] + 1 &&
                    d.next.tau[d.arm] == EpochLength(alpha, d.next.ka[d.arm]))
              && (counts[d.arm] < s.tau[d.arm] ==> d.next == s.(t := s.t + 1))
  {
    var t := s.t + 1;
    var i := FirstUnpulled(counts);
    if i < |counts| then
      Decision(i, Schedule(t, s.ka, s.tau[i := 1]))
    else
      var arm := ArgMax(Scores(values, s.tau, t, bonus));
      if counts[arm] >= s.tau[arm] then
        var ka := s.ka[arm] + 1;
        Decision(arm, Schedule(t, s.ka[arm := ka], s.tau[arm := EpochLength(alpha, ka)]))
      else
        Decision(arm, Schedule(t, s.ka, s.tau))
  }

  /** Once every arm has been pulled, the returned arm is the first maximum
      of the scores. */
  lemma FormulaArm(s: Schedule, counts: seq<nat>, values: seq<real>, alpha: real, bonus: (int, int) -> real)
    requires Shaped(s, counts, values) && !HasUnpulled(counts)
    ensures IsFirstArgMax(Scores(values, s.tau, s.t + 1, bonus), Step(s, counts, values, alpha, bonus).arm)
  {
  }

  /** What the zero start of `tau` relies on: an arm that was never pulled
      is still in epoch 0, and a pulled arm's epoch length is
      `ceil((1 + alpha) ** ka)` for its current `ka`. */
  predicate EpochsConsistent(alpha: real, counts: seq<nat>, s: Schedule) {
    && |s.ka| == |counts| && |s.tau| == |counts|
    && forall a :: 0 <= a < |counts| ==>
         (counts[a] == 0 ==> s.ka[a] == 0) &&
         (counts[a] > 0 ==> s.tau[a] == EpochLength(alpha, s.ka[a]))
  }

  /** `select_arm` keeps the epochs consistent, whatever `alpha` is, when
      the counts then rise only at the returned arm. */
  lemma StepKeepsEpochsConsistent(s: Schedule, counts: seq<nat>, values: seq<real>, alpha: real,
                                  bonus: (int, int) -> real, counts': seq<nat>)
    requires Shaped(s, counts, values) && EpochsConsistent(alpha, counts, s)
    requires CountsAdvance(counts, Step(s, counts, values, alpha, bonus).arm, counts')
    ensures EpochsConsistent(alpha, counts', Step(s, counts, values, alpha, bonus).next)
  {
  }

  /** A run of `n` calls: `scheds[i]` is the state before call `i`, which
      sees `countsTrace[i]`/`valuesTrace[i]` and returns `arms[i]`; between
      calls the counts rise only at the returned arm. */
  ghost predicate IsRun(alpha: real, bonus: (int, int) -> real, scheds: seq<Schedule>,
                        countsTrace: seq<seq<nat>>, valuesTrace: seq<seq<real>>, arms: seq<nat>)
  {
    && |scheds| == |arms| + 1 && |countsTrace| == |arms| + 1 && |valuesTrace| == |arms|
    && forall i :: 0 <= i < |arms| ==>
         && Shaped(scheds[i], countsTrace[i], valuesTrace[i])
         && Step(scheds[i], countsTrace[i], valuesTrace[i], alpha, bonus) == Decision(arms[i], scheds[i + 1])
         && CountsAdvance(countsTrace[i], arms[i], countsTrace[i + 1])
  }

  /** The run starts from a fresh policy over `k > 0` arms. */
  ghost predicate StartsFresh(scheds: seq<Schedule>, countsTrace: seq<seq<nat>>) {
    && |scheds| > 0 && |countsTrace| > 0
    && scheds[0] == Initial(|countsTrace[0]|) && countsTrace[0] == Zeros(|countsTrace[0]|)
  }

  lemma {:induction false} RunKeepsEpochsConsistent(alpha: real, bonus: (int, int) -> real, scheds: seq<Schedule>,
                                                    countsTrace: seq<seq<nat>>, valuesTrace: seq<seq<real>>,
                                                    arms: seq<nat>, n: nat)
    requires IsRun(alpha, bonus, scheds, countsTrace, valuesTrace, arms) && StartsFresh(scheds, countsTrace)
    requires n <= |arms|
    ensures EpochsConsistent(alpha, countsTrace[n], scheds[n])
  {
    if n > 0 {
      RunKeepsEpochsConsistent(alpha, bonus, scheds, countsTrace, valuesTrace, arms, n - 1);
      StepKeepsEpochsConsistent(scheds[n - 1], countsTrace[n - 1], valuesTrace[n - 1], alpha, bonus, countsTrace[n]);
    }
  }

  /** Although `tau` starts at 0, every call of a run that reaches the score
      formula (every count positive) sees `tau[a] >= 1` for every arm, so
      the formula never divides by zero; this needs `alpha > -1`. */
  lemma FormulaNeverDividesByZero(alpha: real, bonus: (int, int) -> real, scheds: seq<Schedule>,
                                  countsTrace: seq<seq<nat>>, valuesTrace: seq<seq<real>>,
                                  arms: seq<nat>, n: nat)
    requires alpha > -1.0
    requires IsRun(alpha, bonus, scheds, countsTrace, valuesTrace, arms) && StartsFresh(scheds, countsTrace)
    requires n <= |arms| && !HasUnpulled(countsTrace[n])
    ensures forall a :: 0 <= a < |scheds[n].tau| ==> scheds[n].tau[a] >= 1
  {
    RunKeepsEpochsConsistent(alpha, bonus, scheds, countsTrace, valuesTrace, arms, n);
  }

  /** From a fresh object, when each returned arm's count is incremented
      before the next call, the first `n <= k` calls return 0, 1, ..., n-1 in
      order; they set exactly those arms' `tau` from 0 to 1, leave every
      `ka` at 0 and bring `t` to `n`. */
  lemma {:induction false} RunExploresInOrder(alpha: real, bonus: (int, int) -> real, scheds: seq<Schedule>,
                                              countsTrace: seq<seq<nat>>, valuesTrace: seq<seq<real>>,
                                              arms: seq<nat>, n: nat)
    requires IsRun(alpha, bonus, scheds, countsTrace, valuesTrace, arms) && StartsFresh(scheds, countsTrace)
    requires forall i :: 0 <= i < |arms| ==> Bumped(countsTrace[i], arms[i], countsTrace[i + 1])
    requires n <= |arms| && n <= |countsTrace[0]|
    ensures forall i :: 0 <= i < n ==> arms[i] == i
    ensures var k := |countsTrace[0]|;
            scheds[n] == Schedule(n, Zeros(k), seq(k, a => if a < n then 1 else 0))
  {
    var k := |countsTrace[0]|;
    forall i | 0 <= i < |arms|
      ensures arms[i] < |countsTrace[i]|
      ensures HasUnpulled(countsTrace[i]) ==>
                countsTrace[i][arms[i]] == 0 && forall j :: 0 <= j < arms[i] ==> countsTrace[i][j] > 0
    {
      assert Step(scheds[i], countsTrace[i], valuesTrace[i], alpha, bonus) == Decision(arms[i], scheds[i + 1]);
    }
    ExploresInOrder(countsTrace, arms, n);
    if n > 0 {
      var i := n - 1;
      RunExploresInOrder(alpha, bonus, scheds, countsTrace, valuesTrace, arms, i);
      ExploresInOrder(countsTrace, arms, i);
      assert countsTrace[i][i] == 0;
      assert scheds[n].tau == seq(k, a => if a < n then 1 else 0);
    }
  }

  /** The policy object of algorithms/ucb2.py. `counts` and `values` belong
      to the base class, which fills them with zeros. */
  class UCB2 {
    const k: nat
    const alpha: real
    var t: int
    const ka: array<nat>
    const tau: array<int>
    const counts: array<nat>
    const values: array<real>

    ghost predicate Valid() {
      && k > 0
      && ka.Length == k && tau.Length == k && counts.Length == k && values.Length == k
      && ka != counts
    }

    /** The scheduler part of the object's state. */
    ghost function State(): Schedule
      reads this, ka, tau
    {
      Schedule(t, ka[..], tau[..])
    }

    constructor (k: nat, alpha: real := 0.5)
      requires k > 0
      ensures Valid() && this.k == k && this.alpha == alpha
      ensures fresh(ka) && fresh(tau) && fresh(counts) && fresh(values)
      ensures State() == Initial(k)
      ensures counts[..] == Zeros(k) && values[..] == seq(k, _ => 0.0)
    {
      this.k := k;
      this.alpha := alpha;
      t := 0;
      ka := new nat[k](_ => 0);
      tau := new int[k](_ => 0);
      counts := new nat[k](_ => 0);
      values := new real[k](_ => 0.0);
    }

    /** `select_arm`: bump `t`, pre-explore the lowest unpulled arm, else take
        the first arm of maximal score and advance its epoch once its count
        has reached its epoch length. */
    method SelectArm(bonus: (int, int) -> real) returns (arm: nat)
      requires Valid()
      modifies this, ka, tau
      ensures Valid()
      ensures Step(old(State()), counts[..], values[..], alpha, bonus) == Decision(arm, State())
      ensures counts[..] == old(counts[..]) && values[..] == old(values[..])
    {
      ghost var d := Step(State(), counts[..], values[..], alpha, bonus);
      t := t + 1;
      for i := 0 to k
        invariant t == d.next.t
        invariant ka[..] == old(ka[..]) && tau[..] == old(tau[..])
        invariant forall j :: 0 <= j < i ==> counts[j] > 0
      {
        if counts[i] == 0 {
          assert FirstUnpulled(counts[..]) == i;
          tau[i] := 1;
          assert ka[..] == d.next.ka && tau[..] == d.next.tau;
          return i;
        }
      }
      assert FirstUnpulled(counts[..]) == k;
      var ucb := Scores(values[..], tau[..], t, bonus);
      arm := ArgMax(ucb);
      assert arm == d.arm;
      if counts[arm] >= tau[arm] {
        ka[arm] := ka[arm] + 1;
        tau[arm] := EpochLength(alpha, ka[arm]);
      }
      assert ka[..] == d.next.ka && tau[..] == d.next.tau;
    }
  }
}
