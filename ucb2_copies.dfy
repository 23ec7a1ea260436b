/** The two UCB2 copies side by side: src/algorithms/ucb2.py (tau starts at
    1, clamped in the score, capped at 10^6) and algorithms/ucb2.py (tau
    starts at 0, no clamp, no cap). While no recomputed epoch length
    exceeds the cap, and as long as every score is a real number, they
    return the same arms and make the same changes. A NaN score, which the
    capped copy turns into minus infinity and numpy's `argmax` of the other
    copy returns, is outside this model (the scores here are reals). */
module UCB2Copies {
  import opened Selection
  import opened Epochs
  import opened UCB2Schedule
  import Capped = UCB2CappedPolicy
  import Plain = UCB2Policy

  /** Every arm's epoch length `ceil((1 + alpha) ** ka)` is within the cap,
      so the capped copy stores it unchanged. */
  predicate EpochsWithinCap(alpha: real, ka: seq<nat>) {
    forall a :: 0 <= a < |ka| ==> EpochLength(alpha, ka[a]) <= Capped.TauMax
  }

  /** Where the policies agree on `ka` and have pulled every arm, the
      clamped score of the capped copy equals the raw score of the other. */
  lemma ScoresAgree(alpha: real, bonus: (int, int) -> real, counts: seq<nat>, values: seq<real>,
                    cs: Schedule, ps: Schedule)
    requires alpha > -1.0
    requires Shaped(cs, counts, values) && Shaped(ps, counts, values)
    requires cs.t == ps.t && cs.ka == ps.ka && !HasUnpulled(counts)
    requires Capped.EpochsConsistent(alpha, counts, cs) && Plain.EpochsConsistent(alpha, counts, ps)
    requires EpochsWithinCap(alpha, cs.ka)
    ensures Capped.Scores(values, cs.tau, cs.t + 1, bonus) == Plain.Scores(values, ps.tau, ps.t + 1, bonus)
  {
    forall a | 0 <= a < |counts|
      ensures Capped.AtLeastOne(cs.tau[a]) == ps.tau[a]
    {
      assert counts[a] != 0;
    }
  }

  /** The pre-exploration case of `StepsAgree`. */
  lemma ExplorationAgrees(alpha: real, bonus: (int, int) -> real, counts: seq<nat>, values: seq<real>,
                          cs: Schedule, ps: Schedule)
    requires Shaped(cs, counts, values) && Shaped(ps, counts, values)
    requires cs.t == ps.t && cs.ka == ps.ka && HasUnpulled(counts)
    ensures var c := Capped.Step(cs, counts, values, alpha, bonus);
            var p := Plain.Step(ps, counts, values, alpha, bonus);
            && c.arm == p.arm && c.next.t == p.next.t && c.next.ka == p.next.ka
            && c.next.tau[c.arm] == p.next.tau[p.arm]
  {
    var c := Capped.Step(cs, counts, values, alpha, bonus);
    var p := Plain.Step(ps, counts, values, alpha, bonus);
    assert c.arm == FirstUnpulled(counts) == p.arm;
  }

  /** In the score-formula case, below the cap, both copies return the same
      arm. */
  lemma SameArm(alpha: real, bonus: (int, int) -> real, counts: seq<nat>, values: seq<real>,
                cs: Schedule, ps: Schedule)
    requires alpha > -1.0
    requires Shaped(cs, counts, values) && Shaped(ps, counts, values)
    requires cs.t == ps.t && cs.ka == ps.ka && !HasUnpulled(counts)
    requires Capped.EpochsConsistent(alpha, counts, cs) && Plain.EpochsConsistent(alpha, counts, ps)
    requires EpochsWithinCap(alpha, cs.ka)
    ensures Capped.Step(cs, counts, values, alpha, bonus).arm == Plain.Step(ps, counts, values, alpha, bonus).arm
  {
    var cscores := Capped.Scores(values, cs.tau, cs.t + 1, bonus);
    var pscores := Plain.Scores(values, ps.tau, ps.t + 1, bonus);
    assert cscores == pscores by {
      ScoresAgree(alpha, bonus, counts, values, cs, ps);
    }
    Capped.FormulaArm(cs, counts, values, alpha, bonus);
    Plain.FormulaArm(ps, counts, values, alpha, bonus);
    FirstArgMaxUnique(pscores, Capped.Step(cs, counts, values, alpha, bonus).arm,
                      Plain.Step(ps, counts, values, alpha, bonus).arm);
  }

  /** The score-formula case of `StepsAgree`. */
  lemma FormulaAgrees(alpha: real, bonus: (int, int) -> real, counts: seq<nat>, values: seq<real>,
                      cs: Schedule, ps: Schedule)
    requires alpha > -1.0
    requires Shaped(cs, counts, values) && Shaped(ps, counts, values)
    requires cs.t == ps.t && cs.ka == ps.ka && !HasUnpulled(counts)
    requires Capped.EpochsConsistent(alpha, counts, cs) && Plain.EpochsConsistent(alpha, counts, ps)
    requires EpochsWithinCap(alpha, cs.ka)
    requires EpochsWithinCap(alpha, Capped.Step(cs, counts, values, alpha, bonus).next.ka)
    ensures var c := Capped.Step(cs, counts, values, alpha, bonus);
            var p := Plain.Step(ps, counts, values, alpha, bonus);
            && c.arm == p.arm && c.next.t == p.next.t && c.next.ka == p.next.ka
            && c.next.tau[c.arm] == p.next.tau[p.arm]
  {
    var c := Capped.Step(cs, counts, values, alpha, bonus);
    var p := Plain.Step(ps, counts, values, alpha, bonus);
    SameArm(alpha, bonus, counts, values, cs, ps);
    var arm := c.arm;
    assert cs.tau[arm] == ps.tau[arm] by {
      assert counts[arm] != 0;
    }
    if counts[arm] >= cs.tau[arm] {
      assert c.next.ka == cs.ka[arm := cs.ka[arm] + 1] == p.next.ka;
      assert EpochLength(alpha, c.next.ka[arm]) <= Capped.TauMax;
    } else {
      assert c.next.ka == cs.ka == p.next.ka;
    }
  }

  /** From states that agree on `t` and `ka`, whose epochs are consistent
      with the same counts and within the cap before and after the call, one
      call of each copy returns the same arm, sets the same `t` and `ka`,
      and gives every arm that has been pulled or is returned now the same
      epoch length. */
  lemma StepsAgree(alpha: real, bonus: (int, int) -> real, counts: seq<nat>, values: seq<real>,
                   cs: Schedule, ps: Schedule)
    requires alpha > -1.0
    requires Shaped(cs, counts, values) && Shaped(ps, counts, values)
    requires cs.t == ps.t && cs.ka == ps.ka
    requires Capped.EpochsConsistent(alpha, counts, cs) && Plain.EpochsConsistent(alpha, counts, ps)
    requires EpochsWithinCap(alpha, cs.ka)
    requires EpochsWithinCap(alpha, Capped.Step(cs, counts, values, alpha, bonus).next.ka)
    ensures var c := Capped.Step(cs, counts, values, alpha, bonus);
            var p := Plain.Step(ps, counts, values, alpha, bonus);
            && c.arm == p.arm && c.next.t == p.next.t && c.next.ka == p.next.ka
            && forall a :: 0 <= a < |counts| && (counts[a] > 0 || a == c.arm) ==> c.next.tau[a] == p.next.tau[a]
  {
    if HasUnpulled(counts) {
      ExplorationAgrees(alpha, bonus, counts, values, cs, ps);
    } else {
      FormulaAgrees(alpha, bonus, counts, values, cs, ps);
    }
  }

  /** Two runs, one of each copy, fed the same counts and values from fresh
      objects, return the same arms for their first `n` calls and keep the
      same `t` and `ka`, as long as every epoch length the capped run reaches
      in those calls is within the cap. */
  lemma {:induction false} RunsAgree(alpha: real, bonus: (int, int) -> real,
                                     cscheds: seq<Schedule>, pscheds: seq<Schedule>,
                                     countsTrace: seq<seq<nat>>, valuesTrace: seq<seq<real>>,
                                     carms: seq<nat>, parms: seq<nat>, n: nat)
    requires alpha > -1.0
    requires Capped.IsRun(alpha, bonus, cscheds, countsTrace, valuesTrace, carms)
    requires Plain.IsRun(alpha, bonus, pscheds, countsTrace, valuesTrace, parms)
    requires Capped.StartsFresh(cscheds, countsTrace) && Plain.StartsFresh(pscheds, countsTrace)
    requires n <= |carms|
    requires forall i :: 0 <= i <= n ==> EpochsWithinCap(alpha, cscheds[i].ka)
    ensures |parms| == |carms|
    ensures forall j :: 0 <= j < n ==> carms[j] == parms[j]
    ensures cscheds[n].t == pscheds[n].t && cscheds[n].ka == pscheds[n].ka
  {
    if n > 0 {
      var i := n - 1;
      RunsAgree(alpha, bonus, cscheds, pscheds, countsTrace, valuesTrace, carms, parms, i);
      assert carms[i] == parms[i] && cscheds[n].t == pscheds[n].t && cscheds[n].ka == pscheds[n].ka by {
        Capped.RunKeepsEpochsConsistent(alpha, bonus, cscheds, countsTrace, valuesTrace, carms, i);
        Plain.RunKeepsEpochsConsistent(alpha, bonus, pscheds, countsTrace, valuesTrace, parms, i);
        var counts, values := countsTrace[i], valuesTrace[i];
        assert Capped.Step(cscheds[i], counts, values, alpha, bonus) == Decision(carms[i], cscheds[n]);
        assert Plain.Step(pscheds[i], counts, values, alpha, bonus) == Decision(parms[i], pscheds[n]);
        assert EpochsWithinCap(alpha, cscheds[i].ka) && EpochsWithinCap(alpha, cscheds[n].ka);
        StepsAgree(alpha, bonus, counts, values, cscheds[i], pscheds[i]);
      }
    }
  }
}
