/** The state both UCB2 copies keep beside the base class's `counts` and
    `values`, and what one `select_arm` call returns. */
module UCB2Schedule {

  /** The scheduler state a UCB2 policy adds to the base class: the step
      counter `t`, the per-arm epoch counters `ka` and epoch lengths `tau`. */
  datatype Schedule = Schedule(t: int, ka: seq<nat>, tau: seq<int>)

  /** What one `select_arm` call yields: the returned arm and the new state. */
  datatype Decision = Decision(arm: nat, next: Schedule)

  /** The schedule and the base class's `counts`/`values` all cover the same
      non-empty set of arms. */
  predicate Shaped(s: Schedule, counts: seq<nat>, values: seq<real>) {
    && |counts| > 0
    && |s.ka| == |counts| && |s.tau| == |counts| && |values| == |counts|
  }
}
