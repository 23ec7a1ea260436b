/** Construction failures shared by the arm classes: their constructors
    assert their parameters and raise on a violation. */
module ArmParams {

  /** Which constructor assertion failed. */
  datatype InvalidParameter =
    | TrialsNotPositive       // `n > 0` failed
    | ProbabilityOutOfRange   // `0 <= p <= 1` failed

  datatype Result<T> = Ok(value: T) | Err(error: InvalidParameter)

  predicate IsProbability(p: real) {
    0.0 <= p <= 1.0
  }

  /** What `np.random.uniform(0, 1, k)` can draw. */
  predicate AreUniformDraws(ps: seq<real>) {
    forall i :: 0 <= i < |ps| ==> 0.0 <= ps[i] < 1.0
  }
}

/** The binomial arm of arms/armbinomial.py: `n` trials of success
    probability `p`, set once at construction. */
module BinomialArm {
  import opened ArmParams

  datatype ArmBinomial = ArmBinomial(n: int, p: real)

  /** The arms the constructor can produce. */
  predicate Valid(arm: ArmBinomial) {
    arm.n > 0 && IsProbability(arm.p)
  }

  /** `ArmBinomial(n, p)`: checks `n > 0`, then `0 <= p <= 1`, and stores
      both unchanged. */
  function New(n: int, p: real): (r: Result<ArmBinomial>)
    ensures r.Ok? <==> n > 0 && IsProbability(p)
    ensures r.Ok? ==> r.value.n == n && r.value.p == p && Valid(r.value)
    ensures n <= 0 ==> r == Err(TrialsNotPositive)
    ensures n > 0 && !IsProbability(p) ==> r == Err(ProbabilityOutOfRange)
  {
    if n <= 0 then Err(TrialsNotPositive)
    else if !IsProbability(p) then Err(ProbabilityOutOfRange)
    else Ok(ArmBinomial(n, p))
  }

  /** `get_expected_value`: the mean `n * p` of the binomial distribution,
      which for a constructed arm lies between 0 and `n`. */
  function ExpectedValue(arm: ArmBinomial): (e: real)
    requires Valid(arm)
    ensures 0.0 <= e <= arm.n as real
    ensures arm.p == 0.0 <==> e == 0.0
    ensures arm.p == 1.0 <==> e == arm.n as real
  {
    arm.n as real * arm.p
  }

  /** `generate_arms(k, n)` with the `k` uniform draws `ps` given: one arm
      per draw, in order, each with `n` trials; it fails exactly when it
      builds an arm and `n <= 0`. */
  function GenerateArms(ps: seq<real>, n: int := 10): (r: Result<seq<ArmBinomial>>)
    requires AreUniformDraws(ps)
    ensures r.Ok? <==> n > 0 || |ps| == 0
    ensures r.Err? ==> r.error == TrialsNotPositive
    ensures r.Ok? ==> |r.value| == |ps|
    ensures r.Ok? ==> forall i :: 0 <= i < |ps| ==> r.value[i] == ArmBinomial(n, ps[i]) && Valid(r.value[i])
  {
    if |ps| == 0 then Ok([])
    else
      match New(n, ps[0])
      case Err(e) => Err(e)
      case Ok(first) =>
        match GenerateArms(ps[1..], n)
        case Err(e) => Err(e)
        case Ok(rest) => Ok([first] + rest)
  }
}

/** The Bernoulli arm of src/arms/armbernoulli.py: success probability `p`,
    set once at construction. */
module BernoulliArm {
  import opened ArmParams
  import BinomialArm

  datatype ArmBernoulli = ArmBernoulli(p: real)

  predicate Valid(arm: ArmBernoulli) {
    IsProbability(arm.p)
  }

  /** `ArmBernoulli(p)`: checks `0 <= p <= 1` and stores `p` unchanged. */
  function New(p: real): (r: Result<ArmBernoulli>)
    ensures r.Ok? <==> IsProbability(p)
    ensures r.Ok? ==> r.value.p == p && Valid(r.value)
    ensures r.Err? ==> r.error == ProbabilityOutOfRange
  {
    if IsProbability(p) then Ok(ArmBernoulli(p)) else Err(ProbabilityOutOfRange)
  }

  /** `get_expected_value`: the success probability, a value in [0, 1]. */
  function ExpectedValue(arm: ArmBernoulli): (e: real)
    requires Valid(arm)
    ensures 0.0 <= e <= 1.0
  {
    arm.p
  }

  /** `generate_arms(k)` with the `k` uniform draws `ps` given: one arm per
      draw, in order. */
  function GenerateArms(ps: seq<real>): (arms: seq<ArmBernoulli>)
    requires AreUniformDraws(ps)
    ensures |arms| == |ps|
    ensures forall i :: 0 <= i < |ps| ==> New(ps[i]) == Ok(arms[i])
  {
    if |ps| == 0 then [] else [New(ps[0]).value] + GenerateArms(ps[1..])
  }

  /** `pull` draws `binomial(1, p)`: a Bernoulli arm is accepted exactly when
      a one-trial binomial arm with the same `p` is, and then has the same
      expected value. */
  lemma SameAsOneTrialBinomial(p: real)
    ensures New(p).Ok? <==> BinomialArm.New(1, p).Ok?
    ensures New(p).Ok? ==>
              ExpectedValue(New(p).value) == BinomialArm.ExpectedValue(BinomialArm.New(1, p).value)
  {
  }
}
