/**
  Offline tuning (crates/bollwark-tuning/src/lib.rs): scoring samples against
  candidate weights and the bounded coordinate search. Rates are exact reals.
 */
module Tuning {
  import opened Common

  const KEYS: nat := 10
  const SWEEPS: nat := 3
  const DELTAS: seq<I32> := [-15, -10, -5, 5, 10, 15]

  newtype I32 = x: int | -0x8000_0000 <= x < 0x8000_0000

  type Weights = w: seq<nat> | |w| == KEYS witness seq(KEYS, _ => 1)

  type Activations = a: seq<bool> | |a| == KEYS witness seq(KEYS, _ => false)

  datatype Sample = Sample(spam: bool, active: Activations, fixedScore: nat)

  datatype Metrics = Metrics(legit: nat, spam: nat, legitBlocked: nat, spamBlocked: nat)

  datatype Ceiling = Finite(value: real) | NotFinite {
    function GetValue(): real {
      if Finite? then value else 0.0
    }
  }


  datatype Policy = Policy(blockMin: nat, maxFalsePositiveRate: Ceiling, minPerClass: nat) {
    predicate Valid() {
      blockMin != 0 && maxFalsePositiveRate.Finite? && 0.0 <= maxFalsePositiveRate.value <= 0.05 && minPerClass >= 20
    }

    predicate Enough(m: Metrics) {
      m.legit >= minPerClass && m.spam >= minPerClass
    }
  }

  // ---- Scoring samples -----------------------------------------------------

  /** The weights whose activations are set, added up. */
  function ActiveSum(active: seq<bool>, weights: seq<nat>): nat
    requires |active| == |weights|
  {
    if |active| == 0 then 0
    else
      var n := |active| - 1;
      ActiveSum(active[..n], weights[..n]) + (if active[n] then weights[n] else 0)
  }

  lemma ActiveSumStep(active: seq<bool>, weights: seq<nat>, n: nat)
    requires n < |active| == |weights|
    ensures ActiveSum(active[..n + 1], weights[..n + 1]) ==
            ActiveSum(active[..n], weights[..n]) + (if active[n] then weights[n] else 0)
  {
    assert active[..n + 1][..n] == active[..n] && weights[..n + 1][..n] == weights[..n];
  }

  function SampleScore(s: Sample, weights: Weights): nat {
    s.fixedScore + ActiveSum(s.active, weights)
  }

  predicate IsBlocked(s: Sample, weights: Weights, blockMin: nat) {
    SampleScore(s, weights) >= blockMin
  }

  /** How many samples of one class there are, and how many of them are blocked. */
  ghost function Class(samples: seq<Sample>, spam: bool): nat {
    if samples == [] then 0
    else Class(samples[..|samples| - 1], spam) + (if samples[|samples| - 1].spam == spam then 1 else 0)
  }

  ghost function Blocked(samples: seq<Sample>, weights: Weights, blockMin: nat, spam: bool): nat {
    if samples == [] then 0
    else
      var s := samples[|samples| - 1];
      Blocked(samples[..|samples| - 1], weights, blockMin, spam) +
      (if s.spam == spam && IsBlocked(s, weights, blockMin) then 1 else 0)
  }

  ghost function MetricsOf(samples: seq<Sample>, weights: Weights, blockMin: nat): Metrics {
    Metrics(Class(samples, false), Class(samples, true),
            Blocked(samples, weights, blockMin, false), Blocked(samples, weights, blockMin, true))
  }

  lemma {:induction false} BlockedAtMostClass(samples: seq<Sample>, weights: Weights, blockMin: nat, spam: bool)
    ensures Blocked(samples, weights, blockMin, spam) <= Class(samples, spam)
  {
    if samples != [] {
      BlockedAtMostClass(samples[..|samples| - 1], weights, blockMin, spam);
    }
  }

  /** `evaluate`: one pass, counting into a running total. */
  method Evaluate(samples: seq<Sample>, weights: Weights, blockMin: nat) returns (m: Metrics)
    ensures m == MetricsOf(samples, weights, blockMin)
    ensures m.legitBlocked <= m.legit && m.spamBlocked <= m.spam && m.legit + m.spam == |samples|
  {
    m := Metrics(0, 0, 0, 0);
    var k := 0;
    while k < |samples|
      invariant 0 <= k <= |samples|
      invariant m == MetricsOf(samples[..k], weights, blockMin)
      invariant m.legit + m.spam == k
    {
      var s := samples[k];
      assert samples[..k + 1][..k] == samples[..k];
      var score := s.fixedScore;
      for i := 0 to KEYS
        invariant score == s.fixedScore + ActiveSum(s.active[..i], weights[..i])
      {
        ActiveSumStep(s.active, weights, i);
        if s.active[i] {
          score := score + weights[i];
        }
      }
      assert s.active[..KEYS] == s.active && weights[..KEYS] == weights;
      var blocked := if score >= blockMin then 1 else 0;
      if s.spam {
        m := m.(spam := m.spam + 1, spamBlocked := m.spamBlocked + blocked);
      } else {
        m := m.(legit := m.legit + 1, legitBlocked := m.legitBlocked + blocked);
      }
      k := k + 1;
    }
    assert samples[..|samples|] == samples;
    BlockedAtMostClass(samples, weights, blockMin, false);
    BlockedAtMostClass(samples, weights, blockMin, true);
  }

  function FalsePositiveRate(m: Metrics): real {
    if m.legit == 0 then 1.0 else m.legitBlocked as real / m.legit as real
  }

  // ---- Coordinate search ---------------------------------------------------

  function Floor(b: nat): nat {
    Max(b / 2, 1)
  }

  function Ceil(b: nat): nat {
    b + b / 2
  }

  ghost predicate WithinBounds(w: Weights, baseline: Weights) {
    forall i :: 0 <= i < KEYS ==> Floor(baseline[i]) <= w[i] <= Ceil(baseline[i])
  }

  ghost predicate BaselineOk(baseline: Weights) {
    forall i :: 0 <= i < KEYS ==> 1 <= baseline[i] <= 1000
  }

  function Clamp(x: int, lo: int, hi: int): int
    requires lo <= hi
  {
    if x < lo then lo else if x > hi then hi else x
  }

  /** Three sweeps of six steps on every weight. */
  function Moves(baseline: Weights): nat {
    SWEEPS * (6 * |baseline|)
  }

  /** The single-coordinate candidate of move n, tried from `best`. */
  function Candidate(best: Weights, baseline: Weights, n: nat): Weights
    requires baseline[(n / 6) % KEYS] >= 1
  {
    var i := (n / 6) % KEYS;
    best[i := Max(0, Clamp(best[i] + DELTAS[n % 6] as int, Floor(baseline[i]), Ceil(baseline[i])))]
  }

  /** Dwell ordering kept, and no single probe able to block alone. */
  predicate Allowed(w: Weights, blockMin: nat) {
    w[0] >= w[1] && forall i :: 2 <= i < KEYS ==> w[i] < blockMin
  }

  /** Lexicographic: catches more spam, or as much while blocking fewer legitimate samples. */
  predicate Improves(m: Metrics, than: Metrics) {
    m.spamBlocked > than.spamBlocked || (m.spamBlocked == than.spamBlocked && m.legitBlocked < than.legitBlocked)
  }

  /** What a candidate must satisfy besides improving. */
  predicate Safe(m: Metrics, base: Metrics, ceiling: real) {
    m.legitBlocked <= base.legitBlocked && FalsePositiveRate(m) <= ceiling
  }

  ghost predicate Admissible(train: seq<Sample>, w: Weights, baseline: Weights, policy: Policy)
    requires policy.Valid()
  {
    Allowed(w, policy.blockMin) &&
    Safe(MetricsOf(train, w, policy.blockMin), MetricsOf(train, baseline, policy.blockMin), policy.maxFalsePositiveRate.value)
  }

  /** One move: take the candidate if it is admissible and improves on the best so far. */
  ghost function Move(train: seq<Sample>, baseline: Weights, policy: Policy, best: Weights, n: nat): Weights
    requires n < Moves(baseline) && BaselineOk(baseline) && policy.Valid()
  {
    var c := Candidate(best, baseline, n);
    if Admissible(train, c, baseline, policy) &&
       Improves(MetricsOf(train, c, policy.blockMin), MetricsOf(train, best, policy.blockMin))
    then c else best
  }

  /** The search after n moves. */
  ghost function SearchAt(train: seq<Sample>, baseline: Weights, policy: Policy, n: nat): Weights
    requires n <= Moves(baseline) && BaselineOk(baseline) && policy.Valid()
  {
    if n == 0 then baseline else Move(train, baseline, policy, SearchAt(train, baseline, policy, n - 1), n - 1)
  }

  lemma {:induction false} SearchStaysWithinBounds(train: seq<Sample>, baseline: Weights, policy: Policy, n: nat)
    requires n <= Moves(baseline) && BaselineOk(baseline) && policy.Valid()
    ensures WithinBounds(SearchAt(train, baseline, policy, n), baseline)
  {
    if n > 0 {
      SearchStaysWithinBounds(train, baseline, policy, n - 1);
    }
  }

  /** One weight moved and clamped, with 32-bit signed intermediate values. */
  method Nudge(best: Weights, baseline: Weights, i: nat, d: nat, ghost n: nat) returns (candidate: Weights)
    requires BaselineOk(baseline) && WithinBounds(best, baseline)
    requires n < Moves(baseline) && d == n % 6 && i == (n / 6) % KEYS
    ensures candidate == Candidate(best, baseline, n)
  {
    assert best[i] <= 1500;
    var lo: I32 := Floor(baseline[i]) as I32;
    var hi: I32 := Ceil(baseline[i]) as I32;
    var moved: I32 := best[i] as I32 + DELTAS[d];
    var weight: nat := Clamp(moved as int, lo as int, hi as int);
    candidate := best[i := weight];
  }

  /** The body of the innermost loop: evaluate one candidate and keep it if it is better and allowed. */
  method Consider(train: seq<Sample>, baseline: Weights, policy: Policy, base: Metrics,
                  best: Weights, bestMetrics: Metrics, candidate: Weights, ghost n: nat)
    returns (next: Weights, nextMetrics: Metrics)
    requires BaselineOk(baseline) && policy.Valid() && base == MetricsOf(train, baseline, policy.blockMin)
    requires n < Moves(baseline) && candidate == Candidate(best, baseline, n)
    requires bestMetrics == MetricsOf(train, best, policy.blockMin)
    ensures next == Move(train, baseline, policy, best, n)
    ensures nextMetrics == MetricsOf(train, next, policy.blockMin)
  {
    next, nextMetrics := best, bestMetrics;
    if Allowed(candidate, policy.blockMin) {
      var m := Evaluate(train, candidate, policy.blockMin);
      if Improves(m, bestMetrics) && m.legitBlocked <= base.legitBlocked &&
         FalsePositiveRate(m) <= policy.maxFalsePositiveRate.value {
        next, nextMetrics := candidate, m;
      }
    }
  }

  /** One move of the search. */
  method TryMove(train: seq<Sample>, baseline: Weights, policy: Policy, base: Metrics,
                 best: Weights, bestMetrics: Metrics, i: nat, d: nat, ghost n: nat)
    returns (next: Weights, nextMetrics: Metrics)
    requires BaselineOk(baseline) && policy.Valid() && base == MetricsOf(train, baseline, policy.blockMin)
    requires n < Moves(baseline) && d == n % 6 && i == (n / 6) % KEYS
    requires best == SearchAt(train, baseline, policy, n) && bestMetrics == MetricsOf(train, best, policy.blockMin)
    ensures next == SearchAt(train, baseline, policy, n + 1)
    ensures nextMetrics == MetricsOf(train, next, policy.blockMin)
  {
    SearchStaysWithinBounds(train, baseline, policy, n);
    var candidate := Nudge(best, baseline, i, d, n);
    next, nextMetrics := Consider(train, baseline, policy, base, best, bestMetrics, candidate, n);
  }

  /** The search: three sweeps, every coordinate, every step. */
  method Search(train: seq<Sample>, baseline: Weights, policy: Policy) returns (r: Result<Weights>)
    ensures r.Ok? <==>
              && policy.blockMin > 0 && policy.minPerClass >= 20
              && policy.maxFalsePositiveRate.Finite? && 0.0 <= policy.maxFalsePositiveRate.value <= 0.05
              && (forall i :: 0 <= i < KEYS ==> 1 <= baseline[i] <= 1000)
              && Class(train, false) >= policy.minPerClass && Class(train, true) >= policy.minPerClass
    ensures r.Ok? ==> policy.Valid() && BaselineOk(baseline)
    ensures r.Ok? ==> r.value == SearchAt(train, baseline, policy, Moves(baseline))
    ensures r.Ok? ==> NearBaseline(r.value, baseline)
    ensures r.Ok? ==>
      var b := policy.blockMin;
      var spam, legit := Blocked(train, r.value, b, true), Blocked(train, r.value, b, false);
      && legit <= Blocked(train, baseline, b, false)
      && spam >= Blocked(train, baseline, b, true)
      && (r.value != baseline ==>
            && Eligible(train, r.value, baseline, policy)
            && (spam > Blocked(train, baseline, b, true) || legit < Blocked(train, baseline, b, false)))
  {
    if !policy.Valid() {
      return Err("policy out of range");
    }
    if exists i :: 0 <= i < KEYS && (baseline[i] == 0 || baseline[i] > 1000) {
      return Err("baseline weights must be in 1..=1000");
    }
    assert BaselineOk(baseline);
    var base := Evaluate(train, baseline, policy.blockMin);
    if !policy.Enough(base) {
      return Err("insufficient training labels");
    }
    var best := Climb(train, baseline, policy, base);
    SearchIsSafe(train, baseline, policy, Moves(baseline));
    return Ok(best);
  }

  method Climb(train: seq<Sample>, baseline: Weights, policy: Policy, base: Metrics) returns (best: Weights)
    requires BaselineOk(baseline) && policy.Valid() && base == MetricsOf(train, baseline, policy.blockMin)
    ensures best == SearchAt(train, baseline, policy, Moves(baseline))
  {
    best := baseline;
    var bestMetrics := base;
    ghost var n := 0;
    for sweep := 0 to SWEEPS
      invariant n == 60 * sweep
      invariant best == SearchAt(train, baseline, policy, n)
      invariant bestMetrics == MetricsOf(train, best, policy.blockMin)
    {
      best, bestMetrics := Sweep(train, baseline, policy, base, best, bestMetrics, sweep, n);
      n := n + 60;
    }
  }

  /** One sweep: every coordinate in order. */
  method Sweep(train: seq<Sample>, baseline: Weights, policy: Policy, base: Metrics,
               start: Weights, startMetrics: Metrics, ghost sweep: nat, ghost n: nat)
    returns (best: Weights, bestMetrics: Metrics)
    requires BaselineOk(baseline) && policy.Valid() && base == MetricsOf(train, baseline, policy.blockMin)
    requires sweep < SWEEPS && n == 60 * sweep
    requires start == SearchAt(train, baseline, policy, n) && startMetrics == MetricsOf(train, start, policy.blockMin)
    ensures best == SearchAt(train, baseline, policy, n + 60)
    ensures bestMetrics == MetricsOf(train, best, policy.blockMin)
  {
    best, bestMetrics := start, startMetrics;
    ghost var m := n;
    for i := 0 to KEYS
      invariant m == n + 6 * i
      invariant best == SearchAt(train, baseline, policy, m)
      invariant bestMetrics == MetricsOf(train, best, policy.blockMin)
    {
      MoveIndex(sweep, i);
      best, bestMetrics := TryCoordinate(train, baseline, policy, base, best, bestMetrics, i, m);
      m := m + 6;
    }
  }

  /** One coordinate: the six steps in order, each from the best so far. */
  method TryCoordinate(train: seq<Sample>, baseline: Weights, policy: Policy, base: Metrics,
                       start: Weights, startMetrics: Metrics, i: nat, ghost n: nat)
    returns (best: Weights, bestMetrics: Metrics)
    requires BaselineOk(baseline) && policy.Valid() && base == MetricsOf(train, baseline, policy.blockMin)
    requires n + 6 <= Moves(baseline) && n % 6 == 0 && (n / 6) % KEYS == i
    requires start == SearchAt(train, baseline, policy, n) && startMetrics == MetricsOf(train, start, policy.blockMin)
    ensures best == SearchAt(train, baseline, policy, n + 6) && bestMetrics == MetricsOf(train, best, policy.blockMin)
  {
    best, bestMetrics := start, startMetrics;
    ghost var m := n;
    for d := 0 to |DELTAS|
      invariant m == n + d
      invariant best == SearchAt(train, baseline, policy, m)
      invariant bestMetrics == MetricsOf(train, best, policy.blockMin)
    {
      StepIndex(n, d);
      best, bestMetrics := TryMove(train, baseline, policy, base, best, bestMetrics, i, d, m);
      m := m + 1;
    }
  }

  lemma MoveIndex(sweep: nat, i: nat)
    requires i < KEYS
    ensures var n := 60 * sweep + 6 * i; n % 6 == 0 && (n / 6) % KEYS == i
  {
    var n := 60 * sweep + 6 * i;
    assert n / 6 == KEYS * sweep + i;
  }

  lemma StepIndex(n: nat, d: nat)
    requires n % 6 == 0 && d < 6
    ensures (n + d) % 6 == d && (n + d) / 6 == n / 6
  {
  }

  // ---- What the search guarantees ------------------------------------------

  /** Lexicographically no worse: w blocks more spam than v, or as much and no more legitimate samples. */
  ghost predicate Dominates(train: seq<Sample>, blockMin: nat, w: Weights, v: Weights) {
    || Blocked(train, w, blockMin, true) > Blocked(train, v, blockMin, true)
    || (Blocked(train, w, blockMin, true) == Blocked(train, v, blockMin, true) &&
        Blocked(train, w, blockMin, false) <= Blocked(train, v, blockMin, false))
  }

  /** From weights v to w the counts did not get worse, and a change of weights was a strict gain. */
  ghost predicate Climbed(train: seq<Sample>, blockMin: nat, v: Weights, w: Weights) {
    Dominates(train, blockMin, w, v) && (v != w ==> !Dominates(train, blockMin, v, w))
  }

  lemma ClimbsChain(train: seq<Sample>, blockMin: nat, u: Weights, v: Weights, w: Weights)
    requires Climbed(train, blockMin, u, v) && Climbed(train, blockMin, v, w)
    ensures Climbed(train, blockMin, u, w)
  {
  }

  /** One move keeps the weights or takes an admissible, strictly better candidate. */
  lemma MoveClimbs(train: seq<Sample>, baseline: Weights, policy: Policy, best: Weights, n: nat)
    requires n < Moves(baseline) && BaselineOk(baseline) && policy.Valid()
    ensures var next := Move(train, baseline, policy, best, n);
            && Climbed(train, policy.blockMin, best, next)
            && (next != best ==> Admissible(train, next, baseline, policy))
  {
  }

  lemma {:induction false} SearchIsAdmissible(train: seq<Sample>, baseline: Weights, policy: Policy, n: nat)
    requires n <= Moves(baseline) && BaselineOk(baseline) && policy.Valid()
    ensures var r := SearchAt(train, baseline, policy, n);
            r == baseline || Admissible(train, r, baseline, policy)
  {
    if n > 0 {
      SearchIsAdmissible(train, baseline, policy, n - 1);
      MoveClimbs(train, baseline, policy, SearchAt(train, baseline, policy, n - 1), n - 1);
    }
  }

  /** Along a run the counts only climb, and any change of weights is a strict gain. */
  lemma {:induction false} SearchClimbs(train: seq<Sample>, baseline: Weights, policy: Policy, n: nat, m: nat)
    requires n <= m <= Moves(baseline) && BaselineOk(baseline) && policy.Valid()
    ensures var a, b := SearchAt(train, baseline, policy, n), SearchAt(train, baseline, policy, m);
            Climbed(train, policy.blockMin, a, b)
  {
    if n < m {
      SearchClimbs(train, baseline, policy, n, m - 1);
      LastMoveClimbs(train, baseline, policy, SearchAt(train, baseline, policy, n),
                     SearchAt(train, baseline, policy, m - 1), m - 1);
    }
  }

  lemma LastMoveClimbs(train: seq<Sample>, baseline: Weights, policy: Policy, a: Weights, before: Weights, n: nat)
    requires n < Moves(baseline) && BaselineOk(baseline) && policy.Valid()
    requires Climbed(train, policy.blockMin, a, before)
    ensures Climbed(train, policy.blockMin, a, Move(train, baseline, policy, before, n))
  {
    MoveClimbs(train, baseline, policy, before, n);
    ClimbsChain(train, policy.blockMin, a, before, Move(train, baseline, policy, before, n));
  }

  // ---- The same guarantees in the samples' own counts ------------------------

  /** Half to one and a half of each baseline weight, and never below one. */
  ghost predicate NearBaseline(w: Weights, baseline: Weights) {
    forall i :: 0 <= i < KEYS ==> 1 <= w[i] && baseline[i] / 2 <= w[i] <= baseline[i] + baseline[i] / 2
  }

  /**
    What makes a weight vector eligible: a very short dwell weighs no less than a
    short one, no single probe blocks alone, no more legitimate samples are
    blocked than under the baseline, and their rate is within the ceiling.
   */
  ghost predicate Eligible(train: seq<Sample>, w: Weights, baseline: Weights, policy: Policy)
    requires policy.Valid()
  {
    var legit := Blocked(train, w, policy.blockMin, false);
    && w[0] >= w[1]
    && w[2] < policy.blockMin && w[3] < policy.blockMin && w[4] < policy.blockMin && w[5] < policy.blockMin
    && w[6] < policy.blockMin && w[7] < policy.blockMin && w[8] < policy.blockMin && w[9] < policy.blockMin
    && legit <= Blocked(train, baseline, policy.blockMin, false)
    && legit as real <= policy.maxFalsePositiveRate.value * Class(train, false) as real
    && Class(train, false) > 0
  }

  lemma AdmissibleIsEligible(train: seq<Sample>, w: Weights, baseline: Weights, policy: Policy)
    requires policy.Valid()
    ensures Admissible(train, w, baseline, policy) <==> Eligible(train, w, baseline, policy)
  {
    var m := MetricsOf(train, w, policy.blockMin);
    if m.legit > 0 {
      RateBelow(m.legitBlocked as real, m.legit as real, policy.maxFalsePositiveRate.value);
    }
  }

  lemma RateBelow(k: real, n: real, r: real)
    requires n > 0.0
    ensures k / n <= r <==> k <= r * n
  {
    assert k == (k / n) * n;
    if k / n <= r {
      assert (r - k / n) * n >= 0.0;
    } else {
      assert (k / n - r) * n > 0.0;
    }
  }

  /**
    Every weight stays near its baseline, no more legitimate samples are blocked,
    at least as much spam is, and with as much spam no more legitimate samples;
    a result other than the baseline is eligible and a strict gain.
   */
  lemma SearchIsSafe(train: seq<Sample>, baseline: Weights, policy: Policy, n: nat)
    requires n <= Moves(baseline) && BaselineOk(baseline) && policy.Valid()
    ensures var r, b := SearchAt(train, baseline, policy, n), policy.blockMin;
            && NearBaseline(r, baseline)
            && Blocked(train, r, b, false) <= Blocked(train, baseline, b, false)
            && Blocked(train, r, b, true) >= Blocked(train, baseline, b, true)
            && (r != baseline ==>
                  && Eligible(train, r, baseline, policy)
                  && (Blocked(train, r, b, true) > Blocked(train, baseline, b, true) ||
                      Blocked(train, r, b, false) < Blocked(train, baseline, b, false)))
  {
    SearchStaysWithinBounds(train, baseline, policy, n);
    SearchClimbs(train, baseline, policy, 0, n);
    SearchIsAdmissible(train, baseline, policy, n);
    AdmissibleIsEligible(train, SearchAt(train, baseline, policy, n), baseline, policy);
  }

  /** The step sizes, in the order they are tried. */
  ghost predicate IsDelta(k: nat, delta: int) {
    || (k == 0 && delta == -15) || (k == 1 && delta == -10) || (k == 2 && delta == -5)
    || (k == 3 && delta == 5) || (k == 4 && delta == 10) || (k == 5 && delta == 15)
  }

  /** One weight of v moved by delta, kept within half to one and a half of its baseline and at least one. */
  ghost function Stepped(v: Weights, baseline: Weights, i: nat, delta: int): Weights
    requires i < KEYS && baseline[i] >= 1
  {
    v[i := Min(baseline[i] + baseline[i] / 2, Max(v[i] + delta, Max(1, baseline[i] / 2)))]
  }

  /** Sweep, coordinate and step in order: move 60 s + 6 i + k tries the k-th step on weight i. */
  lemma CandidateIsStep(v: Weights, baseline: Weights, sweep: nat, i: nat, k: nat, delta: int)
    requires BaselineOk(baseline) && sweep < 3 && i < KEYS && IsDelta(k, delta)
    ensures var n := 60 * sweep + 6 * i + k;
            n < Moves(baseline) && Candidate(v, baseline, n) == Stepped(v, baseline, i, delta)
  {
    MoveIndex(sweep, i);
    StepIndex(60 * sweep + 6 * i, k);
    IndexedStep(v, baseline, 60 * sweep + 6 * i + k, i, k, delta);
  }

  lemma IndexedStep(v: Weights, baseline: Weights, n: nat, i: nat, k: nat, delta: int)
    requires BaselineOk(baseline) && i < KEYS && IsDelta(k, delta) && n % 6 == k && (n / 6) % KEYS == i
    ensures Candidate(v, baseline, n) == Stepped(v, baseline, i, delta)
  {
  }

  /**
    The result is at least as good as every eligible candidate the search ever
    tried: at any sweep, weight and step, from the best weights just then.
   */
  lemma SearchBeatsEveryCandidate(train: seq<Sample>, baseline: Weights, policy: Policy, sweep: nat, i: nat, k: nat,
                                  delta: int, n: nat)
    requires BaselineOk(baseline) && policy.Valid() && sweep < 3 && i < KEYS && IsDelta(k, delta)
    requires n == 60 * sweep + 6 * i + k
    ensures n < Moves(baseline) == 180
    ensures var r := SearchAt(train, baseline, policy, Moves(baseline));
            var c := Stepped(SearchAt(train, baseline, policy, n), baseline, i, delta);
            Eligible(train, c, baseline, policy) ==> Dominates(train, policy.blockMin, r, c)
  {
    var v := SearchAt(train, baseline, policy, n);
    CandidateIsStep(v, baseline, sweep, i, k, delta);
    BeatsCandidate(train, baseline, policy, n, Stepped(v, baseline, i, delta));
  }

  lemma BeatsCandidate(train: seq<Sample>, baseline: Weights, policy: Policy, n: nat, c: Weights)
    requires n < Moves(baseline) && BaselineOk(baseline) && policy.Valid()
    requires c == Candidate(SearchAt(train, baseline, policy, n), baseline, n)
    ensures Eligible(train, c, baseline, policy) ==>
            Dominates(train, policy.blockMin, SearchAt(train, baseline, policy, Moves(baseline)), c)
  {
    AdmissibleIsEligible(train, c, baseline, policy);
    SearchClimbs(train, baseline, policy, n + 1, Moves(baseline));
  }

  lemma QuietTail(train: seq<Sample>, baseline: Weights, policy: Policy, quiet: nat, n: nat)
    requires BaselineOk(baseline) && policy.Valid() && quiet <= n < Moves(baseline)
    requires SearchAt(train, baseline, policy, quiet) == SearchAt(train, baseline, policy, Moves(baseline))
    ensures SearchAt(train, baseline, policy, n) == SearchAt(train, baseline, policy, Moves(baseline))
  {
    SearchClimbs(train, baseline, policy, quiet, n);
    SearchClimbs(train, baseline, policy, n, Moves(baseline));
  }

  lemma QuietCandidate(train: seq<Sample>, baseline: Weights, policy: Policy, quiet: nat, n: nat, r: Weights,
                       c: Weights)
    requires BaselineOk(baseline) && policy.Valid() && quiet <= n < Moves(baseline)
    requires SearchAt(train, baseline, policy, quiet) == r == SearchAt(train, baseline, policy, Moves(baseline))
    requires c == Candidate(r, baseline, n)
    ensures Eligible(train, c, baseline, policy) ==> Dominates(train, policy.blockMin, r, c)
  {
    QuietTail(train, baseline, policy, quiet, n);
    BeatsCandidate(train, baseline, policy, n, c);
  }

  /**
    After a last sweep that changed nothing the result is a local optimum: no
    step on any weight gives eligible weights that block more spam, or as much
    and fewer legitimate samples.
   */
  lemma QuietTailIsLocalOptimum(train: seq<Sample>, baseline: Weights, policy: Policy, quiet: nat, i: nat, k: nat,
                                delta: int)
    requires BaselineOk(baseline) && policy.Valid() && i < KEYS && IsDelta(k, delta)
    requires quiet == 60 * 2 <= Moves(baseline)
    requires SearchAt(train, baseline, policy, quiet) == SearchAt(train, baseline, policy, Moves(baseline))
    ensures var r := SearchAt(train, baseline, policy, Moves(baseline));
            var c := Stepped(r, baseline, i, delta);
            Eligible(train, c, baseline, policy) ==> Dominates(train, policy.blockMin, r, c)
  {
    var n := quiet + 6 * i + k;
    var r := SearchAt(train, baseline, policy, Moves(baseline));
    CandidateIsStep(r, baseline, 2, i, k, delta);
    QuietCandidate(train, baseline, policy, quiet, n, r, Stepped(r, baseline, i, delta));
  }
}
