/**
  The acceptance gate of crates/bollwark-tuning/src/lib.rs over exact reals. The
  square root is passed in as the nonnegative number with the right square.
 */
module Wilson {
  import opened Common
  import opened Tuning

  const Z: real := 1.96
  const Z2: real := 3.8416

  /** The number under the source's square root. */
  ghost function Radicand(m: Metrics): real
    requires m.legit > 0
  {
    Spread(m.legit as real, FalsePositiveRate(m))
  }

  ghost function Spread(n: real, p: real): real
    requires n > 0.0
  {
    p * (1.0 - p) / n + Z2 / (4.0 * n * n)
  }

  ghost predicate IsRoot(m: Metrics, root: real) {
    root >= 0.0 && (m.legit > 0 ==> root * root == Radicand(m))
  }

  /** `false_positive_upper_95`. */
  function UpperBound(m: Metrics, root: real): real {
    if m.legit == 0 then 1.0
    else
      Formula(m.legit as real, FalsePositiveRate(m), root)
  }

  function Formula(n: real, p: real, root: real): real
    requires n > 0.0
  {
    (p + Z2 / (2.0 * n) + Z * root) / (1.0 + Z2 / n)
  }

  /** The score-interval equation whose larger solution is the 95% upper bound. */
  ghost predicate OnScoreInterval(m: Metrics, u: real)
    requires m.legit > 0
  {
    Interval(m.legit as real, FalsePositiveRate(m), u)
  }

  ghost predicate Interval(n: real, p: real, u: real)
    requires n > 0.0
  {
    (u - p) * (u - p) == Z2 * (u * (1.0 - u)) / n
  }

  // ---- The same bound in units of a = z^2 / n and t = z * root ---------------

  ghost predicate Normal(a: real, p: real, t: real, u: real) {
    && a > 0.0 && 0.0 <= p <= 1.0 && t >= 0.0
    && t * t == a * (p * (1.0 - p)) + a * a / 4.0
    && (1.0 + a) * u == p + a / 2.0 + t
  }

  lemma PositiveProduct(x: real, y: real)
    requires x > 0.0 && y > 0.0
    ensures x * y > 0.0
  {
  }

  lemma SquareOrder(x: real, y: real)
    requires y >= 0.0 && x * x <= y * y
    ensures x <= y
  {
    assert (x - y) * (x + y) == x * x - y * y;
    if x > y {
      PositiveProduct(x - y, x + y);
    }
  }

  /** Completing the square: the interval equation says (1 + a) x is t away from p + a / 2. */
  lemma CompletedSquare(a: real, p: real, t: real, x: real)
    requires a > 0.0 && t * t == a * (p * (1.0 - p)) + a * a / 4.0
    ensures var d := (1.0 + a) * x - (p + a / 2.0);
            d * d - t * t == (1.0 + a) * ((x - p) * (x - p) - a * (x * (1.0 - x)))
  {
    var d := (1.0 + a) * x - (p + a / 2.0);
    var q := (x - p) * (x - p) - a * (x * (1.0 - x));
    assert q == (1.0 + a) * (x * x) - (2.0 * p + a) * x + p * p;
    var b := 1.0 + a;
    assert d * d == (b * x) * (b * x) - 2.0 * (b * x) * (p + a / 2.0) + (p + a / 2.0) * (p + a / 2.0);
    assert (b * x) * (b * x) == b * (b * (x * x));
    assert 2.0 * (b * x) * (p + a / 2.0) == b * ((2.0 * p + a) * x);
    assert (p + a / 2.0) * (p + a / 2.0) - t * t == b * (p * p);
  }

  lemma ZeroFactor(b: real, q: real)
    requires b > 0.0
    ensures b * q == 0.0 <==> q == 0.0
  {
  }

  ghost predicate OnCurve(a: real, p: real, u: real) {
    (u - p) * (u - p) == a * (u * (1.0 - u))
  }

  lemma NormalRoot(a: real, p: real, t: real, u: real)
    requires Normal(a, p, t, u)
    ensures OnCurve(a, p, u)
  {
    CompletedSquare(a, p, t, u);
    ZeroFactor(1.0 + a, (u - p) * (u - p) - a * (u * (1.0 - u)));
  }

  lemma NormalLargest(a: real, p: real, t: real, u: real, x: real)
    requires Normal(a, p, t, u)
    requires (x - p) * (x - p) <= a * (x * (1.0 - x))
    ensures x <= u
  {
    CompletedSquare(a, p, t, x);
    ScaleLe(1.0 + a, (x - p) * (x - p) - a * (x * (1.0 - x)), 0.0);
    SquareOrder((1.0 + a) * x - (p + a / 2.0), t);
    assert (1.0 + a) * (u - x) >= 0.0;
    Divide(1.0 + a, u - x);
  }

  lemma CurveIsBelow(a: real, p: real, t: real, u: real, x: real)
    requires Normal(a, p, t, u) && OnCurve(a, p, x)
    ensures x <= u
  {
    NormalLargest(a, p, t, u, x);
  }

  lemma Divide(b: real, x: real)
    requires b > 0.0 && b * x >= 0.0
    ensures x >= 0.0
  {
  }

  /** t is at least a/2 and at least a (p - 1/2). */
  lemma RootLower(a: real, p: real, t: real)
    requires a > 0.0 && 0.0 <= p <= 1.0 && t >= 0.0 && t * t == a * (p * (1.0 - p)) + a * a / 4.0
    ensures t >= a / 2.0 && t >= a * (p - 0.5)
  {
    var v, h := p * (1.0 - p), a * (p - 0.5);
    NonNegativeProduct(p, 1.0 - p);
    NonNegativeProduct(a, v);
    NonNegativeProduct(a, a * v);
    SquareOrder(a / 2.0, t);
    assert h * h == a * a * ((p - 0.5) * (p - 0.5));
    assert (p - 0.5) * (p - 0.5) == 0.25 - v;
    assert a * a * (0.25 - v) == a * a / 4.0 - a * (a * v);
    SquareOrder(h, t);
  }

  /** t is at most 1 - p + a/2. */
  lemma RootUpper(a: real, p: real, t: real)
    requires a > 0.0 && 0.0 <= p <= 1.0 && t >= 0.0 && t * t == a * (p * (1.0 - p)) + a * a / 4.0
    ensures t <= 1.0 - p + a / 2.0
  {
    var q := 1.0 - p;
    NonNegativeProduct(q, q);
    NonNegativeProduct(a, q * q);
    assert p * q == q - q * q;
    assert a * (q - q * q) == a * q - a * (q * q);
    assert (q + a / 2.0) * (q + a / 2.0) == q * q + a * q + a * a / 4.0;
    SquareOrder(t, q + a / 2.0);
  }

  lemma NonNegativeProduct(x: real, y: real)
    requires x >= 0.0 && y >= 0.0
    ensures x * y >= 0.0
  {
  }

  lemma NormalRange(a: real, p: real, t: real, u: real)
    requires Normal(a, p, t, u)
    ensures p <= u <= 1.0 && (1.0 + a) * u >= a
  {
    RootLower(a, p, t);
    RootUpper(a, p, t);
    assert (1.0 + a) * (u - p) == a / 2.0 + t - a * p;
    assert a * p == a * (p - 0.5) + a / 2.0;
    Divide(1.0 + a, u - p);
    assert (1.0 + a) * (1.0 - u) == 1.0 - p + a / 2.0 - t;
    Divide(1.0 + a, 1.0 - u);
  }

  /** The old bound still lies under the new parabola. */
  lemma StillUnder(p: real, p': real, u: real, area: real)
    requires p <= p' <= u && (u - p) * (u - p) == area
    ensures (u - p') * (u - p') <= area
  {
    ShrinkSquare(u - p', u - p);
  }

  /** Raising the rate cannot lower the bound. */
  lemma NormalMonotone(a: real, p: real, t: real, u: real, p': real, t': real, u': real)
    requires Normal(a, p, t, u) && Normal(a, p', t', u') && p <= p'
    ensures u <= u'
  {
    NormalRange(a, p', t', u');
    if u > p' {
      NormalRoot(a, p, t, u);
      StillUnder(p, p', u, a * (u * (1.0 - u)));
      NormalLargest(a, p', t', u', u);
    }
  }

  lemma ShrinkSquare(x: real, y: real)
    requires 0.0 <= x <= y
    ensures x * x <= y * y
  {
    ScaleLe(x, x, y);
    ScaleLe(y, x, y);
  }

  lemma ScaleLe(k: real, x: real, y: real)
    requires k >= 0.0 && x <= y
    ensures k * x <= k * y
  {
  }

  /** The source's formula, rewritten in those units. */
  lemma Normalize(m: Metrics, root: real)
    requires m.legit > 0 && m.legitBlocked <= m.legit && IsRoot(m, root)
    ensures Normal(Z2 / m.legit as real, FalsePositiveRate(m), Z * root, UpperBound(m, root))
  {
    RateInRange(m.legitBlocked as real, m.legit as real);
    NormalizeFormula(m.legit as real, FalsePositiveRate(m), root);
  }

  lemma NormalizeFormula(n: real, p: real, root: real)
    requires n > 0.0 && 0.0 <= p <= 1.0 && root >= 0.0 && root * root == Spread(n, p)
    ensures Normal(Z2 / n, p, Z * root, Formula(n, p, root))
  {
    NormalizeTerms(n, p * (1.0 - p));
    SquareOfRoot(root);
    Undo(p + Z2 / (2.0 * n) + Z * root, 1.0 + Z2 / n);
  }

  lemma SquareOfRoot(root: real)
    ensures (Z * root) * (Z * root) == Z2 * (root * root)
  {
  }

  lemma Undo(x: real, d: real)
    requires d != 0.0
    ensures d * (x / d) == x
  {
  }

  /** The three fractions of the formula, with a = z^2 / n. */
  lemma NormalizeTerms(n: real, v: real)
    requires n > 0.0
    ensures var a := Z2 / n;
            && a > 0.0
            && Z2 / (2.0 * n) == a / 2.0
            && a * a / 4.0 == Z2 * (Z2 / (4.0 * n * n))
            && Z2 * (v / n) == a * v
  {
    var a := Z2 / n;
    assert n * a == Z2;
    assert (4.0 * n * n) * (a * a / (4.0 * Z2)) == Z2;
    Quotient(Z2, 4.0 * n * n, a * a / (4.0 * Z2));
    Quotient(v, n, v * a / Z2);
  }

  lemma RateInRange(k: real, n: real)
    requires 0.0 <= k <= n && n > 0.0
    ensures 0.0 <= k / n <= 1.0
  {
  }

  lemma Quotient(x: real, d: real, q: real)
    requires d != 0.0 && q * d == x
    ensures x / d == q
  {
  }

  // ---- The guarantees ------------------------------------------------------

  /** The closed form is the larger solution of the score-interval equation. */
  lemma UpperBoundIsLargerRoot(m: Metrics, root: real, x: real)
    requires m.legit > 0 && m.legitBlocked <= m.legit && IsRoot(m, root)
    ensures OnScoreInterval(m, UpperBound(m, root))
    ensures OnScoreInterval(m, x) ==> x <= UpperBound(m, root)
  {
    Normalize(m, root);
    LargerRoot(m.legit as real, FalsePositiveRate(m), Z * root, UpperBound(m, root), x);
  }

  lemma LargerRoot(n: real, p: real, t: real, u: real, x: real)
    requires n > 0.0 && Normal(Z2 / n, p, t, u)
    ensures Interval(n, p, u)
    ensures Interval(n, p, x) ==> x <= u
  {
    assert Interval(n, p, u) by {
      NormalRoot(Z2 / n, p, t, u);
      IntervalInUnits(n, p, u);
    }
    if Interval(n, p, x) {
      IntervalInUnits(n, p, x);
      CurveIsBelow(Z2 / n, p, t, u, x);
    }
  }

  lemma IntervalInUnits(n: real, p: real, u: real)
    requires n > 0.0
    ensures Interval(n, p, u) <==> OnCurve(Z2 / n, p, u)
  {
    PullOut(u * (1.0 - u), n);
  }

  lemma PullOut(v: real, n: real)
    requires n > 0.0
    ensures Z2 * v / n == (Z2 / n) * v
  {
    Quotient(Z2 * v, n, (Z2 / n) * v);
  }

  /** The bound lies between the observed rate and one, and never below z^2 / (n + z^2). */
  lemma UpperBoundRange(m: Metrics, root: real)
    requires m.legitBlocked <= m.legit && IsRoot(m, root)
    ensures var u := UpperBound(m, root); FalsePositiveRate(m) <= u <= 1.0 && Z2 <= u * (m.legit as real + Z2)
  {
    if m.legit > 0 {
      Normalize(m, root);
      RangeOfBound(m.legit as real, FalsePositiveRate(m), Z * root, UpperBound(m, root));
    }
  }

  lemma RangeOfBound(n: real, p: real, t: real, u: real)
    requires n > 0.0 && Normal(Z2 / n, p, t, u)
    ensures p <= u <= 1.0 && Z2 <= u * (n + Z2)
  {
    NormalRange(Z2 / n, p, t, u);
    ClearFraction(n, Z2 / n, u);
  }

  lemma ClearFraction(n: real, a: real, u: real)
    requires n > 0.0 && n * a == Z2 && (1.0 + a) * u >= a
    ensures u * (n + Z2) >= Z2
  {
    ScaleLe(n, a, (1.0 + a) * u);
    assert n * ((1.0 + a) * u) == u * (n + n * a);
  }

  /** More blocked legitimate samples never lower the bound. */
  lemma UpperBoundMonotone(m: Metrics, root: real, m': Metrics, root': real)
    requires m.legit == m'.legit && m.legitBlocked <= m'.legitBlocked <= m.legit
    requires IsRoot(m, root) && IsRoot(m', root')
    ensures UpperBound(m, root) <= UpperBound(m', root')
  {
    if m.legit > 0 {
      var n := m.legit as real;
      Normalize(m, root);
      Normalize(m', root');
      assert FalsePositiveRate(m) <= FalsePositiveRate(m') by {
        DivideLe(m.legitBlocked as real, m'.legitBlocked as real, n);
      }
      NormalMonotone(Z2 / n, FalsePositiveRate(m), Z * root, UpperBound(m, root),
                     FalsePositiveRate(m'), Z * root', UpperBound(m', root'));
    }
  }

  lemma DivideLe(x: real, y: real, n: real)
    requires x <= y && n > 0.0
    ensures x / n <= y / n
  {
  }

  // ---- The gate ------------------------------------------------------------

  datatype Comparison = Comparison(baseline: Metrics, candidate: Metrics, upper: real, accepted: bool)

  /** `compare`: two evaluations and the five-way gate. */
  method Compare(samples: seq<Sample>, baseline: Weights, candidate: Weights, policy: Policy, root: real)
    returns (c: Comparison)
    requires IsRoot(MetricsOf(samples, candidate, policy.blockMin), root)
    ensures c.baseline == MetricsOf(samples, baseline, policy.blockMin)
    ensures c.candidate == MetricsOf(samples, candidate, policy.blockMin)
    ensures c.upper == UpperBound(c.candidate, root)
    ensures c.accepted ==> Improves(c.candidate, c.baseline) && c.candidate.spamBlocked > c.baseline.spamBlocked
    ensures c.accepted ==> FalsePositiveRate(c.candidate) <= policy.maxFalsePositiveRate.GetValue()
    ensures c.accepted <==> Gate(c.baseline, c.candidate, policy, root)
    ensures c.accepted <==>
              && policy.blockMin > 0 && policy.minPerClass >= 20
              && policy.maxFalsePositiveRate.Finite? && 0.0 <= policy.maxFalsePositiveRate.value <= 0.05
              && Class(samples, false) >= policy.minPerClass && Class(samples, true) >= policy.minPerClass
              && Blocked(samples, candidate, policy.blockMin, true) > Blocked(samples, baseline, policy.blockMin, true)
              && Blocked(samples, candidate, policy.blockMin, false) <= Blocked(samples, baseline, policy.blockMin, false)
              && c.upper <= policy.maxFalsePositiveRate.value
  {
    var base := Evaluate(samples, baseline, policy.blockMin);
    var cand := Evaluate(samples, candidate, policy.blockMin);
    var upper := UpperBound(cand, root);
    UpperBoundRange(cand, root);
    var accepted := policy.Valid() && policy.Enough(cand) && cand.spamBlocked > base.spamBlocked &&
                    cand.legitBlocked <= base.legitBlocked && upper <= policy.maxFalsePositiveRate.value;
    return Comparison(base, cand, upper, accepted);
  }

  ghost predicate Evidence(legit: nat, r: real) {
    r > 0.0 && r * legit as real >= Z2 * (1.0 - r) && (r <= 0.01 ==> legit >= 381)
  }

  ghost predicate Gate(base: Metrics, cand: Metrics, policy: Policy, root: real) {
    policy.Valid() && policy.Enough(cand) && cand.spamBlocked > base.spamBlocked &&
    cand.legitBlocked <= base.legitBlocked && UpperBound(cand, root) <= policy.maxFalsePositiveRate.value
  }

  /**
    Passing the gate takes evidence: at ceiling r at least z^2 (1 - r) / r
    legitimate samples, hence 381 at one percent, and no amount at zero.
   */
  lemma GateNeedsEvidence(base: Metrics, cand: Metrics, policy: Policy, root: real)
    requires cand.legitBlocked <= cand.legit && IsRoot(cand, root)
    ensures Gate(base, cand, policy, root) ==> Evidence(cand.legit, policy.maxFalsePositiveRate.value)
  {
    if Gate(base, cand, policy, root) {
      UpperBoundRange(cand, root);
      EvidenceAlgebra(cand.legit, UpperBound(cand, root), policy.maxFalsePositiveRate.value);
    }
  }

  lemma EvidenceAlgebra(legit: nat, u: real, r: real)
    requires Z2 <= u * (legit as real + Z2) && u <= r
    ensures Evidence(legit, r)
  {
    var b := legit as real + Z2;
    ScaleLe(b, u, r);
    Distribute(r, legit as real, Z2);
    Positive(b, r);
    if r <= 0.01 {
      ScaleLe(b, r, 0.01);
    }
  }

  lemma Distribute(r: real, x: real, y: real)
    ensures (x + y) * r == r * x + r * y
  {
  }

  lemma Positive(b: real, r: real)
    requires b > 0.0 && b * r > 0.0
    ensures r > 0.0
  {
  }

  /** With no legitimate sample blocked the evidence bound is also enough. */
  lemma CleanGateIffEvidence(m: Metrics, root: real, r: real)
    requires m.legit > 0 && m.legitBlocked == 0 && IsRoot(m, root) && 0.0 < r
    ensures UpperBound(m, root) <= r <==> r * m.legit as real >= Z2 * (1.0 - r)
  {
    var n := m.legit as real;
    var a := Z2 / n;
    var u := UpperBound(m, root);
    Normalize(m, root);
    assert FalsePositiveRate(m) == 0.0;
    var t := Z * root;
    assert t * t == (a / 2.0) * (a / 2.0);
    SquareOrder(t, a / 2.0);
    SquareOrder(a / 2.0, t);
    assert (1.0 + a) * u == a;
    assert n * a == Z2;
    assert n * ((1.0 + a) * u) == u * (n + n * a);
    assert u * (n + Z2) == Z2;
    if u <= r {
      ScaleLe(n + Z2, u, r);
    } else {
      assert (u - r) * (n + Z2) > 0.0;
    }
  }
}
