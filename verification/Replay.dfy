/**
  Replaying recorded verify decisions for tuning (examples/tune_weights.rs): a
  recorded row is reduced to boolean activations by probing the production
  scorer with unit weights.
 */
module Replay {
  import opened Common
  import opened Scoring
  import T = Tuning

  const I64_MAX: nat := 0x7FFF_FFFF_FFFF_FFFF
  const MAX_WEIGHT: nat := 1000

  /** The verify half of a training sample, as read back from the database. */
  datatype TrainingVerify = TrainingVerify(
    score: nat,
    outcome: string,
    sigHoneypot: nat,
    sigTimeOnPage: nat,
    sigBehavior: nat,
    sigRemoteIp: nat,
    timeOnPageMs: Option<nat>,
    webdriver: string,
    automation: string,
    headless: string,
    mouseMoves: Option<nat>,
    touches: Option<nat>,
    interactions: Option<nat>,
    firstInteractionMs: Option<nat>,
    impossibleTiming: bool,
    duplicateBlob: bool
  )

  // ---- What the handler records (src/api/handlers.rs, src/dashboard/log.rs) --

  function Flag(v: Option<bool>): string {
    match v
    case Some(true) => "true"
    case Some(false) => "false"
    case None => "absent"
  }

  function OutcomeName(d: VerifyDecision): string {
    match d
    case Pass => "pass"
    case ShadowFail => "shadow_fail"
    case Block => "block"
  }

  /** Client-asserted times are clamped into the column's signed range. */
  function ClampMs(v: Option<nat>): Option<nat> {
    if v.Some? then Some(Min(v.value, I64_MAX)) else None
  }

  function Record(w: SignalWeights, requireBehavior: bool, ctx: VerifyContext, t: VerifyThresholds): TrainingVerify
    requires ctx.behavior.Present?
  {
    var v := Score(w, requireBehavior, ctx, t);
    var b := ctx.behavior.report;
    TrainingVerify(
      v.total, OutcomeName(v.decision),
      v.breakdown.honeypot, v.breakdown.timeOnPage, v.breakdown.behavior, v.breakdown.remoteIp,
      ctx.timeOnPageMs,
      Flag(b.webdriver), Flag(b.automation), Flag(b.headless),
      Some(b.mouseMoves), Some(b.touches), Some(b.interactions), ClampMs(b.firstInteractionMs),
      ScoreImpossibleTiming(w, ctx.behavior, ctx.timeOnPageMs) > 0,
      ScoreDuplicateBlob(w, ctx.behavior, ctx.duplicateCount) > 0)
  }

  // ---- The tuner's side ----------------------------------------------------

  function Vector(w: SignalWeights): T.Weights {
    [w.timeVeryShort, w.timeShort, w.remoteIpMismatch, w.flatline, w.noPointer, w.instantInteraction,
     w.automation, w.headless, w.impossibleTiming, w.duplicate]
  }

  function Apply(base: SignalWeights, v: T.Weights): SignalWeights {
    SignalWeights(base.honeypotTripped, v[0], v[1], v[2], v[3], v[4], v[5], v[6], v[7], v[8], v[9])
  }

  function BoolProbe(value: string): Option<Option<bool>> {
    if value == "true" then Some(Some(true))
    else if value == "false" then Some(Some(false))
    else if value == "n/a" || value == "absent" then Some(None)
    else None
  }

  /** The blob a row describes, when none of its parts is missing. */
  function Rebuild(v: TrainingVerify): Option<BehaviorReport> {
    if v.mouseMoves.None? || v.touches.None? || v.interactions.None? ||
       BoolProbe(v.webdriver).None? || BoolProbe(v.automation).None? || BoolProbe(v.headless).None?
    then None
    else Some(BehaviorReport(v.mouseMoves.value, v.touches.value, v.interactions.value, v.firstInteractionMs,
                             BoolProbe(v.webdriver).value, BoolProbe(v.automation).value, BoolProbe(v.headless).value))
  }

  function BehaviorPart(w: SignalWeights, v: TrainingVerify, b: BehaviorReport): nat {
    ScoreBehavior(w, Present(b))
    + (if v.impossibleTiming then w.impossibleTiming else 0)
    + (if v.duplicateBlob then w.duplicate else 0)
  }

  /** Everything but the honeypot, rescored under w. */
  function Probe(w: SignalWeights, v: TrainingVerify, b: BehaviorReport): nat {
    ScoreTimeOnPage(w, v.timeOnPageMs) + ScoreRemoteIp(w, v.sigRemoteIp > 0) + BehaviorPart(w, v, b)
  }

  predicate Replayable(v: TrainingVerify, base: SignalWeights, b: BehaviorReport) {
    && v.sigTimeOnPage == ScoreTimeOnPage(base, v.timeOnPageMs)
    && v.sigBehavior == BehaviorPart(base, v, b)
    && v.sigRemoteIp == ScoreRemoteIp(base, v.sigRemoteIp > 0)
    && (v.sigHoneypot == 0 || v.sigHoneypot == base.honeypotTripped)
    && v.score == v.sigHoneypot + v.sigTimeOnPage + v.sigBehavior + v.sigRemoteIp
  }

  function Zeros(): T.Weights {
    seq(T.KEYS, _ => 0)
  }

  function Unit(i: nat): T.Weights
    requires i < T.KEYS
  {
    Zeros()[i := 1]
  }

  /** Which weights a row responds to, found by probing each alone. */
  function Activations(v: TrainingVerify, base: SignalWeights, b: BehaviorReport): T.Activations {
    seq(T.KEYS, i requires 0 <= i < T.KEYS => Probe(Apply(Apply(base, Zeros()), Unit(i)), v, b) > 0)
  }

  function Project(v: TrainingVerify, base: SignalWeights, spam: bool): Option<T.Sample> {
    if v.outcome != "pass" && v.outcome != "shadow_fail" && v.outcome != "block" then None
    else match Rebuild(v)
      case None => None
      case Some(b) =>
        if Replayable(v, base, b) then Some(T.Sample(spam, Activations(v, base, b), v.sigHoneypot)) else None
  }

  // ---- Linearity -----------------------------------------------------------

  ghost function Term(a: T.Activations, w: T.Weights, i: nat): nat
    requires i < T.KEYS
  {
    if a[i] then w[i] else 0
  }

  /** The sum of the first n terms. */
  ghost function Partial(a: T.Activations, w: T.Weights, n: nat): nat
    requires n <= T.KEYS
  {
    T.ActiveSum(a[..n], w[..n])
  }

  lemma PartialStep(a: T.Activations, w: T.Weights, n: nat)
    requires n < T.KEYS
    ensures Partial(a, w, n + 1) == Partial(a, w, n) + Term(a, w, n)
  {
    T.ActiveSumStep(a, w, n);
  }

  lemma ActiveSumUnrolled(a: T.Activations, w: T.Weights)
    ensures T.ActiveSum(a, w) ==
            Term(a, w, 0) + Term(a, w, 1) + Term(a, w, 2) + Term(a, w, 3) + Term(a, w, 4) +
            Term(a, w, 5) + Term(a, w, 6) + Term(a, w, 7) + Term(a, w, 8) + Term(a, w, 9)
  {
    PartialStep(a, w, 0);
    PartialStep(a, w, 1);
    PartialStep(a, w, 2);
    PartialStep(a, w, 3);
    PartialStep(a, w, 4);
    PartialStep(a, w, 5);
    PartialStep(a, w, 6);
    PartialStep(a, w, 7);
    PartialStep(a, w, 8);
    PartialStep(a, w, 9);
    assert a[..T.KEYS] == a && w[..T.KEYS] == w;
  }

  /** What each weight is for, stated directly. */
  ghost function Features(v: TrainingVerify, b: BehaviorReport): T.Activations {
    var noPointer := b.mouseMoves == 0 && b.touches == 0;
    [v.timeOnPageMs.Some? && v.timeOnPageMs.value < 500,
     v.timeOnPageMs.Some? && 500 <= v.timeOnPageMs.value < 2_000,
     v.sigRemoteIp > 0,
     noPointer && b.interactions == 0,
     noPointer && b.interactions == 1,
     b.interactions <= 1 && b.firstInteractionMs.Some? && b.firstInteractionMs.value < 50,
     b.webdriver == Some(true) || b.automation == Some(true),
     b.headless == Some(true),
     v.impossibleTiming,
     v.duplicateBlob]
  }

  lemma ProbeSumsFeatures(v: TrainingVerify, base: SignalWeights, b: BehaviorReport, w: T.Weights)
    ensures Probe(Apply(base, w), v, b) == T.ActiveSum(Features(v, b), w)
  {
    var f, s := Features(v, b), Apply(base, w);
    ActiveSumUnrolled(f, w);
    assert ScoreTimeOnPage(s, v.timeOnPageMs) == Term(f, w, 0) + Term(f, w, 1);
    assert ScoreRemoteIp(s, v.sigRemoteIp > 0) == Term(f, w, 2);
    assert PointerScore(s, b) == Term(f, w, 3) + Term(f, w, 4);
    assert ScoreBehavior(s, Present(b)) == PointerScore(s, b) + Term(f, w, 5) + Term(f, w, 6) + Term(f, w, 7);
  }

  lemma {:induction false} UnitSum(a: T.Activations, i: nat, n: nat)
    requires i < T.KEYS && n <= T.KEYS
    ensures Partial(a, Unit(i), n) == if i < n && a[i] then 1 else 0
  {
    if n > 0 {
      UnitSum(a, i, n - 1);
      PartialStep(a, Unit(i), n - 1);
    }
  }

  /** Probing one weight tells whether its activation is set. */
  lemma UnitProbe(a: T.Activations, i: nat)
    requires i < T.KEYS
    ensures T.ActiveSum(a, Unit(i)) == if a[i] then 1 else 0
  {
    UnitSum(a, i, T.KEYS);
    assert a[..T.KEYS] == a && Unit(i)[..T.KEYS] == Unit(i);
  }

  /** Probing with unit vectors recovers exactly those features. */
  lemma ActivationsAreFeatures(v: TrainingVerify, base: SignalWeights, b: BehaviorReport)
    ensures Activations(v, base, b) == Features(v, b)
  {
    var a, f := Activations(v, base, b), Features(v, b);
    forall i | 0 <= i < T.KEYS ensures a[i] == f[i] {
      ProbeSumsFeatures(v, Apply(base, Zeros()), b, Unit(i));
      UnitProbe(f, i);
    }
  }

  /** So the branching scorer is the linear form the tuner evaluates, for every weight vector. */
  lemma ProbeIsLinear(v: TrainingVerify, base: SignalWeights, b: BehaviorReport, w: T.Weights)
    ensures Probe(Apply(base, w), v, b) == T.ActiveSum(Activations(v, base, b), w)
  {
    ActivationsAreFeatures(v, base, b);
    ProbeSumsFeatures(v, base, b, w);
  }

  /** Apply and Vector are inverse on everything the tuner may change. */
  lemma ApplyVector(base: SignalWeights, w: T.Weights)
    ensures Vector(Apply(base, w)) == w
    ensures Apply(base, Vector(base)) == base
  {
  }

  /** A row the tuner accepts scores, under the baseline, exactly what was recorded. */
  lemma AcceptedRowsReconstruct(v: TrainingVerify, base: SignalWeights, spam: bool)
    requires Project(v, base, spam).Some?
    ensures T.SampleScore(Project(v, base, spam).value, Vector(base)) == v.score
  {
    var b := Rebuild(v).value;
    ApplyVector(base, Vector(base));
    ProbeIsLinear(v, base, b, Vector(base));
  }

  // ---- Replay fidelity -----------------------------------------------------

  /** The three checks a row keeps only as a score leave a nonzero one when they fire. */
  ghost predicate LeavesTraces(w: SignalWeights) {
    w.remoteIpMismatch > 0 && w.impossibleTiming > 0 && w.duplicate > 0
  }

  /** Recording and rebuilding loses only the exact size of an absurdly late first interaction. */
  lemma RebuildRecorded(w: SignalWeights, requireBehavior: bool, ctx: VerifyContext, t: VerifyThresholds)
    requires ctx.behavior.Present?
    ensures var b := ctx.behavior.report;
            Rebuild(Record(w, requireBehavior, ctx, t)) == Some(b.(firstInteractionMs := ClampMs(b.firstInteractionMs)))
  {
    forall v: Option<bool> ensures BoolProbe(Flag(v)) == Some(v) {
      match v
      case Some(true) =>
      case Some(false) =>
      case None =>
    }
  }

  lemma ClampedBlobScoresSame(w: SignalWeights, b: BehaviorReport)
    ensures ScoreBehavior(w, Present(b.(firstInteractionMs := ClampMs(b.firstInteractionMs)))) == ScoreBehavior(w, Present(b))
  {
  }

  /** The recorded flags say which checks fired, whatever weights they are rescored under. */
  lemma ProbeRescores(base: SignalWeights, w: SignalWeights, requireBehavior: bool, ctx: VerifyContext,
      t: VerifyThresholds)
    requires ctx.behavior.Present? && LeavesTraces(base)
    ensures var row := Record(base, requireBehavior, ctx, t);
            var s := Score(w, requireBehavior, ctx, t).breakdown;
            && BehaviorPart(w, row, Rebuild(row).value) == s.behavior
            && ScoreRemoteIp(w, row.sigRemoteIp > 0) == s.remoteIp
            && ScoreTimeOnPage(w, row.timeOnPageMs) == s.timeOnPage
  {
    RebuildRecorded(base, requireBehavior, ctx, t);
    ClampedBlobScoresSame(w, ctx.behavior.report);
  }

  /** Every scored context with a blob yields a row the tuner accepts. */
  lemma RecordedRowsAreAccepted(base: SignalWeights, requireBehavior: bool, ctx: VerifyContext, t: VerifyThresholds,
      spam: bool)
    requires ctx.behavior.Present? && LeavesTraces(base)
    ensures Project(Record(base, requireBehavior, ctx, t), base, spam).Some?
  {
    RebuildRecorded(base, requireBehavior, ctx, t);
    ProbeRescores(base, base, requireBehavior, ctx, t);
  }

  /** The projected sample scores what production would score under w, and is blocked exactly when production blocks. */
  ghost predicate Faithful(base: SignalWeights, requireBehavior: bool, t: VerifyThresholds, ctx: VerifyContext,
      spam: bool, w: T.Weights)
    requires ctx.behavior.Present?
  {
    var projected := Project(Record(base, requireBehavior, ctx, t), base, spam);
    var replayed := Score(Apply(base, w), requireBehavior, ctx, t);
    && projected.Some? && projected.value.spam == spam
    && T.SampleScore(projected.value, w) == replayed.total
    && (T.IsBlocked(projected.value, w, t.blockMin) <==> replayed.decision == Block)
  }

  /**
    Replay fidelity: every context with a blob, recorded under a baseline that
    leaves traces, is replayed faithfully under every other weight vector.
   */
  lemma ReplayFidelity(base: SignalWeights, requireBehavior: bool, ctx: VerifyContext, t: VerifyThresholds,
      spam: bool, w: T.Weights)
    requires ctx.behavior.Present? && LeavesTraces(base)
    ensures Faithful(base, requireBehavior, t, ctx, spam, w)
  {
    var row := Record(base, requireBehavior, ctx, t);
    RecordedRowsAreAccepted(base, requireBehavior, ctx, t, spam);
    ProbeRescores(base, Apply(base, w), requireBehavior, ctx, t);
    ProbeIsLinear(row, base, Rebuild(row).value, w);
  }

  /** A pointer-moving blob with nothing else to report. */
  const QUIET: BehaviorReport := BehaviorReport(1, 0, 2, None, None, None, None)

  /** A context in which only the i-th weight's check fires, for the three checks kept as scores. */
  ghost function OnlyCheck(i: nat): VerifyContext {
    if i == 2 then VerifyContext(false, Some(TIME_SHORT_MS), Present(QUIET), 0, true)
    else if i == 8 then
      VerifyContext(false, Some(TIME_SHORT_MS),
                    Present(QUIET.(firstInteractionMs := Some(TIME_SHORT_MS + IMPOSSIBLE_TIMING_SLACK_MS + 1))), 0, false)
    else VerifyContext(false, Some(TIME_SHORT_MS), Present(QUIET), DUPLICATE_MIN, false)
  }

  /** With that weight at zero the check leaves no trace, and the replay misses what production scores. */
  lemma ZeroWeightLosesActivation(base: SignalWeights, requireBehavior: bool, t: VerifyThresholds, spam: bool, i: nat)
    requires i in {2, 8, 9} && Vector(base)[i] == 0
    ensures !Faithful(base, requireBehavior, t, OnlyCheck(i), spam, Unit(i))
  {
    var ctx, w := OnlyCheck(i), Unit(i);
    var row := Record(base, requireBehavior, ctx, t);
    RebuildRecorded(base, requireBehavior, ctx, t);
    var b := Rebuild(row).value;
    ProbeSumsFeatures(row, base, b, w);
    ProbeIsLinear(row, base, b, w);
    UnitProbe(Features(row, b), i);
    assert !Features(row, b)[i];
    assert Score(Apply(base, w), requireBehavior, ctx, t).total >= 1;
  }

  /** What the verify handler can record with a blob: it always measures the dwell itself. */
  ghost predicate Recordable(ctx: VerifyContext) {
    ctx.behavior.Present? && ctx.timeOnPageMs.Some?
  }

  /** Every recordable context is replayed faithfully under every weight vector. */
  ghost predicate ReplaysAll(base: SignalWeights, requireBehavior: bool, t: VerifyThresholds) {
    forall ctx: VerifyContext, spam, w: T.Weights :: Recordable(ctx) ==> Faithful(base, requireBehavior, t, ctx, spam, w)
  }

  /** A baseline replays every recorded blob faithfully exactly when none of those three weights is zero. */
  lemma ReplayFaithfulIff(base: SignalWeights, requireBehavior: bool, t: VerifyThresholds)
    ensures ReplaysAll(base, requireBehavior, t) <==> LeavesTraces(base)
  {
    if LeavesTraces(base) {
      forall ctx: VerifyContext, spam, w: T.Weights | Recordable(ctx)
        ensures Faithful(base, requireBehavior, t, ctx, spam, w)
      {
        ReplayFidelity(base, requireBehavior, ctx, t, spam, w);
      }
    } else {
      var i := if base.remoteIpMismatch == 0 then 2 else if base.impossibleTiming == 0 then 8 else 9;
      assert Recordable(OnlyCheck(i));
      ZeroWeightLosesActivation(base, requireBehavior, t, true, i);
    }
  }

  lemma BehaviorWithinLimit(s: SignalWeights, presence: BehaviorPresence)
    requires forall i :: 0 <= i < T.KEYS ==> Vector(s)[i] <= MAX_WEIGHT
    ensures ScoreBehavior(s, presence) <= 4 * MAX_WEIGHT
  {
    var w := Vector(s);
    assert w[3] <= MAX_WEIGHT && w[4] <= MAX_WEIGHT && w[5] <= MAX_WEIGHT && w[6] <= MAX_WEIGHT && w[7] <= MAX_WEIGHT;
  }

  /** Within the runner's weight limit no production total comes near 32 bits. */
  lemma LimitedWeightsCannotOverflow(base: SignalWeights, requireBehavior: bool, ctx: VerifyContext,
                                     t: VerifyThresholds, w: T.Weights)
    requires base.honeypotTripped <= MAX_WEIGHT && forall i :: 0 <= i < T.KEYS ==> w[i] <= MAX_WEIGHT
    ensures Score(Apply(base, w), requireBehavior, ctx, t).total <= 9 * MAX_WEIGHT
  {
    var s := Apply(base, w);
    ApplyVector(base, w);
    BehaviorWithinLimit(s, ctx.behavior);
    assert w[0] <= MAX_WEIGHT && w[1] <= MAX_WEIGHT && w[2] <= MAX_WEIGHT && w[3] <= MAX_WEIGHT;
    assert w[8] <= MAX_WEIGHT && w[9] <= MAX_WEIGHT;
  }

  // ---- Whole partitions ----------------------------------------------------

  /** One labelled production decision. */
  datatype Labelled = Labelled(ctx: VerifyContext, spam: bool)

  ghost predicate AllPresent(log: seq<Labelled>) {
    forall i :: 0 <= i < |log| ==> log[i].ctx.behavior.Present?
  }

  /** The samples the runner collects from a recorded log. */
  ghost function Collect(base: SignalWeights, requireBehavior: bool, t: VerifyThresholds,
      log: seq<Labelled>): seq<T.Sample>
    requires AllPresent(log)
  {
    if log == [] then []
    else
      var l := log[|log| - 1];
      var s := Project(Record(base, requireBehavior, l.ctx, t), base, l.spam);
      Collect(base, requireBehavior, t, log[..|log| - 1]) + (if s.Some? then [s.value] else [])
  }

  /** What production itself would have blocked in one class under weights w. */
  ghost function ProductionBlocks(w: SignalWeights, requireBehavior: bool, t: VerifyThresholds, log: seq<Labelled>,
      spam: bool): nat {
    if log == [] then 0
    else
      var l := log[|log| - 1];
      ProductionBlocks(w, requireBehavior, t, log[..|log| - 1], spam) +
      (if l.spam == spam && Score(w, requireBehavior, l.ctx, t).decision == Block then 1 else 0)
  }

  /** The tuner's blocked counts are production's, class by class, for every candidate weight vector. */
  lemma {:induction false} EvaluateMatchesProduction(
    base: SignalWeights, requireBehavior: bool, t: VerifyThresholds, log: seq<Labelled>, w: T.Weights)
    requires AllPresent(log) && LeavesTraces(base)
    ensures var samples := Collect(base, requireBehavior, t, log);
            var m := T.MetricsOf(samples, w, t.blockMin);
            && |samples| == |log|
            && m.spamBlocked == ProductionBlocks(Apply(base, w), requireBehavior, t, log, true)
            && m.legitBlocked == ProductionBlocks(Apply(base, w), requireBehavior, t, log, false)
  {
    if log != [] {
      var l := log[|log| - 1];
      EvaluateMatchesProduction(base, requireBehavior, t, log[..|log| - 1], w);
      ReplayFidelity(base, requireBehavior, l.ctx, t, l.spam, w);
      var samples := Collect(base, requireBehavior, t, log);
      assert samples[..|samples| - 1] == Collect(base, requireBehavior, t, log[..|log| - 1]);
    }
  }
}
