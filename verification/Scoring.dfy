/** Verify-time scoring (src/risk/behavior.rs, src/risk/verify.rs) against explicit weights. */
module Scoring {
  import opened Common

  const TIME_VERY_SHORT_MS: nat := 500
  const TIME_SHORT_MS: nat := 2_000
  const ISOLATED_INTERACTION_MAX: nat := 1
  const INSTANT_INTERACTION_MS: nat := 50
  const IMPOSSIBLE_TIMING_SLACK_MS: nat := 30_000
  const DUPLICATE_MIN: nat := 5
  const U64_MAX: nat := 0xFFFF_FFFF_FFFF_FFFF

  /** The verify-side weights; puzzle-side weights play no part here. */
  datatype SignalWeights = SignalWeights(
    honeypotTripped: nat,
    timeVeryShort: nat,
    timeShort: nat,
    remoteIpMismatch: nat,
    flatline: nat,
    noPointer: nat,
    instantInteraction: nat,
    automation: nat,
    headless: nat,
    impossibleTiming: nat,
    duplicate: nat
  )

  datatype BehaviorReport = BehaviorReport(
    mouseMoves: nat,
    touches: nat,
    interactions: nat,
    firstInteractionMs: Option<nat>,
    webdriver: Option<bool>,
    automation: Option<bool>,
    headless: Option<bool>
  )

  datatype BehaviorPresence = Absent | Present(report: BehaviorReport)

  datatype VerifyContext = VerifyContext(
    honeypotTripped: bool,
    timeOnPageMs: Option<nat>,
    behavior: BehaviorPresence,
    duplicateCount: nat,
    remoteIpMismatch: bool
  )

  datatype VerifyBreakdown = VerifyBreakdown(honeypot: nat, timeOnPage: nat, behavior: nat, remoteIp: nat)

  datatype VerifyDecision = Pass | ShadowFail | Block

  datatype VerifyThresholds = VerifyThresholds(shadowMin: nat, blockMin: nat)

  datatype VerifyScore = VerifyScore(total: nat, breakdown: VerifyBreakdown, decision: VerifyDecision)

  predicate ClaimsActivity(b: BehaviorReport) {
    b.mouseMoves > 0 || b.touches > 0 || b.interactions > 0
  }

  function ScoreTimeOnPage(w: SignalWeights, ms: Option<nat>): nat {
    match ms
    case None => 0
    case Some(t) =>
      if t < TIME_VERY_SHORT_MS then w.timeVeryShort else if t < TIME_SHORT_MS then w.timeShort else 0
  }

  function ScoreRemoteIp(w: SignalWeights, mismatch: bool): nat {
    if mismatch then w.remoteIpMismatch else 0
  }

  function SaturatingAdd(a: nat, b: nat): nat {
    Min(a + b, U64_MAX)
  }

  function ScoreImpossibleTiming(w: SignalWeights, presence: BehaviorPresence, ms: Option<nat>): nat {
    if presence.Absent? || ms.None? || presence.report.firstInteractionMs.None? then 0
    else if presence.report.firstInteractionMs.value > SaturatingAdd(ms.value, IMPOSSIBLE_TIMING_SLACK_MS)
    then w.impossibleTiming else 0
  }

  function ScoreDuplicateBlob(w: SignalWeights, presence: BehaviorPresence, count: nat): nat {
    if presence.Absent? then 0
    else if ClaimsActivity(presence.report) && count >= DUPLICATE_MIN then w.duplicate else 0
  }

  /** The four independent facts about a blob, each worth its own weight. */
  function PointerScore(w: SignalWeights, b: BehaviorReport): nat {
    var noPointer := b.mouseMoves == 0 && b.touches == 0;
    if noPointer && b.interactions == 0 then w.flatline
    else if noPointer && b.interactions <= ISOLATED_INTERACTION_MAX then w.noPointer
    else 0
  }

  predicate InstantInteraction(b: BehaviorReport) {
    b.interactions <= ISOLATED_INTERACTION_MAX && b.firstInteractionMs.Some? &&
    b.firstInteractionMs.value < INSTANT_INTERACTION_MS
  }

  predicate Driven(b: BehaviorReport) {
    b.webdriver == Some(true) || b.automation == Some(true)
  }

  function ScoreBehavior(w: SignalWeights, presence: BehaviorPresence): nat {
    match presence
    case Absent => 0
    case Present(b) =>
      PointerScore(w, b)
      + (if InstantInteraction(b) then w.instantInteraction else 0)
      + (if Driven(b) then w.automation else 0)
      + (if b.headless == Some(true) then w.headless else 0)
  }

  /** The scorer as it runs: one accumulator, in the source's branch order. */
  method ScoreBehaviorWith(w: SignalWeights, presence: BehaviorPresence) returns (score: nat)
    ensures score == ScoreBehavior(w, presence)
  {
    if presence.Absent? {
      return 0;
    }
    var b := presence.report;
    var noPointer := b.mouseMoves == 0 && b.touches == 0;
    var noInteraction := b.interactions == 0;
    var isolated := b.interactions <= ISOLATED_INTERACTION_MAX;
    score := 0;
    if noPointer && noInteraction {
      score := score + w.flatline;
    } else if noPointer && isolated {
      score := score + w.noPointer;
    }
    if isolated && b.firstInteractionMs.Some? && b.firstInteractionMs.value < INSTANT_INTERACTION_MS {
      score := score + w.instantInteraction;
    }
    if b.webdriver == Some(true) || b.automation == Some(true) {
      score := score + w.automation;
    }
    if b.headless == Some(true) {
      score := score + w.headless;
    }
  }

  function Decision(total: nat, t: VerifyThresholds): VerifyDecision {
    if total >= t.blockMin then Block else if total >= t.shadowMin then ShadowFail else Pass
  }

  /** `VerifyScorer::score`. */
  function Score(w: SignalWeights, requireBehavior: bool, ctx: VerifyContext, t: VerifyThresholds): VerifyScore {
    var behavior :=
      if ctx.behavior.Absent? && requireBehavior then w.flatline
      else ScoreBehavior(w, ctx.behavior) + ScoreImpossibleTiming(w, ctx.behavior, ctx.timeOnPageMs)
           + ScoreDuplicateBlob(w, ctx.behavior, ctx.duplicateCount);
    var breakdown := VerifyBreakdown(
      if ctx.honeypotTripped then w.honeypotTripped else 0,
      ScoreTimeOnPage(w, ctx.timeOnPageMs),
      behavior,
      ScoreRemoteIp(w, ctx.remoteIpMismatch));
    var total := breakdown.honeypot + breakdown.timeOnPage + breakdown.behavior + breakdown.remoteIp;
    VerifyScore(total, breakdown, Decision(total, t))
  }

  // ---- The score in facts --------------------------------------------------

  function Worth(fact: bool, weight: nat): nat {
    if fact then weight else 0
  }

  /** What a blob says about its visitor, weight by weight. */
  ghost function BlobScore(w: SignalWeights, b: BehaviorReport, ms: Option<nat>, duplicates: nat): nat {
    CounterScore(w, b)
    + Worth(b.firstInteractionMs.Some? && ms.Some? &&
            b.firstInteractionMs.value > Min(ms.value + 30_000, 0xFFFF_FFFF_FFFF_FFFF), w.impossibleTiming)
    + Worth(duplicates >= 5 && (b.mouseMoves > 0 || b.touches > 0 || b.interactions > 0), w.duplicate)
  }

  /** The part of it that looks at the blob alone. */
  ghost function CounterScore(w: SignalWeights, b: BehaviorReport): nat {
    var still := b.mouseMoves == 0 && b.touches == 0;
    Worth(still && b.interactions == 0, w.flatline)
    + Worth(still && b.interactions == 1, w.noPointer)
    + Worth(b.interactions <= 1 && b.firstInteractionMs.Some? && b.firstInteractionMs.value < 50, w.instantInteraction)
    + Worth(b.webdriver == Some(true) || b.automation == Some(true), w.automation)
    + Worth(b.headless == Some(true), w.headless)
  }

  lemma CountersAreFacts(w: SignalWeights, b: BehaviorReport)
    ensures ScoreBehavior(w, Present(b)) == CounterScore(w, b)
  {
    var still := b.mouseMoves == 0 && b.touches == 0;
    assert PointerScore(w, b) == Worth(still && b.interactions == 0, w.flatline) + Worth(still && b.interactions == 1, w.noPointer);
  }

  lemma BlobIsFacts(w: SignalWeights, b: BehaviorReport, ms: Option<nat>, duplicates: nat)
    ensures ScoreBehavior(w, Present(b)) + ScoreImpossibleTiming(w, Present(b), ms)
            + ScoreDuplicateBlob(w, Present(b), duplicates) == BlobScore(w, b, ms, duplicates)
  {
    CountersAreFacts(w, b);
  }

  lemma DwellIsFacts(w: SignalWeights, ms: Option<nat>)
    ensures ScoreTimeOnPage(w, ms) == Worth(ms.Some? && ms.value < 500, w.timeVeryShort)
                                      + Worth(ms.Some? && 500 <= ms.value < 2_000, w.timeShort)
  {
  }

  /**
    The production score, fact by fact: each weight counts exactly when its fact
    holds, a missing blob counts as a flat line where blobs are required, and the
    total alone decides, blocking first.
   */
  lemma ScoreOfFacts(w: SignalWeights, requireBehavior: bool, ctx: VerifyContext, t: VerifyThresholds)
    ensures var s := Score(w, requireBehavior, ctx, t);
            var ms := ctx.timeOnPageMs;
            && s.total ==
               Worth(ctx.honeypotTripped, w.honeypotTripped)
               + Worth(ms.Some? && ms.value < 500, w.timeVeryShort)
               + Worth(ms.Some? && 500 <= ms.value < 2_000, w.timeShort)
               + Worth(ctx.remoteIpMismatch, w.remoteIpMismatch)
               + (if ctx.behavior.Present? then BlobScore(w, ctx.behavior.report, ms, ctx.duplicateCount)
                  else Worth(requireBehavior, w.flatline))
            && (s.decision == Block <==> s.total >= t.blockMin)
            && (s.decision == ShadowFail <==> t.shadowMin <= s.total < t.blockMin)
            && (s.decision == Pass <==> s.total < t.blockMin && s.total < t.shadowMin)
  {
    DwellIsFacts(w, ctx.timeOnPageMs);
    if ctx.behavior.Present? {
      BlobIsFacts(w, ctx.behavior.report, ctx.timeOnPageMs, ctx.duplicateCount);
    }
  }
}
