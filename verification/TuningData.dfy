/**
  Which production decisions ever become tuning samples: the training copy of
  src/dashboard/log.rs meets the row filter of examples/tune_weights.rs.
 */
module TuningData {
  import opened Common
  import opened DecisionTables
  import opened DecisionRetention
  import opened DecisionEffects
  import opened Scoring
  import Replay
  import T = Tuning

  // How the columns a verify row carries along read back from a training sample.
  type Columns = nat -> Replay.TrainingVerify

  /** The runner's treatment of one exported row: labelled, verified and replayable, or skipped. */
  function TunerSample(columns: Columns, base: SignalWeights, x: Sample): Option<T.Sample> {
    if x.verify.None? || x.mark.None? then None
    else Replay.Project(columns(x.verify.value), base, x.mark.value.verdict.Spam?)
  }

  /** What a wrong nonce leaves behind. */
  predicate IsRetry(v: Replay.TrainingVerify) {
    v.outcome == "pow_invalid"
  }

  /** A labelled decision past the cutoff and inside the training window, whose solved attempt is verify row k. */
  ghost predicate Due(t: Tables, cutoff: int, hours: int, p: PuzzleRow, k: nat) {
    && p in t.puzzles && p.ts < cutoff && HourOf(p.ts) > hours
    && k < |t.verifies| && p.challenge == Some(t.verifies[k].challenge) && t.verifies[k].challenge in t.labels
  }

  /** Row k records the scored attempt of this context; the challenge's other rows are wrong nonces. */
  ghost predicate Solves(columns: Columns, base: SignalWeights, requireBehavior: bool, th: VerifyThresholds,
                         ctx: VerifyContext, verifies: seq<VerifyRow>, k: nat)
    requires k < |verifies|
  {
    && Replay.Recordable(ctx)
    && columns(verifies[k].data) == Replay.Record(base, requireBehavior, ctx, th)
    && forall j :: 0 <= j < |verifies| && j != k && verifies[j].challenge == verifies[k].challenge ==>
         IsRetry(columns(verifies[j].data))
  }

  /** The sample scores, and is blocked, as production would score and block under w. */
  ghost predicate MatchesProduction(base: SignalWeights, requireBehavior: bool, th: VerifyThresholds,
                                    ctx: VerifyContext, sample: T.Sample, w: T.Weights) {
    var production := Score(Replay.Apply(base, w), requireBehavior, ctx, th);
    && T.SampleScore(sample, w) == production.total
    && (T.IsBlocked(sample, w, th.blockMin) <==> production.decision == Block)
  }

  /** A labelled sample that carries the scored row is taken, and taken at its word. */
  lemma ScoredSampleIsFaithful(columns: Columns, base: SignalWeights, requireBehavior: bool, th: VerifyThresholds,
                               ctx: VerifyContext, x: Sample)
    requires Replay.LeavesTraces(base) && Replay.Recordable(ctx) && x.mark.Some? && x.verify.Some?
    requires columns(x.verify.value) == Replay.Record(base, requireBehavior, ctx, th)
    ensures TunerSample(columns, base, x).Some?
    ensures TunerSample(columns, base, x).value.spam <==> x.mark.value.verdict == Spam
    ensures forall w: T.Weights ::
              MatchesProduction(base, requireBehavior, th, ctx, TunerSample(columns, base, x).value, w)
  {
    var spam := x.mark.value.verdict.Spam?;
    Replay.RecordedRowsAreAccepted(base, requireBehavior, ctx, th, spam);
    forall w: T.Weights
      ensures MatchesProduction(base, requireBehavior, th, ctx, TunerSample(columns, base, x).value, w)
    {
      Replay.ReplayFidelity(base, requireBehavior, ctx, th, spam, w);
    }
  }

  /** A fold carries the earliest live verify row of its challenge. */
  lemma FoldCarriesFirst(t: Tables, cutoff: int, hours: int, p: PuzzleRow, k: nat) returns (j: nat)
    requires Sound(t) && Due(t, cutoff, hours, p, k)
    ensures var x := Folded(p, t.verifies, t.labels);
            && x in Pruned(t, cutoff, Some(hours)).training && x.mark.Some?
            && j <= k && t.verifies[j].challenge == t.verifies[k].challenge && IsFirst(t.verifies, j)
            && x.verify == Some(t.verifies[j].data)
  {
    var x := Folded(p, t.verifies, t.labels);
    assert CameFrom(x, p, t, cutoff);
    PruneFoldsDecisions(t, cutoff, hours, x);
    j := FirstRow(t.verifies, k);
    FirstVerifyIs(t.verifies, j);
  }

  /**
    A labelled, scored decision always leaves a training sample when it is
    pruned, but reaches the tuner exactly when its scored row is the challenge's
    first verify row still live at that prune. It then scores and blocks, for
    every weight vector, as production would; otherwise it is skipped.
   */
  lemma DecisionReachesTunerIff(columns: Columns, base: SignalWeights, requireBehavior: bool, th: VerifyThresholds,
                                ctx: VerifyContext, t: Tables, cutoff: int, hours: int, p: PuzzleRow, k: nat)
    requires Sound(t) && Due(t, cutoff, hours, p, k) && Replay.LeavesTraces(base)
    requires Solves(columns, base, requireBehavior, th, ctx, t.verifies, k)
    ensures var x := Folded(p, t.verifies, t.labels);
            var sample := TunerSample(columns, base, x);
            && x in Pruned(t, cutoff, Some(hours)).training
            && (sample.Some? <==> IsFirst(t.verifies, k))
            && (sample.Some? ==> (sample.value.spam <==> t.labels[t.verifies[k].challenge].verdict == Spam))
            && (sample.Some? ==>
                  forall w: T.Weights :: MatchesProduction(base, requireBehavior, th, ctx, sample.value, w))
  {
    var x := Folded(p, t.verifies, t.labels);
    var j := FoldCarriesFirst(t, cutoff, hours, p, k);
    if j == k {
      ScoredSampleIsFaithful(columns, base, requireBehavior, th, ctx, x);
    } else {
      assert IsRetry(columns(t.verifies[j].data));
    }
  }

  /** One wrong nonce before the success, and the decision never reaches the tuner; without it, it does. */
  lemma RetryIsLost(columns: Columns, base: SignalWeights, requireBehavior: bool, th: VerifyThresholds,
                    ctx: VerifyContext, site: SiteKey, challenge: ChallengeId, wrong: nat, scored: nat, mark: Mark)
    requires Replay.LeavesTraces(base) && Replay.Recordable(ctx)
    requires IsRetry(columns(wrong)) && columns(scored) == Replay.Record(base, requireBehavior, ctx, th)
    ensures var p := PuzzleRow(0, Some(challenge), site, 0);
            var labels := map[challenge := Label(site, mark.verdict, mark.ts)];
            var retried := [VerifyRow(1, challenge, wrong), VerifyRow(2, challenge, scored)];
            && TunerSample(columns, base, Folded(p, retried, labels)) == None
            && TunerSample(columns, base, Folded(p, retried[1..], labels)).Some?
  {
    var p := PuzzleRow(0, Some(challenge), site, 0);
    var labels := map[challenge := Label(site, mark.verdict, mark.ts)];
    var retried := [VerifyRow(1, challenge, wrong), VerifyRow(2, challenge, scored)];
    FirstVerifyIs(retried, 0);
    FirstVerifyIs(retried[1..], 0);
    Replay.RecordedRowsAreAccepted(base, requireBehavior, ctx, th, mark.verdict.Spam?);
  }
}
