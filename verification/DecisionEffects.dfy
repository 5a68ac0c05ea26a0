/**
  What one operation of the writer does to the four tables (src/dashboard/log.rs),
  row by row and in the rows' own columns: which rows a prune or an erasure keeps
  and in what order, what a sample carries, and where a verdict lands.
 */
module DecisionEffects {
  import opened Common
  import opened DecisionTables
  import opened DecisionRetention

  // ---- Erasure -------------------------------------------------------------

  /** The site has a live decision or a sample of this challenge. */
  ghost predicate Owns(t: Tables, site: SiteKey, challenge: ChallengeId) {
    || (exists p :: p in t.puzzles && p.site == site && p.challenge == Some(challenge))
    || (exists s :: s in t.training && s.site == site && s.challenge == Some(challenge))
  }

  /**
    An erasure takes a site's rows of one challenge, or all of them, and leaves
    everything else as it was and in order: other sites' rows and labels, the
    site's other challenges, and verify rows of challenges the site does not own.
   */
  ghost predicate ErasedRows(before: Tables, after: Tables, site: SiteKey, scope: Option<ChallengeId>) {
    && KeptOf(before.puzzles, after.puzzles, (p: PuzzleRow) => p.site != site || (scope.Some? && p.challenge != scope))
    && KeptOf(before.training, after.training, (s: Sample) => s.site != site || (scope.Some? && s.challenge != scope))
    && KeptOf(before.verifies, after.verifies,
              (v: VerifyRow) => !Owns(before, site, v.challenge) || (scope.Some? && scope.value != v.challenge))
    && (forall k :: k in after.labels <==>
          k in before.labels && (before.labels[k].site != site || (scope.Some? && scope.value != k)))
    && (forall k :: k in after.labels ==> after.labels[k] == before.labels[k])
  }

  lemma ErasedPuzzles(t: Tables, site: SiteKey, scope: Option<ChallengeId>)
    ensures KeptOf(t.puzzles, Erased(t, site, scope).puzzles,
                   (p: PuzzleRow) => p.site != site || (scope.Some? && p.challenge != scope))
  {
    var keep := (p: PuzzleRow) => !(p.site == site && InScope(scope, p.challenge));
    FilterKeeps(t.puzzles, keep);
    KeptAlike(t.puzzles, Erased(t, site, scope).puzzles, keep,
              (p: PuzzleRow) => p.site != site || (scope.Some? && p.challenge != scope));
  }

  lemma ErasedSamples(t: Tables, site: SiteKey, scope: Option<ChallengeId>)
    ensures KeptOf(t.training, Erased(t, site, scope).training,
                   (s: Sample) => s.site != site || (scope.Some? && s.challenge != scope))
  {
    var keep := (s: Sample) => !(s.site == site && InScope(scope, s.challenge));
    FilterKeeps(t.training, keep);
    KeptAlike(t.training, Erased(t, site, scope).training, keep,
              (s: Sample) => s.site != site || (scope.Some? && s.challenge != scope));
  }

  lemma ErasedVerifies(t: Tables, site: SiteKey, scope: Option<ChallengeId>)
    ensures KeptOf(t.verifies, Erased(t, site, scope).verifies,
                   (v: VerifyRow) => !Owns(t, site, v.challenge) || (scope.Some? && scope.value != v.challenge))
  {
    var owned := OwnedBy(t, site);
    var keep := (v: VerifyRow) => !(v.challenge in owned && InScope(scope, Some(v.challenge)));
    FilterKeeps(t.verifies, keep);
    forall v | v in t.verifies
      ensures keep(v) <==> !Owns(t, site, v.challenge) || (scope.Some? && scope.value != v.challenge)
    {
      assert v.challenge in owned <==> Owns(t, site, v.challenge);
    }
    KeptAlike(t.verifies, Erased(t, site, scope).verifies, keep,
              (v: VerifyRow) => !Owns(t, site, v.challenge) || (scope.Some? && scope.value != v.challenge));
  }

  lemma ErasureIsScoped(t: Tables, site: SiteKey, scope: Option<ChallengeId>)
    ensures ErasedRows(t, Erased(t, site, scope), site, scope)
  {
    ErasedPuzzles(t, site, scope);
    ErasedSamples(t, site, scope);
    ErasedVerifies(t, site, scope);
  }

  /** So erasing one challenge leaves the site's other decisions entirely alone. */
  lemma ErasureSparesOtherChallenges(t: Tables, site: SiteKey, erased: ChallengeId)
    ensures var a := Erased(t, site, Some(erased));
      && (forall p :: p in t.puzzles && p.challenge != Some(erased) ==> p in a.puzzles)
      && (forall v :: v in t.verifies && v.challenge != erased ==> v in a.verifies)
      && (forall s :: s in t.training && s.challenge != Some(erased) ==> s in a.training)
      && (forall k :: k in t.labels && k != erased ==> k in a.labels && a.labels[k] == t.labels[k])
  {
    var owned := OwnedBy(t, site);
    FilterMembers(t.puzzles, (p: PuzzleRow) => !(p.site == site && InScope(Some(erased), p.challenge)));
    FilterMembers(t.verifies, (v: VerifyRow) => !(v.challenge in owned && InScope(Some(erased), Some(v.challenge))));
    FilterMembers(t.training, (s: Sample) => !(s.site == site && InScope(Some(erased), s.challenge)));
  }

  // ---- Prune ---------------------------------------------------------------

  /** Young rows stay in order, labels stay with live rows, and no sample outlives its window. */
  ghost predicate PrunedRows(before: Tables, after: Tables, cutoff: int, trainingCutoff: Option<int>) {
    && KeptOf(before.puzzles, after.puzzles, (p: PuzzleRow) => p.ts >= cutoff)
    && KeptOf(before.verifies, after.verifies, (v: VerifyRow) => v.ts >= cutoff)
    && (forall k :: k in after.labels <==>
          k in before.labels && exists p :: p in before.puzzles && p.ts >= cutoff && p.challenge == Some(k))
    && (forall k :: k in after.labels ==> after.labels[k] == before.labels[k])
    && (forall s :: s in after.training ==> trainingCutoff.Some? && s.hour > trainingCutoff.value)
    && (forall s :: s in before.training && trainingCutoff.Some? && s.hour > trainingCutoff.value ==> s in after.training)
  }

  lemma PruneKeepsYoungRows(t: Tables, cutoff: int, trainingCutoff: Option<int>)
    ensures PrunedRows(t, Pruned(t, cutoff, trainingCutoff), cutoff, trainingCutoff)
  {
    PruneIsComplete(t, cutoff, trainingCutoff);
    FilterKeeps(t.puzzles, (p: PuzzleRow) => p.ts >= cutoff);
    FilterKeeps(t.verifies, (v: VerifyRow) => v.ts >= cutoff);
    CopiedMembers(t.training, t.puzzles, t.verifies, t.labels, cutoff);
    FilterMembers(Copied(t.training, t.puzzles, t.verifies, t.labels, cutoff),
                  (s: Sample) => trainingCutoff.Some? && s.hour > trainingCutoff.value);
  }

  // ---- What a sample carries -----------------------------------------------

  /** Row k is the first one of its challenge. */
  ghost predicate IsFirst(verifies: seq<VerifyRow>, k: nat)
    requires k < |verifies|
  {
    forall j :: 0 <= j < k ==> verifies[j].challenge != verifies[k].challenge
  }

  lemma {:induction false} FirstVerifyIs(verifies: seq<VerifyRow>, k: nat)
    requires k < |verifies| && IsFirst(verifies, k)
    ensures FirstVerify(verifies, verifies[k].challenge) == Some(verifies[k].data)
  {
    var n := |verifies| - 1;
    if k < n {
      FirstVerifyIs(verifies[..n], k);
    } else {
      NoVerifyYet(verifies[..n], verifies[n].challenge);
    }
  }

  lemma {:induction false} NoVerifyYet(verifies: seq<VerifyRow>, challenge: ChallengeId)
    requires forall j :: 0 <= j < |verifies| ==> verifies[j].challenge != challenge
    ensures FirstVerify(verifies, challenge) == None
  {
    if |verifies| > 0 {
      NoVerifyYet(verifies[..|verifies| - 1], challenge);
    }
  }

  /** The earliest row of a challenge that has one. */
  lemma FirstRow(verifies: seq<VerifyRow>, k: nat) returns (j: nat)
    requires k < |verifies|
    ensures j <= k && verifies[j].challenge == verifies[k].challenge && IsFirst(verifies, j)
  {
    if IsFirst(verifies, k) {
      j := k;
    } else {
      var i :| 0 <= i < k && verifies[i].challenge == verifies[k].challenge;
      j := FirstRow(verifies, i);
    }
  }

  /**
    The sample holds what training takes from a decision: its challenge, site and
    columns, its hour, its first verify row and its label, and no finer time.
   */
  ghost predicate Carries(x: Sample, p: PuzzleRow, t: Tables) {
    && x.challenge == p.challenge && x.site == p.site && x.data == p.data
    && x.hour * 3_600_000_000_000 <= p.ts < (x.hour + 1) * 3_600_000_000_000
    && (if exists k :: 0 <= k < |t.verifies| && Some(t.verifies[k].challenge) == p.challenge
        then exists k :: && 0 <= k < |t.verifies| && Some(t.verifies[k].challenge) == p.challenge
                         && IsFirst(t.verifies, k) && x.verify == Some(t.verifies[k].data)
        else x.verify == None)
    && (if p.challenge.Some? && p.challenge.value in t.labels
        then x.mark == Some(Mark(t.labels[p.challenge.value].verdict, t.labels[p.challenge.value].ts))
        else x.mark == None)
  }

  lemma FoldCarries(t: Tables, p: PuzzleRow)
    ensures Carries(Folded(p, t.verifies, t.labels), p, t)
  {
    if k :| 0 <= k < |t.verifies| && Some(t.verifies[k].challenge) == p.challenge {
      var j := FirstRow(t.verifies, k);
      FirstVerifyIs(t.verifies, j);
    } else if p.challenge.Some? {
      NoVerifyYet(t.verifies, p.challenge.value);
    }
  }

  /**
    Over sound tables a prune with a training window turns every old decision
    still inside it into a sample that carries it, and makes no other sample.
   */
  lemma PruneCarriesDecisions(t: Tables, cutoff: int, hours: int)
    requires Sound(t)
    ensures var a := Pruned(t, cutoff, Some(hours));
      && (forall p :: p in t.puzzles && p.ts < cutoff && p.ts >= (hours + 1) * 3_600_000_000_000 ==>
            exists x :: x in a.training && Carries(x, p, t))
      && (forall x :: x in a.training && x !in t.training ==>
            exists p :: p in t.puzzles && p.ts < cutoff && Carries(x, p, t))
  {
    var a := Pruned(t, cutoff, Some(hours));
    forall p | p in t.puzzles && p.ts < cutoff && p.ts >= (hours + 1) * 3_600_000_000_000
      ensures exists x :: x in a.training && Carries(x, p, t)
    {
      var x := Folded(p, t.verifies, t.labels);
      assert CameFrom(x, p, t, cutoff);
      PruneFoldsDecisions(t, cutoff, hours, x);
      FoldCarries(t, p);
    }
    forall x | x in a.training && x !in t.training
      ensures exists p :: p in t.puzzles && p.ts < cutoff && Carries(x, p, t)
    {
      PruneFoldsDecisions(t, cutoff, hours, x);
      var p :| CameFrom(x, p, t, cutoff);
      FoldCarries(t, p);
    }
  }

  // ---- Labels --------------------------------------------------------------

  /** Every sample of the decision takes the mark; every other one, and the order, stays. */
  ghost predicate MarkedSamples(before: seq<Sample>, after: seq<Sample>, challenge: ChallengeId, site: SiteKey,
                                mark: Mark) {
    && |after| == |before|
    && (forall i :: 0 <= i < |before| ==>
          var s := before[i];
          after[i] == if s.challenge == Some(challenge) && s.site == site then s.(mark := Some(mark)) else s)
  }

  /** One label set to the verdict; one already there keeps its site. */
  ghost predicate MarkedLabel(before: Labels, after: Labels, challenge: ChallengeId, site: SiteKey, mark: Mark) {
    && after.Keys == before.Keys + {challenge}
    && (forall k :: k in before && k != challenge ==> after[k] == before[k])
    && after[challenge].verdict == mark.verdict && after[challenge].ts == mark.ts
    && after[challenge].site == if challenge in before then before[challenge].site else site
  }

  /**
    A verdict marks the samples of the decision, or failing that goes to the
    label of its live row, or failing that nowhere; nothing else changes.
   */
  ghost predicate LabelledRows(before: Tables, after: Tables, challenge: ChallengeId, site: SiteKey, mark: Mark) {
    && after.puzzles == before.puzzles && after.verifies == before.verifies
    && MarkedSamples(before.training, after.training, challenge, site, mark)
    && (if (exists s :: s in before.training && s.challenge == Some(challenge) && s.site == site) ||
           !(exists p :: p in before.puzzles && p.challenge == Some(challenge) && p.site == site)
        then after.labels == before.labels
        else MarkedLabel(before.labels, after.labels, challenge, site, mark))
  }

  lemma SamplesMarked(training: seq<Sample>, challenge: ChallengeId, site: SiteKey, mark: Mark)
    ensures MarkedSamples(training, Relabel(training, challenge, site, mark), challenge, site, mark)
    ensures !HasSampleOf(training, challenge, site) ==> Relabel(training, challenge, site, mark) == training
  {
    RelabelAt(training, challenge, site, mark);
    UnmarkedUnlessFound(training, challenge, site, mark);
  }

  lemma LabelMarked(labels: Labels, challenge: ChallengeId, site: SiteKey, mark: Mark)
    ensures MarkedLabel(labels, labels[challenge := Upserted(labels, challenge, site, mark)], challenge, site, mark)
  {
  }

  lemma LabelTouchesOneDecision(t: Tables, challenge: ChallengeId, site: SiteKey, mark: Mark)
    ensures LabelledRows(t, Labeled(t, challenge, site, mark).0, challenge, site, mark)
  {
    SamplesMarked(t.training, challenge, site, mark);
    LabelMarked(t.labels, challenge, site, mark);
  }

  /** Over sound tables that is the verdict in force, in the one place the decision lives. */
  lemma LabelledIsInForce(before: Tables, after: Tables, challenge: ChallengeId, site: SiteKey, mark: Mark)
    requires Sound(before) && Owns(before, site, challenge) && LabelledRows(before, after, challenge, site, mark)
    ensures InForce(after, challenge, site, mark)
  {
    forall s | s in after.training && s.challenge == Some(challenge) && s.site == site ensures s.mark == Some(mark) {
      var i :| 0 <= i < |after.training| && after.training[i] == s;
      assert before.training[i] in before.training;
    }
    if s :| s in before.training && s.challenge == Some(challenge) && s.site == site {
      var i :| 0 <= i < |before.training| && before.training[i] == s;
      assert after.training[i] in after.training;
    }
  }

  // ---- Opening -------------------------------------------------------------

  /** Opening expires samples, in order, and touches no other table. */
  lemma OpeningKeepsRows(t: Tables, trainingCutoff: Option<int>)
    ensures var a := Opened(t, trainingCutoff);
      && a.puzzles == t.puzzles && a.verifies == t.verifies && a.labels == t.labels
      && KeptOf(t.training, a.training, (s: Sample) => trainingCutoff.Some? && s.hour > trainingCutoff.value)
  {
    FilterKeeps(t.training, (s: Sample) => trainingCutoff.Some? && s.hour > trainingCutoff.value);
  }
}
