/**
  What the decision tables keep over any sequence of writer operations: one
  place per decision, complete prunes, final erasure, and labels that reach the
  decision whichever side of a prune they arrive on.
 */
module DecisionRetention {
  import opened Common
  import opened DecisionTables

  // ---- One place per decision ----------------------------------------------

  ghost predicate UniquePuzzles(puzzles: seq<PuzzleRow>) {
    forall i, j :: 0 <= i < j < |puzzles| && puzzles[i].challenge.Some? ==> puzzles[i].challenge != puzzles[j].challenge
  }

  ghost predicate UniqueSamples(training: seq<Sample>) {
    forall i, j :: 0 <= i < j < |training| && training[i].challenge.Some? ==> training[i].challenge != training[j].challenge
  }

  /** No challenge has two rows, or both a live row and a sample; a label annotates a live row of its own site. */
  ghost predicate Sound(t: Tables) {
    && UniquePuzzles(t.puzzles)
    && UniqueSamples(t.training)
    && (forall p :: p in t.puzzles && p.challenge.Some? ==> !HasSample(t.training, p.challenge.value))
    && (forall k :: k in t.labels ==> HasPuzzleOf(t.puzzles, k, t.labels[k].site))
  }

  /** The operation does not reuse a challenge id that some table still knows. */
  ghost predicate Fresh(t: Tables, op: Op) {
    op.InsertPuzzle? && op.puzzle.challenge.Some? ==>
      op.puzzle.challenge.value !in LiveIds(t.puzzles) && !HasSample(t.training, op.puzzle.challenge.value)
  }

  lemma {:induction false} FilterUniquePuzzles(puzzles: seq<PuzzleRow>, keep: PuzzleRow -> bool)
    requires UniquePuzzles(puzzles)
    ensures UniquePuzzles(Filter(puzzles, keep))
  {
    if |puzzles| > 0 {
      FilterUniquePuzzles(puzzles[..|puzzles| - 1], keep);
      FilterMembers(puzzles[..|puzzles| - 1], keep);
      assert forall x :: x in puzzles[..|puzzles| - 1] && x.challenge.Some? ==> x.challenge != puzzles[|puzzles| - 1].challenge;
    }
  }

  lemma {:induction false} FilterUniqueSamples(training: seq<Sample>, keep: Sample -> bool)
    requires UniqueSamples(training)
    ensures UniqueSamples(Filter(training, keep))
  {
    if |training| > 0 {
      FilterUniqueSamples(training[..|training| - 1], keep);
      FilterMembers(training[..|training| - 1], keep);
      assert forall x :: x in training[..|training| - 1] && x.challenge.Some? ==> x.challenge != training[|training| - 1].challenge;
    }
  }

  // ---- What a prune copies -------------------------------------------------

  /** This sample was folded from a decision older than the cutoff. */
  ghost predicate CameFrom(x: Sample, p: PuzzleRow, t: Tables, cutoff: int) {
    p in t.puzzles && p.ts < cutoff && x == Folded(p, t.verifies, t.labels)
  }

  /** Samples already there stay in place; every other one is a fold; every old challenge has one. */
  lemma {:induction false} CopiedMembers(training: seq<Sample>, puzzles: seq<PuzzleRow>, verifies: seq<VerifyRow>,
                                         labels: Labels, cutoff: int)
    ensures training <= Copied(training, puzzles, verifies, labels, cutoff)
    ensures forall x :: x in Copied(training, puzzles, verifies, labels, cutoff) && x !in training ==>
              exists p :: p in puzzles && p.ts < cutoff && x == Folded(p, verifies, labels)
    ensures forall p :: p in puzzles && p.ts < cutoff && p.challenge.Some? ==>
              HasSample(Copied(training, puzzles, verifies, labels, cutoff), p.challenge.value)
  {
    if |puzzles| > 0 {
      var init, p := puzzles[..|puzzles| - 1], puzzles[|puzzles| - 1];
      assert puzzles == init + [p];
      CopiedMembers(training, init, verifies, labels, cutoff);
      var before := Copied(training, init, verifies, labels, cutoff);
      var after := Copied(training, puzzles, verifies, labels, cutoff);
      assert forall x :: x in before ==> x in after;
    }
  }

  lemma {:induction false} CopiedUnique(training: seq<Sample>, puzzles: seq<PuzzleRow>, verifies: seq<VerifyRow>,
                                        labels: Labels, cutoff: int)
    requires UniqueSamples(training)
    ensures UniqueSamples(Copied(training, puzzles, verifies, labels, cutoff))
  {
    if |puzzles| > 0 {
      CopiedUnique(training, puzzles[..|puzzles| - 1], verifies, labels, cutoff);
    }
  }

  /** With no other row of its challenge before it, a decision's fold is not ignored. */
  lemma FoldInserted(training: seq<Sample>, init: seq<PuzzleRow>, verifies: seq<VerifyRow>, labels: Labels, cutoff: int,
                     p: PuzzleRow)
    requires forall q :: q in init && q.challenge.Some? ==> q.challenge != p.challenge
    requires p.challenge.Some? ==> !HasSample(training, p.challenge.value)
    ensures Folded(p, verifies, labels) in
            InsertOrIgnore(Copied(training, init, verifies, labels, cutoff), Folded(p, verifies, labels))
  {
    CopiedMembers(training, init, verifies, labels, cutoff);
  }

  /** Under unique ids nothing is ignored: each old decision's own fold is among the samples. */
  lemma {:induction false} CopiedComplete(training: seq<Sample>, puzzles: seq<PuzzleRow>, verifies: seq<VerifyRow>,
                                          labels: Labels, cutoff: int, p: PuzzleRow)
    requires UniquePuzzles(puzzles) && p in puzzles && p.ts < cutoff
    requires p.challenge.Some? ==> !HasSample(training, p.challenge.value)
    ensures Folded(p, verifies, labels) in Copied(training, puzzles, verifies, labels, cutoff)
  {
    var n := |puzzles| - 1;
    assert puzzles == puzzles[..n] + [puzzles[n]];
    if p in puzzles[..n] {
      CopiedComplete(training, puzzles[..n], verifies, labels, cutoff, p);
    } else {
      FoldInserted(training, puzzles[..n], verifies, labels, cutoff, p);
    }
  }

  // ---- Prune: what goes, what stays ----------------------------------------

  /**
    After any prune, whatever the tables held: no row older than the cutoff
    remains and every younger row does, no sample is past its own window, and
    every label annotates a live row.
   */
  lemma PruneIsComplete(t: Tables, cutoff: int, trainingCutoff: Option<int>)
    ensures var a := Pruned(t, cutoff, trainingCutoff);
      && (forall p :: p in a.puzzles <==> p in t.puzzles && p.ts >= cutoff)
      && (forall v :: v in a.verifies <==> v in t.verifies && v.ts >= cutoff)
      && (forall s :: s in a.training ==> trainingCutoff.Some? && s.hour > trainingCutoff.value)
      && (forall k :: k in a.labels <==> k in t.labels && k in LiveIds(a.puzzles))
  {
    FilterMembers(t.puzzles, (p: PuzzleRow) => p.ts >= cutoff);
    FilterMembers(t.verifies, (v: VerifyRow) => v.ts >= cutoff);
    var before := if trainingCutoff.Some? then Copied(t.training, t.puzzles, t.verifies, t.labels, cutoff) else t.training;
    FilterMembers(before, (s: Sample) => trainingCutoff.Some? && s.hour > trainingCutoff.value);
  }

  /** The samples after a prune are exactly the unexpired old samples and the unexpired folds of pruned decisions. */
  lemma PruneFoldsDecisions(t: Tables, cutoff: int, hours: int, x: Sample)
    requires Sound(t)
    ensures x in Pruned(t, cutoff, Some(hours)).training <==>
            x.hour > hours && (x in t.training || exists p :: CameFrom(x, p, t, cutoff))
  {
    var copied := Copied(t.training, t.puzzles, t.verifies, t.labels, cutoff);
    FilterMembers(copied, (s: Sample) => Some(hours).Some? && s.hour > Some(hours).value);
    CopiedMembers(t.training, t.puzzles, t.verifies, t.labels, cutoff);
    if x in copied && x !in t.training {
      var p :| p in t.puzzles && p.ts < cutoff && x == Folded(p, t.verifies, t.labels);
      assert CameFrom(x, p, t, cutoff);
    }
    if p :| CameFrom(x, p, t, cutoff) {
      CopiedComplete(t.training, t.puzzles, t.verifies, t.labels, cutoff, p);
    }
  }

  // ---- Soundness is kept ---------------------------------------------------

  lemma PruneKeepsSound(t: Tables, cutoff: int, trainingCutoff: Option<int>)
    requires Sound(t)
    ensures Sound(Pruned(t, cutoff, trainingCutoff))
  {
    var a := Pruned(t, cutoff, trainingCutoff);
    PruneIsComplete(t, cutoff, trainingCutoff);
    FilterUniquePuzzles(t.puzzles, (p: PuzzleRow) => p.ts >= cutoff);
    var copied := Copied(t.training, t.puzzles, t.verifies, t.labels, cutoff);
    CopiedUnique(t.training, t.puzzles, t.verifies, t.labels, cutoff);
    CopiedMembers(t.training, t.puzzles, t.verifies, t.labels, cutoff);
    var before := if trainingCutoff.Some? then copied else t.training;
    FilterUniqueSamples(before, (s: Sample) => trainingCutoff.Some? && s.hour > trainingCutoff.value);
    FilterMembers(before, (s: Sample) => trainingCutoff.Some? && s.hour > trainingCutoff.value);
    forall p, s | p in a.puzzles && p.challenge.Some? && s in a.training ensures s.challenge != p.challenge {
      if s !in t.training {
        var q :| q in t.puzzles && q.ts < cutoff && s == Folded(q, t.verifies, t.labels);
      }
    }
    forall k | k in a.labels ensures HasPuzzleOf(a.puzzles, k, a.labels[k].site) {
      var p :| p in a.puzzles && p.challenge == Some(k);
      assert p in t.puzzles;
    }
  }

  lemma EraseKeepsSound(t: Tables, site: SiteKey, scope: Option<ChallengeId>)
    requires Sound(t)
    ensures Sound(Erased(t, site, scope))
  {
    var keepPuzzle := (p: PuzzleRow) => !(p.site == site && InScope(scope, p.challenge));
    var keepSample := (s: Sample) => !(s.site == site && InScope(scope, s.challenge));
    FilterUniquePuzzles(t.puzzles, keepPuzzle);
    FilterMembers(t.puzzles, keepPuzzle);
    FilterUniqueSamples(t.training, keepSample);
    FilterMembers(t.training, keepSample);
    var a := Erased(t, site, scope);
    forall k | k in a.labels ensures HasPuzzleOf(a.puzzles, k, a.labels[k].site) {
      var p :| p in t.puzzles && p.challenge == Some(k) && p.site == t.labels[k].site;
      assert p in a.puzzles;
    }
  }

  lemma {:induction false} RelabelAt(training: seq<Sample>, challenge: ChallengeId, site: SiteKey, mark: Mark)
    ensures |Relabel(training, challenge, site, mark)| == |training|
    ensures forall i :: 0 <= i < |training| ==>
              Relabel(training, challenge, site, mark)[i] == Relabeled(training[i], challenge, site, mark)
  {
    if |training| > 0 {
      RelabelAt(training[..|training| - 1], challenge, site, mark);
    }
  }

  lemma LabelKeepsSound(t: Tables, challenge: ChallengeId, site: SiteKey, mark: Mark)
    requires Sound(t)
    ensures Sound(Labeled(t, challenge, site, mark).0)
  {
    var a := Labeled(t, challenge, site, mark).0;
    RelabelAt(t.training, challenge, site, mark);
    forall p, s | p in a.puzzles && p.challenge.Some? && s in a.training ensures s.challenge != p.challenge {
      if a.training != t.training {
        var i :| 0 <= i < |a.training| && a.training[i] == s;
        assert t.training[i] in t.training;
      }
    }
  }

  lemma InsertKeepsSound(t: Tables, p: PuzzleRow)
    requires Sound(t) && Fresh(t, InsertPuzzle(p))
    ensures Sound(Apply(t, InsertPuzzle(p)))
  {
    var a := Apply(t, InsertPuzzle(p));
    forall i, j | 0 <= i < j < |a.puzzles| && a.puzzles[i].challenge.Some?
      ensures a.puzzles[i].challenge != a.puzzles[j].challenge
    {
      assert a.puzzles[i] == t.puzzles[i];
      assert a.puzzles[i].challenge.value in LiveIds(t.puzzles);
    }
    forall k | k in a.labels ensures HasPuzzleOf(a.puzzles, k, a.labels[k].site) {
      var q :| q in t.puzzles && q.challenge == Some(k) && q.site == t.labels[k].site;
      assert q in a.puzzles;
    }
  }

  lemma StepKeepsSound(t: Tables, op: Op)
    requires Sound(t) && Fresh(t, op)
    ensures Sound(Apply(t, op))
  {
    match op
    case InsertPuzzle(p) => InsertKeepsSound(t, p);
    case InsertVerify(_) =>
    case PruneBefore(cutoff, trainingCutoff) => PruneKeepsSound(t, cutoff, trainingCutoff);
    case Erase(site, scope) => EraseKeepsSound(t, site, scope);
    case ClearAll =>
    case ApplyLabel(challenge, owner, mark) => LabelKeepsSound(t, challenge, owner, mark);
  }

  // ---- Whole runs ----------------------------------------------------------

  function ApplyAll(t: Tables, ops: seq<Op>): Tables {
    if |ops| == 0 then t else Apply(ApplyAll(t, ops[..|ops| - 1]), ops[|ops| - 1])
  }

  ghost predicate Inserts(op: Op, challenge: ChallengeId) {
    op.InsertPuzzle? && op.puzzle.challenge == Some(challenge)
  }

  /** No challenge id is recorded by two puzzle records. */
  ghost predicate DistinctIds(ops: seq<Op>) {
    forall i, j, challenge :: 0 <= i < j < |ops| && Inserts(ops[i], challenge) ==> !Inserts(ops[j], challenge)
  }

  ghost predicate Knows(t: Tables, challenge: ChallengeId) {
    challenge in LiveIds(t.puzzles) || HasSample(t.training, challenge)
  }

  lemma StepKnows(t: Tables, op: Op, challenge: ChallengeId)
    requires Knows(Apply(t, op), challenge)
    ensures Knows(t, challenge) || Inserts(op, challenge)
  {
    var a := Apply(t, op);
    match op
    case InsertPuzzle(_) =>
    case InsertVerify(_) =>
    case PruneBefore(cutoff, trainingCutoff) =>
      PruneIsComplete(t, cutoff, trainingCutoff);
      var before := if trainingCutoff.Some? then Copied(t.training, t.puzzles, t.verifies, t.labels, cutoff) else t.training;
      FilterMembers(before, (s: Sample) => trainingCutoff.Some? && s.hour > trainingCutoff.value);
      CopiedMembers(t.training, t.puzzles, t.verifies, t.labels, cutoff);
    case Erase(site, scope) =>
      FilterMembers(t.puzzles, (p: PuzzleRow) => !(p.site == site && InScope(scope, p.challenge)));
      FilterMembers(t.training, (s: Sample) => !(s.site == site && InScope(scope, s.challenge)));
    case ClearAll =>
    case ApplyLabel(ch, owner, mark) =>
      RelabelAt(t.training, ch, owner, mark);
  }

  lemma {:induction false} RunKnows(start: Tables, ops: seq<Op>, challenge: ChallengeId)
    requires Knows(ApplyAll(start, ops), challenge)
    ensures Knows(start, challenge) || exists i :: 0 <= i < |ops| && Inserts(ops[i], challenge)
  {
    if |ops| > 0 {
      var n := |ops| - 1;
      StepKnows(ApplyAll(start, ops[..n]), ops[n], challenge);
      if Knows(ApplyAll(start, ops[..n]), challenge) {
        RunKnows(start, ops[..n], challenge);
        if !Knows(start, challenge) {
          var i :| 0 <= i < n && Inserts(ops[..n][i], challenge);
          assert Inserts(ops[i], challenge);
        }
      } else {
        assert Inserts(ops[n], challenge);
      }
    }
  }

  /** Puzzle records with ids distinct among themselves and new to the tables they go into. */
  ghost predicate NewIds(start: Tables, ops: seq<Op>) {
    DistinctIds(ops) &&
    forall i, challenge :: 0 <= i < |ops| && Inserts(ops[i], challenge) ==> !Knows(start, challenge)
  }

  /**
    Over any run from sound tables whose puzzle records carry new ids, a decision
    is always in one place: no id has two live rows, two samples, or a live row
    and a sample, and every label annotates a live row of the site that set it.
   */
  lemma {:induction false} TablesStaySound(start: Tables, ops: seq<Op>)
    requires Sound(start) && NewIds(start, ops)
    ensures Sound(ApplyAll(start, ops))
  {
    if |ops| > 0 {
      var n := |ops| - 1;
      var t := ApplyAll(start, ops[..n]);
      assert NewIds(start, ops[..n]);
      TablesStaySound(start, ops[..n]);
      if !Fresh(t, ops[n]) {
        var challenge := ops[n].puzzle.challenge.value;
        assert Inserts(ops[n], challenge);
        RunKnows(start, ops[..n], challenge);
      }
      StepKeepsSound(t, ops[n]);
    }
  }

  /** Opening forgets samples and nothing else: what was sound, unknown or erased stays so. */
  lemma OpeningOnlyForgets(t: Tables, trainingCutoff: Option<int>)
    ensures var a := Opened(t, trainingCutoff);
      && (Sound(t) ==> Sound(a))
      && (forall challenge :: Knows(a, challenge) ==> Knows(t, challenge))
      && (forall site, scope :: NoTrace(t, site, scope) ==> NoTrace(a, site, scope))
      && (forall s :: s in a.training <==> s in t.training && trainingCutoff.Some? && s.hour > trainingCutoff.value)
  {
    var keep := (s: Sample) => trainingCutoff.Some? && s.hour > trainingCutoff.value;
    FilterMembers(t.training, keep);
    if UniqueSamples(t.training) {
      FilterUniqueSamples(t.training, keep);
    }
  }

  // ---- Erasure -------------------------------------------------------------

  /** No puzzle, label or training row of this site within the scope. */
  ghost predicate NoTrace(t: Tables, site: SiteKey, scope: Option<ChallengeId>) {
    && (forall p :: p in t.puzzles && p.site == site ==> !InScope(scope, p.challenge))
    && (forall k :: k in t.labels && t.labels[k].site == site ==> !InScope(scope, Some(k)))
    && (forall s :: s in t.training && s.site == site ==> !InScope(scope, s.challenge))
  }

  ghost predicate Reintroduces(op: Op, site: SiteKey, scope: Option<ChallengeId>) {
    op.InsertPuzzle? && op.puzzle.site == site && InScope(scope, op.puzzle.challenge)
  }

  lemma EraseLeavesNoTrace(t: Tables, site: SiteKey, scope: Option<ChallengeId>)
    ensures NoTrace(Erased(t, site, scope), site, scope)
  {
    FilterMembers(t.puzzles, (p: PuzzleRow) => !(p.site == site && InScope(scope, p.challenge)));
    FilterMembers(t.training, (s: Sample) => !(s.site == site && InScope(scope, s.challenge)));
  }

  lemma StepLeavesNoTrace(t: Tables, op: Op, site: SiteKey, scope: Option<ChallengeId>)
    requires NoTrace(t, site, scope) && !Reintroduces(op, site, scope)
    ensures NoTrace(Apply(t, op), site, scope)
  {
    match op
    case InsertPuzzle(_) =>
    case InsertVerify(_) =>
    case PruneBefore(cutoff, trainingCutoff) =>
      PruneIsComplete(t, cutoff, trainingCutoff);
      var before := if trainingCutoff.Some? then Copied(t.training, t.puzzles, t.verifies, t.labels, cutoff) else t.training;
      FilterMembers(before, (s: Sample) => trainingCutoff.Some? && s.hour > trainingCutoff.value);
      CopiedMembers(t.training, t.puzzles, t.verifies, t.labels, cutoff);
    case Erase(other, otherScope) =>
      FilterMembers(t.puzzles, (p: PuzzleRow) => !(p.site == other && InScope(otherScope, p.challenge)));
      FilterMembers(t.training, (s: Sample) => !(s.site == other && InScope(otherScope, s.challenge)));
    case ClearAll =>
    case ApplyLabel(challenge, owner, mark) =>
      LabelLeavesNoTrace(t, challenge, owner, mark, site, scope);
  }

  /** A label needs a decision to land on, so it cannot bring an erased one back. */
  lemma LabelLeavesNoTrace(t: Tables, challenge: ChallengeId, owner: SiteKey, mark: Mark, site: SiteKey,
      scope: Option<ChallengeId>)
    requires NoTrace(t, site, scope)
    ensures NoTrace(Labeled(t, challenge, owner, mark).0, site, scope)
  {
    var a := Labeled(t, challenge, owner, mark).0;
    RelabelAt(t.training, challenge, owner, mark);
    forall s | s in a.training && s.site == site ensures !InScope(scope, s.challenge) {
      var i :| 0 <= i < |a.training| && a.training[i] == s;
      assert t.training[i] in t.training;
    }
  }

  /**
    Erasure is final: whatever prunes, labels, resets, verify inserts and other
    sites' records follow, no puzzle, label or training row of what was erased
    ever appears again, unless a new puzzle record within the scope arrives.
   */
  lemma {:induction false} ErasureIsFinal(t: Tables, site: SiteKey, scope: Option<ChallengeId>, ops: seq<Op>)
    requires forall i :: 0 <= i < |ops| ==> !Reintroduces(ops[i], site, scope)
    ensures NoTrace(ApplyAll(Apply(t, Erase(site, scope)), ops), site, scope)
  {
    if |ops| == 0 {
      EraseLeavesNoTrace(t, site, scope);
    } else {
      var n := |ops| - 1;
      ErasureIsFinal(t, site, scope, ops[..n]);
      StepLeavesNoTrace(ApplyAll(Apply(t, Erase(site, scope)), ops[..n]), ops[n], site, scope);
    }
  }

  /** Another site's puzzle, label and training rows are untouched and in the same order. */
  lemma ErasureSparesOthers(t: Tables, site: SiteKey, scope: Option<ChallengeId>)
    ensures var a := Erased(t, site, scope);
      && Filter(a.puzzles, (p: PuzzleRow) => p.site != site) == Filter(t.puzzles, (p: PuzzleRow) => p.site != site)
      && Filter(a.training, (s: Sample) => s.site != site) == Filter(t.training, (s: Sample) => s.site != site)
      && (forall k :: k in t.labels && t.labels[k].site != site ==> k in a.labels && a.labels[k] == t.labels[k])
      && (forall k :: k in a.labels ==> k in t.labels && a.labels[k] == t.labels[k])
  {
    FilterWithin(t.puzzles, (p: PuzzleRow) => !(p.site == site && InScope(scope, p.challenge)), (p: PuzzleRow) => p.site != site);
    FilterWithin(t.training, (s: Sample) => !(s.site == site && InScope(scope, s.challenge)), (s: Sample) => s.site != site);
  }

  /**
    Verify rows carry no site, so an erasure finds them through the decision: one
    of a challenge in scope stays exactly when no live row or sample of the site
    carries that challenge, as when its puzzle record was dropped.
   */
  lemma ErasureFindsVerifies(t: Tables, site: SiteKey, scope: Option<ChallengeId>, v: VerifyRow)
    requires v in t.verifies && InScope(scope, Some(v.challenge))
    ensures v in Erased(t, site, scope).verifies <==>
            !HasPuzzleOf(t.puzzles, v.challenge, site) && !HasSampleOf(t.training, v.challenge, site)
  {
    var owned := OwnedBy(t, site);
    FilterMembers(t.verifies, (v: VerifyRow) => !(v.challenge in owned && InScope(scope, Some(v.challenge))));
  }

  // ---- Labels and prunes commute -------------------------------------------

  lemma RelabelFinds(training: seq<Sample>, challenge: ChallengeId, site: SiteKey, mark: Mark, other: ChallengeId)
    ensures HasSample(Relabel(training, challenge, site, mark), other) <==> HasSample(training, other)
  {
    var relabeled := Relabel(training, challenge, site, mark);
    RelabelAt(training, challenge, site, mark);
    if s :| s in training && s.challenge == Some(other) {
      var i :| 0 <= i < |training| && training[i] == s;
      assert relabeled[i] in relabeled;
    }
    if s :| s in relabeled && s.challenge == Some(other) {
      var i :| 0 <= i < |relabeled| && relabeled[i] == s;
      assert training[i] in training;
    }
  }

  lemma RelabelInsert(training: seq<Sample>, s: Sample, challenge: ChallengeId, site: SiteKey, mark: Mark)
    ensures InsertOrIgnore(Relabel(training, challenge, site, mark), Relabeled(s, challenge, site, mark)) ==
            Relabel(InsertOrIgnore(training, s), challenge, site, mark)
  {
    if s.challenge.Some? {
      RelabelFinds(training, challenge, site, mark, s.challenge.value);
    }
    assert (training + [s])[..|training|] == training;
  }

  lemma {:induction false} RelabelExpires(training: seq<Sample>, trainingCutoff: Option<int>, challenge: ChallengeId,
      site: SiteKey, mark: Mark)
    ensures Expired(Relabel(training, challenge, site, mark), trainingCutoff) ==
            Relabel(Expired(training, trainingCutoff), challenge, site, mark)
  {
    if |training| > 0 {
      var init, last := training[..|training| - 1], training[|training| - 1];
      RelabelExpires(init, trainingCutoff, challenge, site, mark);
      var rest := Expired(init, trainingCutoff);
      assert (rest + [last])[..|rest|] == rest;
      assert Relabel(training, challenge, site, mark)[..|init|] == Relabel(init, challenge, site, mark) by {
        RelabelAt(init, challenge, site, mark);
      }
      RelabelAt(training, challenge, site, mark);
    }
  }

  /** Labelling a sample that is already there does not disturb the copy. */
  lemma {:induction false} CopyAfterRelabel(t: Tables, puzzles: seq<PuzzleRow>, cutoff: int, challenge: ChallengeId,
      site: SiteKey, mark: Mark)
    requires forall p :: p in puzzles ==> p.challenge != Some(challenge)
    ensures Copied(Relabel(t.training, challenge, site, mark), puzzles, t.verifies, t.labels, cutoff) ==
            Relabel(Copied(t.training, puzzles, t.verifies, t.labels, cutoff), challenge, site, mark)
  {
    if |puzzles| > 0 {
      var init, p := puzzles[..|puzzles| - 1], puzzles[|puzzles| - 1];
      CopyAfterRelabel(t, init, cutoff, challenge, site, mark);
      RelabelInsert(Copied(t.training, init, t.verifies, t.labels, cutoff), Folded(p, t.verifies, t.labels), challenge, site, mark);
    }
  }

  /** Folding a labelled row gives the sample that labelling the fold gives. */
  lemma {:induction false} CopyOfLabeled(t: Tables, puzzles: seq<PuzzleRow>, labels: Labels, cutoff: int,
                                         challenge: ChallengeId, site: SiteKey, mark: Mark)
    requires !HasSample(t.training, challenge)
    requires forall p :: p in puzzles && p.challenge == Some(challenge) ==> p.site == site
    requires challenge in labels && labels[challenge].verdict == mark.verdict && labels[challenge].ts == mark.ts
    requires forall k :: k != challenge ==> (k in labels <==> k in t.labels) && (k in labels ==> labels[k] == t.labels[k])
    ensures Copied(t.training, puzzles, t.verifies, labels, cutoff) ==
            Relabel(Copied(t.training, puzzles, t.verifies, t.labels, cutoff), challenge, site, mark)
  {
    if |puzzles| == 0 {
      UnmarkedUnlessFound(t.training, challenge, site, mark);
    } else {
      var init, p := puzzles[..|puzzles| - 1], puzzles[|puzzles| - 1];
      CopyOfLabeled(t, init, labels, cutoff, challenge, site, mark);
      assert Folded(p, t.verifies, labels) == Relabeled(Folded(p, t.verifies, t.labels), challenge, site, mark);
      RelabelInsert(Copied(t.training, init, t.verifies, t.labels, cutoff), Folded(p, t.verifies, t.labels), challenge, site, mark);
    }
  }

  /** The decision outlives the prune: its row is young, or its hour is inside the training window. */
  ghost predicate Survives(t: Tables, cutoff: int, trainingCutoff: Option<int>, challenge: ChallengeId, site: SiteKey) {
    || (exists p :: p in t.puzzles && p.challenge == Some(challenge) && p.site == site &&
          (p.ts >= cutoff || (trainingCutoff.Some? && HourOf(p.ts) > trainingCutoff.value)))
    || (exists s :: s in t.training && s.challenge == Some(challenge) && s.site == site &&
          trainingCutoff.Some? && s.hour > trainingCutoff.value)
  }

  /** Surviving is having a row or a sample after the prune. */
  lemma SurvivorHasPlace(t: Tables, cutoff: int, trainingCutoff: Option<int>, challenge: ChallengeId, site: SiteKey)
    requires Sound(t)
    ensures var a := Pruned(t, cutoff, trainingCutoff);
      Survives(t, cutoff, trainingCutoff, challenge, site) <==>
      HasPuzzleOf(a.puzzles, challenge, site) || HasSampleOf(a.training, challenge, site)
  {
    var a := Pruned(t, cutoff, trainingCutoff);
    PruneIsComplete(t, cutoff, trainingCutoff);
    if trainingCutoff.None? {
      NoWindow(t.training);
    } else {
      var hours := trainingCutoff.value;
      forall x ensures x in a.training <==> x.hour > hours && (x in t.training || exists p :: CameFrom(x, p, t, cutoff)) {
        PruneFoldsDecisions(t, cutoff, hours, x);
      }
      if p :| p in t.puzzles && p.challenge == Some(challenge) && p.site == site && p.ts < cutoff && HourOf(p.ts) > hours {
        assert CameFrom(Folded(p, t.verifies, t.labels), p, t, cutoff);
      }
    }
  }

  /** A decision that became, or already was, a sample. */
  lemma CommuteWithSample(t: Tables, cutoff: int, trainingCutoff: Option<int>, challenge: ChallengeId, site: SiteKey,
      mark: Mark)
    requires Sound(t) && HasSampleOf(t.training, challenge, site)
    ensures Pruned(Labeled(t, challenge, site, mark).0, cutoff, trainingCutoff) ==
            Labeled(Pruned(t, cutoff, trainingCutoff), challenge, site, mark).0
  {
    var a := Pruned(t, cutoff, trainingCutoff);
    PruneIsComplete(t, cutoff, trainingCutoff);
    CopyAfterRelabel(t, t.puzzles, cutoff, challenge, site, mark);
    RelabelExpires(Copied(t.training, t.puzzles, t.verifies, t.labels, cutoff), trainingCutoff, challenge, site, mark);
    RelabelExpires(t.training, trainingCutoff, challenge, site, mark);
    if !HasSampleOf(a.training, challenge, site) {
      UnmarkedUnlessFound(a.training, challenge, site, mark);
    }
  }

  /** Labelling a live row changes a prune's samples only by the new mark. */
  lemma PrunedTraining(t: Tables, cutoff: int, trainingCutoff: Option<int>, challenge: ChallengeId, site: SiteKey,
      mark: Mark, p: PuzzleRow)
    requires Sound(t) && p in t.puzzles && p.challenge == Some(challenge) && p.site == site
    ensures Pruned(Labeled(t, challenge, site, mark).0, cutoff, trainingCutoff).training ==
            Relabel(Pruned(t, cutoff, trainingCutoff).training, challenge, site, mark)
  {
    var labels := t.labels[challenge := Upserted(t.labels, challenge, site, mark)];
    OnlyRow(t, p);
    CopyOfLabeled(t, t.puzzles, labels, cutoff, challenge, site, mark);
    RelabelExpires(Copied(t.training, t.puzzles, t.verifies, t.labels, cutoff), trainingCutoff, challenge, site, mark);
    NoWindow(t.training);
  }

  lemma UpsertOnLive(labels: Labels, live: set<ChallengeId>, challenge: ChallengeId, site: SiteKey, mark: Mark)
    requires challenge in live
    ensures var kept := LabelsOn(labels, live);
            LabelsOn(labels[challenge := Upserted(labels, challenge, site, mark)], live) ==
            kept[challenge := Upserted(kept, challenge, site, mark)]
  {
  }

  /** A young live decision keeps its label on the row. */
  lemma CommuteWithYoungRow(t: Tables, cutoff: int, trainingCutoff: Option<int>, challenge: ChallengeId,
      site: SiteKey, mark: Mark, p: PuzzleRow)
    requires Sound(t) && p in t.puzzles && p.challenge == Some(challenge) && p.site == site && p.ts >= cutoff
    ensures Pruned(Labeled(t, challenge, site, mark).0, cutoff, trainingCutoff) ==
            Labeled(Pruned(t, cutoff, trainingCutoff), challenge, site, mark).0
  {
    var a := Pruned(t, cutoff, trainingCutoff);
    PruneIsComplete(t, cutoff, trainingCutoff);
    PrunedTraining(t, cutoff, trainingCutoff, challenge, site, mark, p);
    assert p in a.puzzles;
    YoungHasNoSample(t, cutoff, trainingCutoff, p);
    UnmarkedUnlessFound(a.training, challenge, site, mark);
    UpsertOnLive(t.labels, LiveIds(a.puzzles), challenge, site, mark);
  }

  /** An old live decision takes its label into the sample. */
  lemma CommuteWithOldRow(t: Tables, cutoff: int, trainingCutoff: Option<int>, challenge: ChallengeId, site: SiteKey,
      mark: Mark, p: PuzzleRow)
    requires Sound(t) && p in t.puzzles && p.challenge == Some(challenge) && p.site == site && p.ts < cutoff
    ensures Pruned(Labeled(t, challenge, site, mark).0, cutoff, trainingCutoff) ==
            Labeled(Pruned(t, cutoff, trainingCutoff), challenge, site, mark).0
  {
    var a := Pruned(t, cutoff, trainingCutoff);
    var labels := t.labels[challenge := Upserted(t.labels, challenge, site, mark)];
    PruneIsComplete(t, cutoff, trainingCutoff);
    PrunedTraining(t, cutoff, trainingCutoff, challenge, site, mark, p);
    OnlyRow(t, p);
    assert challenge !in LiveIds(a.puzzles);
    assert LabelsOn(labels, LiveIds(a.puzzles)) == a.labels;
    if !HasSampleOf(a.training, challenge, site) {
      UnmarkedUnlessFound(a.training, challenge, site, mark);
    }
  }

  lemma OnlyRow(t: Tables, p: PuzzleRow)
    requires Sound(t) && p in t.puzzles && p.challenge.Some?
    ensures forall q :: q in t.puzzles && q.challenge == p.challenge ==> q == p
  {
  }

  lemma {:induction false} NoWindow(training: seq<Sample>)
    ensures Expired(training, None) == []
  {
    if |training| > 0 {
      NoWindow(training[..|training| - 1]);
    }
  }

  lemma YoungHasNoSample(t: Tables, cutoff: int, trainingCutoff: Option<int>, p: PuzzleRow)
    requires Sound(t) && p in t.puzzles && p.challenge.Some? && p.ts >= cutoff
    ensures !HasSample(Pruned(t, cutoff, trainingCutoff).training, p.challenge.value)
  {
    PruneKeepsSound(t, cutoff, trainingCutoff);
    PruneIsComplete(t, cutoff, trainingCutoff);
    assert p in Pruned(t, cutoff, trainingCutoff).puzzles;
  }

  /**
    A label and a prune give the same tables in either order. Labelling first is
    acknowledged whenever the site has the decision; labelling second exactly
    when the decision is also still somewhere after the prune.
   */
  lemma LabelPruneCommute(t: Tables, cutoff: int, trainingCutoff: Option<int>, challenge: ChallengeId, site: SiteKey,
      mark: Mark)
    requires Sound(t)
    ensures Pruned(Labeled(t, challenge, site, mark).0, cutoff, trainingCutoff) ==
            Labeled(Pruned(t, cutoff, trainingCutoff), challenge, site, mark).0
    ensures Labeled(t, challenge, site, mark).1 <==>
            HasPuzzleOf(t.puzzles, challenge, site) || HasSampleOf(t.training, challenge, site)
    ensures Labeled(Pruned(t, cutoff, trainingCutoff), challenge, site, mark).1 <==>
            Survives(t, cutoff, trainingCutoff, challenge, site)
    ensures Survives(t, cutoff, trainingCutoff, challenge, site) ==> Labeled(t, challenge, site, mark).1
  {
    SurvivorHasPlace(t, cutoff, trainingCutoff, challenge, site);
    if HasSampleOf(t.training, challenge, site) {
      CommuteWithSample(t, cutoff, trainingCutoff, challenge, site, mark);
    } else if HasPuzzleOf(t.puzzles, challenge, site) {
      var p :| p in t.puzzles && p.challenge == Some(challenge) && p.site == site;
      if p.ts >= cutoff {
        CommuteWithYoungRow(t, cutoff, trainingCutoff, challenge, site, mark, p);
      } else {
        CommuteWithOldRow(t, cutoff, trainingCutoff, challenge, site, mark, p);
      }
    }
  }

  /** The verdict in force for a site's decision, wherever the decision lives. */
  ghost predicate InForce(t: Tables, challenge: ChallengeId, site: SiteKey, mark: Mark) {
    && (forall s :: s in t.training && s.challenge == Some(challenge) && s.site == site ==> s.mark == Some(mark))
    && (HasPuzzleOf(t.puzzles, challenge, site) ==>
          challenge in t.labels && t.labels[challenge] == Label(site, mark.verdict, mark.ts))
    && (HasPuzzleOf(t.puzzles, challenge, site) <==> !HasSampleOf(t.training, challenge, site))
  }

  /** Whichever order they ran in, a surviving decision lives in one place and carries the new verdict there. */
  lemma LabelSurvivesPrune(t: Tables, cutoff: int, trainingCutoff: Option<int>, challenge: ChallengeId,
      site: SiteKey, mark: Mark)
    requires Sound(t) && Survives(t, cutoff, trainingCutoff, challenge, site)
    ensures InForce(Pruned(Labeled(t, challenge, site, mark).0, cutoff, trainingCutoff), challenge, site, mark)
    ensures InForce(Labeled(Pruned(t, cutoff, trainingCutoff), challenge, site, mark).0, challenge, site, mark)
  {
    LabelPruneCommute(t, cutoff, trainingCutoff, challenge, site, mark);
    PruneKeepsSound(t, cutoff, trainingCutoff);
    LabelTakesForce(Pruned(t, cutoff, trainingCutoff), challenge, site, mark);
  }

  lemma LabelTakesForce(t: Tables, challenge: ChallengeId, site: SiteKey, mark: Mark)
    requires Sound(t) && Labeled(t, challenge, site, mark).1
    ensures InForce(Labeled(t, challenge, site, mark).0, challenge, site, mark)
  {
    var a := Labeled(t, challenge, site, mark).0;
    RelabelAt(t.training, challenge, site, mark);
    forall s | s in a.training && s.challenge == Some(challenge) && s.site == site ensures s.mark == Some(mark) {
      var i :| 0 <= i < |a.training| && a.training[i] == s;
      assert t.training[i] in t.training;
    }
    if HasSampleOf(t.training, challenge, site) {
      var s :| s in t.training && s.challenge == Some(challenge) && s.site == site;
      var i :| 0 <= i < |t.training| && t.training[i] == s;
      assert a.training[i] in a.training;
    }
  }
}
