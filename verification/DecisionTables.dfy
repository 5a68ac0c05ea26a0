/**
  The decision log's four tables and the statements its writer runs on them
  (src/dashboard/log.rs). Tables are sequences in rowid order; a timestamp is an
  instant in nanoseconds, passed in where the source reads the clock.
 */
module DecisionTables {
  import opened Common

  const HOUR: int := 3_600_000_000_000

  datatype Verdict = Spam | Legit

  // `data` stands for the columns that are only carried along.
  datatype PuzzleRow = PuzzleRow(ts: int, challenge: Option<ChallengeId>, site: SiteKey, data: nat)
  datatype VerifyRow = VerifyRow(ts: int, challenge: ChallengeId, data: nat)
  datatype Label = Label(site: SiteKey, verdict: Verdict, ts: int)
  datatype Mark = Mark(verdict: Verdict, ts: int)
  datatype Sample = Sample(challenge: Option<ChallengeId>, site: SiteKey, hour: int, data: nat,
                           verify: Option<nat>, mark: Option<Mark>)

  type Labels = map<ChallengeId, Label>

  datatype Tables = Tables(puzzles: seq<PuzzleRow>, verifies: seq<VerifyRow>, labels: Labels, training: seq<Sample>)

  // ---- Selecting rows ------------------------------------------------------

  /** What a DELETE leaves: the rows to keep, in order. */
  function Filter<T>(s: seq<T>, keep: T -> bool): seq<T> {
    if |s| == 0 then []
    else
      var rest := Filter(s[..|s| - 1], keep);
      if keep(s[|s| - 1]) then rest + [s[|s| - 1]] else rest
  }

  lemma {:induction false} FilterMembers<T>(s: seq<T>, keep: T -> bool)
    ensures forall x :: x in Filter(s, keep) <==> x in s && keep(x)
  {
    if |s| > 0 {
      FilterMembers(s[..|s| - 1], keep);
      assert s == s[..|s| - 1] + [s[|s| - 1]];
    }
  }

  /** `after` is `before` without the rows that fail `keep`: the same rows, as often and in the same order. */
  ghost predicate KeptOf<T(!new)>(before: seq<T>, after: seq<T>, keep: T -> bool) {
    exists at: seq<int> :: KeptAt(before, after, keep, at)
  }

  /** The rows of `after` are those of `before` at the increasing positions `at`, which are all the rows to keep. */
  ghost predicate KeptAt<T>(before: seq<T>, after: seq<T>, keep: T -> bool, at: seq<int>) {
    && |at| == |after|
    && (forall i :: 0 <= i < |at| ==> 0 <= at[i] < |before| && after[i] == before[at[i]] && keep(after[i]))
    && (forall i, j :: 0 <= i < j < |at| ==> at[i] < at[j])
    && (forall k :: 0 <= k < |before| && keep(before[k]) ==> k in at)
  }

  /** A row to drop, at the end. */
  lemma KeptSkips<T>(before: seq<T>, after: seq<T>, keep: T -> bool, at: seq<int>, x: T)
    requires KeptAt(before, after, keep, at) && !keep(x)
    ensures KeptAt(before + [x], after, keep, at)
  {
  }

  /** A row to keep, at the end. */
  lemma KeptTakes<T>(before: seq<T>, after: seq<T>, keep: T -> bool, at: seq<int>, x: T)
    requires KeptAt(before, after, keep, at) && keep(x)
    ensures KeptAt(before + [x], after + [x], keep, at + [|before|])
  {
    var longer, at' := before + [x], at + [|before|];
    forall k | 0 <= k < |longer| && keep(longer[k]) ensures k in at' {
      if k < |before| {
        assert before[k] == longer[k] && k in at;
      } else {
        assert at'[|at|] == k;
      }
    }
  }

  lemma {:induction false} FilterKeeps<T(!new)>(s: seq<T>, keep: T -> bool)
    ensures KeptOf(s, Filter(s, keep), keep)
  {
    if |s| == 0 {
      assert KeptAt(s, [], keep, []);
    } else {
      var n := |s| - 1;
      FilterKeeps(s[..n], keep);
      var at :| KeptAt(s[..n], Filter(s[..n], keep), keep, at);
      assert s == s[..n] + [s[n]];
      if keep(s[n]) {
        KeptTakes(s[..n], Filter(s[..n], keep), keep, at, s[n]);
      } else {
        KeptSkips(s[..n], Filter(s[..n], keep), keep, at, s[n]);
      }
    }
  }

  /** Two conditions that agree on the rows at hand keep the same ones. */
  lemma KeptAlike<T(!new)>(before: seq<T>, after: seq<T>, keep: T -> bool, alike: T -> bool)
    requires KeptOf(before, after, keep) && forall x :: x in before ==> (keep(x) <==> alike(x))
    ensures KeptOf(before, after, alike)
  {
    var at :| KeptAt(before, after, keep, at);
    assert KeptAt(before, after, alike, at);
  }

  /** Rows that a deletion cannot reach are left alone, in order. */
  lemma {:induction false} FilterWithin<T>(s: seq<T>, keep: T -> bool, kind: T -> bool)
    requires forall x :: x in s && kind(x) ==> keep(x)
    ensures Filter(Filter(s, keep), kind) == Filter(s, kind)
  {
    if |s| > 0 {
      FilterWithin(s[..|s| - 1], keep, kind);
      if keep(s[|s| - 1]) {
        var rest := Filter(s[..|s| - 1], keep);
        assert Filter(s, keep)[..|rest|] == rest;
      }
    }
  }

  function LiveIds(puzzles: seq<PuzzleRow>): set<ChallengeId> {
    set p | p in puzzles && p.challenge.Some? :: p.challenge.value
  }

  predicate HasSample(training: seq<Sample>, challenge: ChallengeId) {
    exists s :: s in training && s.challenge == Some(challenge)
  }

  predicate HasSampleOf(training: seq<Sample>, challenge: ChallengeId, site: SiteKey) {
    exists s :: s in training && s.challenge == Some(challenge) && s.site == site
  }

  predicate HasPuzzleOf(puzzles: seq<PuzzleRow>, challenge: ChallengeId, site: SiteKey) {
    exists p :: p in puzzles && p.challenge == Some(challenge) && p.site == site
  }

  // ---- The prune -----------------------------------------------------------

  function HourOf(ts: int): int {
    ts / HOUR
  }

  function FirstVerify(verifies: seq<VerifyRow>, challenge: ChallengeId): Option<nat> {
    if |verifies| == 0 then None
    else
      var v := verifies[|verifies| - 1];
      var earlier := FirstVerify(verifies[..|verifies| - 1], challenge);
      if earlier.Some? then earlier else if v.challenge == challenge then Some(v.data) else None
  }

  function MarkOf(challenge: Option<ChallengeId>, labels: Labels): Option<Mark> {
    if challenge.Some? && challenge.value in labels
    then Some(Mark(labels[challenge.value].verdict, labels[challenge.value].ts)) else None
  }

  /** One row of the join, minimised for training. */
  function SampleOf(p: PuzzleRow, verify: Option<nat>, labels: Labels): Sample {
    Sample(p.challenge, p.site, HourOf(p.ts), p.data, verify, MarkOf(p.challenge, labels))
  }

  /** A decision with the earliest verify of its challenge and its label. */
  function Folded(p: PuzzleRow, verifies: seq<VerifyRow>, labels: Labels): Sample {
    SampleOf(p, if p.challenge.Some? then FirstVerify(verifies, p.challenge.value) else None, labels)
  }

  /** INSERT OR IGNORE under the UNIQUE challenge column, where NULLs never clash. */
  function InsertOrIgnore(training: seq<Sample>, s: Sample): seq<Sample> {
    if s.challenge.Some? && HasSample(training, s.challenge.value) then training else training + [s]
  }

  /** One folded sample for each decision older than the cutoff, unless its challenge has one already. */
  function Copied(training: seq<Sample>, puzzles: seq<PuzzleRow>, verifies: seq<VerifyRow>, labels: Labels, cutoff: int)
    : seq<Sample>
  {
    if |puzzles| == 0 then training
    else
      var p := puzzles[|puzzles| - 1];
      var rest := Copied(training, puzzles[..|puzzles| - 1], verifies, labels, cutoff);
      if p.ts < cutoff then InsertOrIgnore(rest, Folded(p, verifies, labels)) else rest
  }

  /** With no training window, nothing is retained. */
  function Expired(training: seq<Sample>, trainingCutoff: Option<int>): seq<Sample> {
    Filter(training, (s: Sample) => trainingCutoff.Some? && s.hour > trainingCutoff.value)
  }

  function PuzzlesSince(puzzles: seq<PuzzleRow>, cutoff: int): seq<PuzzleRow> {
    Filter(puzzles, (p: PuzzleRow) => p.ts >= cutoff)
  }

  function VerifiesSince(verifies: seq<VerifyRow>, cutoff: int): seq<VerifyRow> {
    Filter(verifies, (v: VerifyRow) => v.ts >= cutoff)
  }

  function LabelsOn(labels: Labels, live: set<ChallengeId>): Labels {
    map k | k in labels && k in live :: labels[k]
  }

  function Pruned(t: Tables, cutoff: int, trainingCutoff: Option<int>): Tables {
    Tables(
      PuzzlesSince(t.puzzles, cutoff),
      VerifiesSince(t.verifies, cutoff),
      LabelsOn(t.labels, LiveIds(PuzzlesSince(t.puzzles, cutoff))),
      Expired(if trainingCutoff.Some? then Copied(t.training, t.puzzles, t.verifies, t.labels, cutoff) else t.training,
              trainingCutoff))
  }

  // ---- Erasure, labels, reset ----------------------------------------------

  /** The scope of an erasure: one challenge, or with None every challenge and every row without one. */
  predicate InScope(scope: Option<ChallengeId>, challenge: Option<ChallengeId>) {
    scope.None? || challenge == scope
  }

  function OwnedBy(t: Tables, site: SiteKey): set<ChallengeId> {
    (set p | p in t.puzzles && p.site == site && p.challenge.Some? :: p.challenge.value) +
    (set s | s in t.training && s.site == site && s.challenge.Some? :: s.challenge.value)
  }

  function Erased(t: Tables, site: SiteKey, scope: Option<ChallengeId>): Tables {
    var owned := OwnedBy(t, site);
    Tables(
      Filter(t.puzzles, (p: PuzzleRow) => !(p.site == site && InScope(scope, p.challenge))),
      Filter(t.verifies, (v: VerifyRow) => !(v.challenge in owned && InScope(scope, Some(v.challenge)))),
      map k | k in t.labels && !(t.labels[k].site == site && InScope(scope, Some(k))) :: t.labels[k],
      Filter(t.training, (s: Sample) => !(s.site == site && InScope(scope, s.challenge))))
  }

  /** A dashboard reset; training samples are the long-term set and survive it. */
  function Cleared(t: Tables): Tables {
    Tables([], [], map[], t.training)
  }

  function Relabeled(s: Sample, challenge: ChallengeId, site: SiteKey, mark: Mark): Sample {
    if s.challenge == Some(challenge) && s.site == site then s.(mark := Some(mark)) else s
  }

  function Relabel(training: seq<Sample>, challenge: ChallengeId, site: SiteKey, mark: Mark): seq<Sample> {
    if |training| == 0 then []
    else Relabel(training[..|training| - 1], challenge, site, mark) +
         [Relabeled(training[|training| - 1], challenge, site, mark)]
  }

  /** Route a verdict to wherever the decision lives now; false if this site has no such decision. */
  function Labeled(t: Tables, challenge: ChallengeId, site: SiteKey, mark: Mark): (Tables, bool) {
    if HasSampleOf(t.training, challenge, site)
    then (t.(training := Relabel(t.training, challenge, site, mark)), true)
    else if !HasPuzzleOf(t.puzzles, challenge, site) then (t, false)
    else (t.(labels := t.labels[challenge := Upserted(t.labels, challenge, site, mark)]), true)
  }

  /** On conflict the row keeps the site it was first inserted with. */
  function Upserted(labels: Labels, challenge: ChallengeId, site: SiteKey, mark: Mark): Label {
    Label(if challenge in labels then labels[challenge].site else site, mark.verdict, mark.ts)
  }

  /** Opening a database, new or left by an earlier process, expires its samples first. */
  function Opened(t: Tables, trainingCutoff: Option<int>): Tables {
    t.(training := Expired(t.training, trainingCutoff))
  }

  datatype Op =
    | InsertPuzzle(puzzle: PuzzleRow)
    | InsertVerify(verify: VerifyRow)
    | PruneBefore(cutoff: int, trainingCutoff: Option<int>)
    | Erase(site: SiteKey, scope: Option<ChallengeId>)
    | ClearAll
    | ApplyLabel(challenge: ChallengeId, owner: SiteKey, mark: Mark)

  function Apply(t: Tables, op: Op): Tables {
    match op
    case InsertPuzzle(p) => t.(puzzles := t.puzzles + [p])
    case InsertVerify(v) => t.(verifies := t.verifies + [v])
    case PruneBefore(cutoff, trainingCutoff) => Pruned(t, cutoff, trainingCutoff)
    case Erase(site, scope) => Erased(t, site, scope)
    case ClearAll => Cleared(t)
    case ApplyLabel(challenge, owner, mark) => Labeled(t, challenge, owner, mark).0
  }

  // ---- The database --------------------------------------------------------

  /** The writer's connection: each method is one transaction, updating the tables in place. */
  class Database {
    var puzzles: seq<PuzzleRow>
    var verifies: seq<VerifyRow>
    var labels: Labels
    var training: seq<Sample>

    constructor (onDisk: Tables, trainingCutoff: Option<int>)
      ensures Contents() == Opened(onDisk, trainingCutoff)
    {
      puzzles, verifies, labels := onDisk.puzzles, onDisk.verifies, onDisk.labels;
      training := Expired(onDisk.training, trainingCutoff);
    }

    ghost function Contents(): Tables
      reads this
    {
      Tables(puzzles, verifies, labels, training)
    }

    method InsertPuzzleRow(row: PuzzleRow)
      modifies this
      ensures Contents() == Apply(old(Contents()), InsertPuzzle(row))
      ensures puzzles == old(puzzles) + [row] && verifies == old(verifies)
      ensures labels == old(labels) && training == old(training)
    {
      puzzles := puzzles + [row];
    }

    method InsertVerifyRow(row: VerifyRow)
      modifies this
      ensures Contents() == Apply(old(Contents()), InsertVerify(row))
      ensures verifies == old(verifies) + [row] && puzzles == old(puzzles)
      ensures labels == old(labels) && training == old(training)
    {
      verifies := verifies + [row];
    }

    /** Run the join row by row, inserting each result or ignoring it. */
    method CopyToTraining(cutoff: int)
      modifies this`training
      ensures training == Copied(old(training), puzzles, verifies, labels, cutoff)
    {
      var i := 0;
      while i < |puzzles|
        invariant 0 <= i <= |puzzles|
        invariant training == Copied(old(training), puzzles[..i], verifies, labels, cutoff)
      {
        var p := puzzles[i];
        assert puzzles[..i + 1][..i] == puzzles[..i];
        if p.ts < cutoff {
          CopyRow(p);
        }
        i := i + 1;
      }
      assert puzzles[..i] == puzzles;
    }

    /** One decision joined with every verify of its challenge, or with none. */
    method CopyRow(p: PuzzleRow)
      modifies this`training
      ensures training == InsertOrIgnore(old(training), Folded(p, verifies, labels))
    {
      ghost var before := training;
      var matched := false;
      var j := 0;
      while j < |verifies|
        invariant 0 <= j <= |verifies|
        invariant matched <==> p.challenge.Some? && FirstVerify(verifies[..j], p.challenge.value).Some?
        invariant if matched then training == InsertOrIgnore(before, Folded(p, verifies[..j], labels)) else training == before
      {
        assert verifies[..j + 1][..j] == verifies[..j];
        if p.challenge == Some(verifies[j].challenge) {
          training := InsertOrIgnore(training, SampleOf(p, Some(verifies[j].data), labels));
          matched := true;
        }
        j := j + 1;
      }
      assert verifies[..j] == verifies;
      if !matched {
        training := InsertOrIgnore(training, SampleOf(p, None, labels));
      }
    }

    method Prune(cutoff: int, trainingCutoff: Option<int>) returns (removed: nat)
      modifies this
      ensures Contents() == Apply(old(Contents()), PruneBefore(cutoff, trainingCutoff))
      ensures removed == |old(verifies)| - |verifies| + |old(puzzles)| - |puzzles|
    {
      if trainingCutoff.Some? {
        CopyToTraining(cutoff);
      }
      training := Expired(training, trainingCutoff);
      var keptVerifies, keptPuzzles := VerifiesSince(verifies, cutoff), PuzzlesSince(puzzles, cutoff);
      FilterShrinks(verifies, (v: VerifyRow) => v.ts >= cutoff);
      FilterShrinks(puzzles, (p: PuzzleRow) => p.ts >= cutoff);
      removed := |verifies| - |keptVerifies| + |puzzles| - |keptPuzzles|;
      verifies := keptVerifies;
      puzzles := keptPuzzles;
      labels := LabelsOn(labels, LiveIds(puzzles));
    }

    /** Verify rows go first, while the tables still say whose they are. */
    method EraseRecords(site: SiteKey, scope: Option<ChallengeId>)
      modifies this
      ensures Contents() == Apply(old(Contents()), Erase(site, scope))
    {
      var owned := OwnedBy(Tables(puzzles, verifies, labels, training), site);
      verifies := Filter(verifies, (v: VerifyRow) => !(v.challenge in owned && InScope(scope, Some(v.challenge))));
      labels := map k | k in labels && !(labels[k].site == site && InScope(scope, Some(k))) :: labels[k];
      training := Filter(training, (s: Sample) => !(s.site == site && InScope(scope, s.challenge)));
      puzzles := Filter(puzzles, (p: PuzzleRow) => !(p.site == site && InScope(scope, p.challenge)));
    }

    method Clear()
      modifies this
      ensures Contents() == Apply(old(Contents()), ClearAll)
      ensures puzzles == [] && verifies == [] && labels == map[] && training == old(training)
    {
      verifies := [];
      puzzles := [];
      labels := map[];
    }

    /** The UPDATE of the samples; how many rows it hit. */
    method MarkSamples(challenge: ChallengeId, site: SiteKey, mark: Mark) returns (updated: nat)
      modifies this`training
      ensures updated > 0 <==> HasSampleOf(old(training), challenge, site)
      ensures training == Relabel(old(training), challenge, site, mark)
      ensures |training| == |old(training)|
      ensures forall i :: 0 <= i < |training| ==>
        var s := old(training[i]);
        training[i] == if s.challenge == Some(challenge) && s.site == site then s.(mark := Some(mark)) else s
    {
      updated := 0;
      var marked := [];
      for i := 0 to |training|
        invariant training == old(training)
        invariant |marked| == i && forall j :: 0 <= j < i ==>
          marked[j] == if training[j].challenge == Some(challenge) && training[j].site == site
                       then training[j].(mark := Some(mark)) else training[j]
        invariant marked == Relabel(training[..i], challenge, site, mark)
        invariant updated > 0 <==> HasSampleOf(training[..i], challenge, site)
      {
        MarkOne(training, i, challenge, site, mark);
        var s := training[i];
        if s.challenge == Some(challenge) && s.site == site {
          s := s.(mark := Some(mark));
          updated := updated + 1;
        }
        marked := marked + [s];
      }
      assert training[..|training|] == training;
      training := marked;
    }

    method LabelDecision(challenge: ChallengeId, site: SiteKey, mark: Mark) returns (found: bool)
      modifies this
      ensures (Contents(), found) == Labeled(old(Contents()), challenge, site, mark)
      ensures found <==>
        || (exists s :: s in old(training) && s.challenge == Some(challenge) && s.site == site)
        || (exists p :: p in old(puzzles) && p.challenge == Some(challenge) && p.site == site)
    {
      UnmarkedUnlessFound(training, challenge, site, mark);
      var updated := MarkSamples(challenge, site, mark);
      if updated > 0 {
        return true;
      }
      if !HasPuzzleOf(puzzles, challenge, site) {
        return false;
      }
      labels := labels[challenge := Upserted(labels, challenge, site, mark)];
      return true;
    }
  }

  /** An update that finds no row changes none. */
  lemma {:induction false} UnmarkedUnlessFound(training: seq<Sample>, challenge: ChallengeId, site: SiteKey, mark: Mark)
    ensures !HasSampleOf(training, challenge, site) ==> Relabel(training, challenge, site, mark) == training
  {
    if |training| > 0 {
      var n := |training| - 1;
      UnmarkedUnlessFound(training[..n], challenge, site, mark);
      MarkOne(training, n, challenge, site, mark);
      assert training[..n + 1] == training && training == training[..n] + [training[n]];
    }
  }

  /** One more row of the update. */
  lemma MarkOne(training: seq<Sample>, i: nat, challenge: ChallengeId, site: SiteKey, mark: Mark)
    requires i < |training|
    ensures Relabel(training[..i + 1], challenge, site, mark) ==
            Relabel(training[..i], challenge, site, mark) + [Relabeled(training[i], challenge, site, mark)]
    ensures HasSampleOf(training[..i + 1], challenge, site) <==>
            HasSampleOf(training[..i], challenge, site) ||
            (training[i].challenge == Some(challenge) && training[i].site == site)
  {
    assert training[..i + 1] == training[..i] + [training[i]];
    assert training[..i + 1][..i] == training[..i];
  }

  lemma {:induction false} FilterShrinks<T>(s: seq<T>, keep: T -> bool)
    ensures |Filter(s, keep)| <= |s|
  {
    if |s| > 0 {
      FilterShrinks(s[..|s| - 1], keep);
    }
  }
}
