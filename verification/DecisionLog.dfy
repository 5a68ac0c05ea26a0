/**
  The decision log's bounded lossy queue and its batching writer thread
  (src/dashboard/log.rs), as a machine whose steps interleave senders with the
  writer. Whether a transaction succeeds and the instants it stamps are inputs.
 */
module DecisionLog {
  import opened Common
  import opened DecisionTables
  import opened DecisionRetention
  import opened DecisionEffects

  const CHANNEL_CAPACITY: nat := 8192
  const MAX_INSERT_BATCH: nat := 256

  datatype Msg =
    | Puzzle(site: SiteKey, id: Option<ChallengeId>, data: nat)
    | Verify(verified: ChallengeId, data: nat)
    | Clear
    | Prune(cutoff: int, trainingCutoff: Option<int>)
    | Label(challenge: ChallengeId, owner: SiteKey, verdict: Verdict)
    | Flush
    | EraseFor(owner: SiteKey, scope: Option<ChallengeId>)

  predicate IsRecord(m: Msg) {
    m.Puzzle? || m.Verify?
  }

  /** One message as the writer dealt with it, in transaction `tx`. */
  datatype Outcome = Outcome(msg: Msg, stamp: int, ok: bool, tx: nat)

  /** The writer between two looks at the queue. */
  datatype Writer =
    | Idle
    | Draining(batch: seq<Msg>)
    | Ready(batch: seq<Msg>, deferred: Option<Msg>)
    | Handling(msg: Msg)

  datatype State = State(
    queue: seq<Msg>,
    dropped: nat,
    writer: Writer,
    tables: Tables,
    // History, which no thread reads.
    attempted: nat,
    accepted: seq<Msg>,
    processed: seq<Outcome>,
    transactions: nat
  )

  datatype Step =
    | TrySend(msg: Msg)
    | Send(msg: Msg)
    | Recv
    | TryRecv
    | Commit(stamps: seq<int>, ok: bool)
    | Handle(stamp: int, ok: bool)

  function Initial(tables: Tables): State {
    State([], 0, Idle, tables, 0, [], [], 0)
  }

  // ---- What a message does -------------------------------------------------

  /** The table operation a message asks for; a flush asks for none. */
  function OpOf(m: Msg, stamp: int): Option<Op> {
    match m
    case Puzzle(site, id, data) => Some(InsertPuzzle(PuzzleRow(stamp, id, site, data)))
    case Verify(id, data) => Some(InsertVerify(VerifyRow(stamp, id, data)))
    case Clear => Some(ClearAll)
    case Prune(cutoff, trainingCutoff) => Some(PruneBefore(cutoff, trainingCutoff))
    case Label(challenge, owner, verdict) => Some(ApplyLabel(challenge, owner, Mark(verdict, stamp)))
    case Flush => None
    case EraseFor(owner, scope) => Some(Erase(owner, scope))
  }

  function Effect(t: Tables, m: Msg, stamp: int): Tables {
    if OpOf(m, stamp).Some? then Apply(t, OpOf(m, stamp).value) else t
  }

  /** All inserts of a batch, in one transaction. */
  function InsertBatch(t: Tables, batch: seq<Msg>, stamps: seq<int>): Tables
    requires |stamps| == |batch|
  {
    if |batch| == 0 then t
    else
      var n := |batch| - 1;
      Effect(InsertBatch(t, batch[..n], stamps[..n]), batch[n], stamps[n])
  }

  function Outcomes(batch: seq<Msg>, stamps: seq<int>, ok: bool, tx: nat): seq<Outcome>
    requires |stamps| == |batch|
  {
    seq(|batch|, i requires 0 <= i < |batch| => Outcome(batch[i], stamps[i], ok, tx))
  }

  // ---- The machine ---------------------------------------------------------

  predicate Enabled(s: State, step: Step) {
    match step
    case TrySend(m) => IsRecord(m)
    // An awaiting send completes only once there is room.
    case Send(m) => !IsRecord(m) && |s.queue| < CHANNEL_CAPACITY
    case Recv => s.writer.Idle? && s.queue != []
    case TryRecv => s.writer.Draining?
    case Commit(stamps, _) => s.writer.Ready? && |stamps| == |s.writer.batch|
    case Handle(_, _) => s.writer.Handling?
  }

  function Drain(batch: seq<Msg>): Writer {
    if |batch| < MAX_INSERT_BATCH then Draining(batch) else Ready(batch, None)
  }

  function Act(s: State, step: Step): State
    requires Enabled(s, step)
  {
    match step
    case TrySend(m) =>
      if |s.queue| < CHANNEL_CAPACITY
      then s.(queue := s.queue + [m], accepted := s.accepted + [m], attempted := s.attempted + 1)
      else s.(dropped := s.dropped + 1, attempted := s.attempted + 1)
    case Send(m) => s.(queue := s.queue + [m], accepted := s.accepted + [m])
    case Recv =>
      s.(queue := s.queue[1..], writer := if IsRecord(s.queue[0]) then Drain([s.queue[0]]) else Handling(s.queue[0]))
    case TryRecv =>
      if s.queue == [] then s.(writer := Ready(s.writer.batch, None))
      else if IsRecord(s.queue[0]) then s.(queue := s.queue[1..], writer := Drain(s.writer.batch + [s.queue[0]]))
      else s.(queue := s.queue[1..], writer := Ready(s.writer.batch, Some(s.queue[0])))
    case Commit(stamps, ok) =>
      s.(tables := if ok then InsertBatch(s.tables, s.writer.batch, stamps) else s.tables,
         processed := s.processed + Outcomes(s.writer.batch, stamps, ok, s.transactions),
         transactions := s.transactions + 1,
         writer := if s.writer.deferred.Some? then Handling(s.writer.deferred.value) else Idle)
    case Handle(stamp, ok) =>
      s.(tables := if ok then Effect(s.tables, s.writer.msg, stamp) else s.tables,
         processed := s.processed + [Outcome(s.writer.msg, stamp, ok, s.transactions)],
         transactions := s.transactions + 1,
         writer := Idle)
  }

  function Run(s: State, steps: seq<Step>): Option<State> {
    if |steps| == 0 then Some(s)
    else
      var before := Run(s, steps[..|steps| - 1]);
      if before.Some? && Enabled(before.value, steps[|steps| - 1])
      then Some(Act(before.value, steps[|steps| - 1])) else None
  }

  // ---- The one-at-a-time reference -----------------------------------------

  /** The operations of the messages that went through, in order. */
  function Ops(outcomes: seq<Outcome>): seq<Op> {
    if |outcomes| == 0 then []
    else
      var o := outcomes[|outcomes| - 1];
      var rest := Ops(outcomes[..|outcomes| - 1]);
      if o.ok && OpOf(o.msg, o.stamp).Some? then rest + [OpOf(o.msg, o.stamp).value] else rest
  }

  /** A writer that takes one message, runs it alone, and only then looks for the next. */
  function OneAtATime(t: Tables, outcomes: seq<Outcome>): Tables {
    ApplyAll(t, Ops(outcomes))
  }

  function Msgs(outcomes: seq<Outcome>): seq<Msg> {
    seq(|outcomes|, i requires 0 <= i < |outcomes| => outcomes[i].msg)
  }

  /** What the writer has taken off the queue and not finished. */
  function InHand(w: Writer): seq<Msg> {
    match w
    case Idle => []
    case Draining(batch) => batch
    case Ready(batch, deferred) => batch + (if deferred.Some? then [deferred.value] else [])
    case Handling(m) => [m]
  }

  predicate AllRecords(batch: seq<Msg>) {
    forall m :: m in batch ==> IsRecord(m)
  }

  /** Batches hold only records and never exceed the limit; only control messages are deferred or run alone. */
  predicate WriterOk(w: Writer) {
    match w
    case Idle => true
    case Draining(batch) => 0 < |batch| < MAX_INSERT_BATCH && AllRecords(batch)
    case Ready(batch, deferred) =>
      0 < |batch| <= MAX_INSERT_BATCH && AllRecords(batch) && (deferred.Some? ==> !IsRecord(deferred.value))
    case Handling(m) => !IsRecord(m)
  }

  function Records(ms: seq<Msg>): nat {
    if |ms| == 0 then 0 else Records(ms[..|ms| - 1]) + if IsRecord(ms[|ms| - 1]) then 1 else 0
  }

  /** Records in transactions that went through, or that failed. */
  function Settled(outcomes: seq<Outcome>, ok: bool): nat {
    if |outcomes| == 0 then 0
    else
      var o := outcomes[|outcomes| - 1];
      Settled(outcomes[..|outcomes| - 1], ok) + if o.ok == ok && IsRecord(o.msg) then 1 else 0
  }

  /** A transaction goes through or fails as a whole. */
  ghost predicate Atomic(s: State) {
    && (forall i :: 0 <= i < |s.processed| ==> s.processed[i].tx < s.transactions)
    && (forall i, j :: 0 <= i < |s.processed| && 0 <= j < |s.processed| && s.processed[i].tx == s.processed[j].tx ==>
          s.processed[i].ok == s.processed[j].ok)
  }

  ghost predicate Inv(start: Tables, s: State) {
    && s.tables == OneAtATime(start, s.processed)
    && s.accepted == Msgs(s.processed) + InHand(s.writer) + s.queue
    && |s.queue| <= CHANNEL_CAPACITY
    && WriterOk(s.writer)
    && s.attempted == s.dropped + Records(s.accepted)
    && Atomic(s)
  }

  // ---- Lemmas --------------------------------------------------------------

  lemma OpsAppend(outcomes: seq<Outcome>, o: Outcome)
    ensures Ops(outcomes + [o]) ==
            Ops(outcomes) + (if o.ok && OpOf(o.msg, o.stamp).Some? then [OpOf(o.msg, o.stamp).value] else [])
  {
    assert (outcomes + [o])[..|outcomes|] == outcomes;
  }

  /** One more message, run alone. */
  lemma OneMore(t: Tables, outcomes: seq<Outcome>, o: Outcome)
    ensures OneAtATime(t, outcomes + [o]) ==
            if o.ok then Effect(OneAtATime(t, outcomes), o.msg, o.stamp) else OneAtATime(t, outcomes)
  {
    OpsAppend(outcomes, o);
    if o.ok && OpOf(o.msg, o.stamp).Some? {
      var op := OpOf(o.msg, o.stamp).value;
      assert (Ops(outcomes) + [op])[..|Ops(outcomes)|] == Ops(outcomes);
    }
  }

  /** A batch in one transaction leaves the tables as its records one at a time would. */
  lemma {:induction false} BatchIsOneAtATime(t: Tables, done: seq<Outcome>, batch: seq<Msg>, stamps: seq<int>,
      ok: bool, tx: nat)
    requires |stamps| == |batch|
    ensures OneAtATime(t, done + Outcomes(batch, stamps, ok, tx)) ==
            if ok then InsertBatch(OneAtATime(t, done), batch, stamps) else OneAtATime(t, done)
  {
    if |batch| == 0 {
      assert done + Outcomes(batch, stamps, ok, tx) == done;
    } else {
      var n := |batch| - 1;
      var o := Outcome(batch[n], stamps[n], ok, tx);
      BatchIsOneAtATime(t, done, batch[..n], stamps[..n], ok, tx);
      assert done + Outcomes(batch, stamps, ok, tx) == (done + Outcomes(batch[..n], stamps[..n], ok, tx)) + [o];
      OneMore(t, done + Outcomes(batch[..n], stamps[..n], ok, tx), o);
    }
  }

  lemma {:induction false} RecordsConcat(a: seq<Msg>, b: seq<Msg>)
    ensures Records(a + b) == Records(a) + Records(b)
  {
    if |b| == 0 {
      assert a + b == a;
    } else {
      RecordsConcat(a, b[..|b| - 1]);
      assert (a + b)[..|a + b| - 1] == a + b[..|b| - 1];
    }
  }

  lemma {:induction false} SettledIsRecords(outcomes: seq<Outcome>)
    ensures Settled(outcomes, true) + Settled(outcomes, false) == Records(Msgs(outcomes))
  {
    if |outcomes| > 0 {
      var n := |outcomes| - 1;
      SettledIsRecords(outcomes[..n]);
      assert Msgs(outcomes)[..n] == Msgs(outcomes[..n]);
    }
  }

  // ---- Every step keeps the invariant --------------------------------------

  lemma SenderKeeps(start: Tables, s: State, step: Step)
    requires Inv(start, s) && Enabled(s, step) && (step.TrySend? || step.Send?)
    ensures Inv(start, Act(s, step))
  {
    RecordsConcat(s.accepted, [step.msg]);
    assert Records([]) == 0;
    assert Msgs(s.processed) + InHand(s.writer) + (s.queue + [step.msg]) ==
           Msgs(s.processed) + InHand(s.writer) + s.queue + [step.msg];
  }

  /** The head of the queue moves into the writer's hand. */
  lemma HandTakesHead(done: seq<Msg>, hand: seq<Msg>, queue: seq<Msg>, hand': seq<Msg>)
    requires queue != [] && hand' == hand + [queue[0]]
    ensures done + hand + queue == done + hand' + queue[1..]
  {
    assert queue == [queue[0]] + queue[1..];
  }

  lemma ReceiverKeeps(start: Tables, s: State, step: Step)
    requires Inv(start, s) && Enabled(s, step) && (step.Recv? || step.TryRecv?)
    ensures Inv(start, Act(s, step))
  {
    var s' := Act(s, step);
    if s.queue != [] {
      HandTakesHead(Msgs(s.processed), InHand(s.writer), s.queue, InHand(s'.writer));
    }
  }

  lemma CommitIsAtomic(s: State, stamps: seq<int>, ok: bool)
    requires Atomic(s) && Enabled(s, Commit(stamps, ok))
    ensures Atomic(Act(s, Commit(stamps, ok)))
  {
    var s' := Act(s, Commit(stamps, ok));
    var n := |s.processed|;
    forall i | 0 <= i < |s'.processed|
      ensures if i < n then s'.processed[i] == s.processed[i] && s'.processed[i].tx < s.transactions
              else s'.processed[i].tx == s.transactions && s'.processed[i].ok == ok
    {
    }
  }

  /** Messages pass from hand to processed in order. */
  lemma BatchIsProcessed(s: State, stamps: seq<int>, ok: bool)
    requires Enabled(s, Commit(stamps, ok))
    ensures var s' := Act(s, Commit(stamps, ok));
            Msgs(s.processed) + InHand(s.writer) == Msgs(s'.processed) + InHand(s'.writer)
  {
    var s' := Act(s, Commit(stamps, ok));
    assert Msgs(s'.processed) == Msgs(s.processed) + s.writer.batch;
  }

  lemma CommitKeeps(start: Tables, s: State, stamps: seq<int>, ok: bool)
    requires Inv(start, s) && Enabled(s, Commit(stamps, ok))
    ensures Inv(start, Act(s, Commit(stamps, ok)))
  {
    var s' := Act(s, Commit(stamps, ok));
    BatchIsOneAtATime(start, s.processed, s.writer.batch, stamps, ok, s.transactions);
    BatchIsProcessed(s, stamps, ok);
    CommitIsAtomic(s, stamps, ok);
  }

  lemma HandleIsAtomic(s: State, stamp: int, ok: bool)
    requires Atomic(s) && Enabled(s, Handle(stamp, ok))
    ensures Atomic(Act(s, Handle(stamp, ok)))
  {
    var s' := Act(s, Handle(stamp, ok));
    var n := |s.processed|;
    forall i | 0 <= i < |s'.processed|
      ensures if i < n then s'.processed[i] == s.processed[i] && s'.processed[i].tx < s.transactions
              else s'.processed[i].tx == s.transactions && s'.processed[i].ok == ok
    {
    }
  }

  lemma HandleKeeps(start: Tables, s: State, stamp: int, ok: bool)
    requires Inv(start, s) && Enabled(s, Handle(stamp, ok))
    ensures Inv(start, Act(s, Handle(stamp, ok)))
  {
    var s' := Act(s, Handle(stamp, ok));
    OneMore(start, s.processed, Outcome(s.writer.msg, stamp, ok, s.transactions));
    assert Msgs(s'.processed) == Msgs(s.processed) + [s.writer.msg];
    assert Msgs(s.processed) + InHand(s.writer) == Msgs(s'.processed) + InHand(s'.writer);
    HandleIsAtomic(s, stamp, ok);
  }

  lemma {:induction false} StepKeepsInv(start: Tables, s: State, step: Step)
    requires Inv(start, s) && Enabled(s, step)
    ensures Inv(start, Act(s, step))
  {
    match step
    case TrySend(_) => SenderKeeps(start, s, step);
    case Send(_) => SenderKeeps(start, s, step);
    case Recv => ReceiverKeeps(start, s, step);
    case TryRecv => ReceiverKeeps(start, s, step);
    case Commit(stamps, ok) => CommitKeeps(start, s, stamps, ok);
    case Handle(stamp, ok) => HandleKeeps(start, s, stamp, ok);
  }

  lemma {:induction false} RunKeepsInv(start: Tables, steps: seq<Step>)
    requires Run(Initial(start), steps).Some?
    ensures Inv(start, Run(Initial(start), steps).value)
  {
    if |steps| > 0 {
      RunKeepsInv(start, steps[..|steps| - 1]);
      StepKeepsInv(start, Run(Initial(start), steps[..|steps| - 1]).value, steps[|steps| - 1]);
    }
  }

  // ---- The theorems --------------------------------------------------------

  /**
    Batching and deferral are invisible: over every interleaving of senders and
    writer the tables are those of a writer that ran the accepted messages one
    at a time in the order they were accepted, up to the ones still in hand.
   */
  lemma WriterRefinesFifo(start: Tables, steps: seq<Step>)
    requires Run(Initial(start), steps).Some?
    ensures var s := Run(Initial(start), steps).value;
      && s.tables == OneAtATime(start, s.processed)
      && |s.processed| <= |s.accepted|
      && (forall k :: 0 <= k < |s.processed| ==> s.processed[k].msg == s.accepted[k])
      && (s.writer.Idle? && s.queue == [] ==> |s.processed| == |s.accepted|)
  {
    RunKeepsInv(start, steps);
    var s := Run(Initial(start), steps).value;
    forall k | 0 <= k < |s.processed| ensures s.processed[k].msg == s.accepted[k] {
      assert Msgs(s.processed)[k] == s.accepted[k];
    }
  }

  /** No record is lost silently: attempts are drops, queued, in hand, committed or failed. */
  lemma RecordsAreConserved(start: Tables, steps: seq<Step>)
    requires Run(Initial(start), steps).Some?
    ensures var s := Run(Initial(start), steps).value;
      s.attempted == s.dropped + Records(s.queue) + Records(InHand(s.writer)) +
                     Settled(s.processed, true) + Settled(s.processed, false)
  {
    RunKeepsInv(start, steps);
    var s := Run(Initial(start), steps).value;
    RecordsConcat(Msgs(s.processed) + InHand(s.writer), s.queue);
    RecordsConcat(Msgs(s.processed), InHand(s.writer));
    SettledIsRecords(s.processed);
  }

  /** Records refused because the queue already held 8192 messages. */
  ghost function FullSends(start: Tables, steps: seq<Step>): nat
    requires Run(Initial(start), steps).Some?
  {
    if |steps| == 0 then 0
    else
      var n := |steps| - 1;
      var s := Run(Initial(start), steps[..n]).value;
      FullSends(start, steps[..n]) + if steps[n].TrySend? && |s.queue| == 8192 then 1 else 0
  }

  /** The messages sent, in order, without those records. */
  ghost function Sent(start: Tables, steps: seq<Step>): seq<Msg>
    requires Run(Initial(start), steps).Some?
  {
    if |steps| == 0 then []
    else
      var n := |steps| - 1;
      var s := Run(Initial(start), steps[..n]).value;
      Sent(start, steps[..n]) +
      if steps[n].Send? || (steps[n].TrySend? && |s.queue| < 8192) then [steps[n].msg] else []
  }

  /** What is sent is accepted, unless it is a record that finds the queue full; a transaction's batch is bounded. */
  lemma {:induction false} QueueIsHonest(start: Tables, steps: seq<Step>)
    requires Run(Initial(start), steps).Some?
    ensures var s := Run(Initial(start), steps).value;
      && s.accepted == Sent(start, steps) && s.dropped == FullSends(start, steps)
      && |s.queue| <= 8192
      && (s.writer.Ready? ==> 0 < |s.writer.batch| <= 256)
  {
    RunKeepsInv(start, steps);
    if |steps| > 0 {
      var n := |steps| - 1;
      QueueIsHonest(start, steps[..n]);
      StepSends(Run(Initial(start), steps[..n]).value, steps[n]);
    }
  }

  lemma StepSends(s: State, step: Step)
    requires Enabled(s, step) && |s.queue| <= 8192
    ensures var s' := Act(s, step);
      && s'.accepted == s.accepted +
           (if step.Send? || (step.TrySend? && |s.queue| < 8192) then [step.msg] else [])
      && s'.dropped == s.dropped + (if step.TrySend? && |s.queue| == 8192 then 1 else 0)
  {
  }

  // ---- What each message does ----------------------------------------------

  /** The effect of one message on the tables, by its kind; a failed transaction has none. */
  ghost predicate Took(before: Tables, after: Tables, o: Outcome) {
    if !o.ok then after == before
    else match o.msg
      case Puzzle(site, id, data) =>
        after == before.(puzzles := before.puzzles + [PuzzleRow(o.stamp, id, site, data)])
      case Verify(id, data) =>
        after == before.(verifies := before.verifies + [VerifyRow(o.stamp, id, data)])
      case Clear => after == Tables([], [], map[], before.training)
      case Prune(cutoff, trainingCutoff) => PrunedRows(before, after, cutoff, trainingCutoff)
      case Label(challenge, owner, verdict) =>
        LabelledRows(before, after, challenge, owner, Mark(verdict, o.stamp))
      case Flush => after == before
      case EraseFor(owner, scope) => ErasedRows(before, after, owner, scope)
  }

  lemma EffectTook(t: Tables, o: Outcome)
    requires o.ok
    ensures Took(t, Effect(t, o.msg, o.stamp), o)
  {
    match o.msg
    case Puzzle(_, _, _) =>
    case Verify(_, _) =>
    case Clear =>
    case Prune(cutoff, trainingCutoff) => PruneKeepsYoungRows(t, cutoff, trainingCutoff);
    case Label(challenge, owner, verdict) => LabelTouchesOneDecision(t, challenge, owner, Mark(verdict, o.stamp));
    case Flush =>
    case EraseFor(owner, scope) => ErasureIsScoped(t, owner, scope);
  }

  /** The tables after the first k messages the writer dealt with. */
  function After(start: Tables, s: State, k: nat): Tables
    requires k <= |s.processed|
  {
    OneAtATime(start, s.processed[..k])
  }

  /**
    Over every run the tables went from the ones on opening to the current ones
    in one effect per message, in the order the messages were accepted, and each
    effect is the one its message asks for.
   */
  lemma MessagesTakeEffect(start: Tables, steps: seq<Step>)
    requires Run(Initial(start), steps).Some?
    ensures var s := Run(Initial(start), steps).value;
      && After(start, s, 0) == start && After(start, s, |s.processed|) == s.tables
      && |s.processed| <= |s.accepted|
      && forall k :: 0 <= k < |s.processed| ==>
           s.processed[k].msg == s.accepted[k] && Took(After(start, s, k), After(start, s, k + 1), s.processed[k])
  {
    WriterRefinesFifo(start, steps);
    var s := Run(Initial(start), steps).value;
    assert s.processed[..|s.processed|] == s.processed;
    forall k | 0 <= k < |s.processed| ensures Took(After(start, s, k), After(start, s, k + 1), s.processed[k]) {
      OneMoreTook(start, s.processed, k);
    }
  }

  lemma OneMoreTook(start: Tables, outcomes: seq<Outcome>, k: nat)
    requires k < |outcomes|
    ensures Took(OneAtATime(start, outcomes[..k]), OneAtATime(start, outcomes[..k + 1]), outcomes[k])
  {
    assert outcomes[..k + 1] == outcomes[..k] + [outcomes[k]];
    OneMore(start, outcomes[..k], outcomes[k]);
    if outcomes[k].ok {
      EffectTook(OneAtATime(start, outcomes[..k]), outcomes[k]);
    }
  }

  ghost predicate RowOf(t: Tables, m: Msg, stamp: int) {
    match m
    case Puzzle(site, id, data) => PuzzleRow(stamp, id, site, data) in t.puzzles
    case Verify(id, data) => VerifyRow(stamp, id, data) in t.verifies
    case _ => true
  }

  /** A record that went through is in the tables as of its own transaction. */
  lemma RecordIsWritten(start: Tables, outcomes: seq<Outcome>, k: nat)
    requires k < |outcomes| && outcomes[k].ok
    ensures RowOf(OneAtATime(start, outcomes[..k + 1]), outcomes[k].msg, outcomes[k].stamp)
  {
    assert outcomes[..k + 1] == outcomes[..k] + [outcomes[k]];
    OneMore(start, outcomes[..k], outcomes[k]);
  }

  /** The whole transaction of a record shared its fate. */
  ghost predicate FailedWhole(s: State, k: nat)
    requires k < |s.processed|
  {
    forall j :: 0 <= j < |s.processed| && s.processed[j].tx == s.processed[k].tx ==> !s.processed[j].ok
  }

  /**
    A flush acknowledged is a barrier: every record accepted before it has been
    dealt with, and either its row went into the tables or its whole
    transaction failed.
   */
  lemma FlushIsBarrier(start: Tables, steps: seq<Step>, f: nat, k: nat)
    requires Run(Initial(start), steps).Some?
    requires k < f < |Run(Initial(start), steps).value.processed|
    requires Run(Initial(start), steps).value.processed[f].msg.Flush?
    ensures var s := Run(Initial(start), steps).value;
      && f < |s.accepted| && s.accepted[f].Flush? && s.processed[k].msg == s.accepted[k]
      && (if s.processed[k].ok
          then RowOf(OneAtATime(start, s.processed[..k + 1]), s.accepted[k], s.processed[k].stamp)
          else FailedWhole(s, k))
  {
    RunKeepsInv(start, steps);
    WriterRefinesFifo(start, steps);
    var s := Run(Initial(start), steps).value;
    if s.processed[k].ok {
      RecordIsWritten(start, s.processed, k);
    }
  }

  // ---- Table guarantees, seen from the queue -------------------------------

  lemma {:induction false} OpsInsertMessages(outcomes: seq<Outcome>, i: nat, challenge: ChallengeId)
    requires i < |Ops(outcomes)| && Inserts(Ops(outcomes)[i], challenge)
    ensures exists k :: 0 <= k < |outcomes| && outcomes[k].msg.Puzzle? && outcomes[k].msg.id == Some(challenge)
  {
    if |outcomes| > 0 {
      var n := |outcomes| - 1;
      if i < |Ops(outcomes[..n])| {
        OpsInsertMessages(outcomes[..n], i, challenge);
        var k :| 0 <= k < n && outcomes[..n][k].msg.Puzzle? && outcomes[..n][k].msg.id == Some(challenge);
        assert outcomes[k].msg.Puzzle?;
      } else {
        assert outcomes[n].msg.Puzzle?;
      }
    }
  }

  /** No two puzzle records carry the same challenge id. */
  ghost predicate UniqueRecords(ms: seq<Msg>) {
    forall i, j :: 0 <= i < j < |ms| && ms[i].Puzzle? && ms[j].Puzzle? && ms[i].id.Some? ==> ms[i].id != ms[j].id
  }

  lemma {:induction false} OpsAreDistinct(outcomes: seq<Outcome>)
    requires UniqueRecords(Msgs(outcomes))
    ensures DistinctIds(Ops(outcomes))
  {
    if |outcomes| > 0 {
      var n := |outcomes| - 1;
      assert Msgs(outcomes[..n]) == Msgs(outcomes)[..n];
      OpsAreDistinct(outcomes[..n]);
      var ops := Ops(outcomes);
      forall i, j, challenge: ChallengeId | 0 <= i < j < |ops| && Inserts(ops[i], challenge) ensures !Inserts(ops[j], challenge) {
        if j >= |Ops(outcomes[..n])| {
          OpsInsertMessages(outcomes[..n], i, challenge);
          var k :| 0 <= k < n && outcomes[..n][k].msg.Puzzle? && outcomes[..n][k].msg.id == Some(challenge);
          assert Msgs(outcomes)[k].id == Some(challenge) && Msgs(outcomes)[n] == outcomes[n].msg;
        }
      }
    }
  }

  lemma {:induction false} OpsAreNew(start: Tables, outcomes: seq<Outcome>)
    requires UniqueRecords(Msgs(outcomes))
    requires forall k, challenge :: 0 <= k < |outcomes| && Names(outcomes[k].msg, challenge) ==> !Knows(start, challenge)
    ensures NewIds(start, Ops(outcomes))
  {
    OpsAreDistinct(outcomes);
    var ops := Ops(outcomes);
    forall i, challenge: ChallengeId | 0 <= i < |ops| && Inserts(ops[i], challenge) ensures !Knows(start, challenge) {
      OpsInsertMessages(outcomes, i, challenge);
      var k :| 0 <= k < |outcomes| && outcomes[k].msg.Puzzle? && outcomes[k].msg.id == Some(challenge);
      assert Names(outcomes[k].msg, challenge);
    }
  }

  ghost predicate Names(m: Msg, challenge: ChallengeId) {
    m.Puzzle? && m.id == Some(challenge)
  }

  /**
    A log opened on tables an earlier process left sound, and fed puzzle records
    with new ids, keeps each decision in one place in every reachable state.
   */
  lemma LogStaysSound(onDisk: Tables, trainingCutoff: Option<int>, steps: seq<Step>)
    requires Sound(onDisk) && Run(Initial(Opened(onDisk, trainingCutoff)), steps).Some?
    requires var accepted := Run(Initial(Opened(onDisk, trainingCutoff)), steps).value.accepted;
      && UniqueRecords(accepted)
      && forall k, challenge :: 0 <= k < |accepted| && Names(accepted[k], challenge) ==> !Knows(onDisk, challenge)
    ensures Sound(Run(Initial(Opened(onDisk, trainingCutoff)), steps).value.tables)
  {
    var start := Opened(onDisk, trainingCutoff);
    OpeningOnlyForgets(onDisk, trainingCutoff);
    WriterRefinesFifo(start, steps);
    var s := Run(Initial(start), steps).value;
    PrefixStaysSound(start, s, |s.processed|);
    assert s.processed[..|s.processed|] == s.processed;
  }

  /**
    A verdict that goes through is in force: in a log opened on sound tables and
    fed new ids, the owner's decision, wherever it lives by then, carries exactly
    that verdict as soon as the message has been handled.
   */
  lemma VerdictTakesForce(onDisk: Tables, trainingCutoff: Option<int>, steps: seq<Step>, k: nat)
    requires Sound(onDisk) && Run(Initial(Opened(onDisk, trainingCutoff)), steps).Some?
    requires var accepted := Run(Initial(Opened(onDisk, trainingCutoff)), steps).value.accepted;
      && UniqueRecords(accepted)
      && forall k, challenge :: 0 <= k < |accepted| && Names(accepted[k], challenge) ==> !Knows(onDisk, challenge)
    requires var s := Run(Initial(Opened(onDisk, trainingCutoff)), steps).value;
      && k < |s.processed| && s.processed[k].ok && s.processed[k].msg.Label?
      && Owns(After(Opened(onDisk, trainingCutoff), s, k), s.processed[k].msg.owner, s.processed[k].msg.challenge)
    ensures var s := Run(Initial(Opened(onDisk, trainingCutoff)), steps).value;
      var m := s.processed[k].msg;
      InForce(After(Opened(onDisk, trainingCutoff), s, k + 1), m.challenge, m.owner, Mark(m.verdict, s.processed[k].stamp))
  {
    var start := Opened(onDisk, trainingCutoff);
    var s := Run(Initial(start), steps).value;
    WriterRefinesFifo(start, steps);
    OpeningOnlyForgets(onDisk, trainingCutoff);
    PrefixStaysSound(start, s, k);
    OneMoreTook(start, s.processed, k);
    var m := s.processed[k].msg;
    LabelledIsInForce(After(start, s, k), After(start, s, k + 1), m.challenge, m.owner, Mark(m.verdict, s.processed[k].stamp));
  }

  lemma PrefixStaysSound(start: Tables, s: State, k: nat)
    requires Sound(start) && k <= |s.processed| <= |s.accepted| && UniqueRecords(s.accepted)
    requires forall i :: 0 <= i < |s.processed| ==> s.processed[i].msg == s.accepted[i]
    requires forall i, challenge :: 0 <= i < |s.accepted| && Names(s.accepted[i], challenge) ==> !Knows(start, challenge)
    ensures Sound(After(start, s, k))
  {
    var done := s.processed[..k];
    assert Msgs(done) == s.accepted[..k];
    OpsAreNew(start, done);
    TablesStaySound(start, Ops(done));
  }

  lemma EffectLeavesNoTrace(t: Tables, m: Msg, stamp: int, site: SiteKey, scope: Option<ChallengeId>)
    requires NoTrace(t, site, scope) && !(m.Puzzle? && m.site == site && InScope(scope, m.id))
    ensures NoTrace(Effect(t, m, stamp), site, scope)
  {
    if OpOf(m, stamp).Some? {
      StepLeavesNoTrace(t, OpOf(m, stamp).value, site, scope);
    }
  }

  lemma OneMoreLeavesNoTrace(start: Tables, done: seq<Outcome>, o: Outcome, site: SiteKey,
                             scope: Option<ChallengeId>)
    requires NoTrace(OneAtATime(start, done), site, scope)
    requires !(o.msg.Puzzle? && o.msg.site == site && InScope(scope, o.msg.id))
    ensures NoTrace(OneAtATime(start, done + [o]), site, scope)
  {
    OneMore(start, done, o);
    if o.ok {
      EffectLeavesNoTrace(OneAtATime(start, done), o.msg, o.stamp, site, scope);
    }
  }

  lemma ErasureEndsTraces(start: Tables, done: seq<Outcome>, o: Outcome)
    requires o.ok && o.msg.EraseFor?
    ensures NoTrace(OneAtATime(start, done + [o]), o.msg.owner, o.msg.scope)
  {
    OneMore(start, done, o);
    EraseLeavesNoTrace(OneAtATime(start, done), o.msg.owner, o.msg.scope);
  }

  lemma {:induction false} NoTraceSince(start: Tables, outcomes: seq<Outcome>, e: nat, n: nat)
    requires e < n <= |outcomes| && outcomes[e].ok && outcomes[e].msg.EraseFor?
    requires forall k :: e < k < n && outcomes[k].msg.Puzzle? && outcomes[k].msg.site == outcomes[e].msg.owner ==>
               !InScope(outcomes[e].msg.scope, outcomes[k].msg.id)
    ensures NoTrace(OneAtATime(start, outcomes[..n]), outcomes[e].msg.owner, outcomes[e].msg.scope)
  {
    assert outcomes[..n] == outcomes[..n - 1] + [outcomes[n - 1]];
    if n == e + 1 {
      ErasureEndsTraces(start, outcomes[..e], outcomes[e]);
    } else {
      NoTraceSince(start, outcomes, e, n - 1);
      OneMoreLeavesNoTrace(start, outcomes[..n - 1], outcomes[n - 1], outcomes[e].msg.owner, outcomes[e].msg.scope);
    }
  }

  /**
    An acknowledged erasure is final for the whole queue: records accepted
    before it were written before it and went with the rest, and later messages
    bring nothing back unless a new puzzle record in scope is accepted.
   */
  lemma LogErasureIsFinal(start: Tables, steps: seq<Step>, e: nat)
    requires Run(Initial(start), steps).Some? && e < |Run(Initial(start), steps).value.processed|
    requires var o := Run(Initial(start), steps).value.processed[e]; o.ok && o.msg.EraseFor?
    requires var s := Run(Initial(start), steps).value;
      forall k :: e < k < |s.accepted| && s.accepted[k].Puzzle? && s.accepted[k].site == s.processed[e].msg.owner ==>
        !InScope(s.processed[e].msg.scope, s.accepted[k].id)
    ensures var s := Run(Initial(start), steps).value;
      NoTrace(s.tables, s.processed[e].msg.owner, s.processed[e].msg.scope)
  {
    WriterRefinesFifo(start, steps);
    var s := Run(Initial(start), steps).value;
    assert s.processed[..|s.processed|] == s.processed;
    NoTraceSince(start, s.processed, e, |s.processed|);
  }
}
