/**
  The decision log's own loop (src/dashboard/log.rs): the non-blocking send and
  one turn of the writer thread, tied to the machine of DecisionLog.
 */
module DecisionWriter {
  import opened Common
  import T = DecisionTables
  import opened DecisionLog

  lemma {:induction false} RunJoins(s: State, a: seq<Step>, b: seq<Step>)
    requires Run(s, a).Some?
    ensures Run(s, a + b) == Run(Run(s, a).value, b)
  {
    if |b| == 0 {
      assert a + b == a;
    } else {
      RunJoins(s, a, b[..|b| - 1]);
      assert (a + b)[..|a + b| - 1] == a + b[..|b| - 1];
    }
  }

  lemma RunStep(s: State, a: seq<Step>, step: Step)
    requires Run(s, a).Some? && Enabled(Run(s, a).value, step)
    ensures Run(s, a + [step]) == Some(Act(Run(s, a).value, step))
  {
    assert (a + [step])[..|a|] == a;
  }

  class Log {
    var queue: seq<Msg>
    var dropped: nat
    const db: T.Database
    // What the machine remembers and the program does not.
    ghost var writer: Writer
    ghost var attempted: nat
    ghost var accepted: seq<Msg>
    ghost var processed: seq<Outcome>
    ghost var transactions: nat

    constructor (db: T.Database)
      ensures this.db == db && Model() == Initial(db.Contents())
    {
      this.db := db;
      queue, dropped := [], 0;
      writer, attempted, accepted, processed, transactions := Idle, 0, [], [], 0;
    }

    ghost function Model(): State
      reads this, db
    {
      State(queue, dropped, writer, db.Contents(), attempted, accepted, processed, transactions)
    }

    /** `try_send`: never blocks; a full queue costs the record. */
    method Offer(m: Msg)
      requires IsRecord(m)
      modifies this
      ensures Model() == Act(old(Model()), TrySend(m))
      ensures if |old(queue)| < 8192 then queue == old(queue) + [m] && dropped == old(dropped)
              else queue == old(queue) && dropped == old(dropped) + 1
    {
      attempted := attempted + 1;
      if |queue| < CHANNEL_CAPACITY {
        queue := queue + [m];
        accepted := accepted + [m];
      } else {
        dropped := dropped + 1;
      }
    }

    /** An awaiting send, once there is room. */
    method Submit(m: Msg)
      requires !IsRecord(m) && |queue| < CHANNEL_CAPACITY
      modifies this
      ensures Model() == Act(old(Model()), Send(m))
    {
      queue := queue + [m];
      accepted := accepted + [m];
    }

    /** What other threads get in before the writer looks again. */
    method Arrive(ms: seq<Msg>) returns (ghost steps: seq<Step>)
      modifies this
      ensures Run(old(Model()), steps) == Some(Model())
      ensures writer == old(writer) && processed == old(processed)
    {
      steps := [];
      for i := 0 to |ms|
        invariant Run(old(Model()), steps) == Some(Model())
        invariant writer == old(writer) && processed == old(processed)
      {
        if IsRecord(ms[i]) {
          RunStep(old(Model()), steps, TrySend(ms[i]));
          Offer(ms[i]);
          steps := steps + [TrySend(ms[i])];
        } else if |queue| < CHANNEL_CAPACITY {
          RunStep(old(Model()), steps, Send(ms[i]));
          Submit(ms[i]);
          steps := steps + [Send(ms[i])];
        }
      }
    }

    /** `flush_batch`: all the inserts in one transaction, or none of them. */
    method FlushBatch(batch: seq<Msg>, stamps: seq<int>, ok: bool)
      requires writer.Ready? && writer.batch == batch && |stamps| == |batch| && AllRecords(batch)
      modifies this, db
      ensures Model() == Act(old(Model()), Commit(stamps, ok))
    {
      if ok {
        InsertAll(batch, stamps);
      }
      processed := processed + Outcomes(batch, stamps, ok, transactions);
      transactions := transactions + 1;
      writer := if writer.deferred.Some? then Handling(writer.deferred.value) else Idle;
    }

    method InsertAll(batch: seq<Msg>, stamps: seq<int>)
      requires |stamps| == |batch| && AllRecords(batch)
      modifies db
      ensures db.Contents() == InsertBatch(old(db.Contents()), batch, stamps)
    {
      var i := 0;
      while i < |batch|
        invariant 0 <= i <= |batch|
        invariant db.Contents() == InsertBatch(old(db.Contents()), batch[..i], stamps[..i])
      {
        assert batch[i] in batch;
        assert batch[..i + 1][..i] == batch[..i] && stamps[..i + 1][..i] == stamps[..i];
        match batch[i] {
          case Puzzle(site, id, data) => db.InsertPuzzleRow(T.PuzzleRow(stamps[i], id, site, data));
          case Verify(id, data) => db.InsertVerifyRow(T.VerifyRow(stamps[i], id, data));
        }
        i := i + 1;
      }
      assert batch[..i] == batch && stamps[..i] == stamps;
    }

    /** `handle_control`: one control message in its own transaction. */
    method HandleControl(m: Msg, stamp: int, ok: bool)
      requires writer == Handling(m) && !IsRecord(m)
      modifies this, db
      ensures Model() == Act(old(Model()), Handle(stamp, ok))
    {
      if ok {
        match m
        case Clear => db.Clear();
        case Prune(cutoff, trainingCutoff) => var _ := db.Prune(cutoff, trainingCutoff);
        case Label(challenge, owner, verdict) => var _ := db.LabelDecision(challenge, owner, T.Mark(verdict, stamp));
        case Flush =>
        case EraseFor(owner, scope) => db.EraseRecords(owner, scope);
      }
      processed := processed + [Outcome(m, stamp, ok, transactions)];
      transactions := transactions + 1;
      writer := Idle;
    }

    /**
      One turn of the writer thread, from a blocking receive to idle again, with
      whatever the other threads send in between. It is a run of the machine, so
      every theorem about the machine holds of it.
     */
    method WriterTurn(arrivals: seq<seq<Msg>>, clock: nat -> int, commits: bool, controlStamp: int, controlOk: bool)
      returns (ghost steps: seq<Step>)
      requires writer.Idle? && queue != []
      modifies this, db
      ensures Run(old(Model()), steps) == Some(Model())
      ensures writer.Idle? && |processed| > |old(processed)|
    {
      var first := queue[0];
      steps := [Recv];
      RunStep(old(Model()), [], Recv);
      queue := queue[1..];
      if !IsRecord(first) {
        writer := Handling(first);
        assert Run(old(Model()), steps) == Some(Model());
        RunStep(old(Model()), steps, Handle(controlStamp, controlOk));
        HandleControl(first, controlStamp, controlOk);
        steps := steps + [Handle(controlStamp, controlOk)];
        return;
      }
      var batch := [first];
      var deferred: Option<Msg> := None;
      writer := Draining(batch);
      assert Run(old(Model()), steps) == Some(Model());
      var looks := 0;
      var draining := true;
      while draining
        invariant draining <==> writer.Draining?
        invariant 0 < |batch| <= MAX_INSERT_BATCH && AllRecords(batch)
        invariant draining ==> |batch| < MAX_INSERT_BATCH && writer == Draining(batch) && deferred.None?
        invariant !draining ==> writer == Ready(batch, deferred) && (deferred.Some? ==> !IsRecord(deferred.value))
        invariant Run(old(Model()), steps) == Some(Model())
        invariant processed == old(processed)
        decreases MAX_INSERT_BATCH - |batch|, draining
      {
        if looks < |arrivals| {
          ghost var sent := Arrive(arrivals[looks]);
          RunJoins(old(Model()), steps, sent);
          steps := steps + sent;
        }
        looks := looks + 1;
        RunStep(old(Model()), steps, TryRecv);
        if queue == [] {
          draining, writer := false, Ready(batch, None);
        } else {
          var m := queue[0];
          queue := queue[1..];
          if IsRecord(m) {
            batch := batch + [m];
            draining, writer := |batch| < MAX_INSERT_BATCH, Drain(batch);
          } else {
            deferred := Some(m);
            draining, writer := false, Ready(batch, deferred);
          }
        }
        steps := steps + [TryRecv];
      }
      var stamps := seq(|batch|, i requires 0 <= i < |batch| => clock(i));
      RunStep(old(Model()), steps, Commit(stamps, commits));
      FlushBatch(batch, stamps, commits);
      steps := steps + [Commit(stamps, commits)];
      if deferred.Some? {
        RunStep(old(Model()), steps, Handle(controlStamp, controlOk));
        HandleControl(deferred.value, controlStamp, controlOk);
        steps := steps + [Handle(controlStamp, controlOk)];
      }
    }
  }
}
