/**
  How long a challenge lives (src/storage/memory.rs, src/api/handlers.rs): what
  each step of the protocol does to each live challenge, and why it ever goes.
 */
module ProtocolLifetime {
  import opened Common
  import opened ChallengeStore
  import opened ChallengeProtocol
  import opened ProtocolSafety

  // ---- One step ------------------------------------------------------------

  /** A wrong nonce is registered against this challenge, and attempts are counted. */
  ghost predicate Charges(cfg: Config, s: State, step: Step, id: Id)
    requires Enabled(cfg, s, step)
  {
    step.Register? && s.handlers[step.h].id == id && cfg.maxAttempts > 0
  }

  /** The four ways out of the map: swept, evicted, out of attempts, consumed. */
  ghost predicate Removes(cfg: Config, s: State, step: Step, id: Id)
    requires Enabled(cfg, s, step) && id in s.challenges
  {
    || (step.Sweep? && s.challenges[id].expiresAt <= step.stamp)
    || (step.Evict? && s.handlers[step.h].id == id)
    || (Charges(cfg, s, step, id) && s.challenges[id].attempts + 1 >= cfg.maxAttempts)
    || (step.Consume? && s.handlers[step.h].snapshot.id == id)
  }

  /** The challenge stays exactly unless the step removes it, and is as it was but for an attempt charged to it. */
  ghost predicate LiveAfter(cfg: Config, s: State, step: Step, id: Id, after: Active)
    requires Enabled(cfg, s, step) && id in s.challenges
  {
    var c := s.challenges[id];
    && (id in after <==> !Removes(cfg, s, step, id))
    && (id in after ==> after[id] == c.(attempts := c.attempts + if Charges(cfg, s, step, id) then 1 else 0))
  }

  lemma SweepOnLive(cfg: Config, s: State, step: Step, id: Id)
    requires step.Sweep? && Enabled(cfg, s, step) && id in s.challenges
    ensures LiveAfter(cfg, s, step, id, Apply(cfg, s, step).challenges)
  {
  }

  lemma EvictOnLive(cfg: Config, s: State, step: Step, id: Id)
    requires step.Evict? && Enabled(cfg, s, step) && id in s.challenges
    ensures LiveAfter(cfg, s, step, id, Apply(cfg, s, step).challenges)
  {
  }

  lemma RegisterOnLive(cfg: Config, s: State, step: Step, id: Id)
    requires step.Register? && Enabled(cfg, s, step) && id in s.challenges
    ensures LiveAfter(cfg, s, step, id, Apply(cfg, s, step).challenges)
  {
  }

  lemma ConsumeOnLive(cfg: Config, s: State, step: Step, id: Id)
    requires step.Consume? && Enabled(cfg, s, step) && id in s.challenges
    ensures LiveAfter(cfg, s, step, id, Apply(cfg, s, step).challenges)
    ensures id !in Apply(cfg, s, step).challenges ==> Apply(cfg, s, step).consumed == s.consumed + [id]
  {
  }

  lemma StoreOnLive(cfg: Config, s: State, step: Step, id: Id)
    requires Inv(cfg, s) && step.Store? && Enabled(cfg, s, step) && id in s.challenges
    ensures LiveAfter(cfg, s, step, id, Apply(cfg, s, step).challenges)
  {
    assert HandlerOk(cfg, s, s.handlers[step.h]);
  }

  ghost predicate ChangesMap(step: Step) {
    step.Store? || step.Sweep? || step.Evict? || step.Register? || step.Consume?
  }

  lemma MapUntouched(cfg: Config, s: State, step: Step)
    requires Enabled(cfg, s, step) && !ChangesMap(step)
    ensures Apply(cfg, s, step).challenges == s.challenges
  {
  }

  /**
    What any step does to a live challenge. In particular a sweep takes exactly
    the challenges that expire no later than its stamp.
   */
  lemma StepOnLive(cfg: Config, s: State, step: Step, id: Id)
    requires Inv(cfg, s) && Enabled(cfg, s, step) && id in s.challenges
    ensures LiveAfter(cfg, s, step, id, Apply(cfg, s, step).challenges)
  {
    if step.Sweep? {
      SweepOnLive(cfg, s, step, id);
    } else if step.Evict? {
      EvictOnLive(cfg, s, step, id);
    } else if step.Register? {
      RegisterOnLive(cfg, s, step, id);
    } else if step.Consume? {
      ConsumeOnLive(cfg, s, step, id);
    } else if step.Store? {
      StoreOnLive(cfg, s, step, id);
    } else {
      MapUntouched(cfg, s, step);
      UntouchedLive(cfg, s, step, id, Apply(cfg, s, step).challenges);
    }
  }

  lemma UntouchedLive(cfg: Config, s: State, step: Step, id: Id, after: Active)
    requires Enabled(cfg, s, step) && id in s.challenges && !ChangesMap(step) && after == s.challenges
    ensures LiveAfter(cfg, s, step, id, after)
  {
  }

  /** A challenge that appears is the one just minted by the handler that stores it. */
  lemma StepOnAbsent(cfg: Config, s: State, step: Step, id: Id)
    requires Inv(cfg, s) && Enabled(cfg, s, step) && id !in s.challenges
    ensures var after := Apply(cfg, s, step).challenges;
            id in after <==>
              step.Store? && s.log[s.handlers[step.h].entry].challenge.id == id
    ensures var after := Apply(cfg, s, step).challenges;
            id in after ==> id !in s.stored && after[id] == s.log[s.handlers[step.h].entry].challenge
  {
    if step.Store? {
      assert HandlerOk(cfg, s, s.handlers[step.h]);
    } else if !ChangesMap(step) {
      MapUntouched(cfg, s, step);
    }
  }

  // ---- Whole runs ----------------------------------------------------------

  /** How often a wrong nonce was charged to this challenge while it was live. */
  ghost function ChargesOf(cfg: Config, start: State, steps: seq<Step>, id: Id): nat
    requires Possible(cfg, start, steps)
  {
    if steps == [] then 0
    else
      var n := |steps| - 1;
      var s := Run(cfg, start, steps[..n]).value;
      ChargesOf(cfg, start, steps[..n], id) + if id in s.challenges && Charges(cfg, s, steps[n], id) then 1 else 0
  }

  /** The attempt counter of a live challenge is the number of wrong nonces charged to it. */
  lemma {:induction false} AttemptsAreCharges(cfg: Config, now: int, steps: seq<Step>, id: Id)
    requires Possible(cfg, Initial(now), steps)
    ensures var s := Run(cfg, Initial(now), steps).value;
            && (id in s.challenges ==> s.challenges[id].attempts == ChargesOf(cfg, Initial(now), steps, id))
            && (id !in s.stored ==> ChargesOf(cfg, Initial(now), steps, id) == 0)
  {
    if steps != [] {
      var n := |steps| - 1;
      AttemptsAreCharges(cfg, now, steps[..n], id);
      RunKeepsInv(cfg, now, steps[..n]);
      var s := Run(cfg, Initial(now), steps[..n]).value;
      StoredStays(cfg, s, steps[n], id);
      if id in s.challenges {
        StepOnLive(cfg, s, steps[n], id);
      } else {
        StepOnAbsent(cfg, s, steps[n], id);
        MintedUncharged(cfg, s, steps[n]);
      }
    }
  }

  lemma StoredStays(cfg: Config, s: State, step: Step, id: Id)
    requires Enabled(cfg, s, step)
    ensures id in s.stored ==> id in Apply(cfg, s, step).stored
  {
  }

  lemma MintedUncharged(cfg: Config, s: State, step: Step)
    requires Inv(cfg, s) && Enabled(cfg, s, step)
    ensures step.Store? ==> s.log[s.handlers[step.h].entry].challenge.attempts == 0
  {
    if step.Store? {
      assert HandlerOk(cfg, s, s.handlers[step.h]);
      assert EntryOk(cfg, s, s.handlers[step.h].entry);
    }
  }

  /** Why a challenge leaves at this step: used, out of attempts, or past its expiry. */
  ghost predicate Departs(cfg: Config, s: State, step: Step, s': State, id: Id)
    requires id in s.challenges
  {
    || (step.Consume? && s'.consumed == s.consumed + [id])
    || (step.Register? && cfg.maxAttempts > 0 && s.challenges[id].attempts + 1 == cfg.maxAttempts)
    || s.challenges[id].expiresAt <= s.now
  }

  lemma RemovalIsDeparture(cfg: Config, s: State, step: Step, id: Id)
    requires Inv(cfg, s) && Enabled(cfg, s, step) && id in s.challenges && id !in Apply(cfg, s, step).challenges
    ensures Departs(cfg, s, step, Apply(cfg, s, step), id)
  {
    StepOnLive(cfg, s, step, id);
    if step.Consume? {
      ConsumeOnLive(cfg, s, step, id);
    } else {
      DueToGo(cfg, s, step, Apply(cfg, s, step), id);
    }
  }

  lemma DueToGo(cfg: Config, s: State, step: Step, s': State, id: Id)
    requires Inv(cfg, s) && Enabled(cfg, s, step) && id in s.challenges && Removes(cfg, s, step, id) && !step.Consume?
    ensures Departs(cfg, s, step, s', id)
  {
    if step.Evict? {
      assert HandlerOk(cfg, s, s.handlers[step.h]) && IsCopy(s, s.challenges[id]);
    }
  }

  /**
    Over any run, a challenge that was live after n steps and is gone at the end
    left at one step k: it was consumed, or a wrong nonce was its last allowed
    attempt, or the clock had reached its expiry. Nothing else takes a valid
    challenge away.
   */
  lemma {:induction false} LivesUntilDeparture(cfg: Config, now: int, steps: seq<Step>, n: nat, id: Id)
    returns (k: nat)
    requires Possible(cfg, Initial(now), steps) && n <= |steps|
    requires id in At(cfg, Initial(now), steps, n).challenges
    requires id !in Run(cfg, Initial(now), steps).value.challenges
    ensures n <= k < |steps|
    ensures var s, s' := At(cfg, Initial(now), steps, k), At(cfg, Initial(now), steps, k + 1);
            id in s.challenges && id !in s'.challenges && Departs(cfg, s, steps[k], s', id)
  {
    assert steps[..|steps|] == steps;
    k := LastMoment(cfg, Initial(now), steps, n, id);
    AtStep(cfg, Initial(now), steps, k);
    PrefixPossible(cfg, Initial(now), steps, k);
    RunKeepsInv(cfg, now, steps[..k]);
    RemovalIsDeparture(cfg, At(cfg, Initial(now), steps, k), steps[k], id);
  }

  ghost predicate LiveAt(cfg: Config, start: State, steps: seq<Step>, n: nat, id: Id)
    requires Possible(cfg, start, steps) && n <= |steps|
  {
    id in At(cfg, start, steps, n).challenges
  }

  lemma {:induction false} LastMoment(cfg: Config, start: State, steps: seq<Step>, n: nat, id: Id) returns (k: nat)
    requires Possible(cfg, start, steps) && n < |steps|
    requires LiveAt(cfg, start, steps, n, id) && !LiveAt(cfg, start, steps, |steps|, id)
    ensures n <= k < |steps| && LiveAt(cfg, start, steps, k, id) && !LiveAt(cfg, start, steps, k + 1, id)
    decreases |steps| - n
  {
    if LiveAt(cfg, start, steps, n + 1, id) {
      k := LastMoment(cfg, start, steps, n + 1, id);
    } else {
      k := n;
    }
  }

  /** Until then it is the challenge that was stored, with its expiry and difficulty as stamped. */
  lemma LiveIsAsMinted(cfg: Config, now: int, steps: seq<Step>, id: Id)
    requires Possible(cfg, Initial(now), steps) && id in Run(cfg, Initial(now), steps).value.challenges
    ensures var s := Run(cfg, Initial(now), steps).value;
            && id in s.index && s.index[id] < |s.log|
            && s.challenges[id] ==
               s.log[s.index[id]].challenge.(attempts := ChargesOf(cfg, Initial(now), steps, id))
  {
    RunKeepsInv(cfg, now, steps);
    AttemptsAreCharges(cfg, now, steps, id);
    var s := Run(cfg, Initial(now), steps).value;
    assert IsCopy(s, s.challenges[id]);
  }
}
