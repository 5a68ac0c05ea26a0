/**
  The puzzle and verify handlers as the program runs them (src/api/handlers.rs):
  straight sequences of store calls, each call being one step of the protocol.
 */
module ProtocolHandlers {
  import opened Common
  import opened ChallengeStore
  import opened ChallengeProtocol
  import opened ProtocolSafety
  import PoW = ProofOfWork

  datatype Reply =
    | ChallengeNotFound
    | Unauthorized
    | ChallengeExpired
    | PowInvalid(exhausted: bool)
    | Solved(timeOnPage: int)

  /** What the scorer and the site's policy make of a puzzle request. */
  datatype Risk = Risk(hardCapped: bool, scoreBlocks: bool, monitor: bool)

  const SHED_PRESSURE_PERCENT: nat := 80
  const USIZE_MAX: nat := 0xFFFF_FFFF_FFFF_FFFF

  function SaturatingMul(a: nat, b: nat): nat {
    if a * b > USIZE_MAX then USIZE_MAX else a * b
  }

  /**
    When issuance is refused: the map is full; or it is four fifths full and this
    source is over its hard limit; or scoring blocks the visitor, unless the hard
    limit has already turned the block into a throttle or the site only monitors.
   */
  predicate Refused(maxActive: nat, count: nat, risk: Risk) {
    || (maxActive > 0 && count >= maxActive)
    || (maxActive > 0 && risk.hardCapped && SaturatingMul(count, 100) >= SaturatingMul(maxActive, SHED_PRESSURE_PERCENT))
    || (!risk.hardCapped && risk.scoreBlocks && !risk.monitor)
  }

  /** A wrong nonce costs this challenge one of its attempts, or its life at the cap, and no other challenge anything. */
  ghost predicate Charged(before: Active, after: Active, id: Id, cap: nat, exhausted: bool) {
    && after - {id} == before - {id}
    && (id in after <==> id in before && !exhausted)
    && (exhausted <==> cap > 0 && id in before && before[id].attempts + 1 >= cap)
    && (id in after ==> after[id] == before[id].(attempts := before[id].attempts + if cap > 0 then 1 else 0))
  }

  /**
    The refusal rule where the counts do not saturate. From the ceiling on, every
    request is refused. From four fifths of it, so is a source over its hard limit.
    Otherwise only scoring refuses, and neither such a source nor a site that
    only monitors.
   */
  lemma RefusedWhen(maxActive: nat, count: nat, risk: Risk)
    requires 100 * maxActive <= USIZE_MAX
    ensures maxActive > 0 && count >= maxActive ==> Refused(maxActive, count, risk)
    ensures maxActive > 0 && 4 * maxActive <= 5 * count < 5 * maxActive ==>
              (Refused(maxActive, count, risk) <==> risk.hardCapped || (risk.scoreBlocks && !risk.monitor))
    ensures maxActive == 0 || 5 * count < 4 * maxActive ==>
              (Refused(maxActive, count, risk) <==> !risk.hardCapped && risk.scoreBlocks && !risk.monitor)
  {
  }

  lemma RunStep(cfg: Config, s: State, steps: seq<Step>, step: Step)
    requires Possible(cfg, s, steps) && Enabled(cfg, Run(cfg, s, steps).value, step)
    ensures Run(cfg, s, steps + [step]) == Some(Apply(cfg, Run(cfg, s, steps).value, step))
  {
    assert (steps + [step])[..|steps|] == steps;
  }

  lemma {:induction false} RunJoins(cfg: Config, s: State, a: seq<Step>, b: seq<Step>)
    requires Possible(cfg, s, a)
    ensures Run(cfg, s, a + b) == Run(cfg, Run(cfg, s, a).value, b)
    decreases |b|
  {
    if b == [] {
      assert a + b == a;
    } else {
      RunJoins(cfg, s, a, b[..|b| - 1]);
      assert (a + b)[..|a + b| - 1] == a + b[..|b| - 1];
      assert (a + b)[|a + b| - 1] == b[|b| - 1];
    }
  }

  /** The program's own calls never leave the safety invariant, nor does anything that runs beside them. */
  lemma {:induction false} ServingStaysSafe(cfg: Config, s: State, steps: seq<Step>)
    requires Inv(cfg, s) && Possible(cfg, s, steps)
    ensures Inv(cfg, Run(cfg, s, steps).value)
    ensures Indexed(Run(cfg, s, steps).value)
  {
    RunPreservesInv(cfg, s, steps);
    var r := Run(cfg, s, steps).value;
    forall id | id in r.challenges ensures r.challenges[id].id == id && id in r.index {
      assert IsCopy(r, r.challenges[id]);
    }
  }

  /** Keys are the challenges' own ids, each minted. */
  ghost predicate Indexed(s: State) {
    forall id :: id in s.challenges ==> s.challenges[id].id == id && id in s.index
  }

  class Server {
    const cfg: Config
    const store: ChallengeMap
    // The protocol's state: the challenge map, where handlers are, and history.
    ghost var view: State

    ghost predicate Valid()
      reads this, store
    {
      view.challenges == store.challenges
    }

    constructor (cfg: Config, ghost now: int)
      ensures this.cfg == cfg && fresh(store) && Valid() && view == Initial(now)
    {
      this.cfg := cfg;
      store := new ChallengeMap();
      view := Initial(now);
    }

    /** Record that a handler took a step; any store call it makes has just been made. */
    ghost method Took(start: State, steps: seq<Step>, step: Step) returns (taken: seq<Step>)
      requires Run(cfg, start, steps) == Some(view) && Enabled(cfg, view, step)
      modifies this
      ensures view == Apply(cfg, old(view), step) && Run(cfg, start, taken) == Some(view)
    {
      RunStep(cfg, start, steps, step);
      taken := steps + [step];
      view := Apply(cfg, view, step);
    }

    /** The request arrives and its challenge is looked up: a snapshot, or a refusal. */
    method Fetch(h: HandlerId, site: SiteKey, id: Id, nonce: nat)
      returns (found: Option<Challenge>, ghost steps: seq<Step>)
      requires Valid() && h !in view.handlers && h < cfg.slots
      modifies this
      ensures Valid() && Run(cfg, old(view), steps) == Some(view) && view.now == old(view).now
      ensures found == if id in store.challenges then Some(store.challenges[id]) else None
      ensures if found.Some? && found.value.site == site
              then h in view.handlers && view.handlers[h] == Holding(site, nonce, found.value) else h !in view.handlers
      ensures view.solved == old(view).solved
    {
      ghost var start := view;
      steps := Took(start, [], Open(h, Looking(site, id, nonce)));
      found := store.GetChallenge(id);
      steps := Took(start, steps, Lookup(h));
    }

    /** The clock is read, and a challenge past its expiry is deleted. */
    method CheckFresh(h: HandlerId, site: SiteKey, nonce: nat, c: Challenge, verifyAt: int)
      returns (live: bool, ghost steps: seq<Step>)
      requires Valid() && h in view.handlers && view.handlers[h] == Holding(site, nonce, c) && view.now <= verifyAt
      modifies this, store
      ensures Valid() && Run(cfg, old(view), steps) == Some(view)
      ensures live <==> verifyAt <= c.expiresAt
      ensures store.challenges == if live then old(store.challenges) else old(store.challenges) - {c.id}
      ensures if live then h in view.handlers && view.handlers[h] == Cleared(site, nonce, c, verifyAt) else h !in view.handlers
      ensures view.solved == old(view).solved
    {
      ghost var start := view;
      steps := Took(start, [], Tick(verifyAt));
      live := verifyAt <= c.expiresAt;
      steps := Took(start, steps, CheckExpiry(h));
      if !live {
        store.DeleteChallenge(c.id);
        steps := Took(start, steps, Evict(h));
      }
    }

    /** The hash runs outside every lock. */
    method Hash(h: HandlerId, site: SiteKey, nonce: nat, c: Challenge, verifyAt: int)
      returns (valid: bool, ghost steps: seq<Step>)
      requires Valid() && h in view.handlers && view.handlers[h] == Cleared(site, nonce, c, verifyAt)
      modifies this
      ensures Valid() && Run(cfg, old(view), steps) == Some(view)
      ensures valid <==> Accepts(cfg, c, nonce)
      ensures h in view.handlers
      ensures view.handlers[h] == if valid then Consuming(site, nonce, c, verifyAt) else Registering(c.id)
      ensures view.solved == old(view).solved
    {
      ghost var start := view;
      steps := Took(start, [], StartHash(h));
      valid := PoW.VerifyNonce(cfg.hashes, c.algorithm, c.prefix, c.difficulty, nonce);
      steps := Took(start, steps, FinishHash(h));
    }

    /** A wrong nonce leaves the challenge for a retry, up to the attempt cap. */
    method ReportFailure(h: HandlerId, id: Id) returns (exhausted: bool, ghost steps: seq<Step>)
      requires Valid() && h in view.handlers && view.handlers[h] == Registering(id)
      modifies this, store
      ensures Valid() && Run(cfg, old(view), steps) == Some(view)
      ensures (store.challenges, exhausted) == Attempted(old(store.challenges), id, cfg.maxAttempts)
      ensures Charged(old(store.challenges), store.challenges, id, cfg.maxAttempts, exhausted)
      ensures h !in view.handlers && view.solved == old(view).solved
    {
      exhausted := store.RegisterFailedAttempt(id, cfg.maxAttempts);
      steps := Took(view, [], Register(h));
    }

    /** Of concurrent correct submissions only the one that removes the challenge succeeds. */
    method ReportSuccess(h: HandlerId, site: SiteKey, nonce: nat, c: Challenge, verifyAt: int)
      returns (ok: bool, ghost steps: seq<Step>)
      requires Valid() && h in view.handlers && view.handlers[h] == Consuming(site, nonce, c, verifyAt)
      modifies this, store
      ensures Valid() && Run(cfg, old(view), steps) == Some(view)
      ensures ok <==> c.id in old(store.challenges)
      ensures store.challenges == old(store.challenges) - {c.id}
      ensures view.solved == old(view).solved +
        if ok then [Solve(c.id, site, nonce, verifyAt, TimeOnPageMs(verifyAt, c.dwellSince))] else []
      ensures h !in view.handlers
    {
      ok := store.ConsumeChallenge(c.id);
      steps := Took(view, [], Consume(h));
    }

    /**
      The verify handler running undisturbed from slot h. Its reply is decided
      by the store, the clock and the hash alone, and it is a run of the
      protocol, so what every run keeps holds around it.
     */
    method Verify(h: HandlerId, site: SiteKey, id: Id, nonce: nat, verifyAt: int)
      returns (reply: Reply, ghost steps: seq<Step>)
      requires Valid() && Indexed(view) && h !in view.handlers && h < cfg.slots && view.now <= verifyAt
      modifies this, store
      ensures Valid() && Run(cfg, old(view), steps) == Some(view)
      ensures reply.ChallengeNotFound? <==> id !in old(store.challenges)
      ensures id in old(store.challenges) ==>
        var c := old(store.challenges)[id];
        && (reply.Unauthorized? <==> c.site != site)
        && (reply.ChallengeExpired? <==> c.site == site && c.expiresAt < verifyAt)
        && (reply.PowInvalid? <==> c.site == site && verifyAt <= c.expiresAt && !Accepts(cfg, c, nonce))
        && (reply.Solved? <==> c.site == site && verifyAt <= c.expiresAt && Accepts(cfg, c, nonce))
        && (reply.Solved? || reply.ChallengeExpired? ==> store.challenges == old(store.challenges) - {id})
        && (reply.PowInvalid? ==> Charged(old(store.challenges), store.challenges, id, cfg.maxAttempts, reply.exhausted))
        && (reply.Solved? ==> reply.timeOnPage == TimeOnPageMs(verifyAt, c.dwellSince))
      ensures reply.ChallengeNotFound? || reply.Unauthorized? ==> store.challenges == old(store.challenges)
      ensures view.solved == old(view).solved +
        if reply.Solved? then [Solve(id, site, nonce, verifyAt, reply.timeOnPage)] else []
      ensures h !in view.handlers
    {
      ghost var start := view;
      var c, opening := Fetch(h, site, id, nonce);
      steps := opening;
      if c.None? {
        return ChallengeNotFound, steps;
      }
      if c.value.site != site {
        return Unauthorized, steps;
      }
      var live, checking := CheckFresh(h, site, nonce, c.value, verifyAt);
      RunJoins(cfg, start, steps, checking);
      steps := steps + checking;
      if !live {
        return ChallengeExpired, steps;
      }
      var valid, hashing := Hash(h, site, nonce, c.value, verifyAt);
      RunJoins(cfg, start, steps, hashing);
      steps := steps + hashing;
      ghost var report;
      if valid {
        var ok;
        ok, report := ReportSuccess(h, site, nonce, c.value, verifyAt);
        reply := if ok then Solved(TimeOnPageMs(verifyAt, c.value.dwellSince)) else ChallengeNotFound;
      } else {
        var exhausted;
        exhausted, report := ReportFailure(h, c.value.id);
        reply := PowInvalid(exhausted);
      }
      RunJoins(cfg, start, steps, report);
      steps := steps + report;
    }

    /** The load sheds and the enforced tier, on a count read under its own lock. */
    method Refuses(risk: Risk) returns (refused: bool)
      ensures refused <==> Refused(cfg.maxActive, |store.challenges|, risk)
    {
      var overCapacity, underPressure := false, false;
      if cfg.maxActive > 0 {
        var count := store.ChallengeCount();
        overCapacity := count >= cfg.maxActive;
        underPressure := SaturatingMul(count, 100) >= SaturatingMul(cfg.maxActive, SHED_PRESSURE_PERCENT);
      }
      var shedFlooder := underPressure && risk.hardCapped;
      var blocked := overCapacity || shedFlooder || (!risk.hardCapped && risk.scoreBlocks);
      var monitoredBlock := risk.monitor && blocked && !overCapacity && !shedFlooder;
      refused := blocked && !monitoredBlock;
    }

    method Admit(h: HandlerId, site: SiteKey, refreshOf: Option<Id>, risk: Risk)
      returns (refused: bool, ghost steps: seq<Step>)
      requires Valid() && h !in view.handlers && h < cfg.slots
      modifies this
      ensures Valid() && Run(cfg, old(view), steps) == Some(view)
      ensures refused <==> Refused(cfg.maxActive, |store.challenges|, risk)
      ensures view.now == old(view).now && view.index == old(view).index
      ensures if refused then h !in view.handlers
              else h in view.handlers && view.handlers[h] == Admitted(site, refreshOf)
    {
      ghost var start := view;
      steps := Took(start, [], Open(h, Issuing(site, refreshOf)));
      refused := Refuses(risk);
      if refused {
        steps := Took(start, steps, Shed(h));
      } else {
        steps := Took(start, steps, CheckCapacity(h));
      }
    }

    /** What a refresh may inherit: the anchor of a live challenge of the same site. */
    method InheritedDwell(h: HandlerId, site: SiteKey, refreshOf: Option<Id>)
      returns (dwell: Option<int>, ghost steps: seq<Step>)
      requires Valid() && Indexed(view) && h in view.handlers && view.handlers[h] == Admitted(site, refreshOf)
      modifies this
      ensures Valid() && Run(cfg, old(view), steps) == Some(view)
      ensures view.now == old(view).now && view.index == old(view).index
      ensures h in view.handlers && view.handlers[h].Cited? && view.handlers[h].site == site && view.handlers[h].dwell == dwell
      ensures dwell == if refreshOf.Some? && refreshOf.value in store.challenges && store.challenges[refreshOf.value].site == site
                       then Some(store.challenges[refreshOf.value].dwellSince) else None
    {
      dwell := None;
      if refreshOf.Some? {
        var prior := store.GetChallenge(refreshOf.value);
        if prior.Some? && prior.value.site == site {
          dwell := Some(prior.value.dwellSince);
        }
      }
      steps := Took(view, [], ReadPrior(h));
    }

    /** Mint and store: two steps, so others may run in between. */
    method MintAndStore(h: HandlerId, site: SiteKey, dwell: Option<int>, id: Id, prefix: seq<PoW.Byte>,
        difficulty: nat, now: int)
      returns (c: Challenge, ghost steps: seq<Step>)
      requires Valid() && h in view.handlers && view.handlers[h].Cited?
      requires view.handlers[h].site == site && view.handlers[h].dwell == dwell
      requires id !in view.index && now == view.now
      modifies this, store
      ensures Valid() && Run(cfg, old(view), steps) == Some(view)
      ensures c == Generate(id, site, cfg.algorithm, prefix, difficulty, cfg.ttl, dwell, now)
      ensures store.challenges == old(store.challenges)[id := c] && h !in view.handlers
    {
      ghost var start := view;
      c := Generate(id, site, cfg.algorithm, prefix, difficulty, cfg.ttl, dwell, now);
      steps := Took(start, [], Mint(h, id, prefix, difficulty));
      store.StoreChallenge(c);
      steps := Took(start, steps, Store(h));
    }

    /** The puzzle handler running undisturbed from slot h, with a fresh id. */
    method GetPuzzle(h: HandlerId, site: SiteKey, refreshOf: Option<Id>, risk: Risk, id: Id, prefix: seq<PoW.Byte>,
        difficulty: nat, now: int)
      returns (issued: Option<Challenge>, ghost steps: seq<Step>)
      requires Valid() && Indexed(view) && h !in view.handlers && h < cfg.slots && view.now == now && id !in view.index
      modifies this, store
      ensures Valid() && Run(cfg, old(view), steps) == Some(view)
      ensures issued.None? <==> Refused(cfg.maxActive, |old(store.challenges)|, risk)
      ensures issued.None? ==> store.challenges == old(store.challenges)
      ensures issued.Some? ==> store.challenges == old(store.challenges)[id := issued.value]
      ensures issued.Some? ==>
        var c := issued.value;
        && c.id == id && c.site == site && c.createdAt == now && c.expiresAt == now + cfg.ttl && c.attempts == 0
        && c.algorithm == cfg.algorithm && c.prefix == prefix && c.difficulty == difficulty
        && c.dwellSince == if refreshOf.Some? && refreshOf.value in old(store.challenges) &&
                              old(store.challenges)[refreshOf.value].site == site
                           then old(store.challenges)[refreshOf.value].dwellSince else now
      ensures h !in view.handlers
    {
      ghost var start := view;
      var refused, opening := Admit(h, site, refreshOf, risk);
      steps := opening;
      if refused {
        return None, steps;
      }
      var dwell, reading := InheritedDwell(h, site, refreshOf);
      RunJoins(cfg, start, steps, reading);
      steps := steps + reading;
      var c, minting := MintAndStore(h, site, dwell, id, prefix, difficulty, now);
      RunJoins(cfg, start, steps, minting);
      steps := steps + minting;
      issued := Some(c);
    }
  }
}
