/**
  What every interleaving of the challenge protocol keeps: single use, sound
  acceptance and the honest dwell anchor.
 */
module ProtocolSafety {
  import opened Common
  import opened ChallengeStore
  import opened ChallengeProtocol
  import PoW = ProofOfWork

  // ---- The mint log --------------------------------------------------------

  /** One log entry: stamped once, and its dwell anchor is its own or its parent's. */
  ghost predicate EntryOk(cfg: Config, s: State, i: nat)
    requires i < |s.log|
  {
    var e := s.log[i];
    var c := e.challenge;
    && c.id in s.index && s.index[c.id] == i
    && c.attempts == 0 && c.expiresAt == c.createdAt + cfg.ttl && c.createdAt <= s.now
    && (e.parent.None? ==> c.dwellSince == c.createdAt)
    && (e.parent.Some? ==>
          e.parent.value < i &&
          var p := s.log[e.parent.value].challenge;
          p.site == c.site && p.dwellSince == c.dwellSince && p.createdAt <= c.createdAt)
  }

  ghost predicate LogInv(cfg: Config, s: State) {
    && (forall i :: 0 <= i < |s.log| ==> EntryOk(cfg, s, i))
    && (forall id :: id in s.index ==> s.index[id] < |s.log| && s.log[s.index[id]].challenge.id == id)
  }

  /** A copy of a minted challenge: everything but the attempt counter is as stamped. */
  ghost predicate IsCopy(s: State, c: Challenge) {
    c.id in s.index && s.index[c.id] < |s.log| && c == s.log[s.index[c.id]].challenge.(attempts := c.attempts)
  }

  ghost predicate LiveInv(cfg: Config, s: State) {
    && s.challenges.Keys <= s.stored
    && s.stored <= s.index.Keys
    && (forall id :: id in s.challenges ==>
          s.challenges[id].id == id && IsCopy(s, s.challenges[id]) &&
          (if cfg.maxAttempts > 0 then s.challenges[id].attempts < cfg.maxAttempts else s.challenges[id].attempts == 0))
  }

  // ---- What handlers hold --------------------------------------------------

  /** A verify handler's snapshot is a copy of a challenge that was live and belongs to its site. */
  ghost predicate SnapshotOk(s: State, site: SiteKey, c: Challenge) {
    IsCopy(s, c) && c.id in s.stored && c.site == site && s.log[s.index[c.id]].challenge.createdAt <= s.now
  }

  ghost predicate ClearedOk(s: State, site: SiteKey, c: Challenge, verifyAt: int) {
    SnapshotOk(s, site, c) && c.createdAt <= verifyAt <= s.now && verifyAt <= c.expiresAt
  }

  ghost predicate HandlerOk(cfg: Config, s: State, p: Handler) {
    match p
    case Cited(site, dwell, parent) =>
      if parent.None? then dwell.None?
      else parent.value < |s.log| && s.log[parent.value].challenge.site == site &&
           dwell == Some(s.log[parent.value].challenge.dwellSince)
    case Minted(entry) => entry < |s.log| && s.log[entry].challenge.id !in s.stored
    case Holding(site, _, c) => SnapshotOk(s, site, c)
    case Cleared(site, _, c, verifyAt) => ClearedOk(s, site, c, verifyAt)
    case Hashing(site, _, c, verifyAt) => ClearedOk(s, site, c, verifyAt)
    case Consuming(site, nonce, c, verifyAt) => ClearedOk(s, site, c, verifyAt) && Accepts(cfg, c, nonce)
    case Registering(id) => id in s.stored
    case Evicting(id) =>
      id in s.stored && id in s.index && s.index[id] < |s.log| && s.log[s.index[id]].challenge.expiresAt < s.now
    case _ => true
  }

  ghost predicate HandlersInv(cfg: Config, s: State) {
    && (forall h :: h in s.handlers ==> HandlerOk(cfg, s, s.handlers[h]))
    && (forall h, k :: h in s.handlers && k in s.handlers && s.handlers[h].Minted? && s.handlers[h] == s.handlers[k] ==> h == k)
  }

  // ---- History -------------------------------------------------------------

  ghost predicate Distinct(ids: seq<Id>) {
    forall i, j :: 0 <= i < j < |ids| ==> ids[i] != ids[j]
  }

  /** A solve names a challenge of its own site, unexpired when checked, with a nonce meeting the stamped difficulty. */
  ghost predicate SolveOk(cfg: Config, s: State, v: Solve) {
    && v.id in s.index && s.index[v.id] < |s.log|
    && var c := s.log[s.index[v.id]].challenge;
       c.site == v.site && c.createdAt <= v.verifyAt <= s.now && v.verifyAt <= c.expiresAt && Accepts(cfg, c, v.nonce) &&
       v.timeOnPage == TimeOnPageMs(v.verifyAt, c.dwellSince)
  }

  ghost predicate HistoryInv(cfg: Config, s: State) {
    && Distinct(s.consumed)
    && (forall i :: 0 <= i < |s.consumed| ==> s.consumed[i] in s.stored && s.consumed[i] !in s.challenges)
    && |s.solved| == |s.consumed|
    && (forall i :: 0 <= i < |s.solved| ==> s.solved[i].id == s.consumed[i] && SolveOk(cfg, s, s.solved[i]))
  }

  ghost predicate Inv(cfg: Config, s: State) {
    LogInv(cfg, s) && LiveInv(cfg, s) && HandlersInv(cfg, s) && HistoryInv(cfg, s)
  }

  lemma InitialInv(cfg: Config, now: int)
    ensures Inv(cfg, Initial(now))
  {
  }

  // ---- Facts survive growth ------------------------------------------------

  /** Time passes, the log only grows, and stored challenges stay stored. */
  ghost predicate Extends(s: State, s': State) {
    && s.now <= s'.now && s.log <= s'.log && s.stored <= s'.stored
    && (forall id :: id in s.index ==> id in s'.index && s'.index[id] == s.index[id])
  }

  lemma EntryCarries(cfg: Config, s: State, s': State, i: nat)
    requires Extends(s, s') && i < |s.log| && EntryOk(cfg, s, i)
    ensures EntryOk(cfg, s', i)
  {
    assert s'.log[i] == s.log[i];
    if s.log[i].parent.Some? {
      assert s'.log[s.log[i].parent.value] == s.log[s.log[i].parent.value];
    }
  }

  lemma HandlerCarries(cfg: Config, s: State, s': State, p: Handler)
    requires Extends(s, s') && HandlerOk(cfg, s, p)
    requires p.Minted? ==> p.entry < |s.log| && s.log[p.entry].challenge.id !in s'.stored
    ensures HandlerOk(cfg, s', p)
  {
  }

  lemma SolveCarries(cfg: Config, s: State, s': State, v: Solve)
    requires Extends(s, s') && SolveOk(cfg, s, v)
    ensures SolveOk(cfg, s', v)
  {
  }

  lemma SolvesCarry(cfg: Config, s: State, s': State)
    requires Extends(s, s') && HistoryInv(cfg, s)
    ensures forall i :: 0 <= i < |s.solved| ==> SolveOk(cfg, s', s.solved[i])
  {
    forall i | 0 <= i < |s.solved| ensures SolveOk(cfg, s', s.solved[i]) {
      SolveCarries(cfg, s, s', s.solved[i]);
    }
  }

  // ---- One step, by what it touches ----------------------------------------

  lemma ClockKeeps(cfg: Config, s: State, to: int)
    requires Inv(cfg, s) && s.now <= to
    ensures Inv(cfg, s.(now := to))
  {
    var s' := s.(now := to);
    forall i | 0 <= i < |s'.log| ensures EntryOk(cfg, s', i) {
      EntryCarries(cfg, s, s', i);
    }
    forall h | h in s'.handlers ensures HandlerOk(cfg, s', s'.handlers[h]) {
      HandlerCarries(cfg, s, s', s.handlers[h]);
    }
    SolvesCarry(cfg, s, s');
  }

  /** Steps that only rewrite handlers and the overrun counters. */
  lemma HandlersKeep(cfg: Config, s: State, s': State)
    requires Inv(cfg, s) && HandlersInv(cfg, s')
    requires s' == s.(handlers := s'.handlers, hashes := s'.hashes, abandoned := s'.abandoned)
    ensures Inv(cfg, s')
  {
    forall i | 0 <= i < |s'.log| ensures EntryOk(cfg, s', i) {
      EntryCarries(cfg, s, s', i);
    }
    SolvesCarry(cfg, s, s');
  }

  lemma GotoKeeps(cfg: Config, s: State, h: HandlerId, p: Handler, s': State)
    requires Inv(cfg, s) && HandlerOk(cfg, s, p) && !p.Minted?
    requires s' == Goto(s, h, p).(hashes := s'.hashes)
    ensures Inv(cfg, s')
  {
    forall k | k in s'.handlers ensures HandlerOk(cfg, s', s'.handlers[k]) {
      HandlerCarries(cfg, s, s', s'.handlers[k]);
    }
    HandlersKeep(cfg, s, s');
  }

  lemma FinishKeeps(cfg: Config, s: State, h: HandlerId, s': State)
    requires Inv(cfg, s)
    requires s' == Finish(s, h).(abandoned := s'.abandoned)
    ensures Inv(cfg, s')
  {
    forall k | k in s'.handlers ensures HandlerOk(cfg, s', s'.handlers[k]) {
      HandlerCarries(cfg, s, s', s.handlers[k]);
    }
    HandlersKeep(cfg, s, s');
  }

  /** Removing challenges, or raising attempt counters that stay below the cap. */
  lemma ShrinkKeeps(cfg: Config, s: State, m: Active)
    requires Inv(cfg, s) && m.Keys <= s.challenges.Keys
    requires forall id :: id in m ==>
      m[id] == s.challenges[id].(attempts := m[id].attempts) &&
      (if cfg.maxAttempts > 0 then m[id].attempts < cfg.maxAttempts else m[id].attempts == 0)
    ensures Inv(cfg, s.(challenges := m))
  {
    var s' := s.(challenges := m);
    forall i | 0 <= i < |s'.log| ensures EntryOk(cfg, s', i) {
      EntryCarries(cfg, s, s', i);
    }
    forall id | id in m ensures m[id].id == id && IsCopy(s', m[id]) {
      assert IsCopy(s, s.challenges[id]);
    }
    forall h | h in s'.handlers ensures HandlerOk(cfg, s', s'.handlers[h]) {
      HandlerCarries(cfg, s, s', s.handlers[h]);
    }
    SolvesCarry(cfg, s, s');
  }

  lemma AttemptShrinks(cfg: Config, s: State, id: Id)
    requires Inv(cfg, s)
    ensures Inv(cfg, s.(challenges := Attempted(s.challenges, id, cfg.maxAttempts).0))
  {
    ShrinkKeeps(cfg, s, Attempted(s.challenges, id, cfg.maxAttempts).0);
  }

  lemma MintLogs(cfg: Config, s: State, h: HandlerId, c: Challenge, s': State)
    requires Inv(cfg, s) && h in s.handlers && s.handlers[h].Cited? && c.id !in s.index
    requires c == Generate(c.id, s.handlers[h].site, cfg.algorithm, c.prefix, c.difficulty, cfg.ttl, s.handlers[h].dwell, s.now)
    requires s' == s.(handlers := s'.handlers, log := s.log + [Issue(c, s.handlers[h].parent)], index := s.index[c.id := |s.log|])
    ensures Extends(s, s') && LogInv(cfg, s')
  {
    var p, n := s.handlers[h], |s.log|;
    assert HandlerOk(cfg, s, p);
    forall i | 0 <= i < |s'.log| ensures EntryOk(cfg, s', i) {
      if i < n {
        EntryCarries(cfg, s, s', i);
      } else if p.parent.Some? {
        assert EntryOk(cfg, s, p.parent.value);
        assert s'.log[p.parent.value] == s.log[p.parent.value];
      }
    }
  }

  /** The handler that mints is the only one to hold the new entry. */
  lemma MintHandlers(cfg: Config, s: State, h: HandlerId, s': State)
    requires Inv(cfg, s) && h in s.handlers && Extends(s, s') && s'.stored == s.stored
    requires s'.handlers == s.handlers[h := Minted(|s.log|)]
    requires |s'.log| == |s.log| + 1 && s'.log[|s.log|].challenge.id !in s.stored
    ensures HandlersInv(cfg, s')
  {
    forall k | k in s'.handlers ensures HandlerOk(cfg, s', s'.handlers[k]) {
      if k != h {
        HandlerCarries(cfg, s, s', s.handlers[k]);
      }
    }
    forall j, k | j in s'.handlers && k in s'.handlers && s'.handlers[j].Minted? && s'.handlers[j] == s'.handlers[k]
      ensures j == k
    {
      assert j != h ==> HandlerOk(cfg, s, s.handlers[j]);
      assert k != h ==> HandlerOk(cfg, s, s.handlers[k]);
    }
  }

  lemma LiveCarries(cfg: Config, s: State, s': State)
    requires LiveInv(cfg, s) && Extends(s, s') && s'.challenges == s.challenges && s'.stored == s.stored
    ensures LiveInv(cfg, s')
  {
    forall id | id in s'.challenges ensures IsCopy(s', s'.challenges[id]) {
      assert IsCopy(s, s.challenges[id]);
    }
  }

  lemma MintKeeps(cfg: Config, s: State, step: Step)
    requires Inv(cfg, s) && step.Mint? && Enabled(cfg, s, step)
    ensures Inv(cfg, Apply(cfg, s, step))
  {
    var s' := Apply(cfg, s, step);
    MintLogs(cfg, s, step.h, s'.log[|s.log|].challenge, s');
    MintHandlers(cfg, s, step.h, s');
    LiveCarries(cfg, s, s');
    SolvesCarry(cfg, s, s');
  }

  /** A minted challenge nobody else is about to store becomes live. */
  lemma StoreAdds(cfg: Config, s: State, entry: nat, s': State)
    requires Inv(cfg, s) && entry < |s.log|
    requires var c := s.log[entry].challenge;
             && c.id !in s.stored
             && (forall k :: k in s.handlers && s.handlers[k].Minted? ==> s.handlers[k].entry != entry)
             && s' == s.(challenges := s.challenges[c.id := c], stored := s.stored + {c.id})
    ensures Inv(cfg, s')
  {
    var c := s.log[entry].challenge;
    assert EntryOk(cfg, s, entry);
    forall i | 0 <= i < |s'.log| ensures EntryOk(cfg, s', i) {
      EntryCarries(cfg, s, s', i);
    }
    forall id | id in s'.challenges ensures IsCopy(s', s'.challenges[id]) {
      assert id != c.id ==> IsCopy(s, s.challenges[id]);
    }
    StoreHandlers(cfg, s, entry, s');
    SolvesCarry(cfg, s, s');
  }

  /** Storing one minted challenge leaves every other minted one unstored. */
  lemma StoreHandlers(cfg: Config, s: State, entry: nat, s': State)
    requires LogInv(cfg, s) && HandlersInv(cfg, s) && Extends(s, s') && entry < |s.log|
    requires s'.handlers == s.handlers && s'.stored == s.stored + {s.log[entry].challenge.id}
    requires forall k :: k in s.handlers && s.handlers[k].Minted? ==> s.handlers[k].entry != entry
    ensures HandlersInv(cfg, s')
  {
    assert EntryOk(cfg, s, entry);
    forall k | k in s'.handlers ensures HandlerOk(cfg, s', s'.handlers[k]) {
      var q := s.handlers[k];
      assert HandlerOk(cfg, s, q);
      if q.Minted? {
        assert EntryOk(cfg, s, q.entry);
      }
      HandlerCarries(cfg, s, s', q);
    }
  }

  lemma StoreKeeps(cfg: Config, s: State, h: HandlerId)
    requires Inv(cfg, s) && Enabled(cfg, s, Store(h))
    ensures Inv(cfg, Apply(cfg, s, Store(h)))
  {
    assert HandlerOk(cfg, s, s.handlers[h]);
    var t := Finish(s, h);
    FinishKeeps(cfg, s, h, t);
    StoreAdds(cfg, t, s.handlers[h].entry, Apply(cfg, s, Store(h)));
  }

  /** What a handler cleared for its site and hashed to an accepted nonce amounts to. */
  lemma ConsumingSolves(cfg: Config, s: State, t: State, p: Handler)
    requires p.Consuming? && HandlerOk(cfg, s, p)
    requires t == s.(handlers := t.handlers, challenges := t.challenges)
    ensures SolveOk(cfg, t, Solve(p.snapshot.id, p.site, p.nonce, p.verifyAt, TimeOnPageMs(p.verifyAt, p.snapshot.dwellSince)))
  {
  }

  lemma ConsumeKeeps(cfg: Config, s: State, h: HandlerId)
    requires Inv(cfg, s) && Enabled(cfg, s, Consume(h))
    ensures Inv(cfg, Apply(cfg, s, Consume(h)))
  {
    var p := s.handlers[h];
    var id := p.snapshot.id;
    assert HandlerOk(cfg, s, p);
    FinishKeeps(cfg, s, h, Finish(s, h));
    if id in s.challenges {
      var t := Finish(s, h).(challenges := s.challenges - {id});
      ShrinkKeeps(cfg, Finish(s, h), s.challenges - {id});
      ConsumingSolves(cfg, s, t, p);
      var v := Solve(id, p.site, p.nonce, p.verifyAt, TimeOnPageMs(p.verifyAt, p.snapshot.dwellSince));
      AppendSolve(cfg, t, Apply(cfg, s, Consume(h)), id, v);
    }
  }

  lemma AppendSolve(cfg: Config, t: State, s': State, id: Id, v: Solve)
    requires Inv(cfg, t) && v.id == id && id in t.stored && id !in t.challenges && id !in t.consumed && SolveOk(cfg, t, v)
    requires s' == t.(consumed := t.consumed + [id], solved := t.solved + [v])
    ensures Inv(cfg, s')
  {
    forall i | 0 <= i < |s'.log| ensures EntryOk(cfg, s', i) {
      EntryCarries(cfg, t, s', i);
    }
    forall h | h in s'.handlers ensures HandlerOk(cfg, s', s'.handlers[h]) {
      HandlerCarries(cfg, t, s', t.handlers[h]);
    }
    SolvesCarry(cfg, t, s');
    SolveCarries(cfg, t, s', v);
  }

  /** Reading the map hands a handler only copies of live challenges. */
  lemma LiveIsSnapshot(cfg: Config, s: State, id: Id)
    requires Inv(cfg, s) && id in s.challenges
    ensures SnapshotOk(s, s.challenges[id].site, s.challenges[id])
  {
    assert IsCopy(s, s.challenges[id]);
    assert EntryOk(cfg, s, s.index[id]);
  }

  lemma ReadPriorKeeps(cfg: Config, s: State, h: HandlerId)
    requires Inv(cfg, s) && h in s.handlers && s.handlers[h].Admitted?
    ensures Inv(cfg, Goto(s, h, Citing(s, s.handlers[h])))
  {
    var p := s.handlers[h];
    if p.refreshOf.Some? && p.refreshOf.value in s.challenges {
      LiveIsSnapshot(cfg, s, p.refreshOf.value);
    }
    GotoKeeps(cfg, s, h, Citing(s, p), Goto(s, h, Citing(s, p)));
  }

  lemma LookupKeeps(cfg: Config, s: State, step: Step)
    requires Inv(cfg, s) && step.Lookup? && Enabled(cfg, s, step)
    ensures Inv(cfg, Apply(cfg, s, step))
  {
    var p := s.handlers[step.h];
    var s' := Apply(cfg, s, step);
    if p.id in s.challenges && s.challenges[p.id].site == p.site {
      LiveIsSnapshot(cfg, s, p.id);
      GotoKeeps(cfg, s, step.h, s'.handlers[step.h], s');
    } else {
      FinishKeeps(cfg, s, step.h, s');
    }
  }

  lemma CheckExpiryKeeps(cfg: Config, s: State, h: HandlerId)
    requires Inv(cfg, s) && h in s.handlers && s.handlers[h].Holding?
    ensures Inv(cfg, Goto(s, h, Checked(s.handlers[h], s.now)))
  {
    assert HandlerOk(cfg, s, s.handlers[h]);
    var p := Checked(s.handlers[h], s.now);
    GotoKeeps(cfg, s, h, p, Goto(s, h, p));
  }

  lemma StartHashKeeps(cfg: Config, s: State, h: HandlerId)
    requires Inv(cfg, s) && Enabled(cfg, s, StartHash(h))
    ensures Inv(cfg, Apply(cfg, s, StartHash(h)))
  {
    assert HandlerOk(cfg, s, s.handlers[h]);
    var s' := Apply(cfg, s, StartHash(h));
    GotoKeeps(cfg, s, h, s'.handlers[h], s');
  }

  lemma FinishHashKeeps(cfg: Config, s: State, h: HandlerId)
    requires Inv(cfg, s) && h in s.handlers && s.handlers[h].Hashing?
    ensures Inv(cfg, Goto(s, h, Hashed(cfg, s.handlers[h])))
  {
    assert HandlerOk(cfg, s, s.handlers[h]);
    var p := Hashed(cfg, s.handlers[h]);
    GotoKeeps(cfg, s, h, p, Goto(s, h, p));
  }

  ghost predicate IsVerifyStep(step: Step) {
    step.Lookup? || step.CheckExpiry? || step.Evict? || step.StartHash? || step.FinishHash? || step.Register? ||
    step.Consume?
  }

  lemma {:induction false} VerifyStepKeepsInv(cfg: Config, s: State, step: Step)
    requires Enabled(cfg, s, step) && Inv(cfg, s) && IsVerifyStep(step)
    ensures Inv(cfg, Apply(cfg, s, step))
  {
    match step
    case Lookup(_) => LookupKeeps(cfg, s, step);
    case CheckExpiry(h) => CheckExpiryKeeps(cfg, s, h);
    case StartHash(h) => StartHashKeeps(cfg, s, h);
    case FinishHash(h) => FinishHashKeeps(cfg, s, h);
    case Evict(h) =>
      FinishKeeps(cfg, s, h, Finish(s, h));
      ShrinkKeeps(cfg, Finish(s, h), s.challenges - {s.handlers[h].id});
    case Register(h) =>
      FinishKeeps(cfg, s, h, Finish(s, h));
      AttemptShrinks(cfg, Finish(s, h), s.handlers[h].id);
    case Consume(h) => ConsumeKeeps(cfg, s, h);
  }

  lemma {:induction false} OtherStepKeepsInv(cfg: Config, s: State, step: Step)
    requires Enabled(cfg, s, step) && Inv(cfg, s) && !IsVerifyStep(step)
    ensures Inv(cfg, Apply(cfg, s, step))
  {
    match step
    case Tick(to) => ClockKeeps(cfg, s, to);
    case Sweep(stamp) => ShrinkKeeps(cfg, s, Unexpired(s.challenges, stamp));
    case Open(h, request) => GotoKeeps(cfg, s, h, request, Goto(s, h, request));
    case CheckCapacity(h) =>
      var p := Admitted(s.handlers[h].site, s.handlers[h].refreshOf);
      GotoKeeps(cfg, s, h, p, Goto(s, h, p));
    case Shed(h) => FinishKeeps(cfg, s, h, Finish(s, h));
    case ReadPrior(h) => ReadPriorKeeps(cfg, s, h);
    case Mint(_, _, _, _) => MintKeeps(cfg, s, step);
    case Store(h) => StoreKeeps(cfg, s, h);
    case Cancel(h) => FinishKeeps(cfg, s, h, Apply(cfg, s, step));
  }

  lemma {:induction false} StepKeepsInv(cfg: Config, s: State, step: Step)
    requires Enabled(cfg, s, step) && Inv(cfg, s)
    ensures Inv(cfg, Apply(cfg, s, step))
  {
    if IsVerifyStep(step) {
      VerifyStepKeepsInv(cfg, s, step);
    } else {
      OtherStepKeepsInv(cfg, s, step);
    }
  }

  lemma {:induction false} RunPreservesInv(cfg: Config, s: State, steps: seq<Step>)
    requires Inv(cfg, s) && Possible(cfg, s, steps)
    ensures Inv(cfg, Run(cfg, s, steps).value)
    decreases |steps|
  {
    if steps != [] {
      RunPreservesInv(cfg, s, steps[..|steps| - 1]);
      StepKeepsInv(cfg, Run(cfg, s, steps[..|steps| - 1]).value, steps[|steps| - 1]);
    }
  }

  lemma RunKeepsInv(cfg: Config, now: int, steps: seq<Step>)
    requires Possible(cfg, Initial(now), steps)
    ensures Inv(cfg, Run(cfg, Initial(now), steps).value)
  {
    InitialInv(cfg, now);
    RunPreservesInv(cfg, Initial(now), steps);
  }

  // ---- The theorems --------------------------------------------------------

  /**
    Over every interleaving, no challenge id is ever consumed twice, a consumed
    challenge never comes back, and the solved-path successes are exactly the
    consumptions, in order.
   */
  lemma {:induction false} ConsumedAtMostOnce(cfg: Config, now: int, steps: seq<Step>)
    requires Possible(cfg, Initial(now), steps)
    ensures var s := Run(cfg, Initial(now), steps).value;
            && (forall i, j :: 0 <= i < j < |s.consumed| ==> s.consumed[i] != s.consumed[j])
            && (forall i :: 0 <= i < |s.consumed| ==> s.consumed[i] !in s.challenges)
            && |s.solved| == |s.consumed|
            && (forall i :: 0 <= i < |s.solved| ==> s.solved[i].id == s.consumed[i])
  {
    RunKeepsInv(cfg, now, steps);
  }

  /**
    Every success was earned: the challenge was minted for the authenticated
    site, had not expired at the moment the handler checked, and the nonce's
    digest, read as a 256-bit number, is below the target stamped at issuance.
   */
  lemma SuccessIsEarned(cfg: Config, now: int, steps: seq<Step>, i: nat)
    requires Possible(cfg, Initial(now), steps) && i < |Run(cfg, Initial(now), steps).value.solved|
    ensures var s := Run(cfg, Initial(now), steps).value;
            var v := s.solved[i];
            && v.id in s.index && s.index[v.id] < |s.log|
            && var c := s.log[s.index[v.id]].challenge;
               && c.id == v.id && c.site == v.site
               && c.createdAt <= v.verifyAt <= c.expiresAt && v.verifyAt <= s.now
               && var d := PoW.Digest(cfg.hashes, c.algorithm, c.prefix, PoW.LittleEndian(v.nonce, 8));
                  d.Some? && c.difficulty <= 256 && PoW.Value(d.value) < PoW.Pow2(256 - c.difficulty)
  {
    RunKeepsInv(cfg, now, steps);
    var s := Run(cfg, Initial(now), steps).value;
    assert SolveOk(cfg, s, s.solved[i]);
  }

  /** A nonzero attempt cap is never reached by a challenge that is still live; with no cap nothing is counted. */
  lemma LiveBelowAttemptCap(cfg: Config, now: int, steps: seq<Step>, id: Id)
    requires Possible(cfg, Initial(now), steps) && id in Run(cfg, Initial(now), steps).value.challenges
    ensures var c := Run(cfg, Initial(now), steps).value.challenges[id];
            if cfg.maxAttempts > 0 then c.attempts < cfg.maxAttempts else c.attempts == 0
  {
    RunKeepsInv(cfg, now, steps);
  }

  // ---- Earned dwell --------------------------------------------------------

  /** Follow inherited anchors back to the visitor's first challenge. */
  ghost function Root(log: seq<Issue>, i: nat): (r: nat)
    requires i < |log|
    ensures r <= i
  {
    var p := log[i].parent;
    if p.Some? && p.value < i then Root(log, p.value) else i
  }

  /** Every link of the chain from entry i back to its root stays on one site and goes back in time. */
  ghost predicate ChainOk(log: seq<Issue>, i: nat)
    requires i < |log|
  {
    var p := log[i].parent;
    p.Some? ==>
      p.value < i && log[p.value].challenge.site == log[i].challenge.site &&
      log[p.value].challenge.createdAt <= log[i].challenge.createdAt && ChainOk(log, p.value)
  }

  lemma {:induction false} DwellIsRootCreation(cfg: Config, s: State, i: nat)
    requires LogInv(cfg, s) && i < |s.log|
    ensures ChainOk(s.log, i) && Root(s.log, i) <= i
    ensures var root := s.log[Root(s.log, i)];
            && root.parent.None?
            && s.log[i].challenge.dwellSince == root.challenge.createdAt
            && s.log[i].challenge.site == root.challenge.site
            && root.challenge.createdAt <= s.log[i].challenge.createdAt
  {
    assert EntryOk(cfg, s, i);
    if s.log[i].parent.Some? {
      DwellIsRootCreation(cfg, s, s.log[i].parent.value);
    }
  }

  /**
    In every reachable state a live challenge's dwell anchor is the creation time
    of the root of its same-site chain, so it is neither later nor earlier than
    the visitor's real first arrival.
   */
  lemma EarnedDwell(cfg: Config, now: int, steps: seq<Step>, id: Id)
    requires Possible(cfg, Initial(now), steps) && id in Run(cfg, Initial(now), steps).value.challenges
    ensures var s := Run(cfg, Initial(now), steps).value;
            && id in s.index && s.index[id] < |s.log| && ChainOk(s.log, s.index[id])
            && var root := s.log[Root(s.log, s.index[id])].challenge;
               s.challenges[id].dwellSince == root.createdAt && s.challenges[id].site == root.site && root.createdAt <= s.now
  {
    RunKeepsInv(cfg, now, steps);
    var s := Run(cfg, Initial(now), steps).value;
    assert IsCopy(s, s.challenges[id]);
    DwellIsRootCreation(cfg, s, s.index[id]);
    assert EntryOk(cfg, s, Root(s.log, s.index[id]));
  }

  /**
    The time on page a success was scored with is the time since that root in
    whole milliseconds: never more, short by less than one, and never clamped.
   */
  lemma SolvedDwellIsElapsed(cfg: Config, now: int, steps: seq<Step>, i: nat)
    requires Possible(cfg, Initial(now), steps) && i < |Run(cfg, Initial(now), steps).value.solved|
    ensures var s := Run(cfg, Initial(now), steps).value;
            var v := s.solved[i];
            && v.id in s.index && s.index[v.id] < |s.log|
            && var root := s.log[Root(s.log, s.index[v.id])].challenge;
               && 0 <= v.timeOnPage * MILLISECOND <= v.verifyAt - root.createdAt < (v.timeOnPage + 1) * MILLISECOND
               && v.verifyAt <= s.now
  {
    RunKeepsInv(cfg, now, steps);
    var s := Run(cfg, Initial(now), steps).value;
    assert SolveOk(cfg, s, s.solved[i]);
    DwellIsRootCreation(cfg, s, s.index[s.solved[i].id]);
  }

  // ---- What a step leaves alone --------------------------------------------

  ghost predicate HasPassed(p: Handler) {
    p.Admitted? || p.Cited? || p.Minted?
  }

  /** Which step may do what: open, cite, pass the capacity check, store, abandon a hash. */
  ghost predicate Frame(s: State, step: Step, s': State, h: HandlerId, id: Id) {
    && (h in s'.handlers && !step.Open? ==> h in s.handlers)
    && (h in s'.handlers && s'.handlers[h].Cited? && step != ReadPrior(h) ==> h in s.handlers && s.handlers[h] == s'.handlers[h])
    && (h in s'.handlers && HasPassed(s'.handlers[h]) && !step.CheckCapacity? ==> h in s.handlers && HasPassed(s.handlers[h]))
    && (id in s'.challenges && !step.Store? ==> id in s.challenges)
    && (!step.Cancel? ==> s'.abandoned == s.abandoned)
  }

  lemma LookingFrame(cfg: Config, s: State, step: Step, h: HandlerId, id: Id)
    requires Enabled(cfg, s, step) && (step.Lookup? || step.CheckExpiry?)
    ensures Frame(s, step, Apply(cfg, s, step), h, id)
  {
    match step
    case Lookup(_) =>
    case CheckExpiry(_) =>
  }

  lemma HashingFrame(cfg: Config, s: State, step: Step, h: HandlerId, id: Id)
    requires Enabled(cfg, s, step) && (step.StartHash? || step.FinishHash?)
    ensures Frame(s, step, Apply(cfg, s, step), h, id)
  {
    match step
    case StartHash(_) =>
    case FinishHash(_) =>
  }

  lemma EvictFrame(cfg: Config, s: State, step: Step, h: HandlerId, id: Id)
    requires Enabled(cfg, s, step) && step.Evict?
    ensures Frame(s, step, Apply(cfg, s, step), h, id)
  {
  }

  lemma RegisterFrame(cfg: Config, s: State, step: Step, h: HandlerId, id: Id)
    requires Enabled(cfg, s, step) && step.Register?
    ensures Frame(s, step, Apply(cfg, s, step), h, id)
  {
  }

  lemma ConsumeFrame(cfg: Config, s: State, step: Step, h: HandlerId, id: Id)
    requires Enabled(cfg, s, step) && step.Consume?
    ensures Frame(s, step, Apply(cfg, s, step), h, id)
  {
  }

  lemma OtherFrame(cfg: Config, s: State, step: Step, h: HandlerId, id: Id)
    requires Enabled(cfg, s, step) && !IsVerifyStep(step)
    ensures Frame(s, step, Apply(cfg, s, step), h, id)
  {
    match step
    case Tick(_) =>
    case Sweep(_) =>
    case Open(_, _) =>
    case CheckCapacity(_) =>
    case Shed(_) =>
    case ReadPrior(_) =>
    case Mint(_, _, _, _) =>
    case Store(_) =>
    case Cancel(_) =>
  }

  lemma StepFrame(cfg: Config, s: State, step: Step, h: HandlerId, id: Id)
    requires Enabled(cfg, s, step)
    ensures Frame(s, step, Apply(cfg, s, step), h, id)
  {
    if step.Evict? {
      EvictFrame(cfg, s, step, h, id);
    } else if step.Register? {
      RegisterFrame(cfg, s, step, h, id);
    } else if step.Consume? {
      ConsumeFrame(cfg, s, step, h, id);
    } else if step.Lookup? || step.CheckExpiry? {
      LookingFrame(cfg, s, step, h, id);
    } else if step.StartHash? || step.FinishHash? {
      HashingFrame(cfg, s, step, h, id);
    } else {
      OtherFrame(cfg, s, step, h, id);
    }
  }

  // ---- Citations are proofs of possession ----------------------------------

  /** The state after the first n steps of a run. */
  ghost function At(cfg: Config, start: State, steps: seq<Step>, n: nat): State
    requires Possible(cfg, start, steps) && n <= |steps|
    ensures Run(cfg, start, steps[..n]) == Some(At(cfg, start, steps, n))
  {
    PrefixPossible(cfg, start, steps, n);
    Run(cfg, start, steps[..n]).value
  }

  lemma {:induction false} PrefixPossible(cfg: Config, start: State, steps: seq<Step>, n: nat)
    requires Possible(cfg, start, steps) && n <= |steps|
    ensures Possible(cfg, start, steps[..n])
    decreases |steps|
  {
    if n == |steps| {
      assert steps[..n] == steps;
    } else {
      PrefixPossible(cfg, start, steps[..|steps| - 1], n);
      assert steps[..|steps| - 1][..n] == steps[..n];
    }
  }

  lemma AtStep(cfg: Config, start: State, steps: seq<Step>, n: nat)
    requires Possible(cfg, start, steps) && n < |steps|
    ensures var s := At(cfg, start, steps, n);
            Enabled(cfg, s, steps[n]) && At(cfg, start, steps, n + 1) == Apply(cfg, s, steps[n])
  {
    PrefixPossible(cfg, start, steps, n + 1);
    assert steps[..n + 1][..n] == steps[..n];
  }

  /** The cited id is live, and belongs to the site that cites it. */
  ghost predicate InPossession(s: State, site: SiteKey, refreshOf: Option<Id>) {
    refreshOf.Some? && refreshOf.value in s.challenges && s.challenges[refreshOf.value].site == site
  }

  /**
    What handler h carries away from reading the prior challenge in state s: the
    anchor of a challenge that is live just then, or nothing at all.
   */
  ghost predicate Citation(s: State, h: HandlerId, p: Handler) {
    && h in s.handlers && s.handlers[h].Admitted? && p.Cited? && p.site == s.handlers[h].site
    && var prior := s.handlers[h].refreshOf;
       if InPossession(s, p.site, prior)
       then prior.value in s.index && p.parent == Some(s.index[prior.value]) &&
            p.dwell == Some(s.challenges[prior.value].dwellSince)
       else p.parent == None && p.dwell == None
  }

  /** From its reading at step n until `upto`, handler h holds the citation p. */
  ghost predicate Holds(cfg: Config, start: State, steps: seq<Step>, n: nat, upto: nat, h: HandlerId, p: Handler)
    requires Possible(cfg, start, steps)
  {
    && n < upto <= |steps| && steps[n] == ReadPrior(h) && Citation(At(cfg, start, steps, n), h, p)
    && forall k: nat :: n < k <= upto ==>
         h in At(cfg, start, steps, k).handlers && At(cfg, start, steps, k).handlers[h] == p
  }

  /**
    Where entry i of the log comes from: handler h read its prior challenge at
    step n, held what it read, and minted the entry with it at step m.
   */
  ghost predicate MintedFrom(cfg: Config, start: State, steps: seq<Step>, i: nat, e: Issue, n: nat, m: nat,
                             h: HandlerId, p: Handler)
    requires Possible(cfg, start, steps)
  {
    && m < |steps| && steps[m].Mint? && steps[m].h == h && Holds(cfg, start, steps, n, m, h, p)
    && |At(cfg, start, steps, m).log| == i
    && e.parent == p.parent && e.challenge.site == p.site
    && e.challenge.createdAt == At(cfg, start, steps, m).now
    && e.challenge.dwellSince == p.dwell.GetOr(e.challenge.createdAt)
  }

  ghost predicate HasOrigin(cfg: Config, start: State, steps: seq<Step>, i: nat, e: Issue, before: nat)
    requires Possible(cfg, start, steps)
  {
    exists n: nat, m: nat, h: HandlerId, p: Handler :: m < before && MintedFrom(cfg, start, steps, i, e, n, m, h, p)
  }

  ghost predicate HasCitation(cfg: Config, start: State, steps: seq<Step>, upto: nat, h: HandlerId, p: Handler)
    requires Possible(cfg, start, steps)
  {
    exists n: nat :: Holds(cfg, start, steps, n, upto, h, p)
  }

  ghost predicate OriginsKnown(cfg: Config, start: State, steps: seq<Step>, upto: nat)
    requires Possible(cfg, start, steps) && upto <= |steps|
  {
    var s := At(cfg, start, steps, upto);
    && (forall i :: 0 <= i < |s.log| ==> HasOrigin(cfg, start, steps, i, s.log[i], upto))
    && (forall h :: h in s.handlers && s.handlers[h].Cited? ==>
          HasCitation(cfg, start, steps, upto, h, s.handlers[h]))
  }

  /** Reading cites exactly a live challenge of the handler's own site. */
  lemma ReadingCites(cfg: Config, s: State, h: HandlerId)
    requires Inv(cfg, s) && Enabled(cfg, s, ReadPrior(h))
    ensures var s' := Apply(cfg, s, ReadPrior(h)); h in s'.handlers && Citation(s, h, s'.handlers[h])
  {
    var prior := s.handlers[h].refreshOf;
    if InPossession(s, s.handlers[h].site, prior) {
      assert IsCopy(s, s.challenges[prior.value]);
    }
  }

  /** A citation just read. */
  lemma CitationRead(cfg: Config, start: State, steps: seq<Step>, n: nat, h: HandlerId)
    requires Possible(cfg, start, steps) && n < |steps| && Inv(cfg, At(cfg, start, steps, n))
    requires steps[n] == ReadPrior(h)
    ensures var s' := At(cfg, start, steps, n + 1);
            h in s'.handlers && Holds(cfg, start, steps, n, n + 1, h, s'.handlers[h])
  {
    AtStep(cfg, start, steps, n);
    ReadingCites(cfg, At(cfg, start, steps, n), h);
  }

  /** A citation held one step longer. */
  lemma CitationHeld(cfg: Config, start: State, steps: seq<Step>, k: nat, n: nat, h: HandlerId, p: Handler)
    requires Possible(cfg, start, steps) && n < |steps| && Holds(cfg, start, steps, k, n, h, p)
    requires h in At(cfg, start, steps, n + 1).handlers && At(cfg, start, steps, n + 1).handlers[h] == p
    ensures Holds(cfg, start, steps, k, n + 1, h, p)
  {
  }

  /** A citation after a step was held before it, or has just been read. */
  lemma CitationKnown(cfg: Config, start: State, steps: seq<Step>, n: nat, h: HandlerId)
    requires Possible(cfg, start, steps) && n < |steps| && OriginsKnown(cfg, start, steps, n)
    requires Inv(cfg, At(cfg, start, steps, n))
    requires h in At(cfg, start, steps, n + 1).handlers && At(cfg, start, steps, n + 1).handlers[h].Cited?
    ensures HasCitation(cfg, start, steps, n + 1, h, At(cfg, start, steps, n + 1).handlers[h])
  {
    if steps[n] == ReadPrior(h) {
      CitationRead(cfg, start, steps, n, h);
    } else {
      var s := At(cfg, start, steps, n);
      AtStep(cfg, start, steps, n);
      StepFrame(cfg, s, steps[n], h, 0);
      var k: nat :| Holds(cfg, start, steps, k, n, h, s.handlers[h]);
      CitationHeld(cfg, start, steps, k, n, h, s.handlers[h]);
    }
  }

  /** An entry after a step was there before it, or has just been minted by a handler with a citation. */
  lemma OriginKnown(cfg: Config, start: State, steps: seq<Step>, n: nat, i: nat)
    requires Possible(cfg, start, steps) && n < |steps| && OriginsKnown(cfg, start, steps, n)
    requires i < |At(cfg, start, steps, n + 1).log|
    ensures HasOrigin(cfg, start, steps, i, At(cfg, start, steps, n + 1).log[i], n + 1)
  {
    var s, s' := At(cfg, start, steps, n), At(cfg, start, steps, n + 1);
    AtStep(cfg, start, steps, n);
    EntrySource(cfg, s, steps[n], i);
    if i < |s.log| {
      var k: nat, m: nat, h: HandlerId, p: Handler :| m < n && MintedFrom(cfg, start, steps, i, s.log[i], k, m, h, p);
      assert MintedFrom(cfg, start, steps, i, s'.log[i], k, m, h, p);
    } else {
      var h := steps[n].h;
      var k: nat :| Holds(cfg, start, steps, k, n, h, s.handlers[h]);
      assert MintedFrom(cfg, start, steps, i, s'.log[i], k, n, h, s.handlers[h]);
    }
  }

  /** What the log gains in a step. */
  lemma EntrySource(cfg: Config, s: State, step: Step, i: nat)
    requires Enabled(cfg, s, step) && i < |Apply(cfg, s, step).log|
    ensures var e := Apply(cfg, s, step).log[i];
            if i < |s.log| then e == s.log[i]
            else
              step.Mint? && i == |s.log| && s.handlers[step.h].Cited? &&
              var p := s.handlers[step.h];
              e.parent == p.parent && e.challenge.site == p.site && e.challenge.createdAt == s.now &&
              e.challenge.dwellSince == p.dwell.GetOr(s.now)
  {
  }

  lemma {:induction false} OriginsStayKnown(cfg: Config, now: int, steps: seq<Step>, n: nat)
    requires Possible(cfg, Initial(now), steps) && n <= |steps|
    ensures OriginsKnown(cfg, Initial(now), steps, n)
  {
    var start := Initial(now);
    if n > 0 {
      OriginsStayKnown(cfg, now, steps, n - 1);
      PrefixPossible(cfg, start, steps, n - 1);
      RunKeepsInv(cfg, now, steps[..n - 1]);
      var s := At(cfg, start, steps, n);
      forall i | 0 <= i < |s.log| ensures HasOrigin(cfg, start, steps, i, s.log[i], n) {
        OriginKnown(cfg, start, steps, n - 1, i);
      }
      forall h | h in s.handlers && s.handlers[h].Cited? ensures HasCitation(cfg, start, steps, n, h, s.handlers[h]) {
        CitationKnown(cfg, start, steps, n - 1, h);
      }
    }
  }

  /**
    Inheritance takes possession. Every challenge ever minted was minted by a
    handler that had read its citation at some earlier step n and held it since.
    If the cited id was then in the map, on that handler's own site, the
    challenge has that entry for parent and inherits exactly its anchor; if it
    was not, however live it had been before, the challenge has no parent and is
    anchored to its own creation.
   */
  lemma InheritanceNeedsPossession(cfg: Config, now: int, steps: seq<Step>, i: nat)
    returns (n: nat, m: nat, h: HandlerId, p: Handler)
    requires Possible(cfg, Initial(now), steps) && i < |Run(cfg, Initial(now), steps).value.log|
    ensures var start := Initial(now);
            var e := Run(cfg, start, steps).value.log[i];
            && MintedFrom(cfg, start, steps, i, e, n, m, h, p)
            && var read := At(cfg, start, steps, n);
               var prior := read.handlers[h].refreshOf;
               if InPossession(read, e.challenge.site, prior)
               then e.parent.Some? && e.parent.value < |read.log| &&
                    read.log[e.parent.value].challenge.id == prior.value &&
                    e.challenge.dwellSince == read.challenges[prior.value].dwellSince
               else e.parent == None && e.challenge.dwellSince == e.challenge.createdAt
  {
    var start := Initial(now);
    OriginsStayKnown(cfg, now, steps, |steps|);
    assert steps[..|steps|] == steps;
    var e := Run(cfg, start, steps).value.log[i];
    assert At(cfg, start, steps, |steps|).log[i] == e;
    n, m, h, p :| m < |steps| && MintedFrom(cfg, start, steps, i, e, n, m, h, p);
    PrefixPossible(cfg, start, steps, n);
    RunKeepsInv(cfg, now, steps[..n]);
  }
}
