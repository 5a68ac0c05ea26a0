/**
  How far the concurrent protocol can overrun its limits: hashes run for one
  challenge, and live challenges, when checks and updates are separate steps.
 */
module ProtocolOverrun {
  import opened Common
  import opened ChallengeStore
  import opened ChallengeProtocol
  import opened ProtocolSafety

  // ---- Counting handlers ---------------------------------------------------

  /**
    What a handler is counted for: holding a snapshot it has not hashed yet, a
    hash it has not reported, or a capacity check it has passed without storing.
   */
  datatype Role = Waiting | Unreported | Passed

  ghost predicate Plays(role: Role, p: Handler, id: Id) {
    match role
    case Waiting => BeforeHash(p) == Some(id)
    case Unreported => InHash(p) == Some(id)
    case Passed => HasPassed(p)
  }

  ghost function One(role: Role, m: map<HandlerId, Handler>, id: Id, h: HandlerId): nat {
    if h in m && Plays(role, m[h], id) then 1 else 0
  }

  /** How many of the first n slots play this role for this challenge. */
  ghost function Size(role: Role, m: map<HandlerId, Handler>, id: Id, n: nat): nat {
    if n == 0 then 0 else Size(role, m, id, n - 1) + One(role, m, id, n - 1)
  }

  lemma {:induction false} NobodyYet(role: Role, id: Id, n: nat)
    ensures Size(role, map[], id, n) == 0
  {
    if n > 0 {
      NobodyYet(role, id, n - 1);
    }
  }

  /** Changing one slot changes a count by what that slot contributes. */
  lemma {:induction false} SizeChanged(role: Role, m: map<HandlerId, Handler>, m': map<HandlerId, Handler>, id: Id,
                                       h: HandlerId, n: nat)
    requires forall k :: k != h ==> (k in m <==> k in m') && (k in m ==> m[k] == m'[k])
    ensures h < n ==> Size(role, m', id, n) + One(role, m, id, h) == Size(role, m, id, n) + One(role, m', id, h)
    ensures h >= n ==> Size(role, m', id, n) == Size(role, m, id, n)
  {
    if n > 0 {
      SizeChanged(role, m, m', id, h, n - 1);
    }
  }

  /** No handler both waits and has hashed, so the two counts share the slots. */
  lemma {:induction false} InFlight(m: map<HandlerId, Handler>, id: Id, n: nat)
    ensures Size(Waiting, m, id, n) + Size(Unreported, m, id, n) <= n
  {
    if n > 0 {
      InFlight(m, id, n - 1);
    }
  }

  /** A role some slot does not play leaves room for it. */
  lemma {:induction false} SizeBelow(role: Role, m: map<HandlerId, Handler>, id: Id, h: HandlerId, n: nat)
    ensures Size(role, m, id, n) + (if h < n && One(role, m, id, h) == 0 then 1 else 0) <= n
  {
    if n > 0 {
      SizeBelow(role, m, id, h, n - 1);
    }
  }

  // ---- Hashes per challenge ------------------------------------------------

  ghost function Attempts(s: State, id: Id): nat {
    if id in s.challenges then s.challenges[id].attempts else 0
  }

  /**
    The account of one challenge: while it is live every hash is an attempt, is
    still unreported, or was abandoned; once gone, only handlers that already
    hold a snapshot can add to it.
   */
  ghost predicate Account(cfg: Config, s: State, id: Id) {
    var ran, lost := Count(s.hashes, id), Count(s.abandoned, id);
    if id in s.challenges then ran <= Attempts(s, id) + Size(Unreported, s.handlers, id, cfg.slots) + lost
    else if id in s.stored then ran + Size(Waiting, s.handlers, id, cfg.slots) <= cfg.maxAttempts - 1 + cfg.slots + lost
    else ran == 0
  }

  ghost predicate OverrunInv(cfg: Config, s: State) {
    (forall h :: h in s.handlers ==> h < cfg.slots) && forall id :: Account(cfg, s, id)
  }

  /** What the safety invariant contributes: a live challenge was stored and is below the cap. */
  ghost predicate Fits(cfg: Config, s: State, id: Id) {
    id in s.challenges ==> id in s.stored && s.challenges[id].attempts < cfg.maxAttempts
  }

  /** In every case the account bounds hashes run plus hashes still to come. */
  lemma AccountBounds(cfg: Config, s: State, id: Id)
    requires cfg.maxAttempts > 0 && Fits(cfg, s, id) && Account(cfg, s, id)
    ensures Count(s.hashes, id) <= cfg.maxAttempts - 1 + cfg.slots + Count(s.abandoned, id)
    ensures id in s.stored ==>
      Count(s.hashes, id) + Size(Waiting, s.handlers, id, cfg.slots) <= cfg.maxAttempts - 1 + cfg.slots + Count(s.abandoned, id)
  {
    InFlight(s.handlers, id, cfg.slots);
  }

  /** Only slot h differs. */
  ghost predicate OnlyAt(s: State, h: HandlerId, s': State) {
    forall k :: k != h ==> (k in s.handlers <==> k in s'.handlers) && (k in s.handlers ==> s.handlers[k] == s'.handlers[k])
  }

  /**
    A slot changes and the map stays as it is. A hash that starts is counted as
    it becomes unreported, and only for a challenge the handler already held.
   */
  lemma AccountMoved(cfg: Config, s: State, h: HandlerId, s': State, id: Id)
    requires Account(cfg, s, id) && h < cfg.slots && OnlyAt(s, h, s')
    requires s'.challenges == s.challenges && s'.stored == s.stored && s'.abandoned == s.abandoned
    requires Count(s'.hashes, id) + One(Unreported, s.handlers, id, h) == Count(s.hashes, id) + One(Unreported, s'.handlers, id, h)
    requires id in s.challenges ||
             One(Unreported, s'.handlers, id, h) + One(Waiting, s'.handlers, id, h) <=
             One(Unreported, s.handlers, id, h) + One(Waiting, s.handlers, id, h)
    requires id in s.stored || Count(s'.hashes, id) == Count(s.hashes, id)
    ensures Account(cfg, s', id)
  {
    SizeChanged(Waiting, s.handlers, s'.handlers, id, h, cfg.slots);
    SizeChanged(Unreported, s.handlers, s'.handlers, id, h, cfg.slots);
  }

  /**
    A handler leaves. If the challenge stays live, any hash the handler had run
    for it has become an attempt or is abandoned; if it goes, its account is
    settled by the handlers in flight at that moment.
   */
  lemma AccountLeft(cfg: Config, s: State, h: HandlerId, s': State, id: Id)
    requires cfg.maxAttempts > 0 && Fits(cfg, s, id) && Account(cfg, s, id)
    requires h < cfg.slots && h !in s'.handlers && OnlyAt(s, h, s')
    requires s'.stored == s.stored && s'.hashes == s.hashes && Count(s.abandoned, id) <= Count(s'.abandoned, id)
    requires id in s'.challenges ==>
      id in s.challenges &&
      Attempts(s, id) + Count(s.abandoned, id) + One(Unreported, s.handlers, id, h) <= Attempts(s', id) + Count(s'.abandoned, id)
    ensures Account(cfg, s', id)
  {
    SizeChanged(Waiting, s.handlers, s'.handlers, id, h, cfg.slots);
    SizeChanged(Unreported, s.handlers, s'.handlers, id, h, cfg.slots);
    AccountBounds(cfg, s, id);
  }

  lemma AccountStored(cfg: Config, s: State, h: HandlerId, stored: Id, s': State, id: Id)
    requires Account(cfg, s, id) && h < cfg.slots && h !in s'.handlers && OnlyAt(s, h, s')
    requires One(Unreported, s.handlers, id, h) == 0 && One(Waiting, s.handlers, id, h) == 0
    requires stored !in s.stored && s.challenges.Keys <= s.stored && s'.stored == s.stored + {stored}
    requires stored in s'.challenges && s'.challenges == s.challenges[stored := s'.challenges[stored]]
    requires s'.hashes == s.hashes && s'.abandoned == s.abandoned
    ensures Account(cfg, s', id)
  {
    SizeChanged(Waiting, s.handlers, s'.handlers, id, h, cfg.slots);
    SizeChanged(Unreported, s.handlers, s'.handlers, id, h, cfg.slots);
  }

  /** A sweep takes challenges away and touches no handler. */
  lemma AccountSwept(cfg: Config, s: State, s': State, id: Id)
    requires cfg.maxAttempts > 0 && Fits(cfg, s, id) && Account(cfg, s, id)
    requires s' == s.(challenges := s'.challenges)
    requires id in s'.challenges ==> id in s.challenges && s'.challenges[id] == s.challenges[id]
    ensures Account(cfg, s', id)
  {
    AccountBounds(cfg, s, id);
  }

  /** What every account lemma below is given about the state. */
  ghost predicate Accountable(cfg: Config, s: State, id: Id) {
    cfg.maxAttempts > 0 && Fits(cfg, s, id) && Account(cfg, s, id) && forall h :: h in s.handlers ==> h < cfg.slots
  }

  lemma AccountLookup(cfg: Config, s: State, h: HandlerId, id: Id)
    requires Accountable(cfg, s, id) && Enabled(cfg, s, Lookup(h))
    requires s.handlers[h].id in s.challenges ==> s.challenges[s.handlers[h].id].id == s.handlers[h].id
    ensures Account(cfg, Apply(cfg, s, Lookup(h)), id)
  {
    AccountMoved(cfg, s, h, Apply(cfg, s, Lookup(h)), id);
  }

  /** A handler that moves on without starting a hash or picking up a challenge it did not hold. */
  lemma AccountRelabeled(cfg: Config, s: State, h: HandlerId, p: Handler, s': State, id: Id)
    requires Accountable(cfg, s, id) && h < cfg.slots && OnlyAt(s, h, s') && h in s'.handlers && s'.handlers[h] == p
    requires s'.challenges == s.challenges && s'.stored == s.stored && s'.hashes == s.hashes && s'.abandoned == s.abandoned
    requires h in s.handlers ==> InHash(p) == InHash(s.handlers[h])
    requires h in s.handlers ==> BeforeHash(p).None? || BeforeHash(p) == BeforeHash(s.handlers[h])
    requires h !in s.handlers ==> InHash(p).None? && BeforeHash(p).None?
    ensures Account(cfg, s', id)
  {
    AccountMoved(cfg, s, h, s', id);
  }

  lemma AccountCheckExpiry(cfg: Config, s: State, h: HandlerId, id: Id)
    requires Accountable(cfg, s, id) && h in s.handlers && s.handlers[h].Holding?
    ensures Account(cfg, Goto(s, h, Checked(s.handlers[h], s.now)), id)
  {
    var p := Checked(s.handlers[h], s.now);
    AccountRelabeled(cfg, s, h, p, Goto(s, h, p), id);
  }

  lemma AccountStartHash(cfg: Config, s: State, h: HandlerId, id: Id)
    requires Accountable(cfg, s, id) && Enabled(cfg, s, StartHash(h)) && s.handlers[h].snapshot.id in s.stored
    ensures Account(cfg, Apply(cfg, s, StartHash(h)), id)
  {
    AccountMoved(cfg, s, h, Apply(cfg, s, StartHash(h)), id);
  }

  lemma HashedKeepsId(cfg: Config, p: Handler)
    requires p.Hashing?
    ensures InHash(Hashed(cfg, p)) == InHash(p) && BeforeHash(Hashed(cfg, p)).None?
  {
  }

  lemma AccountFinishHash(cfg: Config, s: State, h: HandlerId, p: Handler, id: Id)
    requires Accountable(cfg, s, id) && h in s.handlers && InHash(p) == InHash(s.handlers[h]) && BeforeHash(p).None?
    ensures Account(cfg, Goto(s, h, p), id)
  {
    AccountRelabeled(cfg, s, h, p, Goto(s, h, p), id);
  }

  lemma AccountEvict(cfg: Config, s: State, h: HandlerId, id: Id)
    requires Accountable(cfg, s, id) && Enabled(cfg, s, Evict(h))
    ensures Account(cfg, Apply(cfg, s, Evict(h)), id)
  {
    AccountLeft(cfg, s, h, Apply(cfg, s, Evict(h)), id);
  }

  lemma AccountRegister(cfg: Config, s: State, h: HandlerId, id: Id)
    requires Accountable(cfg, s, id) && Enabled(cfg, s, Register(h))
    ensures Account(cfg, Apply(cfg, s, Register(h)), id)
  {
    AccountLeft(cfg, s, h, Apply(cfg, s, Register(h)), id);
  }

  lemma AccountConsume(cfg: Config, s: State, h: HandlerId, id: Id)
    requires Accountable(cfg, s, id) && Enabled(cfg, s, Consume(h))
    ensures Account(cfg, Apply(cfg, s, Consume(h)), id)
  {
    AccountLeft(cfg, s, h, Apply(cfg, s, Consume(h)), id);
  }

  /** A cancelled hash is abandoned; anything else just leaves. */
  lemma AccountCancel(cfg: Config, s: State, h: HandlerId, s': State, id: Id)
    requires Accountable(cfg, s, id) && h in s.handlers
    requires s' == Finish(s, h).(abandoned := s'.abandoned)
    requires s'.abandoned == if InHash(s.handlers[h]).Some? then Bump(s.abandoned, InHash(s.handlers[h]).value) else s.abandoned
    ensures Account(cfg, s', id)
  {
    AccountLeft(cfg, s, h, s', id);
  }

  lemma AccountStore(cfg: Config, s: State, h: HandlerId, id: Id)
    requires Accountable(cfg, s, id) && Enabled(cfg, s, Store(h)) && s.challenges.Keys <= s.stored
    requires s.log[s.handlers[h].entry].challenge.id !in s.stored
    ensures Account(cfg, Apply(cfg, s, Store(h)), id)
  {
    AccountStored(cfg, s, h, s.log[s.handlers[h].entry].challenge.id, Apply(cfg, s, Store(h)), id);
  }

  /** Steps on the way to a mint. */
  lemma AccountIssueStep(cfg: Config, s: State, step: Step, id: Id)
    requires Accountable(cfg, s, id) && Enabled(cfg, s, step)
    requires step.CheckCapacity? || step.ReadPrior? || step.Mint?
    ensures Account(cfg, Apply(cfg, s, step), id)
  {
    var s' := Apply(cfg, s, step);
    AccountRelabeled(cfg, s, step.h, s'.handlers[step.h], s', id);
  }

  lemma AccountOpen(cfg: Config, s: State, h: HandlerId, request: Handler, id: Id)
    requires Accountable(cfg, s, id) && h < cfg.slots && h !in s.handlers && (request.Issuing? || request.Looking?)
    ensures Account(cfg, Goto(s, h, request), id)
  {
    AccountRelabeled(cfg, s, h, request, Goto(s, h, request), id);
  }

  /** The steps of get_puzzle. */
  lemma AccountPuzzleStep(cfg: Config, s: State, step: Step, id: Id)
    requires Inv(cfg, s) && Accountable(cfg, s, id) && Enabled(cfg, s, step)
    requires step.CheckCapacity? || step.ReadPrior? || step.Mint? || step.Shed? || step.Store?
    ensures Account(cfg, Apply(cfg, s, step), id)
  {
    match step
    case Shed(h) => AccountLeft(cfg, s, h, Finish(s, h), id);
    case Store(h) =>
      assert HandlerOk(cfg, s, s.handlers[h]);
      AccountStore(cfg, s, h, id);
    case CheckCapacity(_) => AccountIssueStep(cfg, s, step, id);
    case ReadPrior(_) => AccountIssueStep(cfg, s, step, id);
    case Mint(_, _, _, _) => AccountIssueStep(cfg, s, step, id);
  }

  /** Steps of no handler's own making, and cancellation. */
  lemma AccountOtherStep(cfg: Config, s: State, step: Step, id: Id)
    requires Accountable(cfg, s, id) && Enabled(cfg, s, step)
    requires step.Tick? || step.Sweep? || step.Open? || step.Cancel?
    ensures Account(cfg, Apply(cfg, s, step), id)
  {
    match step
    case Tick(_) =>
    case Sweep(_) => AccountSwept(cfg, s, Apply(cfg, s, step), id);
    case Open(h, request) => AccountOpen(cfg, s, h, request, id);
    case Cancel(h) => AccountCancel(cfg, s, h, Apply(cfg, s, step), id);
  }

  lemma AccountVerifyStep(cfg: Config, s: State, step: Step, id: Id)
    requires Inv(cfg, s) && Accountable(cfg, s, id) && Enabled(cfg, s, step) && IsVerifyStep(step)
    ensures Account(cfg, Apply(cfg, s, step), id)
  {
    assert HandlerOk(cfg, s, s.handlers[step.h]);
    match step
    case Lookup(h) => AccountLookup(cfg, s, h, id);
    case CheckExpiry(h) => AccountCheckExpiry(cfg, s, h, id);
    case StartHash(h) => AccountStartHash(cfg, s, h, id);
    case FinishHash(h) =>
      HashedKeepsId(cfg, s.handlers[h]);
      AccountFinishHash(cfg, s, h, Hashed(cfg, s.handlers[h]), id);
    case Evict(h) => AccountEvict(cfg, s, h, id);
    case Register(h) => AccountRegister(cfg, s, h, id);
    case Consume(h) => AccountConsume(cfg, s, h, id);
  }

  lemma AccountStep(cfg: Config, s: State, step: Step, id: Id)
    requires cfg.maxAttempts > 0 && Inv(cfg, s) && OverrunInv(cfg, s) && Enabled(cfg, s, step)
    ensures Account(cfg, Apply(cfg, s, step), id)
  {
    assert Fits(cfg, s, id) && Account(cfg, s, id);
    if IsVerifyStep(step) {
      AccountVerifyStep(cfg, s, step, id);
    } else if step.Tick? || step.Sweep? || step.Open? || step.Cancel? {
      AccountOtherStep(cfg, s, step, id);
    } else {
      AccountPuzzleStep(cfg, s, step, id);
    }
  }

  lemma {:induction false} RunKeepsAccounts(cfg: Config, now: int, steps: seq<Step>)
    requires cfg.maxAttempts > 0 && Possible(cfg, Initial(now), steps)
    ensures OverrunInv(cfg, Run(cfg, Initial(now), steps).value)
  {
    if steps != [] {
      var before := steps[..|steps| - 1];
      RunKeepsAccounts(cfg, now, before);
      RunKeepsInv(cfg, now, before);
      var s := Run(cfg, Initial(now), before).value;
      var step := steps[|steps| - 1];
      var s' := Apply(cfg, s, step);
      forall h | h in s'.handlers ensures h < cfg.slots {
        StepFrame(cfg, s, step, h, 0);
      }
      forall id ensures Account(cfg, s', id) {
        AccountStep(cfg, s, step, id);
      }
    }
  }

  // ---- Counting the steps themselves ---------------------------------------

  /** Hashes started for this challenge in a run. */
  ghost function HashesRun(cfg: Config, start: State, steps: seq<Step>, id: Id): nat
    requires Possible(cfg, start, steps)
  {
    if steps == [] then 0
    else
      var n := |steps| - 1;
      var s := Run(cfg, start, steps[..n]).value;
      HashesRun(cfg, start, steps[..n], id) +
      if steps[n].StartHash? && s.handlers[steps[n].h].snapshot.id == id then 1 else 0
  }

  /** Handlers cancelled after starting a hash for this challenge and before reporting on it. */
  ghost function CancelledMidHash(cfg: Config, start: State, steps: seq<Step>, id: Id): nat
    requires Possible(cfg, start, steps)
  {
    if steps == [] then 0
    else
      var n := |steps| - 1;
      var s := Run(cfg, start, steps[..n]).value;
      CancelledMidHash(cfg, start, steps[..n], id) +
      if steps[n].Cancel? && MidHash(s.handlers[steps[n].h], id) then 1 else 0
  }

  ghost predicate MidHash(p: Handler, id: Id) {
    || ((p.Hashing? || p.Consuming?) && p.snapshot.id == id)
    || (p.Registering? && p.id == id)
  }

  lemma StepHashes(cfg: Config, s: State, step: Step, id: Id)
    requires Enabled(cfg, s, step)
    ensures Count(Apply(cfg, s, step).hashes, id) ==
            Count(s.hashes, id) + if step.StartHash? && s.handlers[step.h].snapshot.id == id then 1 else 0
  {
  }

  lemma StepAbandons(cfg: Config, s: State, step: Step, id: Id)
    requires Enabled(cfg, s, step)
    ensures Count(Apply(cfg, s, step).abandoned, id) ==
            Count(s.abandoned, id) + if step.Cancel? && MidHash(s.handlers[step.h], id) then 1 else 0
  {
    if step.Cancel? {
      CancelAbandons(cfg, s, step.h, id);
    } else {
      StepFrame(cfg, s, step, 0, id);
    }
  }

  lemma CancelAbandons(cfg: Config, s: State, h: HandlerId, id: Id)
    requires Enabled(cfg, s, Cancel(h))
    ensures Count(Apply(cfg, s, Cancel(h)).abandoned, id) ==
            Count(s.abandoned, id) + if MidHash(s.handlers[h], id) then 1 else 0
  {
  }

  /** The state's own history counts exactly these steps. */
  lemma {:induction false} CountsAreSteps(cfg: Config, now: int, steps: seq<Step>, id: Id)
    requires Possible(cfg, Initial(now), steps)
    ensures var s := Run(cfg, Initial(now), steps).value;
            && Count(s.hashes, id) == HashesRun(cfg, Initial(now), steps, id)
            && Count(s.abandoned, id) == CancelledMidHash(cfg, Initial(now), steps, id)
  {
    if steps != [] {
      var n := |steps| - 1;
      CountsAreSteps(cfg, now, steps[..n], id);
      StepHashes(cfg, Run(cfg, Initial(now), steps[..n]).value, steps[n], id);
      StepAbandons(cfg, Run(cfg, Initial(now), steps[..n]).value, steps[n], id);
    }
  }

  lemma {:induction false} NothingAbandoned(cfg: Config, now: int, steps: seq<Step>)
    requires Possible(cfg, Initial(now), steps)
    requires forall i :: 0 <= i < |steps| ==> !steps[i].Cancel?
    ensures Run(cfg, Initial(now), steps).value.abandoned == map[]
  {
    if steps != [] {
      NothingAbandoned(cfg, now, steps[..|steps| - 1]);
      StepFrame(cfg, Run(cfg, Initial(now), steps[..|steps| - 1]).value, steps[|steps| - 1], 0, 0);
    }
  }

  /**
    Work amplification is bounded: with a nonzero cap and at most K handlers in
    flight, the hashes ever run for one challenge are at most cap - 1 + K, plus
    one for each handler cancelled with a hash under way.
   */
  lemma HashOverrun(cfg: Config, now: int, steps: seq<Step>, id: Id)
    requires cfg.maxAttempts > 0 && Possible(cfg, Initial(now), steps)
    ensures HashesRun(cfg, Initial(now), steps, id) <=
            cfg.maxAttempts - 1 + cfg.slots + CancelledMidHash(cfg, Initial(now), steps, id)
    ensures (forall i :: 0 <= i < |steps| ==> !steps[i].Cancel?) ==>
            HashesRun(cfg, Initial(now), steps, id) <= cfg.maxAttempts - 1 + cfg.slots
  {
    CountsAreSteps(cfg, now, steps, id);
    RunKeepsAccounts(cfg, now, steps);
    RunKeepsInv(cfg, now, steps);
    assert Fits(cfg, Run(cfg, Initial(now), steps).value, id);
    AccountBounds(cfg, Run(cfg, Initial(now), steps).value, id);
    if forall i :: 0 <= i < |steps| ==> !steps[i].Cancel? {
      NothingAbandoned(cfg, now, steps);
    }
  }

  // ---- Live challenges -----------------------------------------------------

  /** Live challenges plus handlers that have passed the check and have not stored yet. */
  ghost predicate CapacityInv(cfg: Config, s: State) {
    && (forall h :: h in s.handlers ==> h < cfg.slots)
    && |s.challenges| + Size(Passed, s.handlers, 0, cfg.slots) <= cfg.maxActive - 1 + cfg.slots
  }

  lemma {:induction false} SubsetSize<T>(a: set<T>, b: set<T>)
    requires a <= b
    ensures |a| <= |b|
  {
    if a != {} {
      var x :| x in a;
      SubsetSize(a - {x}, b - {x});
    }
  }

  lemma FewerChallenges(a: Active, b: Active)
    requires forall id :: id in a ==> id in b
    ensures |a| <= |b|
  {
    SubsetSize(a.Keys, b.Keys);
    assert |a| == |a.Keys| && |b| == |b.Keys|;
  }

  lemma OneMoreChallenge(a: Active, id: Id, c: Challenge)
    ensures |a[id := c]| <= |a| + 1
  {
    assert a[id := c].Keys == a.Keys + {id};
    assert |a| == |a.Keys| && |a[id := c]| == |a[id := c].Keys|;
  }

  /** With no newcomer past the check the count cannot grow. */
  lemma {:induction false} FewerPassed(m: map<HandlerId, Handler>, m': map<HandlerId, Handler>, n: nat)
    requires forall h :: h in m' && HasPassed(m'[h]) ==> h in m && HasPassed(m[h])
    ensures Size(Passed, m', 0, n) <= Size(Passed, m, 0, n)
  {
    if n > 0 {
      FewerPassed(m, m', n - 1);
    }
  }

  /** The check itself: below the ceiling, and the handler that checks was not past it before. */
  lemma CapacityChecked(cfg: Config, s: State, h: HandlerId)
    requires cfg.maxActive > 0 && CapacityInv(cfg, s) && Enabled(cfg, s, CheckCapacity(h))
    ensures CapacityInv(cfg, Apply(cfg, s, CheckCapacity(h)))
  {
    SizeBelow(Passed, Apply(cfg, s, CheckCapacity(h)).handlers, 0, h, cfg.slots);
  }

  /** A store turns one handler past the check into one live challenge. */
  lemma CapacityStored(cfg: Config, s: State, h: HandlerId)
    requires CapacityInv(cfg, s) && Enabled(cfg, s, Store(h))
    ensures CapacityInv(cfg, Apply(cfg, s, Store(h)))
  {
    var c := s.log[s.handlers[h].entry].challenge;
    OneMoreChallenge(s.challenges, c.id, c);
    SizeChanged(Passed, s.handlers, s.handlers - {h}, 0, h, cfg.slots);
  }

  lemma CapacityStep(cfg: Config, s: State, step: Step)
    requires cfg.maxActive > 0 && CapacityInv(cfg, s) && Enabled(cfg, s, step)
    ensures CapacityInv(cfg, Apply(cfg, s, step))
  {
    if step.CheckCapacity? {
      CapacityChecked(cfg, s, step.h);
    } else if step.Store? {
      CapacityStored(cfg, s, step.h);
    } else {
      var s' := Apply(cfg, s, step);
      forall h | h in s'.handlers ensures h < cfg.slots && (HasPassed(s'.handlers[h]) ==> h in s.handlers && HasPassed(s.handlers[h])) {
        StepFrame(cfg, s, step, h, 0);
      }
      forall id | id in s'.challenges ensures id in s.challenges {
        StepFrame(cfg, s, step, 0, id);
      }
      FewerPassed(s.handlers, s'.handlers, cfg.slots);
      FewerChallenges(s'.challenges, s.challenges);
    }
  }

  lemma {:induction false} RunKeepsCapacity(cfg: Config, now: int, steps: seq<Step>)
    requires cfg.maxActive > 0 && Possible(cfg, Initial(now), steps)
    ensures CapacityInv(cfg, Run(cfg, Initial(now), steps).value)
  {
    if steps == [] {
      NobodyYet(Passed, 0, cfg.slots);
    } else {
      RunKeepsCapacity(cfg, now, steps[..|steps| - 1]);
      CapacityStep(cfg, Run(cfg, Initial(now), steps[..|steps| - 1]).value, steps[|steps| - 1]);
    }
  }

  /**
    The memory ceiling holds up to concurrency: although the count check and the
    store are separate steps, live challenges never exceed ceiling - 1 + K.
   */
  lemma LiveChallengeOverrun(cfg: Config, now: int, steps: seq<Step>)
    requires cfg.maxActive > 0 && Possible(cfg, Initial(now), steps)
    ensures |Run(cfg, Initial(now), steps).value.challenges| <= cfg.maxActive - 1 + cfg.slots
  {
    RunKeepsCapacity(cfg, now, steps);
  }
}
