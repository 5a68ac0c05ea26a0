/**
  The challenge lifecycle as a concurrent protocol (src/api/handlers.rs over
  src/storage/memory.rs). Any number of puzzle and verify handlers, up to a
  bound, interleave with each other, with the sweeper and with cancellations;
  each lock-protected store call and each reading of the clock is one step.
 */
module ChallengeProtocol {
  import opened Common
  import opened ChallengeStore
  import PoW = ProofOfWork

  type HandlerId = nat

  datatype Config = Config(
    maxAttempts: nat,   // VERIFY_MAX_ATTEMPTS, 0 = no cap
    maxActive: nat,     // MAX_ACTIVE_CHALLENGES, 0 = no ceiling
    ttl: nat,
    algorithm: PoW.Algorithm,
    hashes: PoW.Hashes,
    slots: nat          // handlers in flight at once; a handler is named by its slot
  )

  // Instants and spans are integer nanoseconds.
  const MILLISECOND: int := 1_000_000

  /** `num_milliseconds` truncates toward zero; what is then negative counts as none. */
  function TimeOnPageMs(verifyAt: int, dwellSince: int): int {
    var elapsed := verifyAt - dwellSince;
    Max(0, if elapsed >= 0 then elapsed / MILLISECOND else -(-elapsed / MILLISECOND))
  }

  /** Where a handler is between two store calls, and what it holds. */
  datatype Handler =
    // get_puzzle
    | Issuing(site: SiteKey, refreshOf: Option<Id>)
    | Admitted(site: SiteKey, refreshOf: Option<Id>)
    | Cited(site: SiteKey, dwell: Option<int>, parent: Option<nat>)
    | Minted(entry: nat)
    // verify
    | Looking(site: SiteKey, id: Id, nonce: nat)
    | Holding(site: SiteKey, nonce: nat, snapshot: Challenge)
    | Evicting(id: Id)
    | Cleared(site: SiteKey, nonce: nat, snapshot: Challenge, verifyAt: int)
    | Hashing(site: SiteKey, nonce: nat, snapshot: Challenge, verifyAt: int)
    | Registering(id: Id)
    | Consuming(site: SiteKey, nonce: nat, snapshot: Challenge, verifyAt: int)

  /** One mint: the challenge as stamped, and the log entry whose dwell it inherited. */
  datatype Issue = Issue(challenge: Challenge, parent: Option<nat>)

  /** One solved-path success, with the time on page the scorer was given. */
  datatype Solve = Solve(id: Id, site: SiteKey, nonce: nat, verifyAt: int, timeOnPage: int)

  datatype State = State(
    now: int,
    challenges: Active,
    handlers: map<HandlerId, Handler>,
    // History, which no handler reads.
    log: seq<Issue>,
    index: map<Id, nat>,
    stored: set<Id>,
    consumed: seq<Id>,
    solved: seq<Solve>,
    hashes: map<Id, nat>,
    abandoned: map<Id, nat>
  )

  datatype Step =
    | Tick(to: int)
    | Open(h: HandlerId, request: Handler)
    | CheckCapacity(h: HandlerId)
    | Shed(h: HandlerId)
    | ReadPrior(h: HandlerId)
    | Mint(h: HandlerId, id: Id, prefix: seq<PoW.Byte>, difficulty: nat)
    | Store(h: HandlerId)
    | Lookup(h: HandlerId)
    | CheckExpiry(h: HandlerId)
    | Evict(h: HandlerId)
    | StartHash(h: HandlerId)
    | FinishHash(h: HandlerId)
    | Register(h: HandlerId)
    | Consume(h: HandlerId)
    | Cancel(h: HandlerId)
    | Sweep(stamp: int)

  function Initial(now: int): State {
    State(now, map[], map[], [], map[], {}, [], [], map[], map[])
  }

  function Count(m: map<Id, nat>, id: Id): nat {
    if id in m then m[id] else 0
  }

  function Bump(m: map<Id, nat>, id: Id): map<Id, nat> {
    m[id := Count(m, id) + 1]
  }

  ghost predicate Accepts(cfg: Config, c: Challenge, nonce: nat) {
    PoW.Accepts(cfg.hashes, c.algorithm, c.prefix, c.difficulty, nonce)
  }

  ghost predicate Enabled(cfg: Config, s: State, step: Step) {
    match step
    case Tick(to) => s.now <= to
    case Sweep(stamp) => stamp <= s.now
    case Open(h, request) => h < cfg.slots && h !in s.handlers && (request.Issuing? || request.Looking?)
    case _ =>
      step.h in s.handlers &&
      var p := s.handlers[step.h];
      match step
      case CheckCapacity(_) => p.Issuing? && (cfg.maxActive == 0 || |s.challenges| < cfg.maxActive)
      case Shed(_) => p.Issuing?
      case ReadPrior(_) => p.Admitted?
      case Mint(_, id, _, _) => p.Cited? && id !in s.index
      case Store(_) => p.Minted? && p.entry < |s.log|
      case Lookup(_) => p.Looking?
      case CheckExpiry(_) => p.Holding?
      case Evict(_) => p.Evicting?
      case StartHash(_) => p.Cleared?
      case FinishHash(_) => p.Hashing?
      case Register(_) => p.Registering?
      case Consume(_) => p.Consuming?
      case _ => true
  }

  function Goto(s: State, h: HandlerId, p: Handler): State {
    s.(handlers := s.handlers[h := p])
  }

  function Finish(s: State, h: HandlerId): State {
    s.(handlers := s.handlers - {h})
  }

  /** Reading the prior challenge: a miss, or another site's challenge, degrades to an ordinary issuance. */
  function Citing(s: State, p: Handler): Handler
    requires p.Admitted?
  {
    var prior := p.refreshOf;
    if prior.Some? && prior.value in s.challenges && s.challenges[prior.value].site == p.site && prior.value in s.index
    then Cited(p.site, Some(s.challenges[prior.value].dwellSince), Some(s.index[prior.value]))
    else Cited(p.site, None, None)
  }

  function Checked(p: Handler, now: int): Handler
    requires p.Holding?
  {
    if p.snapshot.expiresAt < now then Evicting(p.snapshot.id) else Cleared(p.site, p.nonce, p.snapshot, now)
  }

  ghost function Hashed(cfg: Config, p: Handler): Handler
    requires p.Hashing?
  {
    if Accepts(cfg, p.snapshot, p.nonce) then Consuming(p.site, p.nonce, p.snapshot, p.verifyAt)
    else Registering(p.snapshot.id)
  }

  ghost function Apply(cfg: Config, s: State, step: Step): State
    requires Enabled(cfg, s, step)
  {
    match step
    case Tick(to) => s.(now := to)
    case Sweep(stamp) => s.(challenges := Unexpired(s.challenges, stamp))
    case Open(h, request) => Goto(s, h, request)
    case CheckCapacity(h) => Goto(s, h, Admitted(s.handlers[h].site, s.handlers[h].refreshOf))
    case Shed(h) => Finish(s, h)
    case ReadPrior(h) => Goto(s, h, Citing(s, s.handlers[h]))
    case Mint(h, id, prefix, difficulty) =>
      var p := s.handlers[h];
      var c := Generate(id, p.site, cfg.algorithm, prefix, difficulty, cfg.ttl, p.dwell, s.now);
      Goto(s, h, Minted(|s.log|)).(log := s.log + [Issue(c, p.parent)], index := s.index[id := |s.log|])
    case Store(h) =>
      var c := s.log[s.handlers[h].entry].challenge;
      Finish(s, h).(challenges := s.challenges[c.id := c], stored := s.stored + {c.id})
    case Lookup(h) =>
      var p := s.handlers[h];
      // A challenge of another site is refused without further steps.
      if p.id in s.challenges && s.challenges[p.id].site == p.site
      then Goto(s, h, Holding(p.site, p.nonce, s.challenges[p.id]))
      else Finish(s, h)
    case CheckExpiry(h) => Goto(s, h, Checked(s.handlers[h], s.now))
    case Evict(h) =>
      Finish(s, h).(challenges := s.challenges - {s.handlers[h].id})
    case StartHash(h) =>
      var p := s.handlers[h];
      Goto(s, h, Hashing(p.site, p.nonce, p.snapshot, p.verifyAt)).(hashes := Bump(s.hashes, p.snapshot.id))
    case FinishHash(h) => Goto(s, h, Hashed(cfg, s.handlers[h]))
    case Register(h) =>
      Finish(s, h).(challenges := Attempted(s.challenges, s.handlers[h].id, cfg.maxAttempts).0)
    case Consume(h) =>
      var p := s.handlers[h];
      var id := p.snapshot.id;
      if id in s.challenges
      then Finish(s, h).(challenges := s.challenges - {id}, consumed := s.consumed + [id],
                         solved := s.solved + [Solve(id, p.site, p.nonce, p.verifyAt,
                                                     TimeOnPageMs(p.verifyAt, p.snapshot.dwellSince))])
      else Finish(s, h)
    case Cancel(h) =>
      // A hash already running is not recalled; its handler just never registers the result.
      if InHash(s.handlers[h]).Some? then Finish(s, h).(abandoned := Bump(s.abandoned, InHash(s.handlers[h]).value))
      else Finish(s, h)
  }

  /** The challenge this handler holds a snapshot of but has not started hashing. */
  function BeforeHash(p: Handler): Option<Id> {
    match p
    case Holding(_, _, c) => Some(c.id)
    case Cleared(_, _, c, _) => Some(c.id)
    case _ => None
  }

  /** The challenge this handler has hashed for and not yet reported on. */
  function InHash(p: Handler): Option<Id> {
    match p
    case Hashing(_, _, c, _) => Some(c.id)
    case Registering(id) => Some(id)
    case Consuming(_, _, c, _) => Some(c.id)
    case _ => None
  }

  // ---- Runs ----------------------------------------------------------------

  /** The state after a run of steps, or None where some step was not possible. */
  ghost function Run(cfg: Config, s: State, steps: seq<Step>): Option<State> {
    if steps == [] then Some(s)
    else
      var before := Run(cfg, s, steps[..|steps| - 1]);
      if before.Some? && Enabled(cfg, before.value, steps[|steps| - 1])
      then Some(Apply(cfg, before.value, steps[|steps| - 1])) else None
  }

  ghost predicate Possible(cfg: Config, s: State, steps: seq<Step>) {
    Run(cfg, s, steps).Some?
  }
}
