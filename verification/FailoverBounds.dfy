/**
  How much client failover lets through (src/failover/mod.rs): the accept cap
  against real elapsed time, within one process lifetime and across restarts.
 */
module FailoverBounds {
  import opened Common
  import opened Failover

  // ---- Runs of one guard ---------------------------------------------------

  function CeilDiv(a: int, b: int): int
    requires b > 0
  {
    -((-a) / b)
  }

  ghost function After(config: Config, w: World, events: seq<Event>): World {
    if events == [] then w
    else Step(config, false, After(config, w, events[..|events| - 1]), events[|events| - 1])
  }

  /** Accepted claims of one site at a time in [from, to). */
  ghost function Accepted(config: Config, w: World, events: seq<Event>, site: SiteKey, from: int, to: int): nat {
    if events == [] then 0
    else
      var n := |events| - 1;
      var e := events[n];
      Accepted(config, w, events[..n], site, from, to) +
      (if e.Claim? && e.site == site && from <= e.now < to &&
          VerdictOf(config, After(config, w, events[..n]), e).value.Accept? then 1 else 0)
  }

  ghost function Restarts(events: seq<Event>): nat {
    if events == [] then 0
    else Restarts(events[..|events| - 1]) + if events[|events| - 1].Restart? then 1 else 0
  }

  ghost predicate InOrder(events: seq<Event>) {
    forall i, j :: 0 <= i < j < |events| ==> events[i].now <= events[j].now
  }

  lemma {:induction false} AfterJoins(config: Config, w: World, a: seq<Event>, b: seq<Event>)
    ensures After(config, w, a + b) == After(config, After(config, w, a), b)
    ensures Restarts(a + b) == Restarts(a) + Restarts(b)
    decreases |b|
  {
    if b == [] {
      assert a + b == a;
    } else {
      AfterJoins(config, w, a, b[..|b| - 1]);
      assert (a + b)[..|a + b| - 1] == a + b[..|b| - 1];
    }
  }

  lemma {:induction false} AcceptedJoins(config: Config, w: World, a: seq<Event>, b: seq<Event>, site: SiteKey,
                                         from: int, to: int)
    ensures Accepted(config, w, a + b, site, from, to) ==
            Accepted(config, w, a, site, from, to) + Accepted(config, After(config, w, a), b, site, from, to)
    decreases |b|
  {
    if b == [] {
      assert a + b == a;
    } else {
      AcceptedJoins(config, w, a, b[..|b| - 1], site, from, to);
      AfterJoins(config, w, a, b[..|b| - 1]);
      assert (a + b)[..|a + b| - 1] == a + b[..|b| - 1];
    }
  }

  lemma {:induction false} NoRestarts(events: seq<Event>)
    ensures Restarts(events) == 0 <==> forall i :: 0 <= i < |events| ==> !events[i].Restart?
  {
    if events != [] {
      NoRestarts(events[..|events| - 1]);
    }
  }

  /** One event, seen from one site's counter. */
  lemma EventMovesCounter(config: Config, w: World, e: Event, site: SiteKey)
    requires config.maxPerMin > 0
    ensures var mine := e.Claim? && e.site == site && ReachesCap(config, w.state.windows, e.issuedAt, e.now);
            var counter := CounterOf(w.accepts, site);
            && CounterOf(Step(config, false, w, e).accepts, site) ==
               (if e.Restart? then None
                else if mine then Some(Admit(config.maxPerMin, counter, e.now).0) else counter)
            && (e.Claim? && e.site == site ==>
                  (VerdictOf(config, w, e).value.Accept? <==> mine && Admit(config.maxPerMin, counter, e.now).1))
  {
  }

  /** Wherever in a run a claim is accepted, it was made inside the outage's tolerance, and the guard attests one. */
  lemma AcceptedClaimsAreTimely(config: Config, w: World, events: seq<Event>, i: nat)
    requires i < |events| && events[i].Claim?
    requires VerdictOf(config, After(config, w, events[..i]), events[i]).value.Accept?
    ensures var (issuedAt, now) := (events[i].issuedAt, events[i].now);
            && config.enabled && config.hasStatePath
            && Covered(After(config, w, events[..i]).state.windows, now, config.graceSecs)
            && issuedAt.Some?
            && now - config.graceSecs * 1_000_000_000 - 300_000_000_000 <= issuedAt.value <= now + 300_000_000_000
  {
    var e, before := events[i], After(config, w, events[..i]);
    VerdictInNumbers(config, before.state.windows, CounterOf(before.accepts, e.site), e.issuedAt, e.now);
  }

  // ---- The accept cap ------------------------------------------------------

  /**
    The books of one site at an instant, about the interval that opens at `from`:
    `opens` windows were opened since, the latest at `last`. Each takes at most
    the cap, the one already open at `from` at most the cap less its opening
    claim, and only a restart lets two openings be less than a minute apart.
   */
  datatype Books = Books(accepted: nat, opens: nat, last: int, restarts: nat)

  ghost predicate Balanced(cap: nat, counter: Option<AcceptCounter>, b: Books, from: int, clock: int) {
    && (counter.Some? ==> 1 <= counter.value.count <= cap && counter.value.windowStart <= clock)
    && (b.opens == 0 ==> b.accepted <= (if counter.Some? then counter.value.count else cap) - 1)
    && (b.opens > 0 ==>
          && from <= b.last <= clock
          && (counter.Some? ==> counter.value.windowStart == b.last)
          && b.accepted + (if counter.Some? then cap - counter.value.count else 0) <= b.opens * cap + cap - 1
          && from + MINUTE * (b.opens - b.restarts - (if counter.Some? then 1 else 0)) <= b.last)
  }

  lemma OneMoreOpening(opens: nat, cap: nat)
    ensures (opens + 1) * cap == opens * cap + cap
  {
  }

  /** A claim that reaches the cap: it joins the open window or opens one, and may be accepted. */
  lemma ClaimBalances(cap: nat, counter: Option<AcceptCounter>, b: Books, from: int, clock: int, t: int)
    returns (after: Books)
    requires cap > 0 && Balanced(cap, counter, b, from, clock) && clock <= t
    requires t < from ==> b.opens == 0 && b.accepted == 0
    ensures var (c, ok) := Admit(cap, counter, t);
            && Balanced(cap, Some(c), after, from, t) && after.restarts == b.restarts
            && after.accepted == b.accepted + (if from <= t && ok then 1 else 0)
            && (t < from ==> after.opens == 0)
  {
    var (c, ok) := Admit(cap, counter, t);
    var opening := counter.None? || t - counter.value.windowStart >= MINUTE;
    after := b.(accepted := b.accepted + (if from <= t && ok then 1 else 0));
    if opening && from <= t {
      OneMoreOpening(b.opens, cap);
      after := after.(opens := b.opens + 1, last := t);
    }
  }

  /** The books of a whole run of claims, ticks, declarations and restarts. */
  lemma {:induction false} RunBalances(config: Config, w: World, events: seq<Event>, site: SiteKey, from: int, to: int)
    returns (b: Books)
    requires config.maxPerMin > 0 && w.accepts == map[] && InOrder(events)
    requires events != [] ==> events[|events| - 1].now < to
    ensures b.accepted == Accepted(config, w, events, site, from, to) && b.restarts == Restarts(events)
    ensures var clock := if events == [] then from else events[|events| - 1].now;
            && Balanced(config.maxPerMin, CounterOf(After(config, w, events).accepts, site), b, from, clock)
            && (events == [] || clock < from ==> b.opens == 0 && b.accepted == 0)
  {
    if events == [] {
      return Books(0, 0, from, 0);
    }
    var n := |events| - 1;
    var e, before := events[n], After(config, w, events[..n]);
    b := RunBalances(config, w, events[..n], site, from, to);
    EventMovesCounter(config, before, e, site);
    var counter := CounterOf(before.accepts, site);
    if e.Restart? {
      b := b.(restarts := b.restarts + 1);
    } else if e.Claim? && e.site == site && ReachesCap(config, before.state.windows, e.issuedAt, e.now) {
      var clock := if n == 0 then Min(from, e.now) else events[n - 1].now;
      b := ClaimBalances(config.maxPerMin, counter, b, from, clock, e.now);
    }
  }

  /** Openings a minute apart fit an interval once per started minute. */
  lemma OpeningsFit(opens: nat, restarts: nat, from: int, last: int, to: int)
    requires from + MINUTE * (opens - restarts - 1) <= last < to
    ensures opens <= CeilDiv(to - from, MINUTE) + restarts
  {
  }

  lemma CapMonotone(cap: nat, a: int, b: int)
    requires a <= b
    ensures a * cap <= b * cap
  {
  }

  /**
    The accept cap over any run: in a half-open interval of length L with R
    restarts a site gets fewer than (ceil(L / 60 s) + R + 1) * cap acceptances.
    The counters live in memory, so a restart can cost one more cap, no more.
   */
  lemma {:induction false} AcceptCapAcrossRestarts(config: Config, w: World, events: seq<Event>, site: SiteKey,
                                                   from: int, to: int)
    requires config.maxPerMin > 0 && w.accepts == map[] && from <= to && InOrder(events)
    ensures Accepted(config, w, events, site, from, to) <
            (CeilDiv(to - from, MINUTE) + Restarts(events) + 1) * config.maxPerMin
  {
    var cap, minutes := config.maxPerMin, CeilDiv(to - from, MINUTE);
    if events != [] && events[|events| - 1].now >= to {
      AcceptCapAcrossRestarts(config, w, events[..|events| - 1], site, from, to);
      CapMonotone(cap, minutes + Restarts(events[..|events| - 1]) + 1, minutes + Restarts(events) + 1);
    } else {
      var b := RunBalances(config, w, events, site, from, to);
      if b.opens > 0 {
        OpeningsFit(b.opens, b.restarts, from, b.last, to);
      }
      assert b.opens <= minutes + b.restarts;
      assert b.accepted <= b.opens * cap + cap - 1;
      OneMoreOpening(b.opens, cap);
      CapMonotone(cap, b.opens + 1, minutes + b.restarts + 1);
    }
  }

  /** One process lifetime: no restart, and the clock never steps back. */
  ghost predicate OneLife(events: seq<Event>) {
    && (forall i :: 0 <= i < |events| ==> !events[i].Restart?)
    && InOrder(events)
  }

  /** The accept cap within one process lifetime. */
  lemma AcceptCap(config: Config, w: World, events: seq<Event>, site: SiteKey, from: int, to: int)
    requires config.maxPerMin > 0 && w.accepts == map[] && OneLife(events) && from <= to
    ensures Accepted(config, w, events, site, from, to) < (CeilDiv(to - from, MINUTE) + 1) * config.maxPerMin
  {
    NoRestarts(events);
    AcceptCapAcrossRestarts(config, w, events, site, from, to);
  }

  /** So no minute admits as much as twice the cap. */
  lemma AcceptCapPerMinute(config: Config, w: World, events: seq<Event>, site: SiteKey, from: int)
    requires config.maxPerMin > 0 && w.accepts == map[] && OneLife(events)
    ensures Accepted(config, w, events, site, from, from + MINUTE) < 2 * config.maxPerMin
  {
    AcceptCap(config, w, events, site, from, from + MINUTE);
  }

  // ---- The cap is attained -------------------------------------------------

  /** n claims of one site at one instant, each made just then. */
  ghost function Claims(site: SiteKey, t: int, n: nat): seq<Event> {
    seq(n, _ => Claim(site, Some(t), t))
  }

  /** A full cap of claims at one instant, again after each of r restarts. */
  ghost function Waves(site: SiteKey, t: int, cap: nat, r: nat): seq<Event> {
    if r == 0 then Claims(site, t, cap) else Waves(site, t, cap, r - 1) + ([Restart(t)] + Claims(site, t, cap))
  }

  /** A declared outage the guard holds in memory and on file. */
  ghost predicate Holds(w: World, window: OutageWindow) {
    window in w.state.windows && w.image.Some? && window in w.image.value.windows
  }

  lemma {:induction false} HeldIsAttested(windows: seq<OutageWindow>, window: OutageWindow, now: int, grace: int)
    requires window in windows && Covers(window, now, grace)
    ensures Attested(windows, now, grace).Some?
  {
    if !Covers(windows[0], now, grace) {
      HeldIsAttested(windows[1..], window, now, grace);
    }
  }

  /** The window a claim at t joins: its size so far, and when it opened or would open. */
  ghost function Joined(counter: Option<AcceptCounter>, t: int): AcceptCounter {
    if counter.Some? && t - counter.value.windowStart < MINUTE then counter.value else AcceptCounter(t, 0)
  }

  /** The counter after n claims at t into a window with room for them. */
  ghost function Grown(counter: Option<AcceptCounter>, t: int, n: nat): Option<AcceptCounter> {
    var c := Joined(counter, t);
    if n == 0 then counter else Some(c.(count := c.count + n))
  }

  /** One more claim into a window with room for it. */
  lemma ClaimAccepted(config: Config, w: World, window: OutageWindow, site: SiteKey, t: int)
    requires config.Enabled() && Holds(w, window) && Covers(window, t, config.Grace())
    requires Joined(CounterOf(w.accepts, site), t).count < config.maxPerMin
    ensures var e := Claim(site, Some(t), t);
            var r := Step(config, false, w, e);
            && r == w.(accepts := r.accepts)
            && CounterOf(r.accepts, site) == Grown(CounterOf(w.accepts, site), t, 1)
            && VerdictOf(config, w, e).value.Accept?
  {
    HeldIsAttested(w.state.windows, window, t, config.Grace());
    EventMovesCounter(config, w, Claim(site, Some(t), t), site);
  }

  /** A burst into a window with room for it is accepted whole. */
  lemma {:induction false} BurstAccepted(config: Config, w: World, window: OutageWindow, site: SiteKey, t: int, n: nat,
                                         from: int, to: int)
    requires config.Enabled() && Holds(w, window) && Covers(window, t, config.Grace())
    requires n + Joined(CounterOf(w.accepts, site), t).count <= config.maxPerMin
    ensures var r := After(config, w, Claims(site, t, n));
            && r == w.(accepts := r.accepts)
            && CounterOf(r.accepts, site) == Grown(CounterOf(w.accepts, site), t, n)
            && Accepted(config, w, Claims(site, t, n), site, from, to) == (if from <= t < to then n else 0)
            && Restarts(Claims(site, t, n)) == 0
  {
    if n > 0 {
      var before := After(config, w, Claims(site, t, n - 1));
      BurstAccepted(config, w, window, site, t, n - 1, from, to);
      GrowOnce(CounterOf(w.accepts, site), t, n);
      ClaimAccepted(config, before, window, site, t);
      LastClaim(config, w, site, t, n, from, to);
    }
  }

  lemma GrowOnce(counter: Option<AcceptCounter>, t: int, n: nat)
    requires n > 0
    ensures Joined(Grown(counter, t, n - 1), t).count == Joined(counter, t).count + n - 1
    ensures Grown(Grown(counter, t, n - 1), t, 1) == Grown(counter, t, n)
  {
  }

  /** A burst is a shorter burst and one more claim. */
  lemma LastClaim(config: Config, w: World, site: SiteKey, t: int, n: nat, from: int, to: int)
    requires n > 0
    ensures var before, e := After(config, w, Claims(site, t, n - 1)), Claim(site, Some(t), t);
            && After(config, w, Claims(site, t, n)) == Step(config, false, before, e)
            && Restarts(Claims(site, t, n)) == Restarts(Claims(site, t, n - 1))
            && (VerdictOf(config, before, e).value.Accept? ==>
                  Accepted(config, w, Claims(site, t, n), site, from, to) ==
                  Accepted(config, w, Claims(site, t, n - 1), site, from, to) + (if from <= t < to then 1 else 0))
  {
    assert Claims(site, t, n)[..n - 1] == Claims(site, t, n - 1);
  }

  /** A restart inside the outage forgets the counters and keeps the window. */
  lemma RestartHolds(config: Config, w: World, window: OutageWindow, t: int)
    requires config.Enabled() && Holds(w, window) && Covers(window, t, config.Grace())
    ensures var r := Step(config, false, w, Restart(t)); Holds(r, window) && r.accepts == map[]
  {
    var last := w.image.value.lastHeartbeat;
    var windows := w.image.value.windows;
    PruneContains(windows, window, t, config.Grace());
    if last.Some? {
      PruneContains(windows + [OutageWindow(last.value, t, HeartbeatGap)], window, t, config.Grace());
    }
  }

  /** A restart and a full cap right after it. */
  lemma WaveAccepted(config: Config, w: World, window: OutageWindow, site: SiteKey, t: int, from: int, to: int)
    requires config.Enabled() && config.maxPerMin > 0 && Holds(w, window) && Covers(window, t, config.Grace())
    requires from <= t < to
    ensures var wave := [Restart(t)] + Claims(site, t, config.maxPerMin);
            && Accepted(config, w, wave, site, from, to) == config.maxPerMin
            && Restarts(wave) == 1 && Holds(After(config, w, wave), window)
  {
    var restart, cap := [Restart(t)], config.maxPerMin;
    assert restart[..0] == [];
    assert After(config, w, restart) == Step(config, false, w, Restart(t));
    RestartHolds(config, w, window, t);
    BurstAccepted(config, After(config, w, restart), window, site, t, cap, from, to);
    AfterJoins(config, w, restart, Claims(site, t, cap));
    AcceptedJoins(config, w, restart, Claims(site, t, cap), site, from, to);
  }

  /** The product, added up one cap at a time. */
  ghost function Times(n: nat, cap: nat): nat {
    if n == 0 then 0 else Times(n - 1, cap) + cap
  }

  lemma {:induction false} TimesMultiplies(n: nat, cap: nat)
    ensures Times(n, cap) == n * cap
  {
    if n > 0 {
      TimesMultiplies(n - 1, cap);
      OneMoreOpening(n - 1, cap);
    }
  }

  lemma {:induction false} WavesAccepted(config: Config, w: World, window: OutageWindow, site: SiteKey, t: int, r: nat,
                                         from: int, to: int)
    requires config.Enabled() && config.maxPerMin > 0 && Holds(w, window) && Covers(window, t, config.Grace())
    requires var c := CounterOf(w.accepts, site); c.Some? ==> t - c.value.windowStart >= MINUTE
    requires from <= t < to
    ensures var waves := Waves(site, t, config.maxPerMin, r);
            && Accepted(config, w, waves, site, from, to) == Times(r + 1, config.maxPerMin)
            && Restarts(waves) == r && Holds(After(config, w, waves), window)
  {
    var cap := config.maxPerMin;
    if r == 0 {
      BurstAccepted(config, w, window, site, t, cap, from, to);
    } else {
      WavesAccepted(config, w, window, site, t, r - 1, from, to);
      ThenWave(config, w, Waves(site, t, cap, r - 1), window, site, t, from, to);
    }
  }

  /** Any run that leaves the window held, and then one more wave. */
  lemma ThenWave(config: Config, w: World, earlier: seq<Event>, window: OutageWindow, site: SiteKey, t: int,
                 from: int, to: int)
    requires config.Enabled() && config.maxPerMin > 0
    requires Holds(After(config, w, earlier), window) && Covers(window, t, config.Grace())
    requires from <= t < to
    ensures var run := earlier + ([Restart(t)] + Claims(site, t, config.maxPerMin));
            && Accepted(config, w, run, site, from, to) ==
               Accepted(config, w, earlier, site, from, to) + config.maxPerMin
            && Restarts(run) == Restarts(earlier) + 1 && Holds(After(config, w, run), window)
  {
    WaveAccepted(config, After(config, w, earlier), window, site, t, from, to);
    AfterJoins(config, w, earlier, [Restart(t)] + Claims(site, t, config.maxPerMin));
    AcceptedJoins(config, w, earlier, [Restart(t)] + Claims(site, t, config.maxPerMin), site, from, to);
  }

  lemma {:induction false} WavesAtOnce(site: SiteKey, t: int, cap: nat, r: nat)
    ensures forall i :: 0 <= i < |Waves(site, t, cap, r)| ==> Waves(site, t, cap, r)[i].now == t
  {
    if r > 0 {
      WavesAtOnce(site, t, cap, r - 1);
    }
  }

  /** An outage is declared; one claim opens a window just outside the interval, the rest of the cap follows inside. */
  ghost function Prologue(site: SiteKey, t: int, cap: nat): seq<Event>
    requires cap > 0
  {
    [Declaration(t, t + 2 * MINUTE, t)] + Claims(site, t, 1) + Claims(site, t + 1, cap - 1)
  }

  /** The worst run: the prologue, and the waves as soon as its window has passed. */
  ghost function WorstRun(config: Config, site: SiteKey, t: int, restarts: nat): seq<Event>
    requires config.maxPerMin > 0
  {
    Prologue(site, t, config.maxPerMin) + Waves(site, t + MINUTE, config.maxPerMin, restarts)
  }

  /** The guard just after its first boot. */
  ghost function FirstBoot(config: Config, t: int): World {
    Step(config, false, NEVER_RAN, Restart(t))
  }

  lemma DeclarationHolds(config: Config, w: World, start: int, end: int)
    requires config.Enabled() && start < end
    ensures var declare := [Declaration(start, end, start)];
            && After(config, w, declare) == Step(config, false, w, declare[0])
            && Holds(After(config, w, declare), OutageWindow(start, end, Declared))
            && After(config, w, declare).accepts == w.accepts
            && Restarts(declare) == 0
            && forall site, from, to :: Accepted(config, w, declare, site, from, to) == 0
  {
    var window := OutageWindow(start, end, Declared);
    assert [Declaration(start, end, start)][..0] == [];
    PruneContains(w.state.windows + [window], window, start, config.Grace());
  }

  /** Any run that leaves the window held, and then a burst with room for it. */
  lemma ThenBurst(config: Config, w: World, earlier: seq<Event>, window: OutageWindow, site: SiteKey, t: int, n: nat,
                  from: int, to: int)
    requires config.Enabled() && Holds(After(config, w, earlier), window) && Covers(window, t, config.Grace())
    requires n + Joined(CounterOf(After(config, w, earlier).accepts, site), t).count <= config.maxPerMin
    ensures var before, run := After(config, w, earlier), earlier + Claims(site, t, n);
            && Holds(After(config, w, run), window)
            && CounterOf(After(config, w, run).accepts, site) == Grown(CounterOf(before.accepts, site), t, n)
            && Accepted(config, w, run, site, from, to) ==
               Accepted(config, w, earlier, site, from, to) + (if from <= t < to then n else 0)
            && Restarts(run) == Restarts(earlier)
  {
    BurstAccepted(config, After(config, w, earlier), window, site, t, n, from, to);
    AfterJoins(config, w, earlier, Claims(site, t, n));
    AcceptedJoins(config, w, earlier, Claims(site, t, n), site, from, to);
  }

  lemma PrologueAccepted(config: Config, w: World, site: SiteKey, t: int)
    requires config.Enabled() && config.maxPerMin > 0 && w.accepts == map[]
    ensures var run := Prologue(site, t, config.maxPerMin);
            var r := After(config, w, run);
            && Holds(r, OutageWindow(t, t + 2 * MINUTE, Declared))
            && CounterOf(r.accepts, site) == Some(AcceptCounter(t, config.maxPerMin))
            && Accepted(config, w, run, site, t + 1, t + 1 + MINUTE) == config.maxPerMin - 1
            && Restarts(run) == 0
  {
    var window, declare := OutageWindow(t, t + 2 * MINUTE, Declared), [Declaration(t, t + 2 * MINUTE, t)];
    DeclarationHolds(config, w, t, t + 2 * MINUTE);
    ThenBurst(config, w, declare, window, site, t, 1, t + 1, t + 1 + MINUTE);
    ThenBurst(config, w, declare + Claims(site, t, 1), window, site, t + 1, config.maxPerMin - 1, t + 1, t + 1 + MINUTE);
  }

  lemma WorstRunAccepted(config: Config, site: SiteKey, t: int, restarts: nat)
    requires config.Enabled() && config.maxPerMin > 0
    ensures var run := WorstRun(config, site, t, restarts);
            && Restarts(run) == restarts
            && Accepted(config, FirstBoot(config, t), run, site, t + 1, t + 1 + MINUTE) ==
               config.maxPerMin - 1 + Times(restarts + 1, config.maxPerMin)
  {
    var cap, w, from, to := config.maxPerMin, FirstBoot(config, t), t + 1, t + 1 + MINUTE;
    PrologueAccepted(config, w, site, t);
    var opening, waves := Prologue(site, t, cap), Waves(site, t + MINUTE, cap, restarts);
    WavesAccepted(config, After(config, w, opening), OutageWindow(t, t + 2 * MINUTE, Declared), site, t + MINUTE,
                  restarts, from, to);
    AfterJoins(config, w, opening, waves);
    AcceptedJoins(config, w, opening, waves, site, from, to);
  }

  lemma WorstRunInOrder(config: Config, site: SiteKey, t: int, restarts: nat)
    requires config.maxPerMin > 0
    ensures InOrder(WorstRun(config, site, t, restarts))
  {
    WavesAtOnce(site, t + MINUTE, config.maxPerMin, restarts);
  }

  /** The bound is exact at one minute: for every cap and every number of restarts some run comes to one less. */
  lemma CapIsAttained(config: Config, site: SiteKey, t: int, restarts: nat)
    requires config.Enabled() && config.maxPerMin > 0
    ensures var run := WorstRun(config, site, t, restarts);
            && InOrder(run) && Restarts(run) == restarts && FirstBoot(config, t).accepts == map[]
            && Accepted(config, FirstBoot(config, t), run, site, t + 1, t + 1 + MINUTE) ==
               (restarts + 2) * config.maxPerMin - 1
  {
    WorstRunInOrder(config, site, t, restarts);
    WorstRunAccepted(config, site, t, restarts);
    TimesMultiplies(restarts + 2, config.maxPerMin);
  }

  /** With this many restarts, runs still respect the bound of a single lifetime. */
  ghost predicate KeepsSingleLifeBound(config: Config, restarts: nat) {
    forall w: World, events, site, from, to ::
      w.accepts == map[] && InOrder(events) && Restarts(events) == restarts && from <= to ==>
      Accepted(config, w, events, site, from, to) <= (CeilDiv(to - from, MINUTE) + 1) * config.maxPerMin
  }

  /** The single-lifetime bound survives exactly no restart, or one restart under a cap of one. */
  lemma SingleLifeBoundIff(config: Config, restarts: nat)
    requires config.Enabled() && config.maxPerMin > 0
    ensures KeepsSingleLifeBound(config, restarts) <==> restarts * config.maxPerMin <= 1
  {
    if restarts * config.maxPerMin <= 1 {
      FewRestartsKeepBound(config, restarts);
    } else {
      ManyRestartsBreakBound(config, restarts);
    }
  }

  lemma FewRestartsKeepBound(config: Config, restarts: nat)
    requires config.maxPerMin > 0 && restarts * config.maxPerMin <= 1
    ensures KeepsSingleLifeBound(config, restarts)
  {
    var cap := config.maxPerMin;
    forall w: World, events, site, from, to
      | w.accepts == map[] && InOrder(events) && Restarts(events) == restarts && from <= to
      ensures Accepted(config, w, events, site, from, to) <= (CeilDiv(to - from, MINUTE) + 1) * cap
    {
      AcceptCapAcrossRestarts(config, w, events, site, from, to);
      SplitProduct(CeilDiv(to - from, MINUTE) + 1, restarts, cap);
    }
  }

  lemma SplitProduct(a: int, b: int, cap: int)
    ensures (a + b) * cap == a * cap + b * cap
  {
  }

  lemma ManyRestartsBreakBound(config: Config, restarts: nat)
    requires config.Enabled() && config.maxPerMin > 0 && restarts * config.maxPerMin > 1
    ensures !KeepsSingleLifeBound(config, restarts)
  {
    var w, run := FirstBoot(config, 0), WorstRun(config, 0, 0, restarts);
    CapIsAttained(config, 0, 0, restarts);
    SplitProduct(restarts, 2, config.maxPerMin);
    assert CeilDiv(MINUTE, MINUTE) == 1;
    assert w.accepts == map[] && InOrder(run) && Restarts(run) == restarts;
    assert Accepted(config, w, run, 0, 1, 1 + MINUTE) > 2 * config.maxPerMin;
  }

  /** A run that breaks it: under a cap of one, three claims accepted at one instant around two restarts. */
  lemma RestartsBreakTheCap(config: Config, site: SiteKey, t: int)
    requires config.Enabled() && config.maxPerMin == 1
    ensures var run := [Declaration(t, t + MINUTE, t), Claim(site, Some(t), t), Restart(t),
                        Claim(site, Some(t), t), Restart(t), Claim(site, Some(t), t)];
            Accepted(config, FirstBoot(config, t), run, site, t, t + 1) == 3 > (CeilDiv(1, MINUTE) + 1) * config.maxPerMin
  {
    var w, declare := FirstBoot(config, t), [Declaration(t, t + MINUTE, t)];
    DeclarationHolds(config, w, t, t + MINUTE);
    WavesAccepted(config, After(config, w, declare), OutageWindow(t, t + MINUTE, Declared), site, t, 2, t, t + 1);
    AfterJoins(config, w, declare, Waves(site, t, 1, 2));
    AcceptedJoins(config, w, declare, Waves(site, t, 1, 2), site, t, t + 1);
    assert Waves(site, t, 1, 0) == [Claim(site, Some(t), t)];
    assert declare + Waves(site, t, 1, 2) ==
           [Declaration(t, t + MINUTE, t), Claim(site, Some(t), t), Restart(t),
            Claim(site, Some(t), t), Restart(t), Claim(site, Some(t), t)];
  }

  // ---- One outage ----------------------------------------------------------

  ghost predicate AllAre(windows: seq<OutageWindow>, only: OutageWindow) {
    forall x :: x in windows ==> x == only
  }

  /** Every window on hand, now and after any ticks and claims, is the one attested window. */
  lemma {:induction false} OnlyWindowStays(config: Config, w: World, events: seq<Event>, only: OutageWindow)
    requires forall i :: 0 <= i < |events| ==> events[i].Claim? || events[i].Tick?
    requires AllAre(w.state.windows, only)
    ensures AllAre(After(config, w, events).state.windows, only)
  {
    if events != [] {
      var n := |events| - 1;
      OnlyWindowStays(config, w, events[..n], only);
      if events[n].Tick? {
        var ws := After(config, w, events[..n]).state.windows;
        forall x | x in Prune(ws, events[n].now, config.Grace()) ensures x == only {
          PruneContains(ws, x, events[n].now, config.Grace());
        }
      }
    }
  }

  lemma {:induction false} AttestedIsHeld(windows: seq<OutageWindow>, now: int, grace: int)
    requires Attested(windows, now, grace).Some?
    ensures var w := Attested(windows, now, grace).value; w in windows && Covers(w, now, grace)
  {
    if !Covers(windows[0], now, grace) {
      AttestedIsHeld(windows[1..], now, grace);
    }
  }

  lemma {:induction false} AcceptsInsideWindow(config: Config, w: World, events: seq<Event>, site: SiteKey,
      only: OutageWindow, from: int, to: int)
    requires forall i :: 0 <= i < |events| ==> events[i].Claim? || events[i].Tick?
    requires AllAre(w.state.windows, only)
    requires from <= only.start && only.end + config.Grace() <= to
    ensures Accepted(config, w, events, site, from, to) ==
            Accepted(config, w, events, site, only.start, only.end + config.Grace())
  {
    if events != [] {
      var n := |events| - 1;
      var e := events[n];
      AcceptsInsideWindow(config, w, events[..n], site, only, from, to);
      var before := After(config, w, events[..n]);
      if e.Claim? && VerdictOf(config, before, e).value.Accept? {
        OnlyWindowStays(config, w, events[..n], only);
        AttestedIsHeld(before.state.windows, e.now, config.Grace());
      }
    }
  }

  /**
    Total exposure of one outage: while a single window is attested, the number
    of claims a site ever gets accepted has a closed-form bound in the window's
    length plus grace, however long the run and whatever the clients claim.
   */
  lemma OneOutageTotal(config: Config, w: World, events: seq<Event>, site: SiteKey, only: OutageWindow, from: int,
      to: int)
    requires config.maxPerMin > 0 && w.accepts == map[] && OneLife(events)
    requires forall i :: 0 <= i < |events| ==> events[i].Claim? || events[i].Tick?
    requires AllAre(w.state.windows, only)
    requires from <= only.start <= only.end + config.Grace() <= to
    ensures Accepted(config, w, events, site, from, to) <=
            (CeilDiv(only.end + config.Grace() - only.start, MINUTE) + 1) * config.maxPerMin
  {
    AcceptsInsideWindow(config, w, events, site, only, from, to);
    AcceptCap(config, w, events, site, only.start, only.end + config.Grace());
  }
}
