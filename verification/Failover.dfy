/**
  Client failover (src/failover/mod.rs): outage windows attested from persisted
  heartbeats or declared by an operator, and the rate-capped accept decision.
  Times are integer nanoseconds, passed in where the source reads the clock.
 */
module Failover {
  import opened Common

  const SECOND: int := 1_000_000_000
  const MINUTE: int := 60 * SECOND
  // Tolerance on a claim's own timestamp.
  const CLOCK_SKEW: int := 300 * SECOND

  datatype Source = HeartbeatGap | Declared

  datatype OutageWindow = OutageWindow(start: int, end: int, source: Source)

  datatype FailoverState = FailoverState(lastHeartbeat: Option<int>, windows: seq<OutageWindow>)

  datatype AcceptCounter = AcceptCounter(windowStart: int, count: nat)

  datatype Verdict = Accept(source: Source) | Disabled | Unattested | StaleClaim | RateLimited

  datatype Config = Config(enabled: bool, hasStatePath: bool, minGapSecs: nat, graceSecs: nat, maxPerMin: nat) {
    predicate Enabled() {
      enabled && hasStatePath
    }

    function Grace(): (g: int)
      ensures g >= 0
    {
      graceSecs * SECOND
    }

    function MinGap(): (g: int)
      ensures g >= 0
    {
      minGapSecs * SECOND
    }
  }

  const NOTHING_ATTESTED := FailoverState(None, [])

  predicate Covers(w: OutageWindow, now: int, grace: int) {
    w.start <= now < w.end + grace
  }

  function Prune(windows: seq<OutageWindow>, now: int, grace: int): seq<OutageWindow> {
    if windows == [] then []
    else (if Covers(windows[0], now, grace) then [windows[0]] else []) + Prune(windows[1..], now, grace)
  }

  /** The first window that covers now. */
  function Attested(windows: seq<OutageWindow>, now: int, grace: int): Option<OutageWindow> {
    if windows == [] then None
    else if Covers(windows[0], now, grace) then Some(windows[0])
    else Attested(windows[1..], now, grace)
  }

  /** Keep every window forever (the reference) or prune, as the guard does. */
  function Tidy(keepAll: bool, windows: seq<OutageWindow>, now: int, grace: int): seq<OutageWindow> {
    if keepAll then windows else Prune(windows, now, grace)
  }

  function Boot(config: Config, keepAll: bool, image: Option<FailoverState>, now: int): FailoverState {
    var s := if config.hasStatePath then image.GetOr(NOTHING_ATTESTED) else NOTHING_ATTESTED;
    var windows :=
      if s.lastHeartbeat.Some? && now - s.lastHeartbeat.value >= config.MinGap()
      then s.windows + [OutageWindow(s.lastHeartbeat.value, now, HeartbeatGap)]
      else s.windows;
    FailoverState(Some(now), Tidy(keepAll, windows, now, config.Grace()))
  }

  function Beat(config: Config, keepAll: bool, s: FailoverState, now: int): FailoverState {
    FailoverState(Some(now), Tidy(keepAll, s.windows, now, config.Grace()))
  }

  function Declare(config: Config, keepAll: bool, s: FailoverState, start: int, end: int, now: int): FailoverState {
    s.(windows := Tidy(keepAll, s.windows + [OutageWindow(start, end, Declared)], now, config.Grace()))
  }

  /** One admission: the counter afterwards and whether the claim fits under the cap. */
  function Admit(maxPerMin: nat, counter: Option<AcceptCounter>, now: int): (AcceptCounter, bool) {
    var c := if counter.None? || now - counter.value.windowStart >= MINUTE then AcceptCounter(now, 0) else counter.value;
    if c.count >= maxPerMin then (c, false) else (c.(count := c.count + 1), true)
  }

  predicate Stale(config: Config, issuedAt: Option<int>, now: int) {
    issuedAt.None? || issuedAt.value > now + CLOCK_SKEW || issuedAt.value < now - config.Grace() - CLOCK_SKEW
  }

  /** A claim that got past attestation and the timestamp filter: only the cap is left. */
  predicate ReachesCap(config: Config, windows: seq<OutageWindow>, issuedAt: Option<int>, now: int) {
    config.Enabled() && Attested(windows, now, config.Grace()).Some? && !Stale(config, issuedAt, now)
  }

  function Decide(config: Config, windows: seq<OutageWindow>, counter: Option<AcceptCounter>, issuedAt: Option<int>,
      now: int): Verdict {
    if !config.Enabled() then Disabled
    else match Attested(windows, now, config.Grace())
      case None => Unattested
      case Some(w) =>
        if Stale(config, issuedAt, now) then StaleClaim
        else if config.maxPerMin != 0 && !Admit(config.maxPerMin, counter, now).1 then RateLimited
        else Accept(w.source)
  }

  function CounterOf(accepts: map<SiteKey, AcceptCounter>, site: SiteKey): Option<AcceptCounter> {
    if site in accepts then Some(accepts[site]) else None
  }

  function AcceptsAfter(config: Config, windows: seq<OutageWindow>, accepts: map<SiteKey, AcceptCounter>,
                        site: SiteKey, issuedAt: Option<int>, now: int): map<SiteKey, AcceptCounter> {
    if ReachesCap(config, windows, issuedAt, now) && config.maxPerMin != 0
    then accepts[site := Admit(config.maxPerMin, CounterOf(accepts, site), now).0]
    else accepts
  }

  /** Looking at one more window moves it from the part to prune to the part kept, or drops it. */
  lemma PruneOne(windows: seq<OutageWindow>, i: nat, kept: seq<OutageWindow>, now: int, grace: int)
    requires i < |windows|
    ensures kept + Prune(windows[i..], now, grace) ==
            (if Covers(windows[i], now, grace) then kept + [windows[i]] else kept) + Prune(windows[i + 1..], now, grace)
  {
    assert windows[i..][1..] == windows[i + 1..];
    var rest := Prune(windows[i + 1..], now, grace);
    assert Prune(windows[i..], now, grace) == (if Covers(windows[i], now, grace) then [windows[i]] else []) + rest;
  }

  /** The state file: what survives a crash. */
  class StateFile {
    var image: Option<FailoverState>

    constructor ()
      ensures image == None
    {
      image := None;
    }
  }

  class FailoverGuard {
    const config: Config
    const file: StateFile
    var lastHeartbeat: Option<int>
    var windows: seq<OutageWindow>
    var accepts: map<SiteKey, AcceptCounter>
    var acceptedTotal: nat
    var refusedTotal: nat

    ghost function View(): FailoverState
      reads this
    {
      FailoverState(lastHeartbeat, windows)
    }

    /** Boot: read the file, attest a heartbeat gap, prune, write the file back. */
    constructor Load(config: Config, file: StateFile, now: int, writeOk: bool)
      modifies file
      ensures this.config == config && this.file == file
      ensures View() == Boot(config, false, old(file.image), now)
      ensures lastHeartbeat == Some(now)
      ensures var read := if config.hasStatePath then old(file.image).GetOr(NOTHING_ATTESTED) else NOTHING_ATTESTED;
              forall w :: w in windows <==>
                && w.start <= now < w.end + config.graceSecs * 1_000_000_000
                && (w in read.windows ||
                    (read.lastHeartbeat.Some? && w == OutageWindow(read.lastHeartbeat.value, now, HeartbeatGap) &&
                     now - read.lastHeartbeat.value >= config.minGapSecs * 1_000_000_000))
      ensures accepts == map[] && acceptedTotal == 0 && refusedTotal == 0
      ensures file.image == if config.hasStatePath && writeOk then Some(View()) else old(file.image)
    {
      var state := NOTHING_ATTESTED;
      if config.hasStatePath && file.image.Some? {
        state := file.image.value;
      }
      if state.lastHeartbeat.Some? {
        var last := state.lastHeartbeat.value;
        if now - last >= config.MinGap() {
          state := state.(windows := state.windows + [OutageWindow(last, now, HeartbeatGap)]);
        }
      }
      this.config := config;
      this.file := file;
      lastHeartbeat := Some(now);
      windows := Prune(state.windows, now, config.Grace());
      accepts, acceptedTotal, refusedTotal := map[], 0, 0;
      new;
      PruneMembers(state.windows, now, config.Grace());
      Persist(writeOk);
    }

    method Persist(writeOk: bool)
      modifies file
      ensures file.image == if config.hasStatePath && writeOk then Some(View()) else old(file.image)
    {
      if config.hasStatePath && writeOk {
        file.image := Some(FailoverState(lastHeartbeat, windows));
      }
    }

    /** `Vec::retain` over the window list, in place on the guard's field. */
    method PruneWindows(now: int)
      modifies this`windows
      ensures windows == Prune(old(windows), now, config.Grace())
      ensures forall w :: w in windows <==>
                w in old(windows) && w.start <= now < w.end + config.graceSecs * 1_000_000_000
    {
      PruneMembers(windows, now, config.Grace());
      var kept := [];
      var i := 0;
      while i < |windows|
        invariant 0 <= i <= |windows| && windows == old(windows)
        invariant Prune(windows, now, config.Grace()) == kept + Prune(windows[i..], now, config.Grace())
      {
        PruneOne(windows, i, kept, now, config.Grace());
        if Covers(windows[i], now, config.Grace()) {
          kept := kept + [windows[i]];
        }
        i := i + 1;
      }
      windows := kept;
    }

    method Heartbeat(now: int, writeOk: bool)
      modifies this`lastHeartbeat, this`windows, file
      ensures View() == Beat(config, false, old(View()), now)
      ensures lastHeartbeat == Some(now)
      ensures forall w :: w in windows <==>
                w in old(windows) && w.start <= now < w.end + config.graceSecs * 1_000_000_000
      ensures file.image == if config.hasStatePath && writeOk then Some(View()) else old(file.image)
    {
      lastHeartbeat := Some(now);
      PruneWindows(now);
      Persist(writeOk);
    }

    method DeclareOutage(start: int, end: int, now: int, writeOk: bool)
      modifies this`windows, file
      ensures View() == Declare(config, false, old(View()), start, end, now)
      ensures lastHeartbeat == old(lastHeartbeat)
      ensures forall w :: w in windows <==>
                && w.start <= now < w.end + config.graceSecs * 1_000_000_000
                && (w in old(windows) || w == OutageWindow(start, end, Declared))
      ensures file.image == if config.hasStatePath && writeOk then Some(View()) else old(file.image)
    {
      windows := windows + [OutageWindow(start, end, Declared)];
      PruneWindows(now);
      Persist(writeOk);
    }

    /** Decide one claim and count the outcome. */
    method Evaluate(site: SiteKey, issuedAt: Option<int>, now: int) returns (verdict: Verdict)
      modifies this`accepts, this`acceptedTotal, this`refusedTotal
      ensures verdict == Decide(config, windows, CounterOf(old(accepts), site), issuedAt, now)
      ensures accepts == AcceptsAfter(config, windows, old(accepts), site, issuedAt, now)
      ensures acceptedTotal == old(acceptedTotal) + (if verdict.Accept? then 1 else 0)
      ensures acceptedTotal + refusedTotal == old(acceptedTotal + refusedTotal) + 1
    {
      verdict := EvaluateAt(site, issuedAt, now);
      if verdict.Accept? {
        acceptedTotal := acceptedTotal + 1;
      } else {
        refusedTotal := refusedTotal + 1;
      }
    }

    method EvaluateAt(site: SiteKey, issuedAt: Option<int>, now: int) returns (verdict: Verdict)
      modifies this`accepts
      ensures verdict == Decide(config, windows, CounterOf(old(accepts), site), issuedAt, now)
      ensures accepts == AcceptsAfter(config, windows, old(accepts), site, issuedAt, now)
    {
      if !config.Enabled() {
        return Disabled;
      }
      var i := 0;
      while i < |windows| && !Covers(windows[i], now, config.Grace())
        invariant 0 <= i <= |windows|
        invariant Attested(windows, now, config.Grace()) == Attested(windows[i..], now, config.Grace())
      {
        assert windows[i..][1..] == windows[i + 1..];
        i := i + 1;
      }
      if i == |windows| {
        return Unattested;
      }
      if Stale(config, issuedAt, now) {
        return StaleClaim;
      }
      var admitted := AdmitClaim(site, now);
      if !admitted {
        return RateLimited;
      }
      return Accept(windows[i].source);
    }

    method AdmitClaim(site: SiteKey, now: int) returns (ok: bool)
      modifies this`accepts
      ensures config.maxPerMin == 0 ==> ok && accepts == old(accepts)
      ensures config.maxPerMin != 0 ==>
        var (c, admitted) := Admit(config.maxPerMin, CounterOf(old(accepts), site), now);
        ok == admitted && accepts == old(accepts)[site := c]
    {
      if config.maxPerMin == 0 {
        return true;
      }
      var entry := if site in accepts then accepts[site] else AcceptCounter(now, 0);
      if now - entry.windowStart >= MINUTE {
        entry := AcceptCounter(now, 0);
      }
      ok := entry.count < config.maxPerMin;
      if ok {
        entry := entry.(count := entry.count + 1);
      }
      accepts := accepts[site := entry];
    }
  }

  // ---- The decision in numbers ---------------------------------------------

  /** Some window covers now, in nanoseconds and with the grace tail in seconds. */
  ghost predicate Covered(windows: seq<OutageWindow>, now: int, graceSecs: nat) {
    exists i :: 0 <= i < |windows| && windows[i].start <= now < windows[i].end + graceSecs * 1_000_000_000
  }

  lemma {:induction false} AttestedIsFirst(windows: seq<OutageWindow>, now: int, grace: int)
    ensures var w := Attested(windows, now, grace);
            if w.None? then forall i :: 0 <= i < |windows| ==> !(windows[i].start <= now < windows[i].end + grace)
            else exists i ::
              && 0 <= i < |windows| && windows[i] == w.value && windows[i].start <= now < windows[i].end + grace
              && forall j :: 0 <= j < i ==> !(windows[j].start <= now < windows[j].end + grace)
  {
    if windows != [] && !Covers(windows[0], now, grace) {
      AttestedIsFirst(windows[1..], now, grace);
      var rest := windows[1..];
      assert forall i :: 0 < i < |windows| ==> windows[i] == rest[i - 1];
      if Attested(rest, now, grace).Some? {
        var i :| && 0 <= i < |rest| && rest[i] == Attested(rest, now, grace).value
                 && rest[i].start <= now < rest[i].end + grace
                 && forall j :: 0 <= j < i ==> !(rest[j].start <= now < rest[j].end + grace);
        assert windows[i + 1] == rest[i];
      }
    }
  }

  /**
    The whole verdict, in the units of the configuration: five minutes of clock
    skew either way, the grace tail behind, sixty-second counting windows, and
    the source of the first window that covers now.
   */
  lemma VerdictInNumbers(config: Config, windows: seq<OutageWindow>, counter: Option<AcceptCounter>,
                         issuedAt: Option<int>, now: int)
    ensures var v := Decide(config, windows, counter, issuedAt, now);
            var open := config.enabled && config.hasStatePath;
            var covered := Covered(windows, now, config.graceSecs);
            var timely := issuedAt.Some? && issuedAt.value <= now + 300_000_000_000 &&
                          issuedAt.value >= now - config.graceSecs * 1_000_000_000 - 300_000_000_000;
            var full := config.maxPerMin > 0 && counter.Some? &&
                        now - counter.value.windowStart < 60_000_000_000 && counter.value.count >= config.maxPerMin;
            && (v.Disabled? <==> !open)
            && (v.Unattested? <==> open && !covered)
            && (v.StaleClaim? <==> open && covered && !timely)
            && (v.RateLimited? <==> open && covered && timely && full)
            && (v.Accept? <==> open && covered && timely && !full)
            && (v.Accept? ==> exists i ::
                  && 0 <= i < |windows| && v.source == windows[i].source
                  && windows[i].start <= now < windows[i].end + config.graceSecs * 1_000_000_000
                  && !Covered(windows[..i], now, config.graceSecs))
  {
    AttestedIsFirst(windows, now, config.Grace());
    if Attested(windows, now, config.Grace()).Some? {
      var i :| && 0 <= i < |windows| && windows[i] == Attested(windows, now, config.Grace()).value
               && windows[i].start <= now < windows[i].end + config.Grace()
               && forall j :: 0 <= j < i ==> !(windows[j].start <= now < windows[j].end + config.Grace());
      assert !Covered(windows[..i], now, config.graceSecs);
    }
  }

  /** The counters after a claim: only a claim decided by the cap moves one, its own site's, in sixty-second windows. */
  lemma CountersInNumbers(config: Config, windows: seq<OutageWindow>, accepts: map<SiteKey, AcceptCounter>,
                          site: SiteKey, issuedAt: Option<int>, now: int)
    ensures var v := Decide(config, windows, CounterOf(accepts, site), issuedAt, now);
            var after := AcceptsAfter(config, windows, accepts, site, issuedAt, now);
            var joins := site in accepts && now - accepts[site].windowStart < 60_000_000_000;
            if !v.Accept? || config.maxPerMin == 0 then after == accepts
            else after == accepts[site := if joins then AcceptCounter(accepts[site].windowStart, accepts[site].count + 1)
                                          else AcceptCounter(now, 1)]
  {
    assert site in accepts ==> accepts[site := accepts[site]] == accepts;
  }

  lemma {:induction false} PruneMembers(windows: seq<OutageWindow>, now: int, grace: int)
    ensures forall w :: w in Prune(windows, now, grace) <==> w in windows && w.start <= now < w.end + grace
  {
    forall w ensures w in Prune(windows, now, grace) <==> w in windows && w.start <= now < w.end + grace {
      PruneContains(windows, w, now, grace);
    }
  }

  // ---- Whole runs ----------------------------------------------------------

  datatype Event =
    | Restart(now: int)
    | Tick(now: int)
    | Declaration(start: int, end: int, now: int)
    | Claim(site: SiteKey, issuedAt: Option<int>, now: int)

  /** A running guard and its file, every write having succeeded. */
  datatype World = World(state: FailoverState, accepts: map<SiteKey, AcceptCounter>, image: Option<FailoverState>)

  function Saved(config: Config, s: FailoverState, accepts: map<SiteKey, AcceptCounter>): World {
    World(s, accepts, if config.hasStatePath then Some(s) else None)
  }

  function Step(config: Config, keepAll: bool, w: World, e: Event): World {
    match e
    case Restart(now) => Saved(config, Boot(config, keepAll, w.image, now), map[])
    case Tick(now) => Saved(config, Beat(config, keepAll, w.state, now), w.accepts)
    case Declaration(start, end, now) => Saved(config, Declare(config, keepAll, w.state, start, end, now), w.accepts)
    case Claim(site, issuedAt, now) => w.(accepts := AcceptsAfter(config, w.state.windows, w.accepts, site, issuedAt, now))
  }

  function VerdictOf(config: Config, w: World, e: Event): Option<Verdict> {
    match e
    case Claim(site, issuedAt, now) => Some(Decide(config, w.state.windows, CounterOf(w.accepts, site), issuedAt, now))
    case _ => None
  }

  /** What every event of a run answered. */
  ghost function Verdicts(config: Config, keepAll: bool, w: World, events: seq<Event>): seq<Option<Verdict>>
    decreases |events|
  {
    if events == [] then []
    else [VerdictOf(config, w, events[0])] + Verdicts(config, keepAll, Step(config, keepAll, w, events[0]), events[1..])
  }

  ghost predicate Timely(clock: int, events: seq<Event>) {
    && (forall i :: 0 <= i < |events| ==> clock <= events[i].now)
    && (forall i, j :: 0 <= i < j < |events| ==> events[i].now <= events[j].now)
    && (forall i :: 0 <= i < |events| && events[i].Declaration? ==> events[i].start <= events[i].now)
  }

  /** The part of a window list that can still cover some moment from `clock` on. */
  ghost function Live(windows: seq<OutageWindow>, clock: int, grace: int): seq<OutageWindow> {
    if windows == [] then []
    else (if clock < windows[0].end + grace then [windows[0]] else []) + Live(windows[1..], clock, grace)
  }

  ghost predicate Started(windows: seq<OutageWindow>, clock: int) {
    forall i :: 0 <= i < |windows| ==> windows[i].start <= clock
  }

  lemma {:induction false} LiveAppend(a: seq<OutageWindow>, b: seq<OutageWindow>, clock: int, grace: int)
    ensures Live(a + b, clock, grace) == Live(a, clock, grace) + Live(b, clock, grace)
  {
    if a == [] {
      assert a + b == b;
    } else {
      assert (a + b)[1..] == a[1..] + b;
      LiveAppend(a[1..], b, clock, grace);
    }
  }

  lemma {:induction false} LiveLater(windows: seq<OutageWindow>, clock: int, later: int, grace: int)
    requires clock <= later
    ensures Live(Live(windows, clock, grace), later, grace) == Live(windows, later, grace)
  {
    if windows != [] {
      LiveLater(windows[1..], clock, later, grace);
      LiveAppend(if clock < windows[0].end + grace then [windows[0]] else [], Live(windows[1..], clock, grace), later, grace);
    }
  }

  lemma {:induction false} LiveKeepsStarted(windows: seq<OutageWindow>, clock: int, grace: int, bound: int)
    requires Started(windows, bound)
    ensures Started(Live(windows, clock, grace), bound)
  {
    if windows != [] {
      LiveKeepsStarted(windows[1..], clock, grace, bound);
    }
  }

  /** Once every window has started, pruning removes only what can never cover again. */
  lemma {:induction false} PruneIsLive(windows: seq<OutageWindow>, now: int, grace: int)
    requires Started(windows, now)
    ensures Prune(windows, now, grace) == Live(windows, now, grace)
  {
    if windows != [] {
      PruneIsLive(windows[1..], now, grace);
    }
  }

  lemma {:induction false} AttestedByLive(windows: seq<OutageWindow>, now: int, grace: int)
    ensures Attested(windows, now, grace) == Attested(Live(windows, now, grace), now, grace)
  {
    if windows != [] {
      AttestedByLive(windows[1..], now, grace);
      if now < windows[0].end + grace {
        assert Live(windows, now, grace)[1..] == Live(windows[1..], now, grace);
      } else {
        assert Live(windows, now, grace) == Live(windows[1..], now, grace);
      }
    }
  }

  /** Pruned and unpruned windows that agree on everything still able to matter. */
  ghost predicate SameFuture(a: FailoverState, b: FailoverState, clock: int, grace: int) {
    && a.lastHeartbeat == b.lastHeartbeat
    && (a.lastHeartbeat.Some? ==> a.lastHeartbeat.value <= clock)
    && Started(a.windows, clock) && Started(b.windows, clock)
    && Live(a.windows, clock, grace) == Live(b.windows, clock, grace)
  }

  ghost predicate Related(config: Config, a: World, b: World, clock: int) {
    && SameFuture(a.state, b.state, clock, config.Grace())
    && a.accepts == b.accepts
    && a.image.Some? == b.image.Some?
    && (a.image.Some? ==> SameFuture(a.image.value, b.image.value, clock, config.Grace()))
  }

  lemma SameFutureLater(a: FailoverState, b: FailoverState, clock: int, later: int, grace: int)
    requires SameFuture(a, b, clock, grace) && clock <= later
    ensures SameFuture(a, b, later, grace)
  {
    LiveLater(a.windows, clock, later, grace);
    LiveLater(b.windows, clock, later, grace);
  }

  /** Pruning one side, and adding the same started window to both, keeps the futures equal. */
  lemma TidyKeepsFuture(a: seq<OutageWindow>, b: seq<OutageWindow>, added: seq<OutageWindow>, now: int, grace: int)
    requires Started(a, now) && Started(b, now) && Started(added, now)
    requires Live(a, now, grace) == Live(b, now, grace)
    ensures var pruned := Prune(a + added, now, grace);
            Started(pruned, now) && Started(b + added, now) && Live(pruned, now, grace) == Live(b + added, now, grace)
  {
    LiveAppend(a, added, now, grace);
    LiveAppend(b, added, now, grace);
    PruneIsLive(a + added, now, grace);
    LiveLater(a + added, now, now, grace);
    LiveKeepsStarted(a + added, now, grace, now);
  }

  /** Both guards at the next event, before it happens. */
  lemma RelatedLater(config: Config, a: World, b: World, clock: int, now: int)
    requires Related(config, a, b, clock) && clock <= now
    ensures Related(config, a, b, now)
  {
    SameFutureLater(a.state, b.state, clock, now, config.Grace());
    if a.image.Some? {
      SameFutureLater(a.image.value, b.image.value, clock, now, config.Grace());
    }
  }

  lemma RestartKeepsRelated(config: Config, a: World, b: World, now: int)
    requires Related(config, a, b, now)
    ensures Related(config, Step(config, false, a, Restart(now)), Step(config, true, b, Restart(now)), now)
  {
    var s := if config.hasStatePath then a.image.GetOr(NOTHING_ATTESTED) else NOTHING_ATTESTED;
    var t := if config.hasStatePath then b.image.GetOr(NOTHING_ATTESTED) else NOTHING_ATTESTED;
    var added :=
      if s.lastHeartbeat.Some? && now - s.lastHeartbeat.value >= config.MinGap()
      then [OutageWindow(s.lastHeartbeat.value, now, HeartbeatGap)] else [];
    assert s.windows + [] == s.windows && t.windows + [] == t.windows;
    TidyKeepsFuture(s.windows, t.windows, added, now, config.Grace());
  }

  lemma TickKeepsRelated(config: Config, a: World, b: World, now: int)
    requires Related(config, a, b, now)
    ensures Related(config, Step(config, false, a, Tick(now)), Step(config, true, b, Tick(now)), now)
  {
    assert a.state.windows + [] == a.state.windows && b.state.windows + [] == b.state.windows;
    TidyKeepsFuture(a.state.windows, b.state.windows, [], now, config.Grace());
  }

  lemma DeclarationKeepsRelated(config: Config, a: World, b: World, start: int, end: int, now: int)
    requires Related(config, a, b, now) && start <= now
    ensures Related(config, Step(config, false, a, Declaration(start, end, now)),
                    Step(config, true, b, Declaration(start, end, now)), now)
  {
    TidyKeepsFuture(a.state.windows, b.state.windows, [OutageWindow(start, end, Declared)], now, config.Grace());
  }

  /** A claim is decided by the windows that can still cover, which the two guards share. */
  lemma ClaimAnswersAlike(config: Config, a: World, b: World, site: SiteKey, issuedAt: Option<int>, now: int)
    requires Related(config, a, b, now)
    ensures VerdictOf(config, a, Claim(site, issuedAt, now)) == VerdictOf(config, b, Claim(site, issuedAt, now))
    ensures Related(config, Step(config, false, a, Claim(site, issuedAt, now)),
                    Step(config, true, b, Claim(site, issuedAt, now)), now)
  {
    AttestedByLive(a.state.windows, now, config.Grace());
    AttestedByLive(b.state.windows, now, config.Grace());
  }

  lemma StepKeepsRelated(config: Config, a: World, b: World, clock: int, e: Event)
    requires Related(config, a, b, clock) && clock <= e.now && (e.Declaration? ==> e.start <= e.now)
    ensures VerdictOf(config, a, e) == VerdictOf(config, b, e)
    ensures Related(config, Step(config, false, a, e), Step(config, true, b, e), e.now)
  {
    RelatedLater(config, a, b, clock, e.now);
    match e
    case Restart(now) => RestartKeepsRelated(config, a, b, now);
    case Tick(now) => TickKeepsRelated(config, a, b, now);
    case Declaration(start, end, now) => DeclarationKeepsRelated(config, a, b, start, end, now);
    case Claim(site, issuedAt, now) => ClaimAnswersAlike(config, a, b, site, issuedAt, now);
  }

  /** Related guards stay related, so they answer alike to the end of any run. */
  lemma {:induction false} RelatedAnswerAlike(config: Config, a: World, b: World, clock: int, events: seq<Event>)
    requires Related(config, a, b, clock) && Timely(clock, events)
    ensures Verdicts(config, false, a, events) == Verdicts(config, true, b, events)
    decreases |events|
  {
    if events != [] {
      var e := events[0];
      StepKeepsRelated(config, a, b, clock, e);
      RelatedAnswerAlike(config, Step(config, false, a, e), Step(config, true, b, e), e.now, events[1..]);
    }
  }

  /** Before the first boot: no file, no windows, no counters. */
  const NEVER_RAN := World(NOTHING_ATTESTED, map[], None)

  /**
    From the very first boot on, across any sequence of boots, ticks,
    declarations and claims, the guard that prunes and reloads answers every
    claim exactly as one that never forgets.
   */
  lemma FailoverRefinement(config: Config, clock: int, events: seq<Event>)
    requires Timely(clock, events)
    ensures Verdicts(config, false, NEVER_RAN, events) == Verdicts(config, true, NEVER_RAN, events)
  {
    assert Related(config, NEVER_RAN, NEVER_RAN, clock);
    RelatedAnswerAlike(config, NEVER_RAN, NEVER_RAN, clock, events);
  }

  lemma {:induction false} PruneContains(windows: seq<OutageWindow>, w: OutageWindow, now: int, grace: int)
    ensures w in Prune(windows, now, grace) <==> w in windows && Covers(w, now, grace)
  {
    if windows != [] {
      PruneContains(windows[1..], w, now, grace);
      assert w in windows <==> w == windows[0] || w in windows[1..];
    }
  }

  /**
    Why a declaration must not start in the future. The prune that follows a
    declaration keeps the window available for every later moment it covers
    exactly when it has already started (or covers nothing at all).
   */
  lemma DeclarationKeptIff(config: Config, s: FailoverState, start: int, end: int, now: int)
    ensures var w := OutageWindow(start, end, Declared);
            (forall t :: now <= t && Covers(w, t, config.Grace()) ==> w in Declare(config, false, s, start, end, now).windows)
            <==> start <= now || end + config.Grace() <= start
  {
    var w := OutageWindow(start, end, Declared);
    PruneContains(s.windows + [w], w, now, config.Grace());
    if now < start < end + config.Grace() {
      assert Covers(w, start, config.Grace());
    }
  }

  /** The concrete loss: a window declared for one minute ahead is gone before it opens. */
  lemma FutureDeclarationLost(config: Config, now: int)
    requires config.Enabled()
    ensures var s := FailoverState(Some(now), []);
            var start, end := now + MINUTE, now + 2 * MINUTE;
            && Decide(config, Declare(config, true, s, start, end, now).windows, None, Some(start), start) == Accept(Declared)
            && Decide(config, Declare(config, false, s, start, end, now).windows, None, Some(start), start) == Unattested
  {
    var w := OutageWindow(now + MINUTE, now + 2 * MINUTE, Declared);
    assert [] + [w] == [w];
    assert Prune([w], now, config.Grace()) == [] + Prune([], now, config.Grace());
    assert Attested([w], now + MINUTE, config.Grace()) == Some(w);
    assert config.maxPerMin != 0 ==> Admit(config.maxPerMin, None, now + MINUTE).1;
  }
}
