/**
  What failover attests over whole process histories: the heartbeat windows of
  src/failover/mod.rs against the process's real lifetimes, with declarations
  and claims in between.
 */
module FailoverOutages {
  import opened Common
  import opened Failover

  /** One process lifetime: boot, what the guard was asked to do, and the moment it died. */
  datatype Life = Life(boot: int, events: seq<Event>, death: int)

  ghost function Ticks(events: seq<Event>): seq<int> {
    if events == [] then []
    else
      var e := events[|events| - 1];
      Ticks(events[..|events| - 1]) + if e.Tick? then [e.now] else []
  }

  /** The last heartbeat before the death, the boot itself counting as one. */
  ghost function LastSeen(boot: int, events: seq<Event>): int {
    var ticks := Ticks(events);
    if ticks == [] then boot else ticks[|ticks| - 1]
  }

  /** Heartbeats run from boot to death, never more than `interval` apart. */
  ghost predicate Ticking(l: Life, interval: int) {
    var seen := [l.boot] + Ticks(l.events) + [l.death];
    && (forall i :: 0 <= i < |seen| - 1 ==> seen[i] <= seen[i + 1] <= seen[i] + interval)
    && (forall i :: 0 <= i < |l.events| ==> !l.events[i].Restart?)
  }

  ghost predicate History(lives: seq<Life>, interval: int) {
    && (forall i :: 0 <= i < |lives| ==> Ticking(lives[i], interval))
    && (forall i :: 0 <= i < |lives| - 1 ==> lives[i].death <= lives[i + 1].boot)
  }

  ghost function AfterEvents(config: Config, keepAll: bool, w: World, events: seq<Event>): World {
    if events == [] then w
    else Step(config, keepAll, AfterEvents(config, keepAll, w, events[..|events| - 1]), events[|events| - 1])
  }

  /** The guard and its file after a whole history, every write having succeeded. */
  ghost function AfterLives(config: Config, keepAll: bool, lives: seq<Life>): World
    decreases |lives|, 1
  {
    if lives == [] then NEVER_RAN
    else AfterEvents(config, keepAll, AtBoot(config, keepAll, lives), lives[|lives| - 1].events)
  }

  /** The guard just after the last boot of a history. */
  ghost function AtBoot(config: Config, keepAll: bool, lives: seq<Life>): World
    requires lives != []
    decreases |lives|, 0
  {
    Step(config, keepAll, AfterLives(config, keepAll, lives[..|lives| - 1]), Restart(lives[|lives| - 1].boot))
  }

  /** The guard after the first k events of its last life: every point of every run is one of these. */
  ghost function AtPoint(config: Config, keepAll: bool, lives: seq<Life>, k: nat): World
    requires lives != [] && k <= |lives[|lives| - 1].events|
  {
    AfterEvents(config, keepAll, AtBoot(config, keepAll, lives), lives[|lives| - 1].events[..k])
  }

  /** How long the process was alive inside [from, to). */
  ghost function LiveTime(lives: seq<Life>, from: int, to: int): int {
    if lives == [] then 0
    else
      var l := lives[|lives| - 1];
      LiveTime(lives[..|lives| - 1], from, to) + Max(0, Min(l.death, to) - Max(l.boot, from))
  }

  // ---- Lives in order ------------------------------------------------------

  lemma {:induction false} SeenMonotone(seen: seq<int>, interval: int, i: nat, j: nat)
    requires i <= j < |seen|
    requires forall k :: 0 <= k < |seen| - 1 ==> seen[k] <= seen[k + 1] <= seen[k] + interval
    ensures seen[i] <= seen[j]
  {
    if i < j {
      SeenMonotone(seen, interval, i, j - 1);
    }
  }

  lemma LifeAdvances(l: Life, interval: int)
    requires Ticking(l, interval)
    ensures l.boot <= LastSeen(l.boot, l.events) <= l.death <= LastSeen(l.boot, l.events) + interval
  {
    var ticks := Ticks(l.events);
    var seen := [l.boot] + ticks + [l.death];
    SeenMonotone(seen, interval, 0, |ticks|);
    assert seen[|ticks|] == LastSeen(l.boot, l.events) && seen[|ticks| + 1] == l.death;
  }

  lemma {:induction false} LifeStarts(lives: seq<Life>, interval: int, i: nat, j: nat)
    requires History(lives, interval) && i < j < |lives|
    ensures lives[i].death <= lives[j].boot
  {
    if i + 1 < j {
      LifeStarts(lives, interval, i, j - 1);
      LifeAdvances(lives[j - 1], interval);
    }
  }

  // ---- Windows that heartbeats attest --------------------------------------

  /** The gap between life i and the next, when it is long enough to attest. */
  ghost predicate IsGap(lives: seq<Life>, config: Config, i: nat, w: OutageWindow) {
    && i + 1 < |lives|
    && w == OutageWindow(LastSeen(lives[i].boot, lives[i].events), lives[i + 1].boot, HeartbeatGap)
    && w.end - w.start >= config.MinGap()
  }

  ghost predicate SomeGap(config: Config, lives: seq<Life>, w: OutageWindow) {
    exists i: nat :: IsGap(lives, config, i, w)
  }

  /** Heartbeat windows follow one another without overlap, whatever is declared among them. */
  ghost predicate Disjoint(windows: seq<OutageWindow>) {
    forall i, j :: 0 <= i < j < |windows| && windows[i].source.HeartbeatGap? && windows[j].source.HeartbeatGap? ==>
      windows[i].end <= windows[j].start
  }

  /** Each heartbeat window is a gap of this history, over by its last boot. */
  ghost predicate Attests(config: Config, lives: seq<Life>, windows: seq<OutageWindow>)
    requires lives != []
  {
    && Disjoint(windows)
    && forall w :: w in windows && w.source.HeartbeatGap? ==>
         SomeGap(config, lives, w) && w.end <= lives[|lives| - 1].boot
  }

  lemma {:induction false} PruneKeepsDisjoint(windows: seq<OutageWindow>, now: int, grace: int)
    requires Disjoint(windows)
    ensures Disjoint(Prune(windows, now, grace))
  {
    if windows != [] {
      PruneKeepsDisjoint(windows[1..], now, grace);
      forall w | w in Prune(windows[1..], now, grace) && w.source.HeartbeatGap? && windows[0].source.HeartbeatGap?
        ensures windows[0].end <= w.start
      {
        PruneContains(windows[1..], w, now, grace);
      }
    }
  }

  lemma TidyKeepsAttests(config: Config, keepAll: bool, lives: seq<Life>, windows: seq<OutageWindow>, now: int)
    requires lives != [] && Attests(config, lives, windows)
    ensures Attests(config, lives, Tidy(keepAll, windows, now, config.Grace()))
  {
    if !keepAll {
      PruneKeepsDisjoint(windows, now, config.Grace());
      forall w | w in Prune(windows, now, config.Grace()) ensures w in windows {
        PruneContains(windows, w, now, config.Grace());
      }
    }
  }

  /** The guard's file holds its state, whose heartbeat is the last one seen. */
  ghost predicate OnFile(w: World, seen: int) {
    w.image == Some(w.state) && w.state.lastHeartbeat == Some(seen)
  }

  /** Ticks, declarations and claims forget windows and declare new ones, but attest none. */
  lemma {:induction false} EventsKeepAttests(config: Config, keepAll: bool, lives: seq<Life>, w: World, boot: int,
                                             events: seq<Event>)
    requires config.hasStatePath && lives != [] && Attests(config, lives, w.state.windows) && OnFile(w, boot)
    requires forall i :: 0 <= i < |events| ==> !events[i].Restart?
    ensures var r := AfterEvents(config, keepAll, w, events);
            Attests(config, lives, r.state.windows) && OnFile(r, LastSeen(boot, events))
  {
    if events != [] {
      var n := |events| - 1;
      EventsKeepAttests(config, keepAll, lives, w, boot, events[..n]);
      var before := AfterEvents(config, keepAll, w, events[..n]).state.windows;
      match events[n]
      case Tick(now) => TidyKeepsAttests(config, keepAll, lives, before, now);
      case Declaration(start, end, now) =>
        TidyKeepsAttests(config, keepAll, lives, before + [OutageWindow(start, end, Declared)], now);
      case Claim(_, _, _) =>
    }
  }

  lemma GapsCarry(config: Config, lives: seq<Life>, w: OutageWindow)
    requires lives != [] && SomeGap(config, lives[..|lives| - 1], w)
    ensures SomeGap(config, lives, w)
  {
    var i: nat :| IsGap(lives[..|lives| - 1], config, i, w);
    assert IsGap(lives, config, i, w);
  }

  /** A boot attests at most the gap it has just found. */
  lemma BootAttests(config: Config, keepAll: bool, lives: seq<Life>, interval: int, before: World)
    requires config.hasStatePath && History(lives, interval) && |lives| >= 2
    requires var l := lives[|lives| - 2];
             && Attests(config, lives[..|lives| - 1], before.state.windows) && OnFile(before, LastSeen(l.boot, l.events))
    ensures var r := Step(config, keepAll, before, Restart(lives[|lives| - 1].boot));
            Attests(config, lives, r.state.windows) && OnFile(r, lives[|lives| - 1].boot)
  {
    var n := |lives| - 2;
    var gap := OutageWindow(LastSeen(lives[n].boot, lives[n].events), lives[n + 1].boot, HeartbeatGap);
    LifeAdvances(lives[n], interval);
    var held := before.state.windows;
    forall w | w in held && w.source.HeartbeatGap?
      ensures SomeGap(config, lives, w) && w.end <= gap.start && w.end <= lives[n + 1].boot
    {
      GapsCarry(config, lives, w);
    }
    assert Attests(config, lives, held);
    if gap.end - gap.start >= config.MinGap() {
      assert IsGap(lives, config, n, gap);
      assert Attests(config, lives, held + [gap]);
      TidyKeepsAttests(config, keepAll, lives, held + [gap], gap.end);
    } else {
      TidyKeepsAttests(config, keepAll, lives, held, gap.end);
    }
  }

  lemma {:induction false} AttestedAtBoot(config: Config, keepAll: bool, lives: seq<Life>, interval: int)
    requires config.hasStatePath && History(lives, interval) && lives != []
    ensures var w := AtBoot(config, keepAll, lives);
            Attests(config, lives, w.state.windows) && OnFile(w, lives[|lives| - 1].boot)
  {
    var n := |lives| - 1;
    if n > 0 {
      var before := lives[..n];
      AttestedAtBoot(config, keepAll, before, interval);
      EventsKeepAttests(config, keepAll, before, AtBoot(config, keepAll, before), before[n - 1].boot, before[n - 1].events);
      BootAttests(config, keepAll, lives, interval, AfterLives(config, keepAll, before));
    }
  }

  /** At every point of every run the heartbeat windows on hand are disjoint gaps between lives. */
  lemma AttestedWindows(config: Config, keepAll: bool, lives: seq<Life>, interval: int, k: nat)
    requires config.hasStatePath && History(lives, interval) && lives != [] && k <= |lives[|lives| - 1].events|
    ensures Attests(config, lives, AtPoint(config, keepAll, lives, k).state.windows)
  {
    var l := lives[|lives| - 1];
    AttestedAtBoot(config, keepAll, lives, interval);
    EventsKeepAttests(config, keepAll, lives, AtBoot(config, keepAll, lives), l.boot, l.events[..k]);
  }

  // ---- How much of a gap the process was alive -----------------------------

  /** Only the life that the gap follows reaches into it, by at most one interval. */
  lemma {:induction false} LiveTimeOfGap(lives: seq<Life>, interval: int, i: nat, upto: nat)
    requires History(lives, interval) && i + 1 < |lives| && upto <= |lives|
    ensures var seen := LastSeen(lives[i].boot, lives[i].events);
            && LiveTime(lives[..upto], seen, lives[i + 1].boot) == (if i < upto then lives[i].death - seen else 0)
            && lives[i].death - seen <= interval
  {
    LifeAdvances(lives[i], interval);
    if upto > 0 {
      var j := upto - 1;
      LiveTimeOfGap(lives, interval, i, j);
      assert lives[..upto][..j] == lives[..j];
      LifeAdvances(lives[j], interval);
      if j < i {
        LifeStarts(lives, interval, j, i);
      } else if i + 1 < j {
        LifeStarts(lives, interval, i + 1, j);
        LifeAdvances(lives[i + 1], interval);
      }
    }
  }

  /**
    At every point of every run, with heartbeats at most `interval` apart and any
    declarations among them, the heartbeat windows the guard holds are pairwise
    disjoint, each ends at a boot, and each contains at most one interval of time
    the process was in fact alive.
   */
  lemma HeartbeatWindowsAreOutages(config: Config, keepAll: bool, lives: seq<Life>, interval: int, k: nat)
    requires config.hasStatePath && History(lives, interval) && lives != [] && k <= |lives[|lives| - 1].events|
    ensures var ws := AtPoint(config, keepAll, lives, k).state.windows;
            && Disjoint(ws)
            && forall w :: w in ws && w.source.HeartbeatGap? ==>
                 && (exists i :: 0 < i < |lives| && w.end == lives[i].boot)
                 && LiveTime(lives, w.start, w.end) <= interval
  {
    AttestedWindows(config, keepAll, lives, interval, k);
    var ws := AtPoint(config, keepAll, lives, k).state.windows;
    forall w | w in ws && w.source.HeartbeatGap?
      ensures exists i :: 0 < i < |lives| && w.end == lives[i].boot
      ensures LiveTime(lives, w.start, w.end) <= interval
    {
      assert SomeGap(config, lives, w);
      var i: nat :| IsGap(lives, config, i, w);
      LiveTimeOfGap(lives, interval, i, |lives|);
      assert lives[..|lives|] == lives;
      assert w.end == lives[i + 1].boot;
    }
  }

  /** A boot holds the gap it has just found exactly when there is a grace tail. */
  lemma BootHoldsGap(config: Config, before: World, seen: int, boot: int)
    requires config.hasStatePath && OnFile(before, seen) && boot - seen >= config.MinGap()
    ensures var w := OutageWindow(seen, boot, HeartbeatGap);
            w in Step(config, false, before, Restart(boot)).state.windows <==> config.graceSecs > 0
  {
    var w := OutageWindow(seen, boot, HeartbeatGap);
    PruneContains(before.state.windows + [w], w, boot, config.Grace());
  }

  /**
    Completeness: a downtime of at least the minimum gap lies inside a window
    the pruning guard holds at the boot that ends it, exactly when there is a
    grace tail to hold it for.
   */
  lemma LongDowntimeIsAttested(config: Config, lives: seq<Life>, interval: int)
    requires config.hasStatePath && History(lives, interval) && |lives| >= 2
    requires var n := |lives| - 1; lives[n].boot - lives[n - 1].death >= config.MinGap()
    ensures var l, boot := lives[|lives| - 2], lives[|lives| - 1].boot;
            var w := OutageWindow(LastSeen(l.boot, l.events), boot, HeartbeatGap);
            && w.start <= l.death
            && (w in AtBoot(config, false, lives).state.windows <==> config.graceSecs > 0)
  {
    var before := lives[..|lives| - 1];
    var l := before[|before| - 1];
    LifeAdvances(l, interval);
    AttestedAtBoot(config, false, before, interval);
    EventsKeepAttests(config, false, before, AtBoot(config, false, before), l.boot, l.events);
    BootHoldsGap(config, AfterLives(config, false, before), LastSeen(l.boot, l.events), lives[|lives| - 1].boot);
  }
}
