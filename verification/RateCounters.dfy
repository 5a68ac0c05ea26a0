/**
  Tumbling-window rate counters (src/storage/memory.rs, `ShardedRates`).

  The class is the striped, periodically swept map; the reference is one key's
  increment times folded through a single window, with no stripes and no sweep.
 */
module RateCounters {
  import opened Common

  // Lock stripes of one rate map.
  const RATE_SHARDS: nat := 16

  datatype Window = Window(count: nat, start: int)

  datatype Event<K> = Increment(key: K, now: int) | Sweep(now: int)

  type Shards<K> = seq<map<K, Window>>

  /** The window one increment leaves behind. */
  function Bump(w: Option<Window>, now: int, length: int): Window {
    if w.None? || now - w.value.start >= length
    then Window(1, now)
    else Window(w.value.count + 1, w.value.start)
  }

  function ShardOf<K>(hash: K -> nat, key: K): (i: nat)
    ensures i < RATE_SHARDS
  {
    hash(key) % RATE_SHARDS
  }

  function Lookup<K>(shards: Shards<K>, hash: K -> nat, key: K): Option<Window>
    requires |shards| == RATE_SHARDS
  {
    var m := shards[ShardOf(hash, key)];
    if key in m then Some(m[key]) else None
  }

  function IncrementShards<K>(shards: Shards<K>, hash: K -> nat, key: K, now: int, length: int): (s: Shards<K>)
    requires |shards| == RATE_SHARDS
    ensures |s| == RATE_SHARDS
  {
    var i := ShardOf(hash, key);
    shards[i := shards[i][key := Bump(Lookup(shards, hash, key), now, length)]]
  }

  function Fresh<K>(m: map<K, Window>, now: int, length: int): map<K, Window> {
    map k | k in m && now - m[k].start < length * 2 :: m[k]
  }

  function SweepShards<K>(shards: Shards<K>, now: int, length: int): (s: Shards<K>)
    ensures |s| == |shards|
  {
    seq(|shards|, i requires 0 <= i < |shards| => Fresh(shards[i], now, length))
  }

  class ShardedRates<K(==, !new)> {
    const shards: array<map<K, Window>>
    const hash: K -> nat
    const windowSecs: int

    ghost predicate Valid() {
      shards.Length == RATE_SHARDS && windowSecs > 0
    }

    constructor (hash: K -> nat, windowSecs: int)
      requires windowSecs > 0
      ensures Valid() && fresh(shards) && this.hash == hash && this.windowSecs == windowSecs
      ensures shards[..] == EmptyShards()
    {
      this.hash := hash;
      this.windowSecs := windowSecs;
      this.shards := new map<K, Window>[RATE_SHARDS](_ => map[]);
    }

    /** Count one event under the key's stripe lock and return the new count. */
    method Increment(key: K, now: int) returns (count: nat)
      requires Valid()
      modifies shards
      ensures Valid()
      ensures shards[..] == IncrementShards(old(shards[..]), hash, key, now, windowSecs)
      ensures Lookup(shards[..], hash, key) == Some(Bump(Lookup(old(shards[..]), hash, key), now, windowSecs))
      ensures count == Lookup(shards[..], hash, key).value.count
      ensures forall k :: k != key ==> Lookup(shards[..], hash, k) == Lookup(old(shards[..]), hash, k)
      ensures var stripe := old(shards[hash(key) % 16]);
              var joins := key in stripe && now - stripe[key].start < windowSecs;
              && count == (if joins then stripe[key].count + 1 else 1)
              && shards[hash(key) % 16] == stripe[key := Window(count, if joins then stripe[key].start else now)]
      ensures forall i :: 0 <= i < 16 && i != hash(key) % 16 ==> shards[i] == old(shards[i])
    {
      var i := ShardOf(hash, key);
      var stripe := shards[i];
      var entry := if key in stripe then stripe[key] else Window(0, now);
      if now - entry.start >= windowSecs {
        entry := Window(0, now);
      }
      entry := entry.(count := entry.count + 1);
      shards[i] := stripe[key := entry];
      count := entry.count;
    }

    /** The sweeper's pass: every stripe forgets windows two lengths old. */
    method RetainFresh(now: int)
      requires Valid()
      modifies shards
      ensures Valid()
      ensures shards[..] == SweepShards(old(shards[..]), now, windowSecs)
      ensures forall i, k :: 0 <= i < 16 ==>
                (k in shards[i] <==> k in old(shards[i]) && now - old(shards[i])[k].start < 2 * windowSecs)
      ensures forall i, k :: 0 <= i < 16 && k in shards[i] ==> shards[i][k] == old(shards[i])[k]
    {
      var i := 0;
      while i < RATE_SHARDS
        invariant 0 <= i <= RATE_SHARDS
        invariant forall j :: 0 <= j < i ==> shards[j] == Fresh(old(shards[j]), now, windowSecs)
        invariant forall j :: i <= j < RATE_SHARDS ==> shards[j] == old(shards[j])
      {
        shards[i] := Fresh(shards[i], now, windowSecs);
        i := i + 1;
      }
    }
  }

  // ---- Runs ----------------------------------------------------------------

  function EmptyShards<K>(): (s: Shards<K>)
    ensures |s| == RATE_SHARDS
  {
    seq(RATE_SHARDS, _ => map[])
  }

  ghost function Apply<K>(shards: Shards<K>, hash: K -> nat, length: int, e: Event<K>): (s: Shards<K>)
    requires |shards| == RATE_SHARDS
    ensures |s| == RATE_SHARDS
  {
    match e
    case Increment(key, now) => IncrementShards(shards, hash, key, now, length)
    case Sweep(now) => SweepShards(shards, now, length)
  }

  /** The stripes after a whole run, starting empty. */
  ghost function After<K>(hash: K -> nat, length: int, events: seq<Event<K>>): (s: Shards<K>)
    ensures |s| == RATE_SHARDS
  {
    if events == [] then EmptyShards()
    else Apply(After(hash, length, events[..|events| - 1]), hash, length, events[|events| - 1])
  }

  /** What the last increment of a run returned to its caller. */
  ghost function Returned<K>(hash: K -> nat, length: int, events: seq<Event<K>>): nat
    requires events != [] && events[|events| - 1].Increment?
  {
    Lookup(After(hash, length, events), hash, events[|events| - 1].key).value.count
  }

  // ---- The reference -------------------------------------------------------

  /** The times one key was incremented, in order. */
  ghost function Times<K>(events: seq<Event<K>>, key: K): (ts: seq<int>)
    ensures |ts| <= |events|
  {
    if events == [] then []
    else
      var before := Times(events[..|events| - 1], key);
      match events[|events| - 1]
      case Increment(k, now) => if k == key then before + [now] else before
      case Sweep(_) => before
  }

  /** One window, one key, never swept. */
  ghost function Tumble(ts: seq<int>, length: int): Option<Window> {
    if ts == [] then None
    else Some(Bump(Tumble(ts[..|ts| - 1], length), ts[|ts| - 1], length))
  }

  /** Sweeps are stamped no later than any increment that follows them. */
  ghost predicate SweepsNotAhead<K>(events: seq<Event<K>>) {
    forall i, j :: 0 <= i < j < |events| && events[i].Sweep? && events[j].Increment?
      ==> events[i].now <= events[j].now
  }

  /** Either the stripe holds the reference window, or a sweep found it two lengths old. */
  ghost predicate Agrees<K>(hash: K -> nat, length: int, events: seq<Event<K>>, key: K) {
    var reference := Tumble(Times(events, key), length);
    var held := Lookup(After(hash, length, events), hash, key);
    held == reference ||
    (held.None? && exists j :: 0 <= j < |events| && events[j].Sweep? &&
                               events[j].now - reference.value.start >= 2 * length)
  }

  lemma {:induction false} StripesAgree<K>(hash: K -> nat, length: int, events: seq<Event<K>>, key: K)
    requires length > 0 && SweepsNotAhead(events)
    ensures Agrees(hash, length, events, key)
  {
    if events != [] {
      var n := |events| - 1;
      var before, e := events[..n], events[n];
      StripesAgree(hash, length, before, key);
      var reference := Tumble(Times(before, key), length);
      var held := Lookup(After(hash, length, before), hash, key);
      if held != reference {
        var j :| 0 <= j < n && before[j].Sweep? && before[j].now - reference.value.start >= 2 * length;
        assert events[j] == before[j];
      }
      if e == Increment(key, e.now) {
        assert Times(events, key)[..|Times(events, key)| - 1] == Times(before, key);
      } else if e.Sweep? {
        assert events[n].Sweep?;
      }
    }
  }

  /**
    Striping and sweeping are invisible: for every run, every key and every
    stripe hash, the count an increment returns is the reference counter's.
   */
  lemma CounterRefinement<K>(hash: K -> nat, length: int, events: seq<Event<K>>)
    requires length > 0 && SweepsNotAhead(events)
    requires events != [] && events[|events| - 1].Increment?
    ensures var ts := Times(events, events[|events| - 1].key);
            ts != [] && Returned(hash, length, events) == Tumble(ts, length).value.count
  {
    StripesAgree(hash, length, events, events[|events| - 1].key);
  }

  // ---- How a tumbling count relates to a sliding one -----------------------

  /** How many of the times fall in [from, to). */
  ghost function Within(ts: seq<int>, from: int, to: int): nat {
    if ts == [] then 0
    else Within(ts[..|ts| - 1], from, to) + (if from <= ts[|ts| - 1] < to then 1 else 0)
  }

  /** The open window is exactly the last `count` increments, and spans less than its length. */
  lemma {:induction false} TumbleShape(ts: seq<int>, length: int)
    requires ts != [] && length > 0
    ensures var w := Tumble(ts, length).value;
            1 <= w.count <= |ts| && w.start == ts[|ts| - w.count] && ts[|ts| - 1] - w.start < length
  {
    if |ts| > 1 {
      TumbleShape(ts[..|ts| - 1], length);
    }
  }

  /** A window that does not reach back to the start was opened by an expiry. */
  lemma {:induction false} TumbleReset(ts: seq<int>, length: int)
    requires ts != [] && length > 0
    ensures var c := Tumble(ts, length).value.count;
            1 <= c <= |ts| &&
            (c < |ts| ==> Tumble(ts[..|ts| - c], length).Some? &&
                          ts[|ts| - c] - Tumble(ts[..|ts| - c], length).value.start >= length)
  {
    TumbleShape(ts, length);
    if |ts| > 1 {
      var before := ts[..|ts| - 1];
      TumbleReset(before, length);
      var c := Tumble(ts, length).value.count;
      if c > 1 {
        assert before[..|ts| - c] == ts[..|ts| - c];
      }
    }
  }

  lemma {:induction false} WithinSuffix(ts: seq<int>, n: nat, from: int, to: int)
    requires n <= |ts|
    requires forall i :: n <= i < |ts| ==> from <= ts[i] < to
    ensures Within(ts, from, to) >= |ts| - n
  {
    if n < |ts| {
      WithinSuffix(ts[..|ts| - 1], n, from, to);
    }
  }

  /** No over-count: a returned count never exceeds the true count of the last `length` seconds. */
  lemma TumbleUpper(ts: seq<int>, length: int)
    requires ts != [] && length > 0 && NonDecreasing(ts)
    ensures Tumble(ts, length).value.count <= Within(ts, ts[|ts| - 1] - length + 1, ts[|ts| - 1] + 1)
  {
    TumbleShape(ts, length);
    WithinSuffix(ts, |ts| - Tumble(ts, length).value.count, ts[|ts| - 1] - length + 1, ts[|ts| - 1] + 1);
  }

  lemma {:induction false} WithinIsContiguous(ts: seq<int>, from: int, to: int) returns (lo: nat, hi: nat)
    requires NonDecreasing(ts)
    ensures lo <= hi <= |ts| && hi - lo == Within(ts, from, to)
    ensures forall i :: lo <= i < hi ==> from <= ts[i] < to
    ensures lo < hi && ts[|ts| - 1] < to ==> hi == |ts|
  {
    if ts == [] {
      return 0, 0;
    }
    var n := |ts| - 1;
    lo, hi := WithinIsContiguous(ts[..n], from, to);
    if from <= ts[n] < to {
      if lo == hi {
        lo := n;
      } else {
        assert ts[..n][n - 1] <= ts[n];
      }
      hi := n + 1;
    }
  }

  /** A burst of increments shorter than one window is at worst split across two of them. */
  lemma TumbleDetects(ts: seq<int>, length: int, lo: nat, hi: nat) returns (m: nat)
    requires length > 0 && NonDecreasing(ts)
    requires lo < hi <= |ts| && ts[hi - 1] - ts[lo] < length
    ensures lo <= m < hi && Tumble(ts[..m + 1], length).Some?
    ensures 2 * Tumble(ts[..m + 1], length).value.count >= hi - lo
  {
    var run := ts[..hi];
    TumbleShape(run, length);
    TumbleReset(run, length);
    var c := Tumble(run, length).value.count;
    m := hi - 1;
    if 2 * c < hi - lo {
      m := hi - c - 1;
      assert run[..hi - c] == ts[..m + 1];
      TumbleShape(ts[..m + 1], length);
    }
  }

  /** Some increment of a busy interval was told at least half of the interval's count. */
  lemma IntervalDetects(ts: seq<int>, length: int, from: int) returns (m: nat)
    requires length > 0 && NonDecreasing(ts) && Within(ts, from, from + length) > 0
    ensures m < |ts| && from <= ts[m] < from + length
    ensures Tumble(ts[..m + 1], length).Some?
    ensures 2 * Tumble(ts[..m + 1], length).value.count >= Within(ts, from, from + length)
  {
    var lo, hi := WithinIsContiguous(ts, from, from + length);
    m := TumbleDetects(ts, length, lo, hi);
  }

  lemma {:induction false} TimeHasEvent<K>(events: seq<Event<K>>, key: K, m: nat) returns (n: nat)
    requires m < |Times(events, key)|
    ensures 1 <= n <= |events| && events[n - 1] == Increment(key, Times(events, key)[m])
    ensures Times(events[..n], key) == Times(events, key)[..m + 1]
  {
    var before := events[..|events| - 1];
    if m < |Times(before, key)| {
      n := TimeHasEvent(before, key, m);
      assert before[..n] == events[..n];
    } else {
      n := |events|;
      assert events[..n] == events;
    }
  }

  lemma {:induction false} SweepsNotAheadPrefix<K>(events: seq<Event<K>>, n: nat)
    requires n <= |events| && SweepsNotAhead(events)
    ensures SweepsNotAhead(events[..n])
  {
    forall i, j | 0 <= i < j < n && events[..n][i].Sweep? && events[..n][j].Increment?
      ensures events[..n][i].now <= events[..n][j].now
    {
      assert events[i].now <= events[j].now;
    }
  }

  /** The striped, swept counter never reports more than really happened in the window. */
  lemma RateNeverOvercounts<K>(hash: K -> nat, length: int, events: seq<Event<K>>)
    requires length > 0 && SweepsNotAhead(events)
    requires events != [] && events[|events| - 1].Increment?
    requires NonDecreasing(Times(events, events[|events| - 1].key))
    ensures var e := events[|events| - 1];
            Returned(hash, length, events) <= Within(Times(events, e.key), e.now - length + 1, e.now + 1)
  {
    CounterRefinement(hash, length, events);
    TumbleUpper(Times(events, events[|events| - 1].key), length);
  }

  /** Each time of a key is an increment of the run, told the reference count of the times up to it. */
  lemma CountAtTime<K>(hash: K -> nat, length: int, events: seq<Event<K>>, key: K, m: nat) returns (n: nat)
    requires length > 0 && SweepsNotAhead(events) && m < |Times(events, key)|
    ensures 1 <= n <= |events| && events[n - 1] == Increment(key, Times(events, key)[m])
    ensures Tumble(Times(events, key)[..m + 1], length).Some?
    ensures Returned(hash, length, events[..n]) == Tumble(Times(events, key)[..m + 1], length).value.count
  {
    n := TimeHasEvent(events, key, m);
    assert events[..n][n - 1] == events[n - 1];
    SweepsNotAheadPrefix(events, n);
    CounterRefinement(hash, length, events[..n]);
  }

  /**
    Detection bound: if a key was incremented N > 0 times in any half-open
    interval one window long, some increment inside that interval was told a
    count of at least half of N, rounded up.
   */
  lemma RateDetection<K>(hash: K -> nat, length: int, events: seq<Event<K>>, key: K, from: int)
    returns (n: nat)
    requires length > 0 && SweepsNotAhead(events) && NonDecreasing(Times(events, key))
    requires Within(Times(events, key), from, from + length) > 0
    ensures 1 <= n <= |events|
    ensures events[n - 1].Increment? && events[n - 1].key == key && from <= events[n - 1].now < from + length
    ensures 2 * Returned(hash, length, events[..n]) >= Within(Times(events, key), from, from + length)
  {
    var m := IntervalDetects(Times(events, key), length, from);
    n := CountAtTime(hash, length, events, key, m);
  }
}
