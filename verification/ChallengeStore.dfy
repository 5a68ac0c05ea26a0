/**
  The in-memory challenge map (src/storage/memory.rs) and the mint that fills it
  (src/puzzle/challenge.rs). Each method is one critical section of the store's
  lock, specified by a function the concurrent protocol steps through.
 */
module ChallengeStore {
  import opened Common
  import PoW = ProofOfWork

  type Id = ChallengeId

  datatype Challenge = Challenge(
    id: Id,
    site: SiteKey,
    algorithm: PoW.Algorithm,
    prefix: seq<PoW.Byte>,
    difficulty: nat,
    createdAt: int,
    dwellSince: int,
    expiresAt: int,
    attempts: nat
  )

  type Active = map<Id, Challenge>

  /** `PuzzleEngine::generate_with_dwell`: a fresh challenge, its dwell anchored to now unless inherited. */
  function Generate(id: Id, site: SiteKey, algorithm: PoW.Algorithm, prefix: seq<PoW.Byte>, difficulty: nat,
                    ttl: nat, inherited: Option<int>, now: int): Challenge {
    Challenge(id, site, algorithm, prefix, difficulty, now, inherited.GetOr(now), now + ttl, 0)
  }

  /** One failed attempt: count it, and evict at the cap. A cap of zero counts nothing. */
  function Attempted(m: Active, id: Id, cap: nat): (Active, bool) {
    if cap == 0 || id !in m then (m, false)
    else
      var c := m[id].(attempts := m[id].attempts + 1);
      if c.attempts >= cap then (m - {id}, true) else (m[id := c], false)
  }

  function Unexpired(m: Active, stamp: int): Active {
    map id | id in m && m[id].expiresAt > stamp :: m[id]
  }

  /** The map after n failed attempts on one challenge. */
  ghost function FailedTimes(m: Active, id: Id, cap: nat, n: nat): Active {
    if n == 0 then m else Attempted(FailedTimes(m, id, cap, n - 1), id, cap).0
  }

  /** A challenge absorbs exactly its cap of wrong nonces, and no other challenge notices. */
  lemma {:induction false} EvictedAtCap(m: Active, id: Id, cap: nat, n: nat)
    requires id in m && m[id].attempts < cap
    ensures var after := FailedTimes(m, id, cap, n);
      && (id in after <==> m[id].attempts + n < cap)
      && (id in after ==> after[id] == m[id].(attempts := m[id].attempts + n))
      && after - {id} == m - {id}
  {
    if n > 0 {
      EvictedAtCap(m, id, cap, n - 1);
    }
  }

  class ChallengeMap {
    var challenges: Active

    constructor ()
      ensures challenges == map[]
    {
      challenges := map[];
    }

    method StoreChallenge(c: Challenge)
      modifies this
      ensures challenges == old(challenges)[c.id := c]
    {
      challenges := challenges[c.id := c];
    }

    method GetChallenge(id: Id) returns (c: Option<Challenge>)
      ensures c.Some? <==> id in challenges
      ensures c.Some? ==> c.value == challenges[id]
    {
      c := if id in challenges then Some(challenges[id]) else None;
    }

    method DeleteChallenge(id: Id)
      modifies this
      ensures challenges == old(challenges) - {id}
    {
      challenges := challenges - {id};
    }

    /** Single use by removal: only the caller that finds the challenge succeeds. */
    method ConsumeChallenge(id: Id) returns (ok: bool)
      modifies this
      ensures ok <==> id in old(challenges)
      ensures challenges == old(challenges) - {id}
    {
      ok := id in challenges;
      challenges := challenges - {id};
    }

    method RegisterFailedAttempt(id: Id, cap: nat) returns (evicted: bool)
      modifies this
      ensures (challenges, evicted) == Attempted(old(challenges), id, cap)
      ensures evicted <==> cap > 0 && id in old(challenges) && old(challenges)[id].attempts + 1 >= cap
      ensures challenges - {id} == old(challenges) - {id}
      ensures id in challenges <==> id in old(challenges) && !evicted
      ensures id in challenges ==>
        var c := old(challenges)[id]; challenges[id] == c.(attempts := c.attempts + if cap > 0 then 1 else 0)
    {
      if cap == 0 {
        return false;
      }
      if id in challenges {
        var c := challenges[id];
        c := c.(attempts := c.attempts + 1);
        challenges := challenges[id := c];
        if c.attempts >= cap {
          challenges := challenges - {id};
          assert challenges == old(challenges) - {id};
          return true;
        }
      }
      return false;
    }

    /** `cleanup_expired`: retain what expires strictly after the sweep's stamp. */
    method CleanupExpired(stamp: int)
      modifies this
      ensures challenges == Unexpired(old(challenges), stamp)
      ensures forall id :: id in challenges <==> id in old(challenges) && old(challenges)[id].expiresAt > stamp
      ensures forall id :: id in challenges ==> challenges[id] == old(challenges)[id]
    {
      var left := challenges.Keys;
      var before := challenges;
      while left != {}
        invariant left <= before.Keys && challenges.Keys <= before.Keys
        invariant forall id :: id in challenges ==> challenges[id] == before[id]
        invariant forall id :: id in before && id in left ==> id in challenges
        invariant forall id :: id in before && id !in left ==> (id in challenges <==> before[id].expiresAt > stamp)
        decreases left
      {
        var id :| id in left;
        if before[id].expiresAt <= stamp {
          challenges := challenges - {id};
        }
        left := left - {id};
      }
    }

    method ChallengeCount() returns (n: nat)
      ensures n == |challenges|
    {
      n := |challenges|;
    }
  }
}
