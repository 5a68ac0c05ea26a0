/**
  The site registry (src/storage/memory.rs): two in-memory indexes and, when
  configured, a write-through SQLite table with a primary key and a unique secret.
 */
module SiteRegistry {
  import opened Common
  import opened Origins

  type Key = nat

  datatype Mode = Enforce | Monitor

  datatype Policy = Policy(
    tierCheckboxMin: Option<nat>,
    tierHardPowMin: Option<nat>,
    tierBlockMin: Option<nat>,
    verifyShadowMin: Option<nat>,
    verifyBlockMin: Option<nat>,
    defaultDifficulty: Option<nat>,
    maxDifficulty: Option<nat>,
    mode: Option<Mode>
  )

  const NO_OVERRIDES := Policy(None, None, None, None, None, None, None, None)

  datatype Site = Site(key: Key, secret: string, name: string, createdAt: int, origins: seq<string>, policy: Policy)

  datatype Row = Row(secret: string, name: string, createdAt: int, originsColumn: string, policyColumn: Option<Policy>)

  type Disk = map<Key, Row>

  datatype Outcome = Done | NotFound | Storage

  datatype State = State(byKey: map<Key, Site>, bySecret: map<string, Key>, disk: Option<Disk>)

  datatype Op =
    | Store(site: Site)
    | Rotate(key: Key, secret: string)
    | SetOrigins(key: Key, origins: seq<string>)
    | Rename(key: Key, name: string)
    | SetPolicy(key: Key, policy: Policy)
    | Delete(key: Key)

  // ---- The table -----------------------------------------------------------

  function PolicyColumn(p: Policy): Option<Policy> {
    if p == NO_OVERRIDES then None else Some(p)
  }

  function Encode(site: Site): Row {
    Row(site.secret, site.name, site.createdAt, Join(site.origins), PolicyColumn(site.policy))
  }

  function Decode(key: Key, row: Row): Site {
    Site(key, row.secret, row.name, row.createdAt, SplitWhitespace(row.originsColumn), row.policyColumn.GetOr(NO_OVERRIDES))
  }

  /** Another row already holds this secret. */
  predicate SecretTaken(disk: Disk, key: Key, secret: string) {
    exists k :: k in disk && k != key && disk[k].secret == secret
  }

  /** The statement an operation runs; None when SQLite refuses it. */
  function Statement(disk: Disk, op: Op): Option<Disk> {
    match op
    case Store(site) =>
      if site.key in disk || SecretTaken(disk, site.key, site.secret) then None else Some(disk[site.key := Encode(site)])
    case Delete(key) =>
      if key in disk then Some(disk - {key}) else None
    case Rotate(key, secret) =>
      if key !in disk || SecretTaken(disk, key, secret) then None else Some(disk[key := disk[key].(secret := secret)])
    case SetOrigins(key, origins) =>
      if key in disk then Some(disk[key := disk[key].(originsColumn := Join(origins))]) else None
    case Rename(key, name) =>
      if key in disk then Some(disk[key := disk[key].(name := name)]) else None
    case SetPolicy(key, policy) =>
      if key in disk then Some(disk[key := disk[key].(policyColumn := PolicyColumn(policy))]) else None
  }

  /** The write-through: no persistence always succeeds, otherwise the disk and the statement must agree to. */
  function WriteThrough(disk: Option<Disk>, op: Op, diskOk: bool): Option<Option<Disk>> {
    match disk
    case None => Some(None)
    case Some(d) =>
      if !diskOk then None
      else match Statement(d, op)
        case None => None
        case Some(d') => Some(Some(d'))
  }

  // ---- The operations ------------------------------------------------------

  function TargetKey(op: Op): Key {
    match op
    case Store(site) => site.key
    case Delete(key) => key
    case Rotate(key, _) => key
    case SetOrigins(key, _) => key
    case Rename(key, _) => key
    case SetPolicy(key, _) => key
  }

  /** Memory after an operation that found its site and reached the disk. */
  function Commit(s: State, op: Op, disk: Option<Disk>): State
    requires op.Store? || TargetKey(op) in s.byKey
  {
    match op
    case Store(site) =>
      State(s.byKey[site.key := site], s.bySecret[site.secret := site.key], disk)
    case Delete(key) =>
      State(s.byKey - {key}, s.bySecret - {s.byKey[key].secret}, disk)
    case Rotate(key, secret) =>
      State(s.byKey[key := s.byKey[key].(secret := secret)],
            (s.bySecret - {s.byKey[key].secret})[secret := key], disk)
    case SetOrigins(key, origins) =>
      State(s.byKey[key := s.byKey[key].(origins := origins)], s.bySecret, disk)
    case Rename(key, name) =>
      State(s.byKey[key := s.byKey[key].(name := name)], s.bySecret, disk)
    case SetPolicy(key, policy) =>
      State(s.byKey[key := s.byKey[key].(policy := policy)], s.bySecret, disk)
  }

  function Apply(s: State, op: Op, diskOk: bool): (State, Outcome) {
    if !op.Store? && TargetKey(op) !in s.byKey then (s, NotFound)
    else match WriteThrough(s.disk, op, diskOk)
      case None => (s, Storage)
      case Some(disk) => (Commit(s, op, disk), Done)
  }

  class Registry {
    var byKey: map<Key, Site>
    var bySecret: map<string, Key>
    var disk: Option<Disk>

    ghost function View(): State
      reads this
    {
      State(byKey, bySecret, disk)
    }

    /** Boot without persistence. */
    constructor ()
      ensures View() == State(map[], map[], None)
    {
      byKey, bySecret, disk := map[], map[], None;
    }

    /** Boot from a table: insert every row into both indexes, in whatever order the table yields them. */
    constructor WithSitePersistence(table: Disk)
      requires UniqueSecrets(table)
      ensures BootsTo(table, View())
    {
      byKey, bySecret := map[], map[];
      new;
      var left := table.Keys;
      while left != {}
        invariant left <= table.Keys
        invariant Loaded(table, table.Keys - left, byKey, bySecret)
        decreases left
      {
        var key :| key in left;
        var site := Decode(key, table[key]);
        LoadOne(table, table.Keys - left, byKey, bySecret, key);
        assert table.Keys - left + {key} == table.Keys - (left - {key});
        bySecret := bySecret[site.secret := key];
        byKey := byKey[key := site];
        left := left - {key};
      }
      disk := Some(table);
    }

    method StoreSite(site: Site, diskOk: bool) returns (outcome: Outcome)
      modifies this
      ensures (View(), outcome) == Apply(old(View()), Store(site), diskOk)
      ensures if outcome == Done
              then byKey == old(byKey)[site.key := site] && bySecret == old(bySecret)[site.secret := site.key]
              else View() == old(View())
    {
      var written := WriteThrough(disk, Store(site), diskOk);
      if written.None? {
        return Storage;
      }
      disk := written.value;
      byKey := byKey[site.key := site];
      bySecret := bySecret[site.secret := site.key];
      return Done;
    }

    method RotateSiteSecret(key: Key, secret: string, diskOk: bool) returns (outcome: Outcome)
      modifies this
      ensures (View(), outcome) == Apply(old(View()), Rotate(key, secret), diskOk)
      ensures if outcome == Done
              then key in old(byKey) && byKey == old(byKey)[key := old(byKey)[key].(secret := secret)] &&
                   bySecret == (old(bySecret) - {old(byKey)[key].secret})[secret := key]
              else View() == old(View())
    {
      if key !in byKey {
        return NotFound;
      }
      var written := WriteThrough(disk, Rotate(key, secret), diskOk);
      if written.None? {
        return Storage;
      }
      disk := written.value;
      var oldSecret := byKey[key].secret;
      byKey := byKey[key := byKey[key].(secret := secret)];
      bySecret := bySecret - {oldSecret};
      bySecret := bySecret[secret := key];
      return Done;
    }

    method DeleteSite(key: Key, diskOk: bool) returns (outcome: Outcome)
      modifies this
      ensures (View(), outcome) == Apply(old(View()), Delete(key), diskOk)
      ensures if outcome == Done
              then key in old(byKey) && byKey == old(byKey) - {key} && bySecret == old(bySecret) - {old(byKey)[key].secret}
              else View() == old(View())
    {
      if key !in byKey {
        return NotFound;
      }
      var written := WriteThrough(disk, Delete(key), diskOk);
      if written.None? {
        return Storage;
      }
      disk := written.value;
      var site := byKey[key];
      byKey := byKey - {key};
      bySecret := bySecret - {site.secret};
      return Done;
    }

    /** The three updates that leave both indexes' keys alone: origins, name and policy. */
    method UpdateSite(op: Op, diskOk: bool) returns (outcome: Outcome)
      requires op.SetOrigins? || op.Rename? || op.SetPolicy?
      modifies this
      ensures (View(), outcome) == Apply(old(View()), op, diskOk)
      ensures if outcome == Done then TookEffect(old(byKey), op, byKey) && bySecret == old(bySecret)
              else View() == old(View())
    {
      var key := TargetKey(op);
      if key !in byKey {
        return NotFound;
      }
      var written := WriteThrough(disk, op, diskOk);
      if written.None? {
        return Storage;
      }
      disk := written.value;
      var site := byKey[key];
      match op {
        case SetOrigins(_, origins) => byKey := byKey[key := site.(origins := origins)];
        case Rename(_, name) => byKey := byKey[key := site.(name := name)];
        case SetPolicy(_, policy) => byKey := byKey[key := site.(policy := policy)];
      }
      return Done;
    }

    /** `get_site_by_secret`: through the secret index, then the key index. */
    method GetSiteBySecret(secret: string) returns (site: Option<Site>)
      requires Consistent(View())
      ensures site.Some? ==> site.value.key in byKey && byKey[site.value.key] == site.value && site.value.secret == secret
      ensures site.None? ==> forall k :: k in byKey ==> byKey[k].secret != secret
    {
      if secret in bySecret && bySecret[secret] in byKey {
        return Some(byKey[bySecret[secret]]);
      }
      return None;
    }
  }

  // ---- What a call does ----------------------------------------------------

  /** The one change each operation makes to the sites. */
  ghost predicate TookEffect(before: map<Key, Site>, op: Op, after: map<Key, Site>) {
    match op
    case Store(site) => after == before[site.key := site]
    case Delete(key) => key in before && after == before - {key}
    case Rotate(key, secret) => key in before && after == before[key := before[key].(secret := secret)]
    case SetOrigins(key, origins) => key in before && after == before[key := before[key].(origins := origins)]
    case Rename(key, name) => key in before && after == before[key := before[key].(name := name)]
    case SetPolicy(key, policy) => key in before && after == before[key := before[key].(policy := policy)]
  }

  /** The operation names a site to change, and there is none. */
  ghost predicate Missing(s: State, op: Op) {
    match op
    case Store(_) => false
    case Delete(key) => key !in s.byKey
    case Rotate(key, _) => key !in s.byKey
    case SetOrigins(key, _) => key !in s.byKey
    case Rename(key, _) => key !in s.byKey
    case SetPolicy(key, _) => key !in s.byKey
  }

  /** Another site in memory already has the key or the secret. */
  ghost predicate Taken(s: State, op: Op) {
    match op
    case Store(site) => site.key in s.byKey || exists k :: k in s.byKey && s.byKey[k].secret == site.secret
    case Rotate(key, secret) => exists k :: k in s.byKey && k != key && s.byKey[k].secret == secret
    case _ => false
  }

  /**
    A call makes its change or none at all. It succeeds, with a table behind it,
    exactly when its site is there, the write goes through and no other site has
    the key or secret; without one, exactly when its site is there.
   */
  lemma CallTakesEffect(s: State, op: Op, diskOk: bool)
    requires Consistent(s)
    ensures var (after, outcome) := Apply(s, op, diskOk);
            && (outcome == NotFound <==> Missing(s, op))
            && (outcome == Done <==> !Missing(s, op) && (s.disk.Some? ==> diskOk && !Taken(s, op)))
            && (if outcome == Done then TookEffect(s.byKey, op, after.byKey) else after == s)
  {
    if s.disk.Some? && !Missing(s, op) {
      MirrorClashes(s, op);
    }
  }

  /** The table refuses exactly what memory would find taken. */
  lemma MirrorClashes(s: State, op: Op)
    requires Consistent(s) && s.disk.Some? && !Missing(s, op)
    ensures Statement(s.disk.value, op).None? <==> Taken(s, op)
  {
    var d := s.disk.value;
    assert forall k :: k in d <==> k in s.byKey;
    assert forall k :: k in d ==> d[k].secret == s.byKey[k].secret;
  }

  /** A deleted site is gone at once, with its secret, and no other site with it. */
  lemma DeletionIsImmediate(s: State, key: Key, diskOk: bool)
    requires Consistent(s) && Apply(s, Delete(key), diskOk).1 == Done
    ensures var s' := Apply(s, Delete(key), diskOk).0;
            && key in s.byKey && key !in s'.byKey && s.byKey[key].secret !in s'.bySecret
            && (s'.disk.Some? ==> key !in s'.disk.value)
            && forall k :: k in s.byKey && k != key ==>
                 k in s'.byKey && s'.byKey[k] == s.byKey[k] &&
                 s.byKey[k].secret in s'.bySecret && s'.bySecret[s.byKey[k].secret] == k
  {
    CallTakesEffect(s, Delete(key), diskOk);
    UnclashingKeeps(s, Delete(key), diskOk);
  }

  // ---- What must always agree ----------------------------------------------

  /** The secret index is the exact inverse of the secrets in the key index. */
  ghost predicate InverseOf(bySecret: map<string, Key>, byKey: map<Key, Site>) {
    && (forall k :: k in byKey ==> byKey[k].secret in bySecret && bySecret[byKey[k].secret] == k)
    && (forall x :: x in bySecret ==> bySecret[x] in byKey && byKey[bySecret[x]].secret == x)
  }

  ghost predicate Consistent(s: State) {
    && (forall k :: k in s.byKey ==> s.byKey[k].key == k)
    && InverseOf(s.bySecret, s.byKey)
    && (s.disk.Some? ==> Mirrors(s.disk.value, s.byKey))
  }

  ghost predicate OriginsNormal(s: State) {
    forall k :: k in s.byKey ==> AllTokens(s.byKey[k].origins)
  }

  ghost predicate UniqueSecrets(disk: Disk) {
    forall k, l :: k in disk && l in disk && disk[k].secret == disk[l].secret ==> k == l
  }

  /** The table holds exactly the encodings of the sites in memory. */
  ghost predicate Mirrors(disk: Disk, byKey: map<Key, Site>) {
    disk.Keys == byKey.Keys && forall k :: k in byKey ==> disk[k] == Encode(byKey[k])
  }

  /** What a boot from this table leaves in memory. */
  ghost predicate BootsTo(disk: Disk, s: State) {
    && s.disk == Some(disk)
    && s.byKey.Keys == disk.Keys
    && (forall k :: k in disk ==> s.byKey[k] == Decode(k, disk[k]))
    && InverseOf(s.bySecret, s.byKey)
  }

  lemma InverseIsUnique(a: map<string, Key>, b: map<string, Key>, byKey: map<Key, Site>)
    requires InverseOf(a, byKey) && InverseOf(b, byKey)
    ensures a == b
  {
    forall x ensures x in a <==> x in b {
      if x in a { assert byKey[a[x]].secret in b; }
      if x in b { assert byKey[b[x]].secret in a; }
    }
    forall x | x in a ensures a[x] == b[x] {
      assert byKey[a[x]].secret == x;
    }
  }

  /** The new key and secret do not collide with anything another site holds. */
  ghost predicate Unclashing(s: State, op: Op) {
    match op
    case Store(site) =>
      && (site.secret in s.bySecret ==> s.bySecret[site.secret] == site.key)
      && (site.key in s.byKey ==> s.byKey[site.key].secret == site.secret)
    case Rotate(key, secret) =>
      key in s.byKey && secret in s.bySecret ==> s.bySecret[secret] == key
    case _ => true
  }

  lemma FreshIsUnindexed(bySecret: map<string, Key>, byKey: map<Key, Site>, secret: string)
    requires InverseOf(bySecret, byKey) && forall k :: k in byKey ==> byKey[k].secret != secret
    ensures secret !in bySecret
  {
  }

  /** Indexing a site under a secret nobody else has, and that it did not have another one before. */
  lemma IndexKeepsInverse(bySecret: map<string, Key>, byKey: map<Key, Site>, key: Key, site: Site)
    requires InverseOf(bySecret, byKey)
    requires site.secret in bySecret ==> bySecret[site.secret] == key
    requires key in byKey ==> byKey[key].secret == site.secret
    ensures InverseOf(bySecret[site.secret := key], byKey[key := site])
  {
  }

  /** Both indexes hold exactly these rows of the table. */
  ghost predicate Loaded(table: Disk, rows: set<Key>, byKey: map<Key, Site>, bySecret: map<string, Key>) {
    && rows <= table.Keys && byKey.Keys == rows
    && (forall k :: k in byKey ==> byKey[k] == Decode(k, table[k]))
    && InverseOf(bySecret, byKey)
  }

  lemma LoadOne(table: Disk, rows: set<Key>, byKey: map<Key, Site>, bySecret: map<string, Key>, key: Key)
    requires UniqueSecrets(table) && Loaded(table, rows, byKey, bySecret) && key in table && key !in rows
    ensures var site := Decode(key, table[key]);
            Loaded(table, rows + {key}, byKey[key := site], bySecret[site.secret := key])
  {
    var site := Decode(key, table[key]);
    forall k | k in byKey ensures byKey[k].secret != site.secret {
      assert table[k].secret != table[key].secret;
    }
    FreshIsUnindexed(bySecret, byKey, site.secret);
    IndexKeepsInverse(bySecret, byKey, key, site);
  }

  lemma UnindexKeepsInverse(bySecret: map<string, Key>, byKey: map<Key, Site>, key: Key)
    requires InverseOf(bySecret, byKey) && key in byKey
    ensures InverseOf(bySecret - {byKey[key].secret}, byKey - {key})
  {
  }

  /** A site re-indexed under a free secret: unindexed, then indexed afresh. */
  lemma RotateKeepsInverse(bySecret: map<string, Key>, byKey: map<Key, Site>, key: Key, secret: string)
    requires InverseOf(bySecret, byKey) && key in byKey && (secret in bySecret ==> bySecret[secret] == key)
    ensures InverseOf((bySecret - {byKey[key].secret})[secret := key], byKey[key := byKey[key].(secret := secret)])
  {
    UnindexKeepsInverse(bySecret, byKey, key);
    IndexKeepsInverse(bySecret - {byKey[key].secret}, byKey - {key}, key, byKey[key].(secret := secret));
    assert (byKey - {key})[key := byKey[key].(secret := secret)] == byKey[key := byKey[key].(secret := secret)];
  }

  /** A change that leaves the secret alone. */
  lemma UpdateKeepsInverse(bySecret: map<string, Key>, byKey: map<Key, Site>, key: Key, site: Site)
    requires InverseOf(bySecret, byKey) && key in byKey && site.secret == byKey[key].secret
    ensures InverseOf(bySecret, byKey[key := site])
  {
  }

  lemma CommitKeepsInverse(s: State, op: Op, disk: Option<Disk>)
    requires Consistent(s) && Unclashing(s, op) && (op.Store? || TargetKey(op) in s.byKey)
    ensures InverseOf(Commit(s, op, disk).bySecret, Commit(s, op, disk).byKey)
  {
    match op
    case Store(site) => IndexKeepsInverse(s.bySecret, s.byKey, site.key, site);
    case Delete(key) => UnindexKeepsInverse(s.bySecret, s.byKey, key);
    case Rotate(key, secret) => RotateKeepsInverse(s.bySecret, s.byKey, key, secret);
    case SetOrigins(key, origins) =>
      UpdateKeepsInverse(s.bySecret, s.byKey, key, s.byKey[key].(origins := origins));
    case Rename(key, name) => UpdateKeepsInverse(s.bySecret, s.byKey, key, s.byKey[key].(name := name));
    case SetPolicy(key, policy) => UpdateKeepsInverse(s.bySecret, s.byKey, key, s.byKey[key].(policy := policy));
  }

  lemma UnclashingKeepsInverse(s: State, op: Op, diskOk: bool)
    requires Consistent(s) && Unclashing(s, op)
    ensures var s' := Apply(s, op, diskOk).0;
            (forall k :: k in s'.byKey ==> s'.byKey[k].key == k) && InverseOf(s'.bySecret, s'.byKey)
  {
    if Apply(s, op, diskOk).1 == Done {
      CommitKeepsInverse(s, op, WriteThrough(s.disk, op, diskOk).value);
    }
  }

  lemma PutKeepsMirror(disk: Disk, byKey: map<Key, Site>, key: Key, site: Site)
    requires Mirrors(disk, byKey)
    ensures Mirrors(disk[key := Encode(site)], byKey[key := site])
  {
  }

  /** A statement that goes through leaves the table an encoding of the memory it is committed with. */
  lemma StatementMirrors(s: State, op: Op, d: Disk)
    requires Consistent(s) && s.disk.Some? && (op.Store? || TargetKey(op) in s.byKey)
    requires Statement(s.disk.value, op) == Some(d)
    ensures Mirrors(d, Commit(s, op, Some(d)).byKey)
  {
    var disk := s.disk.value;
    match op
    case Store(site) => PutKeepsMirror(disk, s.byKey, site.key, site);
    case Delete(_) =>
    case Rotate(key, secret) => PutKeepsMirror(disk, s.byKey, key, s.byKey[key].(secret := secret));
    case SetOrigins(key, origins) => PutKeepsMirror(disk, s.byKey, key, s.byKey[key].(origins := origins));
    case Rename(key, name) => PutKeepsMirror(disk, s.byKey, key, s.byKey[key].(name := name));
    case SetPolicy(key, policy) => PutKeepsMirror(disk, s.byKey, key, s.byKey[key].(policy := policy));
  }

  lemma CommitMirrors(s: State, op: Op, diskOk: bool)
    requires Consistent(s) && s.disk.Some?
    ensures var s' := Apply(s, op, diskOk).0; s'.disk.Some? && Mirrors(s'.disk.value, s'.byKey)
  {
    if Apply(s, op, diskOk).1 == Done {
      StatementMirrors(s, op, Statement(s.disk.value, op).value);
    }
  }

  lemma UnclashingKeeps(s: State, op: Op, diskOk: bool)
    requires Consistent(s) && Unclashing(s, op)
    ensures Consistent(Apply(s, op, diskOk).0)
  {
    UnclashingKeepsInverse(s, op, diskOk);
    if s.disk.Some? {
      CommitMirrors(s, op, diskOk);
    }
  }

  /** With a table behind it, the registry needs no help from its callers: SQLite refuses every clash. */
  lemma {:induction false} PersistentAlwaysConsistent(s: State, op: Op, diskOk: bool)
    requires Consistent(s) && s.disk.Some?
    ensures Consistent(Apply(s, op, diskOk).0)
  {
    if Unclashing(s, op) {
      UnclashingKeeps(s, op, diskOk);
    } else {
      var d := s.disk.value;
      if op.Rotate? {
        assert d[s.bySecret[op.secret]].secret == op.secret;
      } else if op.site.key !in s.byKey {
        assert d[s.bySecret[op.site.secret]].secret == op.site.secret;
      }
      assert Apply(s, op, diskOk).0 == s;
    }
  }

  /** Without a table nothing refuses a clash: agreement survives exactly when there is none. */
  lemma InMemoryConsistentIff(s: State, op: Op, diskOk: bool)
    requires Consistent(s) && s.disk.None?
    ensures Consistent(Apply(s, op, diskOk).0) <==> Unclashing(s, op)
  {
    if Unclashing(s, op) {
      UnclashingKeeps(s, op, diskOk);
    } else {
      var s' := Apply(s, op, diskOk).0;
      if op.Rotate? {
        var other := s.bySecret[op.secret];
        assert other in s'.byKey && s'.byKey[other].secret == op.secret;
      } else if op.site.secret in s.bySecret && s.bySecret[op.site.secret] != op.site.key {
        var other := s.bySecret[op.site.secret];
        assert other in s'.byKey && s'.byKey[other].secret == op.site.secret;
      } else {
        var stale := s.byKey[op.site.key].secret;
        assert stale in s'.bySecret && s'.bySecret[stale] == op.site.key;
      }
    }
  }

  lemma SiteRoundTrip(site: Site)
    ensures Decode(site.key, Encode(site)) == site <==> AllTokens(site.origins)
  {
    ColumnIsLossless(site.origins);
  }

  /** Restarting from the table gives back both indexes exactly, and nothing else. */
  lemma {:induction false} ReloadIsIdentity(s: State, booted: State)
    requires Consistent(s) && OriginsNormal(s) && s.disk.Some?
    ensures UniqueSecrets(s.disk.value)
    ensures BootsTo(s.disk.value, booted) <==> booted == s
  {
    var d := s.disk.value;
    forall k, l | k in d && l in d && d[k].secret == d[l].secret ensures k == l {
      assert s.bySecret[s.byKey[k].secret] == k;
    }
    forall k | k in d ensures Decode(k, d[k]) == s.byKey[k] {
      SiteRoundTrip(s.byKey[k]);
    }
    if BootsTo(d, booted) {
      assert booted.byKey == s.byKey;
      InverseIsUnique(booted.bySecret, s.bySecret, s.byKey);
    }
  }

  // ---- Runs ----------------------------------------------------------------

  datatype Call = Call(op: Op, diskOk: bool)

  ghost function Run(s: State, calls: seq<Call>): State
    decreases |calls|
  {
    if calls == [] then s
    else Run(Apply(s, calls[0].op, calls[0].diskOk).0, calls[1..])
  }

  /** Handlers normalise every origin list before it reaches the store. */
  ghost predicate NormalOp(op: Op) {
    (op.Store? ==> AllTokens(op.site.origins)) && (op.SetOrigins? ==> AllTokens(op.origins))
  }

  ghost predicate NormalInput(calls: seq<Call>) {
    forall i :: 0 <= i < |calls| ==> NormalOp(calls[i].op)
  }

  /** The agreement every persistent operation keeps. */
  ghost predicate Agrees(s: State) {
    Consistent(s) && OriginsNormal(s) && s.disk.Some?
  }

  lemma CallKeepsAgreement(s: State, op: Op, diskOk: bool)
    requires Agrees(s) && NormalOp(op)
    ensures Agrees(Apply(s, op, diskOk).0)
  {
    PersistentAlwaysConsistent(s, op, diskOk);
  }

  lemma {:induction false} RunStaysConsistent(s: State, calls: seq<Call>)
    requires Agrees(s) && NormalInput(calls)
    ensures Agrees(Run(s, calls))
    decreases |calls|
  {
    if calls != [] {
      CallKeepsAgreement(s, calls[0].op, calls[0].diskOk);
      assert NormalInput(calls[1..]);
      RunStaysConsistent(Apply(s, calls[0].op, calls[0].diskOk).0, calls[1..]);
    }
  }

  /**
    After any sequence of operations, each possibly failing its disk write, the
    two indexes are exact inverses, the table is the encoding of memory, and a
    restart reproduces the registry.
   */
  lemma RegistryAgreement(s: State, calls: seq<Call>)
    requires Consistent(s) && OriginsNormal(s) && s.disk.Some? && NormalInput(calls)
    ensures var r := Run(s, calls);
            && Consistent(r) && OriginsNormal(r) && r.disk.Some?
            && UniqueSecrets(r.disk.value) && forall booted :: BootsTo(r.disk.value, booted) <==> booted == r
  {
    RunStaysConsistent(s, calls);
    var r := Run(s, calls);
    forall booted ensures BootsTo(r.disk.value, booted) <==> booted == r {
      ReloadIsIdentity(r, booted);
    }
    ReloadIsIdentity(r, r);
  }

  /** A rotation that succeeded answers to the new secret at once and never to the old one. */
  lemma RotationIsImmediate(s: State, key: Key, secret: string, diskOk: bool)
    requires Consistent(s) && s.disk.Some? && Apply(s, Rotate(key, secret), diskOk).1 == Done
    ensures var s' := Apply(s, Rotate(key, secret), diskOk).0;
            && secret in s'.bySecret && s'.bySecret[secret] == key
            && (s.byKey[key].secret != secret ==> s.byKey[key].secret !in s'.bySecret)
            && forall k :: k in s.byKey && k != key ==> s.byKey[k].secret in s'.bySecret && s'.bySecret[s.byKey[k].secret] == k
  {
    PersistentAlwaysConsistent(s, Rotate(key, secret), diskOk);
    var s' := Apply(s, Rotate(key, secret), diskOk).0;
    assert forall k :: k in s.byKey && k != key ==> s'.byKey[k] == s.byKey[k];
  }
}
