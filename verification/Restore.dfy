/** Restoring a backup over two databases: snapshot, apply, roll back, and what each failure leaves behind. */
module Restore {
  import opened Common

  datatype Row = Row(key: string, value: string)
  type Table = map<string, string>

  /** The six tables of the message database, and the arrays that fill them. */
  datatype MessageDb = MessageDb(
    messages: Table, linkPreviews: Table, outbox: Table, localAttachments: Table, transferQueue: Table,
    remoteMedia: Table)

  datatype MessageRows = MessageRows(
    messages: seq<Row>, attachments: seq<Row>, remoteMedia: seq<Row>, linkPreviews: seq<Row>, outbox: seq<Row>,
    transferQueue: seq<Row>)

  datatype KeyPair = KeyPair(publicKey: string, privateKey: string)
  datatype KeyPairs = KeyPairs(encryption: KeyPair, signing: KeyPair)
  datatype Payload = Payload(userId: string, secrets: string)
  datatype Capsule = Capsule(createdAt: int, cipherText: string)
  datatype StoredKeyPair = StoredKeyPair(pair: KeyPair, createdAt: int)
  datatype StoredCapsule = StoredCapsule(capsule: Capsule, createdAt: int, updatedAt: int)

  datatype KeyDb = KeyDb(keyPairs: map<string, StoredKeyPair>, peerKeys: Table, capsules: map<string, StoredCapsule>)

  datatype Databases = Databases(messages: MessageDb, keys: KeyDb)

  /**
   * The identity cryptography.  `runtimeKeys` imports the key pairs of a payload and checks the ids derived
   * from them against it; `seal` makes a capsule from a payload, the encryption public key and fresh
   * randomness; `unlock` opens one with the private key.
   */
  datatype Crypto = Crypto(
    runtimeKeys: Payload -> Option<KeyPairs>,
    seal: (Payload, string, int) -> Capsule,
    unlock: (Capsule, string) -> Option<Payload>)

  ghost predicate Lawful(c: Crypto) {
    forall p, random :: c.runtimeKeys(p).Some? ==>
      c.unlock(c.seal(p, c.runtimeKeys(p).value.encryption.publicKey, random),
               c.runtimeKeys(p).value.encryption.privateKey) == Some(p)
  }

  datatype Provision = Provision(payload: Payload, pairs: KeyPairs, capsule: Capsule)

  /** `None` when the payload's keys do not import or do not match it. */
  function StageIdentityProvision(c: Crypto, payload: Payload, random: int): Option<Provision> {
    match c.runtimeKeys(payload)
    case None => None
    case Some(pairs) => Some(Provision(payload, pairs, c.seal(payload, pairs.encryption.publicKey, random)))
  }

  // ---- Database states ---------------------------------------------------------------------------------

  /** `bulkPut`: later rows overwrite earlier ones of the same key. */
  function PutAll(table: Table, rows: seq<Row>): Table {
    if rows == [] then table else PutAll(table, rows[..|rows| - 1])[rows[|rows| - 1].key := rows[|rows| - 1].value]
  }

  function Filled(rows: MessageRows): MessageDb {
    MessageDb(PutAll(map[], rows.messages), PutAll(map[], rows.linkPreviews), PutAll(map[], rows.outbox),
              PutAll(map[], rows.attachments), PutAll(map[], rows.transferQueue), PutAll(map[], rows.remoteMedia))
  }

  /** The table holds an array of rows: exactly their keys, and for each key the value of its last row. */
  ghost predicate Holds(table: Table, rows: seq<Row>) {
    && (forall k :: k in table <==> HasKey(rows, k))
    && (forall i :: 0 <= i < |rows| && IsLast(rows, i) ==>
          rows[i].key in table && table[rows[i].key] == rows[i].value)
  }

  ghost predicate HasKey(rows: seq<Row>, k: string) {
    exists i :: 0 <= i < |rows| && rows[i].key == k
  }

  ghost predicate IsLast(rows: seq<Row>, i: nat)
    requires i < |rows|
  {
    forall j :: i < j < |rows| ==> rows[j].key != rows[i].key
  }

  /** Each of the six tables holds the array meant for it. */
  ghost predicate HoldsRows(db: MessageDb, rows: MessageRows) {
    && Holds(db.messages, rows.messages) && Holds(db.localAttachments, rows.attachments)
    && Holds(db.remoteMedia, rows.remoteMedia) && Holds(db.linkPreviews, rows.linkPreviews)
    && Holds(db.outbox, rows.outbox) && Holds(db.transferQueue, rows.transferQueue)
  }

  lemma {:induction false} PutAllHolds(rows: seq<Row>)
    ensures Holds(PutAll(map[], rows), rows)
  {
    if rows == [] {
    } else {
      PutAllHolds(rows[..|rows| - 1]);
      OneMoreRow(PutAll(map[], rows[..|rows| - 1]), rows[..|rows| - 1], rows[|rows| - 1], rows);
    }
  }

  lemma OneMoreRow(table: Table, front: seq<Row>, last: Row, rows: seq<Row>)
    requires Holds(table, front) && rows == front + [last]
    ensures Holds(table[last.key := last.value], rows)
  {
    forall k
      ensures HasKey(rows, k) <==> k == last.key || HasKey(front, k)
    {
      OneMoreKey(front, last, k);
    }
    forall i | 0 <= i < |rows| && IsLast(rows, i)
      ensures rows[i] == last || (i < |front| && front[i] == rows[i] && IsLast(front, i) && rows[i].key != last.key)
    {
      if i < |front| {
        StillLast(front, last, i);
      }
    }
    forall i | 0 <= i < |front|
      ensures HasKey(front, front[i].key)
    {
    }
  }

  lemma OneMoreKey(front: seq<Row>, last: Row, k: string)
    ensures HasKey(front + [last], k) <==> k == last.key || HasKey(front, k)
  {
    var rows := front + [last];
    assert rows[|front|] == last;
    if i :| 0 <= i < |front| && front[i].key == k {
      assert rows[i].key == k;
    }
  }

  lemma StillLast(front: seq<Row>, last: Row, i: nat)
    requires i < |front| && IsLast(front + [last], i)
    ensures IsLast(front, i) && front[i].key != last.key
  {
    var rows := front + [last];
    assert rows[|front|].key != rows[i].key;
    forall j | i < j < |front|
      ensures front[j].key != front[i].key
    {
      assert rows[j].key != rows[i].key;
    }
  }

  lemma {:induction false} LastOfKey(rows: seq<Row>, i: nat) returns (j: nat)
    requires i < |rows|
    ensures j < |rows| && rows[j].key == rows[i].key && IsLast(rows, j)
    decreases |rows| - i
  {
    j := i;
    if k :| i < k < |rows| && rows[k].key == rows[i].key {
      j := LastOfKey(rows, k);
    }
  }

  /** There is one such table. */
  lemma OneTableHolds(a: Table, b: Table, rows: seq<Row>)
    requires Holds(a, rows) && Holds(b, rows)
    ensures a == b
  {
    forall k | k in a
      ensures k in b && a[k] == b[k]
    {
      var i :| 0 <= i < |rows| && rows[i].key == k;
      var j := LastOfKey(rows, i);
    }
  }

  /** A filled database holds the rows, and no other database does. */
  lemma FilledHolds(rows: MessageRows, db: MessageDb)
    ensures HoldsRows(db, rows) <==> db == Filled(rows)
  {
    OneTable(db.messages, rows.messages);
    OneTable(db.linkPreviews, rows.linkPreviews);
    OneTable(db.outbox, rows.outbox);
    OneTable(db.localAttachments, rows.attachments);
    OneTable(db.transferQueue, rows.transferQueue);
    OneTable(db.remoteMedia, rows.remoteMedia);
  }

  lemma OneTable(table: Table, rows: seq<Row>)
    ensures Holds(table, rows) <==> table == PutAll(map[], rows)
  {
    PutAllHolds(rows);
    if Holds(table, rows) {
      OneTableHolds(table, PutAll(map[], rows), rows);
    }
  }

  function KeyState(provision: Option<Provision>, peers: seq<Row>, now: int): KeyDb {
    match provision
    case None => KeyDb(map[], PutAll(map[], peers), map[])
    case Some(p) =>
      KeyDb(map["encryption" := StoredKeyPair(p.pairs.encryption, now),
                "signing" := StoredKeyPair(p.pairs.signing, now)],
            PutAll(map[], peers),
            map["identity" := StoredCapsule(p.capsule, p.capsule.createdAt, now)])
  }

  /** The identity payload the stored capsule and encryption key give, if they give one. */
  function OperationalIdentity(c: Crypto, keys: KeyDb): Option<Payload> {
    if "identity" !in keys.capsules || "encryption" !in keys.keyPairs then None
    else c.unlock(keys.capsules["identity"].capsule, keys.keyPairs["encryption"].pair.privateKey)
  }

  // ---- The restore --------------------------------------------------------------------------------------

  datatype Prepared = Prepared(provision: Provision, peers: seq<Row>, rows: MessageRows)
  datatype Snapshot = Snapshot(payload: Option<Payload>, peers: seq<Row>, rows: MessageRows)

  /** Which database work fails: each transaction as a whole, and the re-staging of the identity. */
  datatype Faults = Faults(
    snapshot: bool, applyMessages: bool, applyKeys: bool, rollbackMessages: bool, rollbackStage: bool,
    rollbackKeys: bool)

  datatype Outcome = Restored | NotApplied | ApplyFailed | RollbackFailed

  /** The arrays of a snapshot list exactly what the databases hold. */
  ghost predicate SnapshotOf(c: Crypto, s: Databases, snapshot: Snapshot) {
    && snapshot.payload == OperationalIdentity(c, s.keys)
    && Holds(s.keys.peerKeys, snapshot.peers) && HoldsRows(s.messages, snapshot.rows)
  }

  function ApplyPrepared(s: Databases, prepared: Prepared, faults: Faults, now: int): (Databases, bool) {
    if faults.applyMessages then (s, false)
    else
      var written := s.(messages := Filled(prepared.rows));
      if faults.applyKeys then (written, false)
      else (written.(keys := KeyState(Some(prepared.provision), prepared.peers, now)), true)
  }

  function Rollback(
    c: Crypto, s: Databases, snapshot: Snapshot, faults: Faults, random: int, now: int
  ): (Databases, bool) {
    if faults.rollbackMessages then (s, false)
    else
      var written := s.(messages := Filled(snapshot.rows));
      match snapshot.payload
      case None =>
        if faults.rollbackKeys then (written, false) else (written.(keys := KeyState(None, snapshot.peers, now)), true)
      case Some(payload) =>
        var provision := StageIdentityProvision(c, payload, random);
        if faults.rollbackStage || provision == None || faults.rollbackKeys then (written, false)
        else (written.(keys := KeyState(provision, snapshot.peers, now)), true)
  }

  /**
   * `prepared` is `None` when reading, parsing or assembling the backup throws; `canceled` says the signal was
   * raised before applying.
   */
  function RestoreBackup(
    c: Crypto, s: Databases, prepared: Option<Prepared>, canceled: bool, snapshot: Snapshot, faults: Faults,
    random: int, now: int
  ): (Databases, Outcome) {
    if prepared == None || canceled || faults.snapshot then (s, NotApplied)
    else
      var applied := ApplyPrepared(s, prepared.value, faults, now);
      if applied.1 then (applied.0, Restored)
      else
        var rolledBack := Rollback(c, applied.0, snapshot, faults, random, now);
        (rolledBack.0, if rolledBack.1 then ApplyFailed else RollbackFailed)
  }

  // ---- What each outcome means ---------------------------------------------------------------------------

  ghost predicate HasIdentityOf(c: Crypto, keys: KeyDb, payload: Payload) {
    && c.runtimeKeys(payload).Some?
    && keys.keyPairs.Keys == {"encryption", "signing"}
    && keys.keyPairs["encryption"].pair == c.runtimeKeys(payload).value.encryption
    && keys.keyPairs["signing"].pair == c.runtimeKeys(payload).value.signing
    && OperationalIdentity(c, keys) == Some(payload)
  }

  /** The identity was staged from its payload, with some randomness. */
  ghost predicate IsStaged(c: Crypto, provision: Provision) {
    exists r :: StageIdentityProvision(c, provision.payload, r) == Some(provision)
  }

  lemma StagedIdentityWorks(c: Crypto, payload: Payload, random: int, peers: seq<Row>, now: int)
    requires Lawful(c) && StageIdentityProvision(c, payload, random).Some?
    ensures HasIdentityOf(c, KeyState(StageIdentityProvision(c, payload, random), peers, now), payload)
  {
    assert c.runtimeKeys(payload).Some?;
  }

  /** The rollback goes through exactly when none of its steps fails. */
  predicate RollbackWorks(c: Crypto, snapshot: Snapshot, faults: Faults) {
    && !faults.rollbackMessages && !faults.rollbackKeys
    && (snapshot.payload.Some? ==> !faults.rollbackStage && c.runtimeKeys(snapshot.payload.value).Some?)
  }

  /** Which failures lead to which outcome. */
  lemma OutcomeDecidedByFaults(
    c: Crypto, s: Databases, prepared: Option<Prepared>, canceled: bool, snapshot: Snapshot, faults: Faults,
    random: int, now: int
  )
    ensures var outcome := RestoreBackup(c, s, prepared, canceled, snapshot, faults, random, now).1;
            var attempted := prepared.Some? && !canceled && !faults.snapshot;
            var applies := !faults.applyMessages && !faults.applyKeys;
            && (outcome == NotApplied <==> !attempted)
            && (outcome == Restored <==> attempted && applies)
            && (outcome == ApplyFailed <==> attempted && !applies && RollbackWorks(c, snapshot, faults))
            && (outcome == RollbackFailed <==> attempted && !applies && !RollbackWorks(c, snapshot, faults))
  {
  }

  /** Which rows were written last, by outcome. */
  lemma TablesWritten(
    c: Crypto, s: Databases, prepared: Option<Prepared>, canceled: bool, snapshot: Snapshot, faults: Faults,
    random: int, now: int
  )
    ensures var (after, outcome) := RestoreBackup(c, s, prepared, canceled, snapshot, faults, random, now);
            match outcome
            case NotApplied => after == s
            case Restored =>
              after.messages == Filled(prepared.value.rows) &&
                after.keys.peerKeys == PutAll(map[], prepared.value.peers)
            case ApplyFailed =>
              after.messages == Filled(snapshot.rows) && after.keys.peerKeys == PutAll(map[], snapshot.peers)
            case RollbackFailed =>
              && after.keys == s.keys
              && after.messages == if !faults.rollbackMessages then Filled(snapshot.rows)
                                   else if faults.applyMessages then s.messages else Filled(prepared.value.rows)
  {
  }

  /** The message tables and peer keys after each outcome, whatever the cryptography. */
  lemma RestoreMeetsTables(
    c: Crypto, s: Databases, prepared: Option<Prepared>, canceled: bool, snapshot: Snapshot, faults: Faults,
    random: int, now: int
  )
    requires SnapshotOf(c, s, snapshot)
    ensures var (after, outcome) := RestoreBackup(c, s, prepared, canceled, snapshot, faults, random, now);
            match outcome
            case NotApplied => after == s
            case Restored => HoldsRows(after.messages, prepared.value.rows) &&
              Holds(after.keys.peerKeys, prepared.value.peers)
            case ApplyFailed => after.messages == s.messages && after.keys.peerKeys == s.keys.peerKeys
            case RollbackFailed =>
              && after.keys == s.keys
              && if faults.rollbackMessages && !faults.applyMessages then
                HoldsRows(after.messages, prepared.value.rows)
              else after.messages == s.messages
  {
    TablesWritten(c, s, prepared, canceled, snapshot, faults, random, now);
    FilledHolds(snapshot.rows, s.messages);
    OneTable(s.keys.peerKeys, snapshot.peers);
    if prepared.Some? {
      FilledHolds(prepared.value.rows, Filled(prepared.value.rows));
      OneTable(PutAll(map[], prepared.value.peers), prepared.value.peers);
    }
  }

  /**
   * Whatever fails: a restore that was not applied changes nothing; after a successful one each table holds the
   * rows prepared for it, and the identity works; one reported as failed to apply leaves the message database and
   * the peer keys as they were and the identity the snapshot recovered, or none.
   */
  lemma RestoreMeetsOutcome(
    c: Crypto, s: Databases, prepared: Option<Prepared>, canceled: bool, snapshot: Snapshot, faults: Faults,
    random: int, now: int
  )
    requires Lawful(c) && SnapshotOf(c, s, snapshot)
    requires prepared.Some? ==> IsStaged(c, prepared.value.provision)
    ensures var (after, outcome) := RestoreBackup(c, s, prepared, canceled, snapshot, faults, random, now);
            match outcome
            case NotApplied => after == s
            case Restored =>
              && HoldsRows(after.messages, prepared.value.rows)
              && Holds(after.keys.peerKeys, prepared.value.peers)
              && HasIdentityOf(c, after.keys, prepared.value.provision.payload)
            case ApplyFailed =>
              && after.messages == s.messages && after.keys.peerKeys == s.keys.peerKeys
              && OperationalIdentity(c, after.keys) == OperationalIdentity(c, s.keys)
              && (OperationalIdentity(c, s.keys).Some? ==>
                    HasIdentityOf(c, after.keys, OperationalIdentity(c, s.keys).value))
              && (OperationalIdentity(c, s.keys) == None ==>
                    after.keys.keyPairs == map[] && after.keys.capsules == map[])
            case RollbackFailed =>
              && after.keys == s.keys
              && if faults.rollbackMessages && !faults.applyMessages then
                HoldsRows(after.messages, prepared.value.rows)
              else after.messages == s.messages
  {
    RestoreMeetsTables(c, s, prepared, canceled, snapshot, faults, random, now);
    match RestoreBackup(c, s, prepared, canceled, snapshot, faults, random, now).1 {
      case NotApplied =>
      case Restored =>
        var r :| StageIdentityProvision(c, prepared.value.provision.payload, r) == Some(prepared.value.provision);
        StagedIdentityWorks(c, prepared.value.provision.payload, r, prepared.value.peers, now);
      case ApplyFailed =>
        if snapshot.payload.Some? {
          StagedIdentityWorks(c, snapshot.payload.value, random, snapshot.peers, now);
        }
      case RollbackFailed =>
    }
  }

  /** The key database a restore writes: both pairs under their own names, and the capsule as it was sealed. */
  lemma RestoredKeyRows(
    c: Crypto, s: Databases, prepared: Prepared, canceled: bool, snapshot: Snapshot, faults: Faults,
    random: int, now: int
  )
    requires RestoreBackup(c, s, Some(prepared), canceled, snapshot, faults, random, now).1 == Restored
    ensures var keys := RestoreBackup(c, s, Some(prepared), canceled, snapshot, faults, random, now).0.keys;
            && keys.keyPairs.Keys == {"encryption", "signing"} && keys.capsules.Keys == {"identity"}
            && (forall id :: id in keys.keyPairs ==> keys.keyPairs[id].createdAt == now)
            && keys.keyPairs["encryption"].pair == prepared.provision.pairs.encryption
            && keys.keyPairs["signing"].pair == prepared.provision.pairs.signing
            && keys.capsules["identity"].capsule == prepared.provision.capsule
            && keys.capsules["identity"].createdAt == prepared.provision.capsule.createdAt
            && keys.capsules["identity"].updatedAt == now
  {
  }

  // ---- Runs of restores -----------------------------------------------------------------------------------

  datatype Attempt = Attempt(prepared: Option<Prepared>, canceled: bool, snapshot: Snapshot, faults: Faults,
                             random: int, now: int)

  function Attempted(c: Crypto, s: Databases, a: Attempt): (Databases, Outcome) {
    RestoreBackup(c, s, a.prepared, a.canceled, a.snapshot, a.faults, a.random, a.now)
  }

  ghost predicate Sound(c: Crypto, s: Databases, a: Attempt) {
    && SnapshotOf(c, s, a.snapshot)
    && (a.prepared.Some? ==> IsStaged(c, a.prepared.value.provision))
  }

  ghost predicate IsRestoreRun(c: Crypto, states: seq<Databases>, attempts: seq<Attempt>) {
    && |states| == |attempts| + 1
    && forall i :: 0 <= i < |attempts| ==>
      Sound(c, states[i], attempts[i]) && states[i + 1] == Attempted(c, states[i], attempts[i]).0
  }

  /** What a user has: messages, peer keys and the identity that can be unlocked. */
  datatype Holdings = Holdings(messages: MessageDb, peerKeys: Table, identity: Option<Payload>)

  function HoldingsOf(c: Crypto, s: Databases): Holdings {
    Holdings(s.messages, s.keys.peerKeys, OperationalIdentity(c, s.keys))
  }

  /** Every table holds what the backup has for it, and its identity unlocks. */
  ghost predicate HasBackup(has: Holdings, backup: Prepared) {
    && HoldsRows(has.messages, backup.rows) && Holds(has.peerKeys, backup.peers)
    && has.identity == Some(backup.provision.payload)
  }

  lemma AttemptKeepsOrRestores(c: Crypto, s: Databases, a: Attempt)
    requires Lawful(c) && Sound(c, s, a)
    ensures var (next, outcome) := Attempted(c, s, a);
            && (outcome == NotApplied || outcome == ApplyFailed ==> HoldingsOf(c, next) == HoldingsOf(c, s))
            && (outcome == Restored ==> a.prepared.Some? && HasBackup(HoldingsOf(c, next), a.prepared.value))
  {
    RestoreMeetsOutcome(c, s, a.prepared, a.canceled, a.snapshot, a.faults, a.random, a.now);
    OutcomeDecidedByFaults(c, s, a.prepared, a.canceled, a.snapshot, a.faults, a.random, a.now);
  }

  /** What one attempt does to the holdings, by its outcome. */
  ghost predicate KeepsOrRestores(has: Holdings, next: Holdings, outcome: Outcome, backup: Option<Prepared>) {
    && (outcome == NotApplied || outcome == ApplyFailed ==> next == has)
    && (outcome == Restored ==> backup.Some? && HasBackup(next, backup.value))
  }

  ghost predicate IsLastRestored(outcomes: seq<Outcome>, n: nat, last: nat)
    requires n <= |outcomes|
  {
    last < n && outcomes[last] == Restored && forall i :: last < i < n ==> outcomes[i] != Restored
  }

  lemma {:induction false} LastWins(
    has: seq<Holdings>, outcomes: seq<Outcome>, backups: seq<Option<Prepared>>, n: nat, last: nat
  )
    requires |has| == |outcomes| + 1 == |backups| + 1 && n <= |outcomes|
    requires forall i :: 0 <= i < n ==> KeepsOrRestores(has[i], has[i + 1], outcomes[i], backups[i])
    requires forall i :: 0 <= i < n ==> outcomes[i] != RollbackFailed
    ensures (forall i :: 0 <= i < n ==> outcomes[i] != Restored) ==> has[n] == has[0]
    ensures IsLastRestored(outcomes, n, last) ==> backups[last].Some? && HasBackup(has[n], backups[last].value)
  {
    if n == 0 {
    } else {
      LastWins(has, outcomes, backups, n - 1, last);
      assert KeepsOrRestores(has[n - 1], has[n], outcomes[n - 1], backups[n - 1]);
    }
  }

  function Outcomes(c: Crypto, states: seq<Databases>, attempts: seq<Attempt>): (r: seq<Outcome>)
    requires |states| == |attempts| + 1
    ensures |r| == |attempts|
  {
    seq(|attempts|, i requires 0 <= i < |attempts| => Attempted(c, states[i], attempts[i]).1)
  }

  /**
   * However many restores fail, are canceled or succeed: as long as no rollback fails, the user has what the
   * last restored backup held, or what there was before the first.
   */
  lemma RunHoldsLastRestored(c: Crypto, states: seq<Databases>, attempts: seq<Attempt>, n: nat, last: nat)
    requires Lawful(c) && IsRestoreRun(c, states, attempts) && n < |states|
    requires RollbackFailed !in Outcomes(c, states, attempts)[..n]
    ensures Restored !in Outcomes(c, states, attempts)[..n] ==> HoldingsOf(c, states[n]) == HoldingsOf(c, states[0])
    ensures IsLastRestored(Outcomes(c, states, attempts), n, last) ==>
              attempts[last].prepared.Some? && HasBackup(HoldingsOf(c, states[n]), attempts[last].prepared.value)
  {
    var outcomes := Outcomes(c, states, attempts);
    var has := seq(|states|, i requires 0 <= i < |states| => HoldingsOf(c, states[i]));
    var backups := seq(|attempts|, i requires 0 <= i < |attempts| => attempts[i].prepared);
    forall i | 0 <= i < n
      ensures KeepsOrRestores(has[i], has[i + 1], outcomes[i], backups[i])
      ensures outcomes[i] in outcomes[..n]
    {
      AttemptKeepsOrRestores(c, states[i], attempts[i]);
      assert outcomes[..n][i] == outcomes[i];
    }
    LastWins(has, outcomes, backups, n, last);
  }

  // ---- The identity after a failed restore ---------------------------------------------------------------

  function Pairs(keys: KeyDb): map<string, KeyPair> { map id | id in keys.keyPairs :: keys.keyPairs[id].pair }

  /** The stored key pairs are those the recovered identity stands for, or there is nothing to lose. */
  ghost predicate IdentityRecoverable(c: Crypto, keys: KeyDb) {
    match OperationalIdentity(c, keys)
    case None => keys.keyPairs == map[]
    case Some(payload) =>
      && c.runtimeKeys(payload).Some?
      && Pairs(keys) == PairMap(c.runtimeKeys(payload).value)
  }

  function PairMap(pairs: KeyPairs): map<string, KeyPair> {
    map["encryption" := pairs.encryption, "signing" := pairs.signing]
  }

  lemma PairsOfKeyState(provision: Option<Provision>, peers: seq<Row>, now: int)
    ensures Pairs(KeyState(provision, peers, now))
              == if provision == None then map[] else PairMap(provision.value.pairs)
  {
  }

  lemma NoPairs(keys: KeyDb)
    ensures Pairs(keys) == map[] <==> keys.keyPairs == map[]
  {
    if keys.keyPairs != map[] {
      var id :| id in keys.keyPairs;
      assert id in Pairs(keys);
    }
  }

  /**
   * After a restore reported as rolled back, the key pairs are the old ones exactly when the snapshot could
   * recover them.
   */
  lemma RollbackKeepsKeysIff(
    c: Crypto, s: Databases, prepared: Option<Prepared>, canceled: bool, snapshot: Snapshot, faults: Faults,
    random: int, now: int
  )
    requires SnapshotOf(c, s, snapshot)
    requires RestoreBackup(c, s, prepared, canceled, snapshot, faults, random, now).1 == ApplyFailed
    ensures Pairs(RestoreBackup(c, s, prepared, canceled, snapshot, faults, random, now).0.keys) == Pairs(s.keys)
       <==> IdentityRecoverable(c, s.keys)
  {
    var provision := if snapshot.payload == None then None
                     else StageIdentityProvision(c, snapshot.payload.value, random);
    PairsOfKeyState(provision, snapshot.peers, now);
    NoPairs(s.keys);
    assert RestoreBackup(c, s, prepared, canceled, snapshot, faults, random, now).0.keys
             == KeyState(provision, snapshot.peers, now);
  }

  const NoFaults: Faults := Faults(false, false, false, false, false, false)
  const EmptyRows: MessageRows := MessageRows([], [], [], [], [], [])

  /**
   * A user with both key pairs but a capsule that does not open: the first transaction fails before anything
   * is written, the restore is reported as rolled back, and the key pairs are gone.
   */
  lemma RollbackLosesUnrecoverableIdentity(
    c: Crypto, s: Databases, snapshot: Snapshot, prepared: Prepared, random: int, now: int
  )
    requires SnapshotOf(c, s, snapshot) && OperationalIdentity(c, s.keys) == None && s.keys.keyPairs != map[]
    ensures var (after, outcome) :=
              RestoreBackup(c, s, Some(prepared), false, snapshot, NoFaults.(applyMessages := true), random, now);
            outcome == ApplyFailed && after.keys.keyPairs == map[] && after.keys != s.keys
  {
  }

  /** Such a user exists. */
  lemma UnrecoverableIdentityExists() returns (c: Crypto, s: Databases, snapshot: Snapshot)
    ensures Lawful(c) && SnapshotOf(c, s, snapshot) && OperationalIdentity(c, s.keys) == None
    ensures s.keys.keyPairs != map[]
  {
    var pairs := KeyPairs(KeyPair("ep", "es"), KeyPair("sp", "ss"));
    c := Crypto(
      (p: Payload) => if p == Payload("u", "x") then Some(pairs) else None,
      (p: Payload, key: string, random: int) => Capsule(0, "sealed"),
      (capsule: Capsule, key: string) => if capsule.cipherText == "sealed" then Some(Payload("u", "x")) else None);
    var keys := KeyDb(map["encryption" := StoredKeyPair(pairs.encryption, 0),
                          "signing" := StoredKeyPair(pairs.signing, 0)],
                      map[], map["identity" := StoredCapsule(Capsule(0, "damaged"), 0, 0)]);
    s := Databases(Filled(EmptyRows), keys);
    snapshot := Snapshot(None, [], EmptyRows);
    FilledHolds(EmptyRows, Filled(EmptyRows));
    OneTable(map[], []);
  }
}
