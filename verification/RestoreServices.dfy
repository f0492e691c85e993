/** The two databases, rewritten in place by transactions that either complete or change nothing. */
module RestoreServices {
  import opened Common
  import opened Restore

  /** `bulkPut`, row by row. */
  method BulkPut(table: Table, rows: seq<Row>) returns (r: Table)
    ensures r == PutAll(table, rows)
  {
    r := table;
    var i := 0;
    while i < |rows|
      invariant 0 <= i <= |rows| && r == PutAll(table, rows[..i])
    {
      assert rows[..i + 1][..i] == rows[..i];
      r := r[rows[i].key := rows[i].value];
      i := i + 1;
    }
    assert rows[..i] == rows;
  }

  /** `toArray`, in whatever order the table is read. */
  method ToArray(table: Table) returns (rows: seq<Row>)
    ensures PutAll(map[], rows) == table && Holds(table, rows)
  {
    rows := [];
    var left := table.Keys;
    while left != {}
      invariant left <= table.Keys
      invariant PutAll(map[], rows) == map k | k in table && k !in left :: table[k]
      decreases |left|
    {
      var k :| k in left;
      var row := Row(k, table[k]);
      assert (rows + [row])[..|rows|] == rows;
      rows := rows + [row];
      left := left - {k};
    }
    PutAllHolds(rows);
  }

  class RestoreService {
    const crypto: Crypto
    var messageDb: MessageDb
    var keyDb: KeyDb

    constructor (crypto: Crypto, messageDb: MessageDb, keyDb: KeyDb)
      ensures this.crypto == crypto && Contents() == Databases(messageDb, keyDb)
    {
      this.crypto, this.messageDb, this.keyDb := crypto, messageDb, keyDb;
    }

    ghost function Contents(): Databases
      reads this
    {
      Databases(messageDb, keyDb)
    }

    /** All six tables are cleared and refilled in one transaction; `fails` aborts it. */
    method ReplaceMessageDatabaseState(rows: MessageRows, fails: bool) returns (ok: bool)
      modifies this`messageDb
      ensures ok == !fails && messageDb == if fails then old(messageDb) else Filled(rows)
      ensures ok ==> HoldsRows(messageDb, rows)
    {
      var messages := BulkPut(map[], rows.messages);
      var linkPreviews := BulkPut(map[], rows.linkPreviews);
      var outbox := BulkPut(map[], rows.outbox);
      var attachments := BulkPut(map[], rows.attachments);
      var transferQueue := BulkPut(map[], rows.transferQueue);
      var remoteMedia := BulkPut(map[], rows.remoteMedia);
      if fails {
        return false;
      }
      FilledHolds(rows, Filled(rows));
      messageDb := MessageDb(messages, linkPreviews, outbox, attachments, transferQueue, remoteMedia);
      return true;
    }

    method ReplaceKeyDatabaseState(
      provision: Option<Provision>, peers: seq<Row>, now: int, fails: bool
    ) returns (ok: bool)
      modifies this`keyDb
      ensures ok == !fails && keyDb == if fails then old(keyDb) else KeyState(provision, peers, now)
      ensures ok ==> Holds(keyDb.peerKeys, peers)
    {
      var keyPairs: map<string, StoredKeyPair>, capsules: map<string, StoredCapsule> := map[], map[];
      if provision.Some? {
        var p := provision.value;
        keyPairs := keyPairs["encryption" := StoredKeyPair(p.pairs.encryption, now)];
        keyPairs := keyPairs["signing" := StoredKeyPair(p.pairs.signing, now)];
        capsules := capsules["identity" := StoredCapsule(p.capsule, p.capsule.createdAt, now)];
      }
      var peerKeys := BulkPut(map[], peers);
      if fails {
        return false;
      }
      PutAllHolds(peers);
      keyDb := KeyDb(keyPairs, peerKeys, capsules);
      return true;
    }

    method CollectCurrentRestoreSnapshot() returns (snapshot: Snapshot)
      ensures SnapshotOf(crypto, Contents(), snapshot)
    {
      var peers := ToArray(keyDb.peerKeys);
      var messages := ToArray(messageDb.messages);
      var attachments := ToArray(messageDb.localAttachments);
      var remoteMedia := ToArray(messageDb.remoteMedia);
      var linkPreviews := ToArray(messageDb.linkPreviews);
      var outbox := ToArray(messageDb.outbox);
      var transferQueue := ToArray(messageDb.transferQueue);
      snapshot := Snapshot(OperationalIdentity(crypto, keyDb), peers,
                           MessageRows(messages, attachments, remoteMedia, linkPreviews, outbox, transferQueue));
    }

    method ApplyPreparedRestore(prepared: Prepared, faults: Faults, now: int) returns (ok: bool)
      modifies this
      ensures (Contents(), ok) == ApplyPrepared(old(Contents()), prepared, faults, now)
    {
      ok := ReplaceMessageDatabaseState(prepared.rows, faults.applyMessages);
      if !ok {
        return false;
      }
      ok := ReplaceKeyDatabaseState(Some(prepared.provision), prepared.peers, now, faults.applyKeys);
    }

    method RollbackRestore(snapshot: Snapshot, faults: Faults, random: int, now: int) returns (ok: bool)
      modifies this
      ensures (Contents(), ok) == Rollback(crypto, old(Contents()), snapshot, faults, random, now)
    {
      ok := ReplaceMessageDatabaseState(snapshot.rows, faults.rollbackMessages);
      if !ok {
        return false;
      }
      var provision: Option<Provision> := None;
      if snapshot.payload.Some? {
        provision := StageIdentityProvision(crypto, snapshot.payload.value, random);
        if faults.rollbackStage || provision == None {
          return false;
        }
      }
      ok := ReplaceKeyDatabaseState(provision, snapshot.peers, now, faults.rollbackKeys);
    }

    /** The whole restore, with the snapshot it took. */
    method RunRestore(prepared: Option<Prepared>, canceled: bool, faults: Faults, random: int, now: int)
      returns (outcome: Outcome, ghost snapshot: Snapshot)
      modifies this
      ensures SnapshotOf(crypto, old(Contents()), snapshot)
      ensures (Contents(), outcome)
                == RestoreBackup(crypto, old(Contents()), prepared, canceled, snapshot, faults, random, now)
      ensures outcome == Restored ==>
                && prepared.Some? && HoldsRows(messageDb, prepared.value.rows)
                && Holds(keyDb.peerKeys, prepared.value.peers)
      ensures outcome == NotApplied || outcome == ApplyFailed ==>
                messageDb == old(messageDb) && keyDb.peerKeys == old(keyDb).peerKeys
    {
      var taken := CollectCurrentRestoreSnapshot();
      snapshot := taken;
      RestoreMeetsTables(crypto, Contents(), prepared, canceled, snapshot, faults, random, now);
      OutcomeDecidedByFaults(crypto, Contents(), prepared, canceled, snapshot, faults, random, now);
      if prepared == None || canceled || faults.snapshot {
        return NotApplied, snapshot;
      }
      var applied := ApplyPreparedRestore(prepared.value, faults, now);
      if applied {
        return Restored, snapshot;
      }
      var rolledBack := RollbackRestore(taken, faults, random, now);
      return if rolledBack then ApplyFailed else RollbackFailed, snapshot;
    }
  }
}
