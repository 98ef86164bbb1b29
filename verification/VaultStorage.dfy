/** The record store of one vault, in place. */
module VaultStorage {
  import opened Text
  import opened VaultSync
  import opened SyncConvergence

  datatype SyncError = SyncBootstrapRequired | VaultIdMismatch | DeltaOutOfOrder

  datatype Result<T> = Success(value: T) | Failure(error: SyncError)

  datatype ApplyDeltaReport = ApplyDeltaReport(appliedRecords: nat, skippedRecords: nat, newCursor: nat)

  datatype Header = Header(vaultId: string, lastLogicalClock: nat)

  class VaultStore {
    var header: Option<Header>
    var unlocked: bool
    var table: Table

    ghost predicate Valid()
      reads this
    {
      if header.Some? then ReplicaOk(Copy()) else table == map[]
    }

    ghost function Copy(): Replica
      requires header.Some?
      reads this
    {
      Replica(header.value.lastLogicalClock, table)
    }

    constructor ()
      ensures Valid() && header.None? && !unlocked && table == map[]
    {
      header, unlocked, table := None, false, map[];
    }

    /** A new vault is empty and unlocked. */
    method CreateVault(vaultId: string, passphraseOk: bool) returns (ok: bool)
      requires Valid()
      modifies this
      ensures Valid() && ok == (old(header).None? && passphraseOk)
      ensures !ok ==> unchanged(this)
      ensures ok ==> header == Some(Header(vaultId, 0)) && unlocked && table == map[]
    {
      ok := header.None? && passphraseOk;
      if ok {
        header, unlocked := Some(Header(vaultId, 0)), true;
      }
    }

    method Unlock(keyOk: bool) returns (ok: bool)
      requires Valid()
      modifies this`unlocked
      ensures Valid() && ok == (header.Some? && keyOk) && unlocked == (ok || old(unlocked))
    {
      ok := header.Some? && keyOk;
      if ok {
        unlocked := true;
      }
    }

    method Lock()
      requires Valid()
      modifies this`unlocked
      ensures Valid() && !unlocked
    {
      unlocked := false;
    }

    /** Only into an empty store; the clock is at least that of every record. */
    method ApplySnapshot(vaultId: string, clock: nat, records: seq<Record>, headerOk: bool) returns (ok: bool)
      requires Valid()
      modifies this
      ensures Valid() && unlocked == old(unlocked) && ok == (old(header).None? && headerOk)
      ensures !ok ==> unchanged(this)
      ensures ok ==> header == Some(Header(vaultId, MaxClock(clock, records))) && table == Restored(records)
    {
      ok := header.None? && headerOk;
      if !ok {
        return;
      }
      var last := clock;
      for i := 0 to |records|
        invariant header.None? && unlocked == old(unlocked)
        invariant last == MaxClock(clock, records[..i]) && table == Restored(records[..i])
        invariant ReplicaOk(Replica(last, table))
      {
        assert records[..i + 1][..i] == records[..i];
        last := Max(last, records[i].logicalClock);
        table := table[records[i].recordId := AsSynced(records[i])];
      }
      assert records[..|records|] == records;
      header := Some(Header(vaultId, last));
    }

    /** Needs the master key of an initialised vault; `contents` is what encryption made of the value. */
    method StoreRecord(id: string, kind: RecordKind, modifiedAt: int, contents: Sealed) returns (ok: bool)
      requires Valid()
      modifies this
      ensures Valid() && ok == (old(unlocked) && old(header).Some?)
      ensures !ok ==> unchanged(this)
      ensures ok ==> header.Some? && unlocked && Copy() == EditStep(old(Copy()), Store(id, kind, modifiedAt, contents))
    {
      ok := unlocked && header.Some?;
      if ok {
        var synced := if id in table && table[id].kind == kind then table[id].lastSyncedClock else None;
        var clock := header.value.lastLogicalClock + 1;
        header := Some(header.value.(lastLogicalClock := clock));
        table := table[id :=
            Record(id, kind, RECORD_SCHEMA_VERSION, clock, modifiedAt, None, contents, synced, Pending)];
      }
    }

    /** Leaves a tombstone, once; no key is needed. */
    method DeleteRecord(id: string, kind: RecordKind, now: int) returns (deleted: bool)
      requires Valid()
      modifies this
      ensures Valid() && unlocked == old(unlocked)
      ensures deleted <==> HasRow(old(table), id, kind) && old(table)[id].deletedAt.None?
      ensures !deleted ==> unchanged(this)
      ensures deleted ==> header.Some? && old(header).Some? && Copy() == EditStep(old(Copy()), Delete(id, kind, now))
    {
      if id !in table || table[id].kind != kind || table[id].deletedAt.Some? {
        return false;
      }
      var clock := header.value.lastLogicalClock + 1;
      header := Some(header.value.(lastLogicalClock := clock));
      table := table[id :=
          table[id].(logicalClock := clock, modifiedAt := now, deletedAt := Some(now), syncState := Pending)];
      deleted := true;
    }

    /** One record of a delta: skipped if the row of its kind is at least as late, stored otherwise. */
    method ReceiveRecord(incoming: Record) returns (skip: bool)
      modifies this`table
      ensures table == Accept(old(table), incoming) && skip == Skipped(old(table), incoming)
    {
      skip := incoming.recordId in table && table[incoming.recordId].kind == incoming.kind
        && !Precedes(table[incoming.recordId], AsSynced(incoming));
      if !skip {
        table := table[incoming.recordId := AsSynced(incoming)];
      }
    }

    /** Refused deltas change nothing; accepted ones are merged, and the clock catches up with them. */
    method ApplyDelta(delta: Delta) returns (result: Result<ApplyDeltaReport>)
      requires Valid()
      modifies this
      ensures Valid() && unlocked == old(unlocked)
      ensures result.Failure? <==>
                old(header).None? || delta.vaultId != old(header).value.vaultId
                    || old(header).value.lastLogicalClock < delta.fromClock
      ensures result.Failure? ==> unchanged(this)
      ensures result.Success? ==>
                && table == Merge(old(table), delta.records)
                && header == Some(Header(delta.vaultId,
                     MaxClock(Max(old(header).value.lastLogicalClock, delta.toClock), delta.records)))
                && result.value.skippedRecords == CountSkipped(old(table), delta.records)
                && result.value.appliedRecords + result.value.skippedRecords == |delta.records|
                && header == Some(Header(delta.vaultId, result.value.newCursor))
    {
      if header.None? {
        return Failure(SyncBootstrapRequired);
      }
      if delta.vaultId != header.value.vaultId {
        return Failure(VaultIdMismatch);
      }
      var localCursor := header.value.lastLogicalClock;
      if localCursor < delta.fromClock {
        return Failure(DeltaOutOfOrder);
      }
      var applied, skipped := 0, 0;
      var newCursor := Max(localCursor, delta.toClock);
      for i := 0 to |delta.records|
        invariant header == old(header) && unlocked == old(unlocked) && localCursor <= newCursor
        invariant ReplicaOk(Replica(newCursor, table))
        invariant table == Merge(old(table), delta.records[..i])
        invariant newCursor == MaxClock(Max(localCursor, delta.toClock), delta.records[..i])
        invariant skipped == CountSkipped(old(table), delta.records[..i]) && applied + skipped == i
      {
        var incoming := delta.records[i];
        assert delta.records[..i + 1][..i] == delta.records[..i];
        newCursor := Max(newCursor, incoming.logicalClock);
        var skip := ReceiveRecord(incoming);
        if skip {
          skipped := skipped + 1;
        } else {
          applied := applied + 1;
        }
      }
      assert delta.records[..|delta.records|] == delta.records;
      header := Some(header.value.(lastLogicalClock := newCursor));
      result := Success(ApplyDeltaReport(applied, skipped, newCursor));
    }
  }
}
