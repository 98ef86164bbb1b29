/** What each vault operation does, said of the state before and after it and not of how it is done. */
module VaultEffects {
  import opened Text
  import opened Sorting
  import opened ConfigModel
  import opened ConfigValidation
  import opened AuthReferences
  import opened VaultModel
  import opened IndexAgreement
  import opened RegistryMirror
  import opened DefaultTarget

  ghost predicate OthersKept(s: State, s': State, id: string) {
    forall v | v != id :: (v in s'.vaults <==> v in s.vaults) && (v in s.vaults ==> s'.vaults[v] == s.vaults[v])
  }

  /** The vault is as it was, but for its access. */
  ghost predicate AccessBecomes(s: State, s': State, id: string, access: Access) {
    && id in s.vaults && id in s'.vaults && OthersKept(s, s', id)
    && s'.vaults[id].access == access && s'.vaults[id].hosts == s.vaults[id].hosts
    && s'.vaults[id].entry == s.vaults[id].entry
  }

  /** The vault is as it was, but for its hosts. */
  ghost predicate HostsBecome(s: State, s': State, id: string, hosts: map<string, HostAuthSummary>) {
    && id in s.vaults && id in s'.vaults && OthersKept(s, s', id) && s'.config == s.config
    && s'.vaults[id].hosts == hosts && s'.vaults[id].access == s.vaults[id].access
    && s'.vaults[id].entry == s.vaults[id].entry
  }

  /** Nothing of the vault is left in the index, and the rest of it is as it was. */
  ghost predicate Unindexed(s: State, s': State, id: string) {
    && (forall scope: Scope | scope in s'.index :: scope.0 != id)
    && forall scope: Scope | scope.0 != id ::
         (scope in s'.index <==> scope in s.index) && (scope in s.index ==> s'.index[scope] == s.index[scope])
  }

  /** Lookups in a vault that is not indexed find nothing. */
  lemma UnindexedIsSilent(lower: string -> string, forward: Forward, kind: Kind, inverse: Inverse, scope: Scope)
    requires InverseOk(lower, forward, kind, inverse) && forall s: Scope | s in forward :: s.0 != scope.0
    ensures Listed(inverse, scope) == [] && scope !in inverse
  {
    var list := Listed(inverse, scope);
    assert ListOk(lower, forward, kind, scope, list);
    assert forall r :: !Mentions(forward, kind, scope, r);
    FirstIsMember(list);
  }

  // ---- Locking and closing ----

  /** An open vault is locked and forgotten by the index; nothing else changes. */
  lemma LockEffect(env: Env, s: State, id: string)
    ensures var s' := Step(env, s, Lock(id));
            if id in s.vaults && s.vaults[id].access != Closed then
              AccessBecomes(s, s', id, Locked) && Unindexed(s, s', id) && s'.config == s.config
            else s' == s
  {
  }

  /** So every lookup in it is empty from then on, whatever the index held. */
  lemma LockSilences(env: Env, s: State, id: string, lower: string -> string, kind: Kind, inverse: Inverse, x: string)
    requires id in s.vaults && s.vaults[id].access != Closed
    requires InverseOk(lower, Step(env, s, Lock(id)).index, kind, inverse)
    ensures Listed(inverse, (id, x)) == []
  {
    LockEffect(env, s, id);
    UnindexedIsSilent(lower, Step(env, s, Lock(id)).index, kind, inverse, (id, x));
  }

  /** A vault is closed in memory whatever becomes of the listing. */
  lemma CloseEffect(env: Env, s: State, id: string, persistOk: bool)
    ensures var s' := Step(env, s, Close(id, persistOk));
            if id in s.vaults then AccessBecomes(s, s', id, Closed) && Unindexed(s, s', id) else s' == s
  {
  }

  /** And it is no longer listed as open, if that can be written; the listing is otherwise kept. */
  lemma CloseUnlists(env: Env, s: State, id: string, persistOk: bool)
    requires Mirrors(env, s) && id in s.vaults
    ensures var s' := Step(env, s, Close(id, persistOk));
            && s'.config == s.config.(vaults := s.config.vaults.(openVaultIds := s'.config.vaults.openVaultIds))
            && forall x :: x in s'.config.vaults.openVaultIds
                           <==> x in s.config.vaults.openVaultIds && (persistOk ==> x != id)
  {
    RetainIdsMembers(s.config.vaults.openVaultIds, id);
    ClosedConfig(env, s, id, persistOk);
    CloseIsStep(env, s, id, persistOk);
  }

  lemma CloseIsStep(env: Env, s: State, id: string, persistOk: bool)
    ensures Step(env, s, Close(id, persistOk)) == CloseStep(env, s, id, persistOk)
  {
  }

  lemma ClosedConfig(env: Env, s: State, id: string, persistOk: bool)
    requires Mirrors(env, s) && id in s.vaults
    ensures var nv := s.config.vaults.(openVaultIds := RetainIds(s.config.vaults.openVaultIds, id));
            CloseStep(env, s, id, persistOk).config == if persistOk then s.config.(vaults := nv) else s.config
  {
    ListingClosed(env, s, id);
    AfterUpdate(env, s, CloseStep(env, s, id, persistOk),
      s.config.vaults.(openVaultIds := RetainIds(s.config.vaults.openVaultIds, id)), persistOk);
  }

  // ---- Opening and unlocking ----

  /** An open succeeds exactly if the vault is known, its database opens, and it is or can be listed. */
  predicate CanOpen(s: State, id: string, openOk: bool, persistOk: bool) {
    id in s.vaults && (s.vaults[id].access == Closed ==> openOk) && (id in s.config.vaults.openVaultIds || persistOk)
  }

  lemma OpenSucceedsIff(env: Env, s: State, id: string, openOk: bool, persistOk: bool)
    requires Mirrors(env, s)
    ensures OpenSucceeds(env, s, id, openOk, persistOk) <==> CanOpen(s, id, openOk, persistOk)
  {
    if id in s.vaults {
      var nv := s.config.vaults.(openVaultIds := s.config.vaults.openVaultIds + [id]);
      ListingOpen(env, s, id);
      SectionUpdate(env, s.config, nv);
    }
  }

  /** The access of a vault after an attempt to open it. */
  function Opened(s: State, id: string, openOk: bool): Access
    requires id in s.vaults
  {
    if s.vaults[id].access == Closed && openOk then Locked else s.vaults[id].access
  }

  lemma OpenEffect(env: Env, s: State, id: string, openOk: bool, persistOk: bool)
    ensures var s' := Step(env, s, Open(id, openOk, persistOk));
            && s'.index == s.index
            && (if id in s.vaults then AccessBecomes(s, s', id, Opened(s, id, openOk)) else s' == s)
  {
  }

  /** A successful open leaves the vault listed, and the rest of the configuration alone. */
  lemma OpenLists(env: Env, s: State, id: string, openOk: bool, persistOk: bool)
    requires Mirrors(env, s)
    ensures var s' := Step(env, s, Open(id, openOk, persistOk));
            && s'.config == s.config.(vaults := s.config.vaults.(openVaultIds := s'.config.vaults.openVaultIds))
            && s'.config.vaults.openVaultIds
               == s.config.vaults.openVaultIds
                  + (if CanOpen(s, id, openOk, persistOk) && id !in s.config.vaults.openVaultIds then [id] else [])
  {
    if id in s.vaults && id !in s.config.vaults.openVaultIds && (s.vaults[id].access == Closed ==> openOk) {
      var nv := s.config.vaults.(openVaultIds := s.config.vaults.openVaultIds + [id]);
      ListingOpen(env, s, id);
      AfterUpdate(env, s, Step(env, s, Open(id, openOk, persistOk)), nv, persistOk);
    }
  }

  lemma UnlockedAccess(s: State, after: State, s': State, id: string, openOk: bool)
    requires id in s.vaults && AccessBecomes(s, after, id, Opened(s, id, openOk))
    requires s'.vaults == WithAccess(after, id, Unlocked)
    ensures AccessBecomes(s, s', id, Unlocked)
  {
  }

  /** What an attempt to unlock makes of a vault: `opened` says that it could be opened, `granted` the rest. */
  ghost predicate UnlockTried(s: State, s': State, id: string, openOk: bool, opened': bool, granted: bool) {
    if id !in s.vaults then s' == s
    else if opened' && granted then AccessBecomes(s, s', id, Unlocked)
    else AccessBecomes(s, s', id, Opened(s, id, openOk))
  }

  lemma DeviceUnlockTried(
    env: Env, s: State, id: string, openOk: bool, persistOk: bool, outcome: DeviceOutcome, listOk: bool)
    ensures UnlockTried(s, Step(env, s, DeviceUnlock(id, openOk, persistOk, outcome, listOk)), id, openOk,
                        OpenSucceeds(env, s, id, openOk, persistOk), outcome == Granted || outcome == FailedLate)
  {
    OpenEffect(env, s, id, openOk, persistOk);
    if OpenSucceeds(env, s, id, openOk, persistOk) {
      DeviceOutcomeAccess(s, OpenStep(env, s, id, openOk, persistOk), id, openOk, outcome, listOk);
    }
  }

  lemma PassphraseUnlockTried(
    env: Env, s: State, id: string, openOk: bool, persistOk: bool, unlockOk: bool, listOk: bool)
    ensures UnlockTried(s, Step(env, s, Unlock(id, openOk, persistOk, unlockOk, listOk)), id, openOk,
                        OpenSucceeds(env, s, id, openOk, persistOk), unlockOk)
  {
    OpenEffect(env, s, id, openOk, persistOk);
    if OpenSucceeds(env, s, id, openOk, persistOk) && unlockOk {
      var after := OpenStep(env, s, id, openOk, persistOk);
      UnlockedAccess(s, after, UnlockedStep(after, id, listOk), id, openOk);
    }
  }

  /** The vault is unlocked exactly if it could be opened and the passphrase is right. */
  lemma UnlockEffect(env: Env, s: State, id: string, openOk: bool, persistOk: bool, unlockOk: bool, listOk: bool)
    requires Mirrors(env, s)
    ensures UnlockTried(s, Step(env, s, Unlock(id, openOk, persistOk, unlockOk, listOk)), id, openOk,
                        CanOpen(s, id, openOk, persistOk), unlockOk)
  {
    OpenSucceedsIff(env, s, id, openOk, persistOk);
    PassphraseUnlockTried(env, s, id, openOk, persistOk, unlockOk, listOk);
  }

  /** A device unlock also unlocks when it fails late. */
  lemma DeviceUnlockEffect(
    env: Env, s: State, id: string, openOk: bool, persistOk: bool, outcome: DeviceOutcome, listOk: bool)
    requires Mirrors(env, s)
    ensures UnlockTried(s, Step(env, s, DeviceUnlock(id, openOk, persistOk, outcome, listOk)), id, openOk,
                        CanOpen(s, id, openOk, persistOk), outcome == Granted || outcome == FailedLate)
  {
    OpenSucceedsIff(env, s, id, openOk, persistOk);
    DeviceUnlockTried(env, s, id, openOk, persistOk, outcome, listOk);
  }

  lemma DeviceOutcomeAccess(s: State, after: State, id: string, openOk: bool, outcome: DeviceOutcome, listOk: bool)
    requires id in s.vaults && AccessBecomes(s, after, id, Opened(s, id, openOk))
    ensures AccessBecomes(s, DeviceOutcomeStep(after, id, outcome, listOk), id,
                          if outcome == Granted || outcome == FailedLate then Unlocked else Opened(s, id, openOk))
  {
    if outcome == Granted || outcome == FailedLate {
      UnlockedAccess(s, after, DeviceOutcomeStep(after, id, outcome, listOk), id, openOk);
    }
  }

  /** At start-up exactly the open vaults that the device can unlock are unlocked. */
  lemma BootstrapEffect(env: Env, s: State, order: seq<string>, unlockable: set<string>, unlistable: set<string>)
    ensures var s' := Step(env, s, Bootstrap(order, unlockable, unlistable));
            && s'.config == s.config && s'.vaults.Keys == s.vaults.Keys
            && forall id | id in s.vaults ::
                 && s'.vaults[id].hosts == s.vaults[id].hosts && s'.vaults[id].entry == s.vaults[id].entry
                 && s'.vaults[id].access
                    == if s.vaults[id].access == Locked && id in unlockable then Unlocked else s.vaults[id].access
  {
  }

  /** A vault is dealt with exactly if nothing at or before one of its places in the order stops the rebuild. */
  lemma {:induction false} ReachedIff(
    vaults: map<string, ManagedVault>, order: seq<string>, unlistable: set<string>, id: string)
    ensures id in Reached(vaults, order, unlistable) <==>
              exists k | 0 <= k < |order| :: order[k] == id
                  && forall j | 0 <= j <= k :: !StopsAt(vaults, order[j], unlistable)
  {
    if order != [] {
      ReachedIff(vaults, order[1..], unlistable, id);
      if !StopsAt(vaults, order[0], unlistable) {
        ReachedTail(vaults, order, unlistable, id);
      }
    }
  }

  ghost predicate ReachedAt(
    vaults: map<string, ManagedVault>, order: seq<string>, unlistable: set<string>, id: string, k: nat) {
    k < |order| && order[k] == id && forall j | 0 <= j <= k :: !StopsAt(vaults, order[j], unlistable)
  }

  lemma ReachedTail(vaults: map<string, ManagedVault>, order: seq<string>, unlistable: set<string>, id: string)
    requires order != [] && !StopsAt(vaults, order[0], unlistable)
    ensures (exists k: nat :: ReachedAt(vaults, order, unlistable, id, k)) <==>
              order[0] == id || exists k: nat :: ReachedAt(vaults, order[1..], unlistable, id, k)
  {
    if order[0] == id {
      assert ReachedAt(vaults, order, unlistable, id, 0);
    }
    if k: nat :| ReachedAt(vaults, order[1..], unlistable, id, k) {
      forall j | 0 <= j <= k + 1 ensures !StopsAt(vaults, order[j], unlistable) {
        if j > 0 { assert order[1..][j - 1] == order[j]; }
      }
      assert ReachedAt(vaults, order, unlistable, id, k + 1);
    }
    if k: nat :| ReachedAt(vaults, order, unlistable, id, k) && k > 0 {
      forall j | 0 <= j <= k - 1 ensures !StopsAt(vaults, order[1..][j], unlistable) {
        assert order[1..][j] == order[j + 1];
      }
      assert ReachedAt(vaults, order[1..], unlistable, id, k - 1);
    }
  }

  // ---- Creating, renaming and deleting ----

  /** The entry of a new vault: the name without outer whitespace, a file of its own, and the time. */
  ghost predicate IsNewEntry(e: VaultRegistryEntry, id: string, name: string, now: int) {
    && e.id == id && IsCore(name, e.name) && e.dbFile == id + ".sqlite" && e.createdAt == now && e.updatedAt == now
  }

  /** No vault but `except` has the name, up to ASCII case or lowercased in full. */
  ghost predicate NameUnused(env: Env, s: State, name: string, except: Option<string>) {
    forall id | id in s.vaults && Some(id) != except ::
      !EqIgnoreAsciiCase(s.vaults[id].entry.name, name) && env.lower(s.vaults[id].entry.name) != env.lower(name)
  }

  predicate FileUnused(s: State, file: string) {
    forall id | id in s.vaults :: s.vaults[id].entry.dbFile != file
  }

  lemma NewEntryIsNew(id: string, name: string, now: int)
    ensures IsNewEntry(NewEntry(id, name, now), id, name, now)
  {
    TrimIsCore(name);
  }

  /** A registry with one more entry is valid exactly if the entry is, and shares nothing with the others. */
  lemma GrownEntries(env: Env, entries: seq<VaultRegistryEntry>, entry: VaultRegistryEntry)
    requires EntriesValid(env, entries)
    ensures EntriesValid(env, entries + [entry]) <==>
              EntryValid(entry) && forall e | e in entries :: EntriesApart(env, e, entry)
  {
    var n, grown := |entries|, entries + [entry];
    assert grown[n] == entry && forall i | 0 <= i < n :: grown[i] == entries[i];
    if EntriesValid(env, grown) {
      forall e | e in entries ensures EntriesApart(env, e, entry) {
        var i :| 0 <= i < n && entries[i] == e;
        assert EntriesApart(env, grown[i], grown[n]);
      }
    }
    if EntryValid(entry) && forall e | e in entries :: EntriesApart(env, e, entry) {
      forall i, j | 0 <= i < j < |grown| ensures EntriesApart(env, grown[i], grown[j]) {
        if j == n { assert entries[i] in entries; } else { assert EntriesApart(env, entries[i], entries[j]); }
      }
    }
  }

  lemma GrownKnown(entries: seq<VaultRegistryEntry>, entry: VaultRegistryEntry, id: string)
    requires KnownVault(entries, id) || id == entry.id
    ensures KnownVault(entries + [entry], id)
  {
    if KnownVault(entries, id) {
      var i :| 0 <= i < |entries| && entries[i].id == id;
      assert (entries + [entry])[i].id == id;
    } else {
      assert (entries + [entry])[|entries|].id == id;
    }
  }

  lemma GrownRegistry(env: Env, registry: VaultRegistryConfig, entry: VaultRegistryEntry)
    requires VaultsValid(env, registry)
    ensures VaultsValid(env, WithEntry(registry, entry)) <==>
              EntryValid(entry) && forall e | e in registry.entries :: EntriesApart(env, e, entry)
  {
    GrownEntries(env, registry.entries, entry);
    forall id | KnownVault(registry.entries, id) || id == entry.id ensures KnownVault(registry.entries + [entry], id) {
      GrownKnown(registry.entries, entry, id);
    }
  }

  lemma ApartIffUnused(env: Env, s: State, entry: VaultRegistryEntry)
    requires Matches(s.vaults, s.config.vaults) && entry.id !in s.vaults
    ensures (forall e | e in s.config.vaults.entries :: EntriesApart(env, e, entry))
            <==> && FileUnused(s, entry.dbFile)
                 && forall id | id in s.vaults :: env.lower(s.vaults[id].entry.name) != env.lower(entry.name)
  {
    var entries := s.config.vaults.entries;
    if forall e | e in entries :: EntriesApart(env, e, entry) {
      forall id | id in s.vaults
        ensures s.vaults[id].entry.dbFile != entry.dbFile && env.lower(s.vaults[id].entry.name) != env.lower(entry.name)
      {
        assert s.vaults[id].entry in entries;
      }
    }
  }

  /** When a vault is created: exactly if its name is not blank and not in use, and everything can be written. */
  lemma CreateAcceptedIff(env: Env, s: State, op: Op)
    requires Mirrors(env, s) && op.Create? && FreshId(s, op.id)
    ensures CreateAccepted(env, s, op) <==>
              && !Blank(op.name) && NameUnused(env, s, Trim(op.name), None) && FileUnused(s, op.id + ".sqlite")
              && op.storeOk && op.persistOk
  {
    var entry := NewEntry(op.id, op.name, op.now);
    BlankIffTrimmedAway(op.name);
    CreateNormalizes(s.config.vaults, op.id, op.name, op.now);
    SectionUpdate(env, s.config, WithEntry(s.config.vaults, entry));
    GrownRegistry(env, s.config.vaults, entry);
    ApartIffUnused(env, s, entry);
  }

  /** What creation does: an unlocked, empty vault, in memory and in the registry; the default if there was none. */
  lemma CreateEffect(env: Env, s: State, op: Op)
    requires Mirrors(env, s) && op.Create?
    ensures var s' := Step(env, s, op);
            if !CreateAccepted(env, s, op) then s' == s
            else
              && OthersKept(s, s', op.id) && op.id in s'.vaults && s'.vaults[op.id].access == Unlocked
              && s'.vaults[op.id].hosts == map[] && IsNewEntry(s'.vaults[op.id].entry, op.id, op.name, op.now)
              && s'.config.vaults.entries == s.config.vaults.entries + [s'.vaults[op.id].entry]
              && s'.config.vaults.openVaultIds == s.config.vaults.openVaultIds + [op.id]
              && s'.config.vaults.defaultTargetVaultId
                 == (if s.config.vaults.defaultTargetVaultId == None then Some(op.id)
                     else s.config.vaults.defaultTargetVaultId)
              && s'.config == s.config.(vaults := s'.config.vaults)
  {
    if CreateAccepted(env, s, op) {
      NewEntryIsNew(op.id, op.name, op.now);
      CreateNormalizes(s.config.vaults, op.id, op.name, op.now);
      AfterUpdate(env, s, CreateStep(env, s, op), WithEntry(s.config.vaults, NewEntry(op.id, op.name, op.now)),
          op.persistOk);
    }
  }

  /** The vault with another name, changed now, and otherwise as it was. */
  ghost predicate Renamed(s: State, s': State, id: string, name: string, now: int) {
    && id in s.vaults && id in s'.vaults && OthersKept(s, s', id) && s'.index == s.index
    && s'.vaults[id].access == s.vaults[id].access && s'.vaults[id].hosts == s.vaults[id].hosts
    && IsCore(name, s'.vaults[id].entry.name) && s'.vaults[id].entry.updatedAt == now
    && s'.vaults[id].entry.id == s.vaults[id].entry.id
    && s'.vaults[id].entry.dbFile == s.vaults[id].entry.dbFile
    && s'.vaults[id].entry.createdAt == s.vaults[id].entry.createdAt
  }

  /** Known, with a name that is not blank and that no other vault has up to ASCII case. */
  ghost predicate MayRename(s: State, id: string, name: string) {
    && id in s.vaults && !Blank(name)
    && forall v | v in s.vaults && v != id :: !EqIgnoreAsciiCase(s.vaults[v].entry.name, Trim(name))
  }

  lemma AttemptedIff(s: State, id: string, name: string, now: int, persistOk: bool)
    ensures RenameAttempted(s, Rename(id, name, now, persistOk)) <==> MayRename(s, id, name)
  {
    BlankIffTrimmedAway(name);
  }

  lemma AttemptedRename(env: Env, s: State, op: Op)
    requires op.Rename? && RenameAttempted(s, op)
    ensures Renamed(s, RenameStep(env, s, op), op.id, op.name, op.now)
  {
    TrimIsCore(op.name);
  }

  /** A rename is tried exactly then, and changes the name and the time in memory, and nothing else there. */
  lemma RenameEffect(env: Env, s: State, id: string, name: string, now: int, persistOk: bool)
    ensures var s' := Step(env, s, Rename(id, name, now, persistOk));
            if MayRename(s, id, name) then Renamed(s, s', id, name, now) else s' == s
  {
    AttemptedIff(s, id, name, now, persistOk);
    if MayRename(s, id, name) {
      AttemptedRename(env, s, Rename(id, name, now, persistOk));
    }
  }

  /** A vault that is not unlocked goes from memory and index, whatever becomes of the registry. */
  lemma DeleteEffect(env: Env, s: State, id: string, persistOk: bool)
    ensures var s' := Step(env, s, Delete(id, persistOk));
            if id in s.vaults && s.vaults[id].access != Unlocked then
              id !in s'.vaults && OthersKept(s, s', id) && Unindexed(s, s', id)
            else s' == s
  {
  }

  /** The registry without the vault and all that refers to it. */
  ghost predicate Unregistered(registry: VaultRegistryConfig, registry': VaultRegistryConfig, id: string) {
    && (forall e :: e in registry'.entries <==> e in registry.entries && e.id != id)
    && (forall x :: x in registry'.openVaultIds <==> x in registry.openVaultIds && x != id)
    && registry'.defaultTargetVaultId
       == (if registry.defaultTargetVaultId == Some(id) then None else registry.defaultTargetVaultId)
  }

  lemma WithoutVaultMembers(registry: VaultRegistryConfig, id: string)
    ensures Unregistered(registry, WithoutVault(registry, id), id)
  {
    RetainEntriesMembers(registry.entries, id);
    RetainIdsMembers(registry.openVaultIds, id);
  }

  /** And from the registry, if that can be written. */
  lemma DeleteUnlists(env: Env, s: State, id: string)
    requires Mirrors(env, s) && id in s.vaults && s.vaults[id].access != Unlocked
    ensures Unregistered(s.config.vaults, Step(env, s, Delete(id, true)).config.vaults, id)
  {
    WithoutVaultMembers(s.config.vaults, id);
    DeletedConfig(env, s, id);
    DeleteIsStep(env, s, id);
  }

  lemma DeleteIsStep(env: Env, s: State, id: string)
    ensures Step(env, s, Delete(id, true)) == DeleteStep(env, s, id, true)
  {
  }

  lemma DeletedConfig(env: Env, s: State, id: string)
    requires Mirrors(env, s) && id in s.vaults && s.vaults[id].access != Unlocked
    ensures DeleteStep(env, s, id, true).config == s.config.(vaults := WithoutVault(s.config.vaults, id))
  {
    RemovingVault(env, s, id);
    AfterUpdate(env, s, DeleteStep(env, s, id, true), WithoutVault(s.config.vaults, id), true);
  }

  // ---- The default ----

  lemma DefaultConfig(env: Env, s: State, id: string, persistOk: bool)
    requires Mirrors(env, s) && id in s.vaults
    ensures UpdateConfig(env, s.config, s.config.vaults.(defaultTargetVaultId := Some(id)), persistOk)
            == if persistOk then s.config.(vaults := s.config.vaults.(defaultTargetVaultId := Some(id))) else s.config
  {
    var nv := s.config.vaults.(defaultTargetVaultId := Some(id));
    RegisteredIdClean(env, s, id);
    KnownIffPresent(s, id);
    SectionUpdate(env, s.config, nv);
  }

  /** A known vault becomes the default if that can be written, and nothing else changes. */
  lemma SetDefaultEffect(env: Env, s: State, id: string, persistOk: bool)
    requires Mirrors(env, s)
    ensures var s' := Step(env, s, SetDefault(id, persistOk));
            s' == if id in s.vaults && persistOk
                  then s.(config := s.config.(vaults := s.config.vaults.(defaultTargetVaultId := Some(id)))) else s
  {
    if id in s.vaults {
      DefaultConfig(env, s, id, persistOk);
    }
    DefaultStep(env, s, id, persistOk);
  }

  lemma DefaultStep(env: Env, s: State, id: string, persistOk: bool)
    ensures Step(env, s, SetDefault(id, persistOk))
            == if id !in s.vaults then s
               else s.(config := UpdateConfig(env, s.config, s.config.vaults.(defaultTargetVaultId := Some(id)),
                   persistOk))
  {
  }

  /** Actions then go to it, if it is unlocked, in whatever order the vaults come. */
  lemma DefaultIsTarget(env: Env, s: State, id: string, order: seq<string>, target: Option<string>)
    requires Mirrors(env, s) && IsUnlocked(s, id)
    requires IsTarget(env, Step(env, s, SetDefault(id, true)), order, target)
    ensures target == Some(id)
  {
    SetDefaultEffect(env, s, id, true);
  }

  // ---- Hosts ----

  /** An accepted save stores the host it was given, and only that. */
  lemma SaveHostEffect(env: Env, s: State, id: string, host: HostAuthSummary, saved: SaveOutcome)
    ensures var s' := Step(env, s, SaveHost(id, host, saved));
            if id in s.vaults && s.vaults[id].access == Unlocked && saved != Refused then
              HostsBecome(s, s', id, s.vaults[id].hosts[host.hostId := host])
            else s' == s
  {
  }

  /** A successful delete removes the host, and only that. */
  lemma DeleteHostEffect(env: Env, s: State, id: string, hostId: string, storeOk: bool)
    ensures var s' := Step(env, s, DeleteHost(id, hostId, storeOk));
            if id in s.vaults && s.vaults[id].access != Closed && hostId in s.vaults[id].hosts && storeOk then
              HostsBecome(s, s', id, s.vaults[id].hosts - {hostId}) && (id, hostId) !in s'.index
            else s' == s
  {
  }

  /** Another record takes the place of a host with its id. */
  lemma SaveOtherEffect(env: Env, s: State, id: string, recordId: string, storeOk: bool)
    ensures var s' := Step(env, s, SaveOther(id, recordId, storeOk));
            if id in s.vaults && s.vaults[id].access == Unlocked && storeOk then
              HostsBecome(s, s', id, s.vaults[id].hosts - {recordId}) && s'.index == s.index
            else s' == s
  {
  }

  /** After a save every key and credential the host mentions lists it, with its new label. */
  lemma SavedHostIsFound(
    env: Env, s: State, id: string, host: HostAuthSummary, lower: string -> string, kind: Kind, inverse: Inverse,
        x: string)
    requires Agrees(s) && IsUnlocked(s, id) && x in MentionedBy(kind, host)
    requires InverseOk(lower, Step(env, s, SaveHost(id, host, Saved)).index, kind, inverse)
    ensures exists i | 0 <= i < |Listed(inverse, (id, x))| ::
              Listed(inverse, (id, x))[i].hostId == host.hostId
                  && Listed(inverse, (id, x))[i].hostLabel == host.hostLabel
  {
    var s' := Step(env, s, SaveHost(id, host, Saved));
    AgreementStep(env, s, SaveHost(id, host, Saved));
    SaveHostEffect(env, s, id, host, Saved);
    LookupIsScan(s', lower, kind, inverse, (id, x));
    var list := Listed(inverse, (id, x));
    assert Uses(s', kind, (id, x), host.hostId);
    var i :| 0 <= i < |list| && list[i].hostId == host.hostId;
    assert list[i] in list;
  }

  /** After a delete nothing lists the host. */
  lemma DeletedHostIsNotFound(
    env: Env, s: State, id: string, hostId: string, lower: string -> string, kind: Kind, inverse: Inverse, x: string)
    requires Agrees(s) && id in s.vaults && s.vaults[id].access != Closed && hostId in s.vaults[id].hosts
    requires InverseOk(lower, Step(env, s, DeleteHost(id, hostId, true)).index, kind, inverse)
    ensures forall r | r in Listed(inverse, (id, x)) :: r.hostId != hostId
  {
    var s' := Step(env, s, DeleteHost(id, hostId, true));
    AgreementStep(env, s, DeleteHost(id, hostId, true));
    DeleteHostEffect(env, s, id, hostId, true);
    LookupIsScan(s', lower, kind, inverse, (id, x));
  }
}
