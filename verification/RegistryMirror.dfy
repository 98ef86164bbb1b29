/** The controller's vault map mirrors the configuration's vault registry. */
module RegistryMirror {
  import opened Text
  import opened ConfigModel
  import opened ConfigValidation
  import opened AuthReferences
  import opened VaultModel

  /** Same ids, same entries. */
  ghost predicate SameEntries(vaults: map<string, ManagedVault>, entries: seq<VaultRegistryEntry>) {
    && (forall e | e in entries :: e.id in vaults && vaults[e.id].entry == e)
    && (forall id | id in vaults :: vaults[id].entry.id == id && vaults[id].entry in entries)
  }

  ghost predicate OpenListed(vaults: map<string, ManagedVault>, openVaultIds: seq<string>) {
    forall id | id in vaults && !vaults[id].access.Closed? :: id in openVaultIds
  }

  ghost predicate Matches(vaults: map<string, ManagedVault>, registry: VaultRegistryConfig) {
    SameEntries(vaults, registry.entries) && OpenListed(vaults, registry.openVaultIds)
  }

  ghost predicate Mirrors(env: Env, s: State) {
    && IsNormalized(s.config) && ConfigValid(env, s.config)
    && Matches(s.vaults, s.config.vaults)
  }

  // ---- Configuration updates ----

  /** Changing only the vault section: what is kept is the section itself, if it is valid. */
  lemma SectionUpdate(env: Env, config: AppConfig, vaults: VaultRegistryConfig)
    requires IsNormalized(config) && ConfigValid(env, config) && VaultsNormalized(vaults)
    ensures Normalize(config.(vaults := vaults)) == config.(vaults := vaults)
    ensures IsNormalized(config.(vaults := vaults))
    ensures ConfigValid(env, config.(vaults := vaults)) <==> VaultsValid(env, vaults)
  {
    NormalizeNormalizes(config.(vaults := vaults));
  }

  /** An update is kept if it is valid and written; the mirror then asks about the section kept. */
  lemma AfterUpdate(env: Env, s: State, s': State, nv: VaultRegistryConfig, persistOk: bool)
    requires Mirrors(env, s) && VaultsNormalized(nv) && s'.config == UpdateConfig(env, s.config, nv, persistOk)
    ensures UpdateSucceeds(env, s.config, nv, persistOk) <==> VaultsValid(env, nv) && persistOk
    ensures s'.config == if VaultsValid(env, nv) && persistOk then s.config.(vaults := nv) else s.config
    ensures Mirrors(env, s') <==> Matches(s'.vaults, s'.config.vaults)
  {
    SectionUpdate(env, s.config, nv);
  }

  lemma KnownIffPresent(s: State, id: string)
    requires SameEntries(s.vaults, s.config.vaults.entries)
    ensures KnownVault(s.config.vaults.entries, id) <==> id in s.vaults
  {
    var entries := s.config.vaults.entries;
    if id in s.vaults {
      assert s.vaults[id].entry in entries;
    }
    if KnownVault(entries, id) {
      var i :| 0 <= i < |entries| && entries[i].id == id;
      assert entries[i] in entries;
    }
  }

  /** The id of a registered vault is trimmed and not blank. */
  lemma RegisteredIdClean(env: Env, s: State, id: string)
    requires Mirrors(env, s) && id in s.vaults
    ensures id != [] && Trimmed(id)
  {
    var entries := s.config.vaults.entries;
    var i :| 0 <= i < |entries| && entries[i] == s.vaults[id].entry;
    assert EntryValid(entries[i]);
  }

  lemma ListingOpen(env: Env, s: State, id: string)
    requires Mirrors(env, s) && id in s.vaults
    ensures var nv := s.config.vaults.(openVaultIds := s.config.vaults.openVaultIds + [id]);
            VaultsNormalized(nv) && VaultsValid(env, nv)
  {
    RegisteredIdClean(env, s, id);
    KnownIffPresent(s, id);
  }

  lemma {:induction false} RetainIdsMembers(ids: seq<string>, id: string)
    ensures forall x :: x in RetainIds(ids, id) <==> x in ids && x != id
  {
    if ids != [] {
      RetainIdsMembers(ids[1..], id);
      assert ids == [ids[0]] + ids[1..];
    }
  }

  lemma ListingClosed(env: Env, s: State, id: string)
    requires Mirrors(env, s)
    ensures var nv := s.config.vaults.(openVaultIds := RetainIds(s.config.vaults.openVaultIds, id));
            VaultsNormalized(nv) && VaultsValid(env, nv)
  {
    var ids := s.config.vaults.openVaultIds;
    RetainIdsMembers(ids, id);
    var kept := RetainIds(ids, id);
    forall i | 0 <= i < |kept|
      ensures kept[i] != [] && Trimmed(kept[i]) && KnownVault(s.config.vaults.entries, kept[i])
    {
      assert kept[i] in kept;
      var j :| 0 <= j < |ids| && ids[j] == kept[i];
    }
  }

  lemma {:induction false} RetainEntriesMembers(entries: seq<VaultRegistryEntry>, id: string)
    ensures forall e :: e in RetainEntries(entries, id) <==> e in entries && e.id != id
  {
    if entries != [] {
      RetainEntriesMembers(entries[1..], id);
      assert entries == [entries[0]] + entries[1..];
    }
  }

  lemma {:induction false} RetainEntriesValid(env: Env, entries: seq<VaultRegistryEntry>, id: string)
    requires EntriesValid(env, entries)
    ensures EntriesValid(env, RetainEntries(entries, id))
  {
    if entries != [] {
      var rest := entries[1..];
      RetainEntriesValid(env, rest, id);
      RetainEntriesMembers(rest, id);
      var kept := RetainEntries(rest, id);
      forall j | 0 <= j < |kept| ensures EntriesApart(env, entries[0], kept[j]) {
        assert kept[j] in kept;
        var k :| 0 <= k < |rest| && rest[k] == kept[j];
        assert rest[k] == entries[k + 1];
      }
    }
  }

  lemma RetainedKnown(entries: seq<VaultRegistryEntry>, id: string, other: string)
    requires KnownVault(entries, other) && other != id
    ensures KnownVault(RetainEntries(entries, id), other)
  {
    RetainEntriesMembers(entries, id);
    var i :| 0 <= i < |entries| && entries[i].id == other;
    assert entries[i] in RetainEntries(entries, id);
  }

  lemma RemovingVault(env: Env, s: State, id: string)
    requires Mirrors(env, s)
    ensures var nv := WithoutVault(s.config.vaults, id); VaultsNormalized(nv) && VaultsValid(env, nv)
  {
    var vaults := s.config.vaults;
    var nv := WithoutVault(vaults, id);
    RetainEntriesValid(env, vaults.entries, id);
    RetainEntriesMembers(vaults.entries, id);
    RetainIdsMembers(vaults.openVaultIds, id);
    forall i | 0 <= i < |nv.entries|
      ensures Trimmed(nv.entries[i].id) && Trimmed(nv.entries[i].name) && Trimmed(nv.entries[i].dbFile)
    {
      assert nv.entries[i] in nv.entries;
      var j :| 0 <= j < |vaults.entries| && vaults.entries[j] == nv.entries[i];
    }
    forall i | 0 <= i < |nv.openVaultIds|
      ensures nv.openVaultIds[i] != [] && Trimmed(nv.openVaultIds[i]) && KnownVault(nv.entries, nv.openVaultIds[i])
    {
      assert nv.openVaultIds[i] in nv.openVaultIds;
      var j :| 0 <= j < |vaults.openVaultIds| && vaults.openVaultIds[j] == nv.openVaultIds[i];
      RetainedKnown(vaults.entries, id, nv.openVaultIds[i]);
    }
    if nv.defaultTargetVaultId.Some? {
      RetainedKnown(vaults.entries, id, nv.defaultTargetVaultId.value);
    }
  }

  // ---- Each operation ----

  /** Opening a closed, unlisted vault whose listing cannot be written. */
  predicate OpenUnlisted(s: State, id: string, openOk: bool, persistOk: bool) {
    id in s.vaults && s.vaults[id].access.Closed? && openOk && id !in s.config.vaults.openVaultIds && !persistOk
  }

  /** The refusals that leave memory and configuration apart. */
  ghost predicate BreaksMirror(env: Env, s: State, op: Op) {
    match op
    case Rename(id, _, _, persistOk) =>
      && RenameAttempted(s, op)
      && RenamedEntry(s, op) != s.vaults[id].entry
      && !(persistOk && NameFree(env, s, id, Trim(op.name)))
    case Open(id, openOk, persistOk) => OpenUnlisted(s, id, openOk, persistOk)
    case Unlock(id, openOk, persistOk, _, _) => OpenUnlisted(s, id, openOk, persistOk)
    case DeviceUnlock(id, openOk, persistOk, _, _) => OpenUnlisted(s, id, openOk, persistOk)
    case Delete(id, persistOk) => id in s.vaults && !s.vaults[id].access.Unlocked? && !persistOk
    case _ => false
  }

  /** No other vault has the name when both are lowercased as validation does it. */
  predicate NameFree(env: Env, s: State, id: string, name: string) {
    forall other | other in s.vaults && other != id :: env.lower(s.vaults[other].entry.name) != env.lower(name)
  }

  lemma OpenMirror(env: Env, s: State, id: string, openOk: bool, persistOk: bool)
    requires Mirrors(env, s)
    ensures Mirrors(env, OpenStep(env, s, id, openOk, persistOk)) <==> !OpenUnlisted(s, id, openOk, persistOk)
    ensures OpenSucceeds(env, s, id, openOk, persistOk) ==>
              && !OpenUnlisted(s, id, openOk, persistOk)
              && id in OpenStep(env, s, id, openOk, persistOk).vaults
              && id in OpenStep(env, s, id, openOk, persistOk).config.vaults.openVaultIds
  {
    if id in s.vaults && (s.vaults[id].access.Closed? ==> openOk) {
      var s' := OpenStep(env, s, id, openOk, persistOk);
      if id in s.config.vaults.openVaultIds {
        AccessMirror(env, s, s', id, s'.vaults[id].access);
      } else {
        var nv := s.config.vaults.(openVaultIds := s.config.vaults.openVaultIds + [id]);
        ListingOpen(env, s, id);
        AfterUpdate(env, s, s', nv, persistOk);
        OpenMatches(s.vaults, s'.vaults, s.config.vaults, id, s'.vaults[id].access);
      }
    }
  }

  lemma OpenMatches(
    vaults: map<string, ManagedVault>, vaults': map<string, ManagedVault>, registry: VaultRegistryConfig, id: string,
        access: Access)
    requires Matches(vaults, registry) && id in vaults && !access.Closed?
    requires vaults' == vaults[id := vaults[id].(access := access)]
    ensures Matches(vaults', registry.(openVaultIds := registry.openVaultIds + [id]))
    ensures Matches(vaults', registry) <==> id in registry.openVaultIds
  {
    var listed := registry.openVaultIds + [id];
    assert listed[|registry.openVaultIds|] == id;
  }

  /** Changing the access of a vault that is listed as open keeps the mirror. */
  lemma AccessMirror(env: Env, s: State, s': State, id: string, access: Access)
    requires Mirrors(env, s) && id in s.vaults && (access.Closed? || id in s.config.vaults.openVaultIds)
    requires s'.vaults == WithAccess(s, id, access) && s'.config == s.config
    ensures Mirrors(env, s')
  {
  }

  /** Unlocking a vault that was opened, and so is listed, keeps the mirror. */
  lemma UnlockedMirror(env: Env, after: State, id: string, listOk: bool, outcome: DeviceOutcome)
    requires Mirrors(env, after) && id in after.vaults && id in after.config.vaults.openVaultIds
    ensures Mirrors(env, UnlockedStep(after, id, listOk))
    ensures Mirrors(env, DeviceOutcomeStep(after, id, outcome, listOk))
  {
    AccessMirror(env, after, UnlockedStep(after, id, listOk), id, Unlocked);
    AccessMirror(env, after, after.(vaults := WithAccess(after, id, Unlocked)), id, Unlocked);
  }

  lemma UnlockMirror(env: Env, s: State, id: string, openOk: bool, persistOk: bool, unlockOk: bool, listOk: bool)
    requires Mirrors(env, s)
    ensures Mirrors(env, UnlockStep(env, s, id, openOk, persistOk, unlockOk, listOk))
            <==> !OpenUnlisted(s, id, openOk, persistOk)
  {
    OpenMirror(env, s, id, openOk, persistOk);
    if OpenSucceeds(env, s, id, openOk, persistOk) {
      UnlockedMirror(env, OpenStep(env, s, id, openOk, persistOk), id, listOk, Granted);
    }
  }

  lemma DeviceUnlockMirror(
    env: Env, s: State, id: string, openOk: bool, persistOk: bool, outcome: DeviceOutcome, listOk: bool)
    requires Mirrors(env, s)
    ensures Mirrors(env, DeviceUnlockStep(env, s, id, openOk, persistOk, outcome, listOk))
            <==> !OpenUnlisted(s, id, openOk, persistOk)
  {
    OpenMirror(env, s, id, openOk, persistOk);
    if OpenSucceeds(env, s, id, openOk, persistOk) {
      UnlockedMirror(env, OpenStep(env, s, id, openOk, persistOk), id, listOk, outcome);
    }
  }

  lemma CloseMirror(env: Env, s: State, id: string, persistOk: bool)
    requires Mirrors(env, s)
    ensures Mirrors(env, CloseStep(env, s, id, persistOk))
  {
    if id in s.vaults {
      var nv := s.config.vaults.(openVaultIds := RetainIds(s.config.vaults.openVaultIds, id));
      ListingClosed(env, s, id);
      AfterUpdate(env, s, CloseStep(env, s, id, persistOk), nv, persistOk);
      CloseMatches(s.vaults, s.config.vaults, id);
    }
  }

  lemma CloseMatches(vaults: map<string, ManagedVault>, registry: VaultRegistryConfig, id: string)
    requires Matches(vaults, registry) && id in vaults
    ensures var vaults' := vaults[id := vaults[id].(access := Closed)];
            Matches(vaults', registry)
                && Matches(vaults', registry.(openVaultIds := RetainIds(registry.openVaultIds, id)))
  {
    RetainIdsMembers(registry.openVaultIds, id);
  }

  lemma DeleteMirror(env: Env, s: State, s': State, id: string, persistOk: bool)
    requires Mirrors(env, s) && id in s.vaults && s'.vaults == s.vaults - {id}
    requires s'.config == UpdateConfig(env, s.config, WithoutVault(s.config.vaults, id), persistOk)
    ensures Mirrors(env, s') <==> persistOk
  {
    RemovingVault(env, s, id);
    AfterUpdate(env, s, s', WithoutVault(s.config.vaults, id), persistOk);
    DeleteMatches(s.vaults, s.config.vaults, id);
  }

  lemma DeleteMatches(vaults: map<string, ManagedVault>, registry: VaultRegistryConfig, id: string)
    requires Matches(vaults, registry) && id in vaults
    ensures Matches(vaults - {id}, WithoutVault(registry, id))
    ensures !Matches(vaults - {id}, registry)
  {
    RetainEntriesMembers(registry.entries, id);
    RetainIdsMembers(registry.openVaultIds, id);
    assert vaults[id].entry in registry.entries;
  }

  lemma DefaultMirror(env: Env, s: State, id: string, persistOk: bool)
    requires Mirrors(env, s)
    ensures Mirrors(env, SetDefaultStep(env, s, id, persistOk))
  {
    if id in s.vaults {
      RegisteredIdClean(env, s, id);
      KnownIffPresent(s, id);
      AfterUpdate(env, s, SetDefaultStep(env, s, id, persistOk), s.config.vaults.(defaultTargetVaultId := Some(id)),
          persistOk);
    }
  }

  lemma NewEntryClean(id: string, name: string, now: int)
    requires id != [] && Trimmed(id)
    ensures var e := NewEntry(id, name, now); Trimmed(e.id) && Trimmed(e.name) && Trimmed(e.dbFile)
  {
    TrimIsTrimmed(name);
    var e := NewEntry(id, name, now);
    assert e.dbFile[0] == id[0] && e.dbFile[|e.dbFile| - 1] == 'e';
  }

  lemma CreateMirror(env: Env, s: State, op: Op)
    requires Mirrors(env, s) && op.Create?
    ensures Mirrors(env, CreateStep(env, s, op))
  {
    if CreateAccepted(env, s, op) {
      var entry := NewEntry(op.id, op.name, op.now);
      var nv := WithEntry(s.config.vaults, entry);
      CreateNormalizes(s.config.vaults, op.id, op.name, op.now);
      AfterUpdate(env, s, CreateStep(env, s, op), nv, op.persistOk);
      CreateMatches(s.vaults, s.config.vaults, entry);
    }
  }

  lemma CreateNormalizes(registry: VaultRegistryConfig, id: string, name: string, now: int)
    requires VaultsNormalized(registry) && id != [] && Trimmed(id)
    ensures VaultsNormalized(WithEntry(registry, NewEntry(id, name, now)))
  {
    NewEntryClean(id, name, now);
  }

  lemma CreateMatches(vaults: map<string, ManagedVault>, registry: VaultRegistryConfig, entry: VaultRegistryEntry)
    requires Matches(vaults, registry) && entry.id !in vaults
    ensures Matches(vaults[entry.id := ManagedVault(entry, Unlocked, map[])], WithEntry(registry, entry))
  {
    var nv := WithEntry(registry, entry);
    assert forall e :: e in nv.entries <==> e in registry.entries || e == entry;
    assert forall x :: x in nv.openVaultIds <==> x in registry.openVaultIds || x == entry.id;
  }

  // ---- Renaming ----

  lemma {:induction false} ReplaceEntryAt(entries: seq<VaultRegistryEntry>, entry: VaultRegistryEntry)
    requires forall i, j | 0 <= i < j < |entries| :: entries[i].id != entries[j].id
    ensures var r := ReplaceEntry(entries, entry);
            && |r| == |entries|
            && forall i | 0 <= i < |r| :: r[i] == if entries[i].id == entry.id then entry else entries[i]
  {
    if entries != [] {
      ReplaceEntryAt(entries[1..], entry);
    }
  }

  lemma DistinctIds(env: Env, entries: seq<VaultRegistryEntry>)
    requires EntriesValid(env, entries)
    ensures forall i, j | 0 <= i < j < |entries| :: entries[i].id != entries[j].id
  {
    forall i, j | 0 <= i < j < |entries| ensures entries[i].id != entries[j].id {
      assert EntriesApart(env, entries[i], entries[j]);
    }
  }

  /** No other entry has the name of `entry` once both are lowercased. */
  ghost predicate NameFreeIn(env: Env, entries: seq<VaultRegistryEntry>, entry: VaultRegistryEntry) {
    forall i | 0 <= i < |entries| && entries[i].id != entry.id :: env.lower(entries[i].name) != env.lower(entry.name)
  }

  lemma NameFreeAgrees(env: Env, s: State, entry: VaultRegistryEntry)
    requires SameEntries(s.vaults, s.config.vaults.entries)
    ensures NameFreeIn(env, s.config.vaults.entries, entry) <==> NameFree(env, s, entry.id, entry.name)
  {
    var es := s.config.vaults.entries;
    forall i | 0 <= i < |es| ensures es[i].id in s.vaults && s.vaults[es[i].id].entry == es[i] {
      assert es[i] in es;
    }
    forall id | id in s.vaults ensures exists i | 0 <= i < |es| :: es[i].id == id && es[i] == s.vaults[id].entry {
      var i :| 0 <= i < |es| && es[i] == s.vaults[id].entry;
    }
  }

  /** Replacing entry `k` by one with its id and file leaves the entries valid exactly when the name is free. */
  lemma ReplacedValid(env: Env, es: seq<VaultRegistryEntry>, k: nat, entry: VaultRegistryEntry)
    requires EntriesValid(env, es) && k < |es| && entry.id == es[k].id && entry.dbFile == es[k].dbFile
            && entry.name != []
    ensures EntriesValid(env, es[k := entry]) <==> NameFreeIn(env, es, entry)
  {
    var r := es[k := entry];
    if NameFreeIn(env, es, entry) {
      forall i, j | 0 <= i < j < |r| ensures EntriesApart(env, r[i], r[j]) {
        assert EntriesApart(env, es[i], es[j]);
      }
    }
    if EntriesValid(env, r) {
      forall i | 0 <= i < |es| && es[i].id != entry.id ensures env.lower(es[i].name) != env.lower(entry.name) {
        assert EntriesApart(env, r[if i < k then i else k], r[if i < k then k else i]);
      }
    }
  }

  lemma ReplacedAt(env: Env, es: seq<VaultRegistryEntry>, k: nat, entry: VaultRegistryEntry)
    requires EntriesValid(env, es) && k < |es| && entry.id == es[k].id
    ensures ReplaceEntry(es, entry) == es[k := entry]
  {
    DistinctIds(env, es);
    ReplaceEntryAt(es, entry);
    forall i | 0 <= i < |es| ensures ReplaceEntry(es, entry)[i] == es[k := entry][i] {
    }
  }

  lemma ReplacedKnown(es: seq<VaultRegistryEntry>, k: nat, entry: VaultRegistryEntry, id: string)
    requires k < |es| && entry.id == es[k].id && KnownVault(es, id)
    ensures KnownVault(es[k := entry], id)
  {
    var i :| 0 <= i < |es| && es[i].id == id;
    assert es[k := entry][i].id == id;
  }

  /** The registry with entry `k` renamed is valid exactly when the new name is free in it. */
  lemma RenamedRegistry(env: Env, registry: VaultRegistryConfig, k: nat, entry: VaultRegistryEntry)
    requires VaultsNormalized(registry) && VaultsValid(env, registry) && k < |registry.entries|
    requires entry.id == registry.entries[k].id && entry.dbFile == registry.entries[k].dbFile
    requires entry.name != [] && Trimmed(entry.name)
    ensures var nv := registry.(entries := registry.entries[k := entry]);
            VaultsNormalized(nv) && (VaultsValid(env, nv) <==> NameFreeIn(env, registry.entries, entry))
  {
    ReplacedValid(env, registry.entries, k, entry);
    forall id | KnownVault(registry.entries, id) ensures KnownVault(registry.entries[k := entry], id) {
      ReplacedKnown(registry.entries, k, entry, id);
    }
  }

  /** Renaming in memory matches the renamed registry, and the old one only if nothing changed. */
  lemma RenameMatches(
    env: Env, vaults: map<string, ManagedVault>, registry: VaultRegistryConfig, k: nat, entry: VaultRegistryEntry)
    requires Matches(vaults, registry) && EntriesValid(env, registry.entries)
    requires entry.id in vaults && k < |registry.entries| && registry.entries[k] == vaults[entry.id].entry
    ensures var vaults' := vaults[entry.id := vaults[entry.id].(entry := entry)];
            && Matches(vaults', registry.(entries := registry.entries[k := entry]))
            && (Matches(vaults', registry) <==> entry == vaults[entry.id].entry)
  {
    var es, id := registry.entries, entry.id;
    var r := es[k := entry];
    var vaults' := vaults[id := vaults[id].(entry := entry)];
    assert r[k] == entry;
    DistinctIds(env, es);
    forall e | e in r ensures e.id in vaults' && vaults'[e.id].entry == e {
      var i :| 0 <= i < |r| && r[i] == e;
      assert es[i] in es;
    }
    forall v | v in vaults' ensures vaults'[v].entry.id == v && vaults'[v].entry in r {
      var i :| 0 <= i < |es| && es[i] == vaults[v].entry;
      assert r[i] == vaults'[v].entry;
    }
    assert es[k] in es;
    if entry == vaults[id].entry {
      assert vaults' == vaults;
    }
  }

  lemma RenameMirror(env: Env, s: State, op: Op)
    requires Mirrors(env, s) && op.Rename?
    ensures Mirrors(env, RenameStep(env, s, op)) <==> !BreaksMirror(env, s, op)
  {
    if RenameAttempted(s, op) {
      var es, entry := s.config.vaults.entries, RenamedEntry(s, op);
      var k :| 0 <= k < |es| && es[k] == s.vaults[op.id].entry;
      ReplacedAt(env, es, k, entry);
      TrimIsTrimmed(op.name);
      RenamedRegistry(env, s.config.vaults, k, entry);
      AfterUpdate(env, s, RenameStep(env, s, op), s.config.vaults.(entries := es[k := entry]), op.persistOk);
      RenameMatches(env, s.vaults, s.config.vaults, k, entry);
      NameFreeAgrees(env, s, entry);
    }
  }

  // ---- Runs ----

  /** Operations that leave the configuration, the entries and what is open alone. */
  lemma QuietMirror(env: Env, s: State, s': State)
    requires Mirrors(env, s) && s'.config == s.config
    requires s'.vaults.Keys == s.vaults.Keys
    requires forall id | id in s.vaults ::
               s'.vaults[id].entry == s.vaults[id].entry && s'.vaults[id].access.Closed? == s.vaults[id].access.Closed?
    ensures Mirrors(env, s')
  {
  }

  lemma BootstrapMirror(env: Env, s: State, order: seq<string>, unlockable: set<string>, unlistable: set<string>)
    requires Mirrors(env, s)
    ensures Mirrors(env, BootstrapStep(s, order, unlockable, unlistable))
  {
    QuietMirror(env, s, BootstrapStep(s, order, unlockable, unlistable));
  }

  lemma LockMirror(env: Env, s: State, id: string)
    requires Mirrors(env, s)
    ensures Mirrors(env, LockStep(s, id))
  {
    QuietMirror(env, s, LockStep(s, id));
  }

  lemma SaveHostMirror(env: Env, s: State, id: string, host: HostAuthSummary, outcome: SaveOutcome)
    requires Mirrors(env, s)
    ensures Mirrors(env, SaveHostStep(s, id, host, outcome))
  {
    QuietMirror(env, s, SaveHostStep(s, id, host, outcome));
  }

  lemma DeleteHostMirror(env: Env, s: State, id: string, hostId: string, storeOk: bool)
    requires Mirrors(env, s)
    ensures Mirrors(env, DeleteHostStep(s, id, hostId, storeOk))
  {
    QuietMirror(env, s, DeleteHostStep(s, id, hostId, storeOk));
  }

  lemma SaveOtherMirror(env: Env, s: State, id: string, recordId: string, storeOk: bool)
    requires Mirrors(env, s)
    ensures Mirrors(env, SaveOtherStep(s, id, recordId, storeOk))
  {
    QuietMirror(env, s, SaveOtherStep(s, id, recordId, storeOk));
  }

  lemma DeleteOpMirror(env: Env, s: State, id: string, persistOk: bool)
    requires Mirrors(env, s)
    ensures Mirrors(env, DeleteStep(env, s, id, persistOk))
            <==> (id in s.vaults && !s.vaults[id].access.Unlocked? ==> persistOk)
  {
    if id in s.vaults && !s.vaults[id].access.Unlocked? {
      DeleteMirror(env, s, DeleteStep(env, s, id, persistOk), id, persistOk);
    }
  }

  lemma AccessMirrorStep(env: Env, s: State, op: Op)
    requires Mirrors(env, s) && (op.Open? || op.Unlock? || op.DeviceUnlock?)
    ensures Mirrors(env, Step(env, s, op)) <==> !OpenUnlisted(s, op.id, op.openOk, op.persistOk)
  {
    match op {
      case Open(id, openOk, persistOk) => OpenMirror(env, s, id, openOk, persistOk);
      case Unlock(id, openOk, persistOk, unlockOk, listOk) =>
        UnlockMirror(env, s, id, openOk, persistOk, unlockOk, listOk);
      case DeviceUnlock(id, openOk, persistOk, outcome, listOk) =>
        DeviceUnlockMirror(env, s, id, openOk, persistOk, outcome, listOk);
    }
  }

  lemma HostMirrorStep(env: Env, s: State, op: Op)
    requires Mirrors(env, s) && (op.SaveHost? || op.DeleteHost? || op.SaveOther?)
    ensures Mirrors(env, Step(env, s, op))
  {
    if op.SaveHost? {
      SaveHostMirror(env, s, op.id, op.host, op.saved);
    } else if op.DeleteHost? {
      DeleteHostMirror(env, s, op.id, op.hostId, op.storeOk);
    } else {
      SaveOtherMirror(env, s, op.id, op.recordId, op.storeOk);
    }
  }

  lemma LockingMirrorStep(env: Env, s: State, op: Op)
    requires Mirrors(env, s) && (op.Bootstrap? || op.Lock?)
    ensures Mirrors(env, Step(env, s, op))
  {
    if op.Bootstrap? {
      BootstrapMirror(env, s, op.order, op.unlockable, op.unlistable);
    } else {
      LockMirror(env, s, op.id);
    }
  }

  lemma SettingsMirrorStep(env: Env, s: State, op: Op)
    requires Mirrors(env, s) && (op.Create? || op.Close? || op.SetDefault?)
    ensures Mirrors(env, Step(env, s, op))
  {
    match op {
      case Create(_, _, _, _, _) => CreateMirror(env, s, op);
      case Close(id, persistOk) => CloseMirror(env, s, id, persistOk);
      case SetDefault(id, persistOk) => DefaultMirror(env, s, id, persistOk);
    }
  }

  lemma RemovalMirrorStep(env: Env, s: State, op: Op)
    requires Mirrors(env, s) && (op.Rename? || op.Delete?)
    ensures Mirrors(env, Step(env, s, op)) <==> !BreaksMirror(env, s, op)
  {
    if op.Rename? {
      RenameMirror(env, s, op);
    } else {
      DeleteOpMirror(env, s, op.id, op.persistOk);
    }
  }

  /** One operation keeps the mirror exactly when it is not one of the named refusals. */
  lemma MirrorStep(env: Env, s: State, op: Op)
    requires Mirrors(env, s)
    ensures Mirrors(env, Step(env, s, op)) <==> !BreaksMirror(env, s, op)
  {
    if op.Open? || op.Unlock? || op.DeviceUnlock? {
      AccessMirrorStep(env, s, op);
    } else if op.Rename? || op.Delete? {
      RemovalMirrorStep(env, s, op);
    } else if op.Create? || op.Close? || op.SetDefault? {
      SettingsMirrorStep(env, s, op);
    } else if op.Bootstrap? || op.Lock? {
      LockingMirrorStep(env, s, op);
    } else {
      HostMirrorStep(env, s, op);
    }
  }

  ghost predicate NoBreak(env: Env, s: State, ops: seq<Op>) {
    ops != [] ==>
      && NoBreak(env, s, ops[..|ops| - 1])
      && !BreaksMirror(env, RunFrom(env, s, ops[..|ops| - 1]), ops[|ops| - 1])
  }

  lemma LoadedMirrors(env: Env, s: State, config: AppConfig)
    requires LoadedFrom(s, config) && IsNormalized(config) && ConfigValid(env, config)
    ensures Mirrors(env, s)
  {
    forall id | id in s.vaults
      ensures s.vaults[id].entry.id == id && s.vaults[id].entry in config.vaults.entries
      ensures !s.vaults[id].access.Closed? ==> id in config.vaults.openVaultIds
    {
      var i :| 0 <= i < |config.vaults.entries| && config.vaults.entries[i].id == id;
    }
  }

  /** From start-up on, over every run without such a refusal, memory mirrors the configuration. */
  lemma {:induction false} MirrorHoldsOverRuns(env: Env, s: State, config: AppConfig, ops: seq<Op>)
    requires LoadedFrom(s, config) && IsNormalized(config) && ConfigValid(env, config)
    requires NoBreak(env, s, ops)
    ensures Mirrors(env, RunFrom(env, s, ops))
  {
    if ops == [] {
      LoadedMirrors(env, s, config);
    } else {
      MirrorHoldsOverRuns(env, s, config, ops[..|ops| - 1]);
      MirrorStep(env, RunFrom(env, s, ops[..|ops| - 1]), ops[|ops| - 1]);
    }
  }
}
