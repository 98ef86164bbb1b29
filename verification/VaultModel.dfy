/** The controller's vault operations: their effect on the vaults, the configuration and the index. */
module VaultModel {
  import opened Text
  import opened ConfigModel
  import opened ConfigValidation
  import opened AuthReferences

  datatype Access = Closed | Locked | Unlocked

  /** `hosts` is what the vault's database holds, open or not. */
  datatype ManagedVault = ManagedVault(entry: VaultRegistryEntry, access: Access, hosts: map<string, HostAuthSummary>)

  datatype State = State(vaults: map<string, ManagedVault>, config: AppConfig, index: Forward)

  /** A device unlock may fail after the vault has been unlocked, when it notes the time of use. */
  datatype DeviceOutcome = Granted | Declined | FailedEarly | FailedLate

  /** A save may fail after the host has been written, when it is read back. */
  datatype SaveOutcome = Saved | StoredUnread | Refused

  /** Operations, with what the file system, the database and the clock make of them. */
  datatype Op =
    | Bootstrap(order: seq<string>, unlockable: set<string>, unlistable: set<string>)
    | Create(id: string, name: string, now: int, storeOk: bool, persistOk: bool)
    | Rename(id: string, name: string, now: int, persistOk: bool)
    | Open(id: string, openOk: bool, persistOk: bool)
    | Close(id: string, persistOk: bool)
    | Unlock(id: string, openOk: bool, persistOk: bool, unlockOk: bool, listOk: bool)
    | DeviceUnlock(id: string, openOk: bool, persistOk: bool, outcome: DeviceOutcome, listOk: bool)
    | Lock(id: string)
    | Delete(id: string, persistOk: bool)
    | SetDefault(id: string, persistOk: bool)
    | SaveHost(id: string, host: HostAuthSummary, saved: SaveOutcome)
    | DeleteHost(id: string, hostId: string, storeOk: bool)
    | SaveOther(id: string, recordId: string, storeOk: bool)

  // ---- Configuration updates ----

  /** `update_config` succeeds when the normalised result is valid and can be written. */
  ghost predicate UpdateSucceeds(env: Env, config: AppConfig, vaults: VaultRegistryConfig, persistOk: bool) {
    ConfigValid(env, Normalize(config.(vaults := vaults))) && persistOk
  }

  ghost function UpdateConfig(env: Env, config: AppConfig, vaults: VaultRegistryConfig, persistOk: bool): AppConfig {
    if UpdateSucceeds(env, config, vaults, persistOk) then Normalize(config.(vaults := vaults)) else config
  }

  function WithEntry(vaults: VaultRegistryConfig, entry: VaultRegistryEntry): VaultRegistryConfig {
    VaultRegistryConfig(
      vaults.entries + [entry],
      vaults.openVaultIds + [entry.id],
      if vaults.defaultTargetVaultId.None? then Some(entry.id) else vaults.defaultTargetVaultId)
  }

  /** The first entry with the id is replaced. */
  function ReplaceEntry(entries: seq<VaultRegistryEntry>, entry: VaultRegistryEntry): seq<VaultRegistryEntry> {
    if entries == [] then []
    else if entries[0].id == entry.id then [entry] + entries[1..]
    else [entries[0]] + ReplaceEntry(entries[1..], entry)
  }

  function RetainEntries(entries: seq<VaultRegistryEntry>, id: string): seq<VaultRegistryEntry> {
    if entries == [] then []
    else (if entries[0].id == id then [] else [entries[0]]) + RetainEntries(entries[1..], id)
  }

  function RetainIds(ids: seq<string>, id: string): seq<string> {
    if ids == [] then [] else (if ids[0] == id then [] else [ids[0]]) + RetainIds(ids[1..], id)
  }

  function WithoutVault(vaults: VaultRegistryConfig, id: string): VaultRegistryConfig {
    VaultRegistryConfig(
      RetainEntries(vaults.entries, id),
      RetainIds(vaults.openVaultIds, id),
      if vaults.defaultTargetVaultId == Some(id) then None else vaults.defaultTargetVaultId)
  }

  // ---- Index maintenance ----

  ghost function DropVault(index: Forward, id: string): Forward {
    map scope | scope in index && scope.0 != id :: index[scope]
  }

  ghost function VaultEntries(id: string, vault: ManagedVault): Forward {
    map h | h in vault.hosts :: (id, h) := EntryOf(id, vault.entry.name, vault.hosts[h])
  }

  /** `rebuild_vault_auth_reference_index`. */
  ghost function Rebuild(index: Forward, vaults: map<string, ManagedVault>, id: string): Forward {
    if id in vaults && vaults[id].access.Unlocked? then DropVault(index, id) + VaultEntries(id, vaults[id])
    else DropVault(index, id)
  }

  /**
   The same when the hosts cannot be listed, for one that cannot be decrypted, say: the old entries are
   gone by then.
   */
  ghost function TryRebuild(index: Forward, vaults: map<string, ManagedVault>, id: string, listOk: bool): Forward {
    if listOk then Rebuild(index, vaults, id) else DropVault(index, id)
  }

  /** The entries of the unlocked ones among some vaults. */
  ghost function RebuildSome(vaults: map<string, ManagedVault>, ids: set<string>): Forward {
    map id, h | id in vaults && id in ids && vaults[id].access.Unlocked? && h in vaults[id].hosts ::
      (id, h) := EntryOf(id, vaults[id].entry.name, vaults[id].hosts[h])
  }

  ghost function RebuildAll(vaults: map<string, ManagedVault>): Forward {
    RebuildSome(vaults, vaults.Keys)
  }

  /** The vaults dealt with, in the order of the map, before the first unlocked one that cannot be listed. */
  function Reached(vaults: map<string, ManagedVault>, order: seq<string>, unlistable: set<string>): set<string> {
    if order == [] then {}
    else if StopsAt(vaults, order[0], unlistable) then {}
    else {order[0]} + Reached(vaults, order[1..], unlistable)
  }

  predicate StopsAt(vaults: map<string, ManagedVault>, id: string, unlistable: set<string>) {
    id in vaults && vaults[id].access.Unlocked? && id in unlistable
  }

  /** A host of an unlocked vault. */
  predicate InView(vaults: map<string, ManagedVault>, scope: Scope) {
    scope.0 in vaults && vaults[scope.0].access.Unlocked? && scope.1 in vaults[scope.0].hosts
  }

  ghost function EntryAt(vaults: map<string, ManagedVault>, scope: Scope): IndexedHost
    requires scope.0 in vaults && scope.1 in vaults[scope.0].hosts
  {
    EntryOf(scope.0, vaults[scope.0].entry.name, vaults[scope.0].hosts[scope.1])
  }

  lemma VaultEntriesAt(id: string, vault: ManagedVault, scope: Scope)
    ensures scope in VaultEntries(id, vault) <==> scope.0 == id && scope.1 in vault.hosts
    ensures scope in VaultEntries(id, vault) ==>
              scope.1 in vault.hosts
                  && VaultEntries(id, vault)[scope] == EntryOf(id, vault.entry.name, vault.hosts[scope.1])
  {
  }

  lemma RebuildSomeAt(vaults: map<string, ManagedVault>, ids: set<string>, scope: Scope)
    ensures scope in RebuildSome(vaults, ids) <==> InView(vaults, scope) && scope.0 in ids
    ensures scope in RebuildSome(vaults, ids) ==> RebuildSome(vaults, ids)[scope] == EntryAt(vaults, scope)
  {
  }

  // ---- Operations ----

  predicate NameTaken(vaults: map<string, ManagedVault>, name: string, except: Option<string>) {
    exists id | id in vaults :: Some(id) != except && EqIgnoreAsciiCase(vaults[id].entry.name, name)
  }

  function NewEntry(id: string, name: string, now: int): VaultRegistryEntry {
    VaultRegistryEntry(id, Trim(name), id + ".sqlite", now, now)
  }

  /** A generated id: not in use, and without whitespace at its ends. */
  ghost predicate FreshId(s: State, id: string) {
    id !in s.vaults && id != [] && Trimmed(id)
  }

  ghost predicate CreateAccepted(env: Env, s: State, op: Op)
    requires op.Create?
  {
    && FreshId(s, op.id) && Trim(op.name) != [] && !NameTaken(s.vaults, Trim(op.name), None) && op.storeOk
    && UpdateSucceeds(env, s.config, WithEntry(s.config.vaults, NewEntry(op.id, op.name, op.now)), op.persistOk)
  }

  ghost function CreateStep(env: Env, s: State, op: Op): State
    requires op.Create?
  {
    if !CreateAccepted(env, s, op) then s else
      var entry := NewEntry(op.id, op.name, op.now);
      var vaults := s.vaults[op.id := ManagedVault(entry, Unlocked, map[])];
      State(vaults, UpdateConfig(env, s.config, WithEntry(s.config.vaults, entry), op.persistOk),
          Rebuild(s.index, vaults, op.id))
  }

  predicate RenameAttempted(s: State, op: Op)
    requires op.Rename?
  {
    op.id in s.vaults && Trim(op.name) != [] && !NameTaken(s.vaults, Trim(op.name), Some(op.id))
  }

  function RenamedEntry(s: State, op: Op): VaultRegistryEntry
    requires op.Rename? && op.id in s.vaults
  {
    s.vaults[op.id].entry.(name := Trim(op.name), updatedAt := op.now)
  }

  /** The vault is renamed in memory before the configuration is asked; a refusal does not undo it. */
  ghost function RenameStep(env: Env, s: State, op: Op): State
    requires op.Rename?
  {
    if !RenameAttempted(s, op) then s else
      var entry := RenamedEntry(s, op);
      s.(vaults := s.vaults[op.id := s.vaults[op.id].(entry := entry)],
         config := UpdateConfig(env, s.config,
           s.config.vaults.(entries := ReplaceEntry(s.config.vaults.entries, entry)), op.persistOk))
  }

  ghost predicate RenameSucceeds(env: Env, s: State, op: Op)
    requires op.Rename?
  {
    && RenameAttempted(s, op)
    && UpdateSucceeds(env, s.config,
         s.config.vaults.(entries := ReplaceEntry(s.config.vaults.entries, RenamedEntry(s, op))), op.persistOk)
  }

  ghost predicate CloseSucceeds(env: Env, s: State, id: string, persistOk: bool) {
    && id in s.vaults
    && UpdateSucceeds(env, s.config, s.config.vaults.(openVaultIds := RetainIds(s.config.vaults.openVaultIds, id)),
        persistOk)
  }

  ghost predicate DeleteSucceeds(env: Env, s: State, id: string, persistOk: bool) {
    && id in s.vaults && !s.vaults[id].access.Unlocked?
    && UpdateSucceeds(env, s.config, WithoutVault(s.config.vaults, id), persistOk)
  }

  ghost predicate SetDefaultSucceeds(env: Env, s: State, id: string, persistOk: bool) {
    id in s.vaults && UpdateSucceeds(env, s.config, s.config.vaults.(defaultTargetVaultId := Some(id)), persistOk)
  }

  function WithAccess(s: State, id: string, access: Access): map<string, ManagedVault>
    requires id in s.vaults
  {
    s.vaults[id := s.vaults[id].(access := access)]
  }

  /** Opens the store if needed, then lists the id as open if needed. */
  ghost function OpenStep(env: Env, s: State, id: string, openOk: bool, persistOk: bool): State {
    if id !in s.vaults || (s.vaults[id].access.Closed? && !openOk) then s
    else
      var after := if s.vaults[id].access.Closed? then s.(vaults := WithAccess(s, id, Locked)) else s;
      if id in s.config.vaults.openVaultIds then after
      else after.(config := UpdateConfig(env, s.config,
        s.config.vaults.(openVaultIds := s.config.vaults.openVaultIds + [id]), persistOk))
  }

  /** `open_vault` returned Ok. */
  ghost predicate OpenSucceeds(env: Env, s: State, id: string, openOk: bool, persistOk: bool) {
    && id in s.vaults
    && (s.vaults[id].access.Closed? ==> openOk)
    && (id in s.config.vaults.openVaultIds
        || UpdateSucceeds(env, s.config, s.config.vaults.(openVaultIds := s.config.vaults.openVaultIds + [id]),
            persistOk))
  }

  ghost function UnlockedStep(s: State, id: string, listOk: bool): State
    requires id in s.vaults
  {
    var vaults := WithAccess(s, id, Unlocked);
    s.(vaults := vaults, index := TryRebuild(s.index, vaults, id, listOk))
  }

  ghost function CloseStep(env: Env, s: State, id: string, persistOk: bool): State {
    if id !in s.vaults then s else
      State(
        WithAccess(s, id, Closed),
        UpdateConfig(env, s.config,
          s.config.vaults.(openVaultIds := RetainIds(s.config.vaults.openVaultIds, id)), persistOk),
        DropVault(s.index, id))
  }

  ghost function DeleteStep(env: Env, s: State, id: string, persistOk: bool): State {
    if id !in s.vaults || s.vaults[id].access.Unlocked? then s else
      State(s.vaults - {id},
            UpdateConfig(env, s.config, WithoutVault(s.config.vaults, id), persistOk),
            DropVault(s.index, id))
  }

  /** Storing needs the master key, so an unlocked vault. */
  ghost function SaveHostStep(s: State, id: string, host: HostAuthSummary, outcome: SaveOutcome): State {
    if id !in s.vaults || !s.vaults[id].access.Unlocked? || outcome.Refused? then s else
      var vault := s.vaults[id];
      s.(vaults := s.vaults[id := vault.(hosts := vault.hosts[host.hostId := host])],
         index := if outcome.StoredUnread? then s.index
                  else s.index[(id, host.hostId) := EntryOf(id, vault.entry.name, host)])
  }

  /** Deleting leaves a tombstone and needs no key: it can succeed on a locked vault. */
  ghost function DeleteHostStep(s: State, id: string, hostId: string, storeOk: bool): State {
    if id !in s.vaults || s.vaults[id].access.Closed? || hostId !in s.vaults[id].hosts || !storeOk then s else
      s.(vaults := s.vaults[id := s.vaults[id].(hosts := s.vaults[id].hosts - {hostId})],
         index := s.index - {(id, hostId)})
  }

  /**
   Saving a credential, a key or a port forward. Rows are stored by id alone, so under the id of a host
   it replaces the host; the index is not told.
   */
  ghost function SaveOtherStep(s: State, id: string, recordId: string, storeOk: bool): State {
    if id !in s.vaults || !s.vaults[id].access.Unlocked? || !storeOk then s else
      s.(vaults := s.vaults[id := s.vaults[id].(hosts := s.vaults[id].hosts - {recordId})])
  }

  function BootVaults(vaults: map<string, ManagedVault>, unlockable: set<string>): map<string, ManagedVault> {
    map id | id in vaults ::
      if vaults[id].access.Locked? && id in unlockable then vaults[id].(access := Unlocked) else vaults[id]
  }

  ghost function BootstrapStep(s: State, order: seq<string>, unlockable: set<string>, unlistable: set<string>): State {
    var vaults := BootVaults(s.vaults, unlockable);
    s.(vaults := vaults, index := RebuildSome(vaults, Reached(vaults, order, unlistable)))
  }

  ghost function UnlockStep(
    env: Env, s: State, id: string, openOk: bool, persistOk: bool, unlockOk: bool, listOk: bool): State
  {
    var after := OpenStep(env, s, id, openOk, persistOk);
    if OpenSucceeds(env, s, id, openOk, persistOk) && unlockOk then UnlockedStep(after, id, listOk) else after
  }

  /** What the attempt makes of an open vault: a late failure unlocks it without indexing it. */
  ghost function DeviceOutcomeStep(s: State, id: string, outcome: DeviceOutcome, listOk: bool): State
    requires id in s.vaults
  {
    match outcome
    case Granted => UnlockedStep(s, id, listOk)
    case FailedLate => s.(vaults := WithAccess(s, id, Unlocked))
    case _ => s
  }

  ghost function DeviceUnlockStep(
    env: Env, s: State, id: string, openOk: bool, persistOk: bool, outcome: DeviceOutcome, listOk: bool): State
  {
    var after := OpenStep(env, s, id, openOk, persistOk);
    if OpenSucceeds(env, s, id, openOk, persistOk) then DeviceOutcomeStep(after, id, outcome, listOk) else after
  }

  ghost function LockStep(s: State, id: string): State {
    if id !in s.vaults || s.vaults[id].access.Closed? then s
    else s.(vaults := WithAccess(s, id, Locked), index := DropVault(s.index, id))
  }

  ghost function SetDefaultStep(env: Env, s: State, id: string, persistOk: bool): State {
    if id !in s.vaults then s
    else s.(config := UpdateConfig(env, s.config, s.config.vaults.(defaultTargetVaultId := Some(id)), persistOk))
  }

  ghost function Step(env: Env, s: State, op: Op): State {
    match op
    case Bootstrap(order, unlockable, unlistable) => BootstrapStep(s, order, unlockable, unlistable)
    case Create(_, _, _, _, _) => CreateStep(env, s, op)
    case Rename(_, _, _, _) => RenameStep(env, s, op)
    case Open(id, openOk, persistOk) => OpenStep(env, s, id, openOk, persistOk)
    case Close(id, persistOk) => CloseStep(env, s, id, persistOk)
    case Unlock(id, openOk, persistOk, unlockOk, listOk) => UnlockStep(env, s, id, openOk, persistOk, unlockOk, listOk)
    case DeviceUnlock(id, openOk, persistOk, outcome, listOk) =>
      DeviceUnlockStep(env, s, id, openOk, persistOk, outcome, listOk)
    case Lock(id) => LockStep(s, id)
    case Delete(id, persistOk) => DeleteStep(env, s, id, persistOk)
    case SetDefault(id, persistOk) => SetDefaultStep(env, s, id, persistOk)
    case SaveHost(id, host, outcome) => SaveHostStep(s, id, host, outcome)
    case DeleteHost(id, hostId, storeOk) => DeleteHostStep(s, id, hostId, storeOk)
    case SaveOther(id, recordId, storeOk) => SaveOtherStep(s, id, recordId, storeOk)
  }

  ghost function RunFrom(env: Env, s: State, ops: seq<Op>): State {
    if ops == [] then s else Step(env, RunFrom(env, s, ops[..|ops| - 1]), ops[|ops| - 1])
  }

  /** The vaults a configuration lists, opened where it says so and where that works; all locked. */
  ghost predicate LoadedFrom(s: State, config: AppConfig) {
    && s.config == config
    && s.index == map[]
    && (forall id :: id in s.vaults <==> KnownVault(config.vaults.entries, id))
    && (forall i | 0 <= i < |config.vaults.entries| ::
          var id := config.vaults.entries[i].id;
          && id in s.vaults
          && s.vaults[id].entry == config.vaults.entries[i]
          && !s.vaults[id].access.Unlocked?
          && (s.vaults[id].access.Locked? ==> id in config.vaults.openVaultIds))
    && HostsKeyed(s.vaults)
  }

  /** A database lists a host under its own id. */
  ghost predicate HostsKeyed(vaults: map<string, ManagedVault>) {
    forall id, h | id in vaults && h in vaults[id].hosts :: vaults[id].hosts[h].hostId == h
  }
}
