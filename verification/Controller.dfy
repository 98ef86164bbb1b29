/** The application controller in place: its vault map, configuration store and reference index. */
module Controller {
  import opened Text
  import opened ConfigModel
  import opened ConfigValidation
  import ConfigStore
  import opened AuthReferences
  import opened VaultModel
  import opened IndexAgreement

  /** A host of the vault that has been gone through. */
  predicate HostDone(id: string, vault: ManagedVault, done: set<string>, scope: Scope) {
    scope.0 == id && scope.1 in vault.hosts && scope.1 in done
  }

  /** `base`, with the entries of the hosts gone through. */
  ghost predicate HostsIndexed(forward: Forward, base: Forward, id: string, vault: ManagedVault, done: set<string>) {
    forall scope: Scope ::
      && (scope in forward <==> scope in base || HostDone(id, vault, done, scope))
      && (scope in forward ==>
            forward[scope] == if HostDone(id, vault, done, scope)
                then EntryOf(id, vault.entry.name, vault.hosts[scope.1]) else base[scope])
  }

  lemma OneMoreHost(forward: Forward, base: Forward, id: string, vault: ManagedVault, done: set<string>, h: string)
    requires h in vault.hosts && HostsIndexed(forward, base, id, vault, done)
    ensures HostsIndexed(forward[(id, h) := EntryOf(id, vault.entry.name, vault.hosts[h])], base, id, vault, done + {h})
  {
  }

  lemma AllHostsIndexed(forward: Forward, base: Forward, id: string, vault: ManagedVault)
    requires HostsIndexed(forward, base, id, vault, vault.hosts.Keys)
    ensures forward == base + VaultEntries(id, vault)
  {
    var expected := base + VaultEntries(id, vault);
    forall scope: Scope
      ensures scope in forward <==> scope in expected
      ensures scope in forward && scope in expected ==> forward[scope] == expected[scope]
    {
      VaultEntriesAt(id, vault, scope);
    }
  }

  /** A host of an unlocked vault that has been gone through. */
  predicate Gone(vaults: map<string, ManagedVault>, done: set<string>, scope: Scope) {
    scope.0 in done && InView(vaults, scope)
  }

  ghost predicate VaultsIndexed(forward: Forward, vaults: map<string, ManagedVault>, done: set<string>) {
    forall scope: Scope ::
      (scope in forward <==> Gone(vaults, done, scope))
          && (scope in forward ==> forward[scope] == EntryAt(vaults, scope))
  }

  lemma OneMoreVault(forward: Forward, vaults: map<string, ManagedVault>, done: set<string>, id: string)
    requires VaultsIndexed(forward, vaults, done)
    ensures VaultsIndexed(Rebuild(forward, vaults, id), vaults, done + {id})
  {
    var forward' := Rebuild(forward, vaults, id);
    forall scope: Scope
      ensures scope in forward' <==> Gone(vaults, done + {id}, scope)
      ensures scope in forward' ==> forward'[scope] == EntryAt(vaults, scope)
    {
      if id in vaults { VaultEntriesAt(id, vaults[id], scope); }
    }
  }

  lemma AllVaultsIndexed(forward: Forward, vaults: map<string, ManagedVault>, done: set<string>)
    requires VaultsIndexed(forward, vaults, done)
    ensures forward == RebuildSome(vaults, done)
  {
    forall scope: Scope
      ensures scope in forward <==> scope in RebuildSome(vaults, done)
      ensures scope in forward && scope in RebuildSome(vaults, done) ==>
              forward[scope] == RebuildSome(vaults, done)[scope]
    {
      RebuildSomeAt(vaults, done, scope);
    }
  }

  lemma NothingToDrop(forward: Forward, vaults: map<string, ManagedVault>, done: set<string>, id: string)
    requires VaultsIndexed(forward, vaults, done) && id !in done
    ensures DropVault(forward, id) == forward
  {
    forall scope | scope in forward ensures scope.0 != id {
      assert Gone(vaults, done, scope);
    }
  }

  /** The entry is there, with its vault open if it is listed as open and can be opened. */
  predicate EntryLoaded(
    loaded: map<string, ManagedVault>, openIds: seq<string>, openable: set<string>, entry: VaultRegistryEntry) {
    && entry.id in loaded
    && loaded[entry.id].entry == entry
    && loaded[entry.id].access == if entry.id in openIds && entry.id in openable then Locked else Closed
  }

  /** `load_managed_vaults`: `stored` gives what the databases hold, `openable` says which of them open. */
  method LoadManagedVaults(
    env: Env, registry: VaultRegistryConfig, stored: string -> map<string, HostAuthSummary>, openable: set<string>)
    returns (loaded: map<string, ManagedVault>)
    requires VaultsValid(env, registry)
    ensures forall id | id in loaded :: KnownVault(registry.entries, id) && loaded[id].hosts == stored(id)
    ensures forall i | 0 <= i < |registry.entries| ::
            EntryLoaded(loaded, registry.openVaultIds, openable, registry.entries[i])
  {
    var entries := registry.entries;
    loaded := map[];
    for i := 0 to |entries|
      invariant forall id | id in loaded :: KnownVault(entries, id) && loaded[id].hosts == stored(id)
      invariant forall j | 0 <= j < i :: EntryLoaded(loaded, registry.openVaultIds, openable, entries[j])
    {
      var id := entries[i].id;
      IdsSoFar(env, registry, i);
      var access := if id in registry.openVaultIds && id in openable then Locked else Closed;
      loaded := loaded[id := ManagedVault(entries[i], access, stored(id))];
    }
  }

  lemma LoadedVaults(s: State, stored: string -> map<string, HostAuthSummary>, openable: set<string>)
    requires s.index == map[] && forall id, h | h in stored(id) :: stored(id)[h].hostId == h
    requires forall id | id in s.vaults :: KnownVault(s.config.vaults.entries, id) && s.vaults[id].hosts == stored(id)
    requires forall i | 0 <= i < |s.config.vaults.entries| ::
               EntryLoaded(s.vaults, s.config.vaults.openVaultIds, openable, s.config.vaults.entries[i])
    ensures LoadedFrom(s, s.config)
  {
  }

  function DeviceReport(outcome: DeviceOutcome, listOk: bool): Option<bool> {
    match outcome
    case Granted => if listOk then Some(true) else None
    case Declined => Some(false)
    case _ => None
  }

  class AppController {
    const env: Env
    const settings: ConfigStore.Store
    var vaults: map<string, ManagedVault>
    var index: AuthReferenceIndex

    ghost predicate Valid()
      reads this, settings, index
    {
      settings.Valid() && settings.env == env && index.Valid() && index.lower == env.lower && HostsKeyed(vaults)
    }

    ghost function Now(): State
      reads this, settings, index
    {
      State(vaults, settings.config, index.hostsByScope)
    }

    /** Opens what the configuration lists as open, where that works. */
    constructor (
      env: Env, settings: ConfigStore.Store, stored: string -> map<string, HostAuthSummary>, openable: set<string>)
      requires settings.Valid() && settings.env == env
      requires forall id, h | h in stored(id) :: stored(id)[h].hostId == h
      ensures Valid() && this.env == env && this.settings == settings && fresh(index)
      ensures LoadedFrom(Now(), settings.config)
    {
      var loaded := LoadManagedVaults(env, settings.config.vaults, stored, openable);
      this.env, this.settings, this.vaults := env, settings, loaded;
      this.index := new AuthReferenceIndex(env.lower);
      new;
      LoadedVaults(Now(), stored, openable);
    }

    method UpdateRegistry(registry: VaultRegistryConfig, persistOk: bool) returns (ok: bool)
      requires Valid()
      modifies settings
      ensures Valid() && settings.config == UpdateConfig(env, old(settings.config), registry, persistOk)
      ensures ok <==> UpdateSucceeds(env, old(settings.config), registry, persistOk)
    {
      var error := settings.Update((c: AppConfig) => c.(vaults := registry), persistOk);
      ok := error.None?;
    }

    // ---- The index ----

    method DropFromIndex(id: string)
      requires index.Valid()
      modifies index
      ensures index.Valid() && index.hostsByScope == DropVault(old(index.hostsByScope), id)
    {
      index.RemoveVault(id);
    }

    method RebuildVault(id: string, listOk: bool) returns (ok: bool)
      requires index.Valid() && HostsKeyed(vaults)
      modifies index
      ensures index.Valid() && index.hostsByScope == TryRebuild(old(index.hostsByScope), vaults, id, listOk)
      ensures ok <==> listOk || id !in vaults || !vaults[id].access.Unlocked?
    {
      DropFromIndex(id);
      if id !in vaults || !vaults[id].access.Unlocked? {
        return true;
      }
      ok := listOk;
      if ok {
        IndexHosts(id, vaults[id]);
      }
    }

    /** Every host the vault lists, in whatever order. */
    method IndexHosts(id: string, vault: ManagedVault)
      requires index.Valid() && forall h | h in vault.hosts :: vault.hosts[h].hostId == h
      modifies index
      ensures index.Valid() && index.hostsByScope == old(index.hostsByScope) + VaultEntries(id, vault)
    {
      ghost var base := index.hostsByScope;
      var left, done := vault.hosts.Keys, {};
      while left != {}
        invariant index.Valid() && left + done == vault.hosts.Keys
        invariant HostsIndexed(index.hostsByScope, base, id, vault, done)
        decreases |left|
      {
        var h :| h in left;
        OneMoreHost(index.hostsByScope, base, id, vault, done, h);
        IndexHost(id, vault.entry.name, vault.hosts[h]);
        left, done := left - {h}, done + {h};
      }
      AllHostsIndexed(index.hostsByScope, base, id, vault);
    }

    method IndexHost(id: string, vaultName: string, host: HostAuthSummary)
      requires index.Valid()
      modifies index
      ensures index.Valid()
              && index.hostsByScope == old(index.hostsByScope)[(id, host.hostId) := EntryOf(id, vaultName, host)]
    {
      var entry := index.Upsert(id, vaultName, host);
      EntryOfIsEntry(id, vaultName, host);
      EntryUnique(entry, EntryOf(id, vaultName, host), id, vaultName, host);
    }

    /** `order` is the order in which the map gives its keys. */
    method RebuildAllVaults(order: seq<string>, unlistable: set<string>) returns (ok: bool)
      requires Valid()
      modifies this`index
      ensures Valid() && fresh(index) && index.hostsByScope == RebuildSome(vaults, Reached(vaults, order, unlistable))
      ensures ok <==> forall i | 0 <= i < |order| :: !StopsAt(vaults, order[i], unlistable)
    {
      index := new AuthReferenceIndex(env.lower);
      ghost var done := {};
      for i := 0 to |order|
        invariant index.Valid() && fresh(index) && index.lower == env.lower
        invariant forall j | 0 <= j < i :: !StopsAt(vaults, order[j], unlistable)
        invariant forall id | id in done :: !StopsAt(vaults, id, unlistable)
        invariant done + Reached(vaults, order[i..], unlistable) == Reached(vaults, order, unlistable)
        invariant VaultsIndexed(index.hostsByScope, vaults, done)
      {
        OneMoreVault(index.hostsByScope, vaults, done, order[i]);
        if StopsAt(vaults, order[i], unlistable) {
          NothingToDrop(index.hostsByScope, vaults, done, order[i]);
        }
        ok := RebuildVault(order[i], order[i] !in unlistable);
        if !ok {
          AllVaultsIndexed(index.hostsByScope, vaults, done);
          return;
        }
        done := done + {order[i]};
      }
      AllVaultsIndexed(index.hostsByScope, vaults, done);
      ok := true;
    }

    /** Exactly what a scan would report, in every state where the index agrees with one. */
    method HostReferences(kind: Kind, vaultId: string, id: string) returns (found: Option<seq<HostReference>>)
      requires Valid()
      ensures found.None? <==> vaultId !in vaults
      ensures found.Some? && Agrees(Now()) ==> IsScan(Now(), env.lower, kind, (vaultId, id), found.value)
    {
      if vaultId !in vaults {
        return None;
      }
      var inverse := if kind == Keys then index.hostsForKeys else index.hostsForCredentials;
      found := Some(Listed(inverse, (vaultId, id)));
      if Agrees(Now()) {
        LookupIsScan(Now(), env.lower, kind, inverse, (vaultId, id));
      }
    }

    // ---- Operations ----

    /** Every open vault that the device can unlock is unlocked. */
    method UnlockWithDevice(unlockable: set<string>)
      requires HostsKeyed(vaults)
      modifies this`vaults
      ensures vaults == BootVaults(old(vaults), unlockable) && HostsKeyed(vaults)
    {
      var left := vaults.Keys;
      while left != {}
        invariant vaults.Keys == old(vaults).Keys && left <= vaults.Keys
        invariant forall id | id in vaults ::
                    vaults[id] == if id in left then old(vaults)[id] else BootVaults(old(vaults), unlockable)[id]
        decreases |left|
      {
        var id :| id in left;
        if vaults[id].access.Locked? && id in unlockable {
          vaults := vaults[id := vaults[id].(access := Unlocked)];
        }
        left := left - {id};
      }
    }

    method Bootstrap(order: seq<string>, unlockable: set<string>, unlistable: set<string>) returns (ok: bool)
      requires Valid()
      modifies this
      ensures Valid() && fresh(index)
      ensures Now() == BootstrapStep(old(Now()), order, unlockable, unlistable)
      ensures ok <==> forall i | 0 <= i < |order| :: !StopsAt(vaults, order[i], unlistable)
    {
      UnlockWithDevice(unlockable);
      ok := RebuildAllVaults(order, unlistable);
    }

    /** The id is a new UUID. */
    method CreateNamedVault(id: string, name: string, now: int, storeOk: bool, persistOk: bool) returns (ok: bool)
      requires Valid() && FreshId(Now(), id)
      modifies this, settings, index
      ensures Valid() && index == old(index)
      ensures Now() == CreateStep(env, old(Now()), Create(id, name, now, storeOk, persistOk))
      ensures ok <==> CreateAccepted(env, old(Now()), Create(id, name, now, storeOk, persistOk))
    {
      if Trim(name) == [] || NameTaken(vaults, Trim(name), None) {
        return false;
      }
      if !storeOk {
        return false;
      }
      var entry := NewEntry(id, name, now);
      ok := UpdateRegistry(WithEntry(settings.config.vaults, entry), persistOk);
      if ok {
        vaults := vaults[id := ManagedVault(entry, Unlocked, map[])];
        ok := RebuildVault(id, true);
      }
    }

    /** `ok` may be false although the name has changed in memory. */
    method RenameVault(id: string, name: string, now: int, persistOk: bool) returns (ok: bool)
      requires Valid()
      modifies this, settings
      ensures Valid() && index == old(index)
      ensures Now() == RenameStep(env, old(Now()), Rename(id, name, now, persistOk))
      ensures ok <==> RenameSucceeds(env, old(Now()), Rename(id, name, now, persistOk))
    {
      if Trim(name) == [] || NameTaken(vaults, Trim(name), Some(id)) || id !in vaults {
        return false;
      }
      vaults := vaults[id := vaults[id].(entry := vaults[id].entry.(name := Trim(name), updatedAt := now))];
      var registry := settings.config.vaults;
      ok := UpdateRegistry(registry.(entries := ReplaceEntry(registry.entries, vaults[id].entry)), persistOk);
    }

    method OpenVault(id: string, openOk: bool, persistOk: bool) returns (ok: bool)
      requires Valid()
      modifies this, settings
      ensures Valid() && index == old(index)
      ensures Now() == OpenStep(env, old(Now()), id, openOk, persistOk)
      ensures ok <==> OpenSucceeds(env, old(Now()), id, openOk, persistOk)
    {
      if id !in vaults {
        return false;
      }
      if vaults[id].access.Closed? {
        if !openOk {
          return false;
        }
        vaults := vaults[id := vaults[id].(access := Locked)];
      }
      ok := true;
      if id !in settings.config.vaults.openVaultIds {
        var registry := settings.config.vaults;
        ok := UpdateRegistry(registry.(openVaultIds := registry.openVaultIds + [id]), persistOk);
      }
    }

    method CloseVault(id: string, persistOk: bool) returns (ok: bool)
      requires Valid()
      modifies this, settings, index
      ensures Valid() && index == old(index)
      ensures Now() == CloseStep(env, old(Now()), id, persistOk)
      ensures ok <==> CloseSucceeds(env, old(Now()), id, persistOk)
    {
      if id !in vaults {
        return false;
      }
      vaults := vaults[id := vaults[id].(access := Closed)];
      DropFromIndex(id);
      var registry := settings.config.vaults;
      ok := UpdateRegistry(registry.(openVaultIds := RetainIds(registry.openVaultIds, id)), persistOk);
    }

    method SetAccess(id: string, access: Access)
      requires Valid() && id in vaults
      modifies this`vaults
      ensures Valid() && vaults == WithAccess(old(Now()), id, access)
    {
      vaults := vaults[id := vaults[id].(access := access)];
    }

    method UnlockVault(id: string, openOk: bool, persistOk: bool, unlockOk: bool, listOk: bool) returns (ok: bool)
      requires Valid()
      modifies this, settings, index
      ensures Valid() && index == old(index)
      ensures Now() == UnlockStep(env, old(Now()), id, openOk, persistOk, unlockOk, listOk)
      ensures ok <==> OpenSucceeds(env, old(Now()), id, openOk, persistOk) && unlockOk && listOk
    {
      ok := OpenVault(id, openOk, persistOk);
      if !ok || !unlockOk {
        return false;
      }
      ok := UnlockOpenVault(id, listOk);
    }

    method UnlockOpenVault(id: string, listOk: bool) returns (ok: bool)
      requires Valid() && id in vaults
      modifies this`vaults, index
      ensures Valid() && Now() == UnlockedStep(old(Now()), id, listOk) && ok == listOk
    {
      SetAccess(id, Unlocked);
      ok := RebuildVault(id, listOk);
    }

    /** None stands for an error. */
    method TryUnlockVaultWithDevice(id: string, openOk: bool, persistOk: bool, outcome: DeviceOutcome, listOk: bool)
      returns (unlocked: Option<bool>)
      requires Valid()
      modifies this, settings, index
      ensures Valid() && index == old(index)
      ensures Now() == DeviceUnlockStep(env, old(Now()), id, openOk, persistOk, outcome, listOk)
      ensures unlocked == if OpenSucceeds(env, old(Now()), id, openOk, persistOk) then DeviceReport(outcome, listOk)
              else None
    {
      var ok := OpenVault(id, openOk, persistOk);
      if ok {
        unlocked := UnlockOpenVaultWithDevice(id, outcome, listOk);
      } else {
        unlocked := None;
      }
    }

    /** A late failure has unlocked the store, but returns before the index is rebuilt. */
    method UnlockOpenVaultWithDevice(id: string, outcome: DeviceOutcome, listOk: bool) returns (unlocked: Option<bool>)
      requires Valid() && id in vaults
      modifies this`vaults, index
      ensures Valid() && Now() == DeviceOutcomeStep(old(Now()), id, outcome, listOk)
      ensures unlocked == DeviceReport(outcome, listOk)
    {
      if outcome.Granted? || outcome.FailedLate? {
        SetAccess(id, Unlocked);
      }
      if outcome.FailedEarly? || outcome.FailedLate? {
        return None;
      }
      if outcome.Granted? {
        var ok := RebuildVault(id, listOk);
        if !ok {
          return None;
        }
      }
      unlocked := Some(outcome.Granted?);
    }

    method LockVault(id: string) returns (ok: bool)
      requires Valid()
      modifies this, index
      ensures Valid() && index == old(index)
      ensures Now() == LockStep(old(Now()), id)
      ensures ok <==> id in old(vaults) && !old(vaults)[id].access.Closed?
    {
      ok := id in vaults && !vaults[id].access.Closed?;
      if ok {
        SetAccess(id, Locked);
        DropFromIndex(id);
      }
    }

    method DeleteVaultPermanently(id: string, persistOk: bool, removeOk: bool) returns (ok: bool)
      requires Valid()
      modifies this, settings, index
      ensures Valid() && index == old(index)
      ensures Now() == DeleteStep(env, old(Now()), id, persistOk)
      ensures ok <==> DeleteSucceeds(env, old(Now()), id, persistOk) && removeOk
    {
      if id !in vaults || vaults[id].access.Unlocked? {
        return false;
      }
      vaults := vaults - {id};
      DropFromIndex(id);
      ok := UpdateRegistry(WithoutVault(settings.config.vaults, id), persistOk);
      ok := ok && removeOk;
    }

    method SetDefaultTargetVault(id: string, persistOk: bool) returns (ok: bool)
      requires Valid()
      modifies settings
      ensures Valid()
      ensures Now() == SetDefaultStep(env, old(Now()), id, persistOk)
      ensures ok <==> SetDefaultSucceeds(env, old(Now()), id, persistOk)
    {
      if id !in vaults {
        return false;
      }
      ok := UpdateRegistry(settings.config.vaults.(defaultTargetVaultId := Some(id)), persistOk);
    }

    /** What a successful write leaves in the vault's database. */
    method SetHosts(id: string, hosts: map<string, HostAuthSummary>)
      requires Valid() && id in vaults && forall h | h in hosts :: hosts[h].hostId == h
      modifies this`vaults
      ensures Valid() && vaults == old(vaults)[id := old(vaults)[id].(hosts := hosts)]
    {
      vaults := vaults[id := vaults[id].(hosts := hosts)];
    }

    method SaveHost(id: string, host: HostAuthSummary, saved: SaveOutcome) returns (ok: bool)
      requires Valid()
      modifies this, index
      ensures Valid() && index == old(index)
      ensures Now() == SaveHostStep(old(Now()), id, host, saved)
      ensures ok <==> id in old(vaults) && old(vaults)[id].access.Unlocked? && saved.Saved?
    {
      if id !in vaults || !vaults[id].access.Unlocked? || saved.Refused? {
        return false;
      }
      var vault := vaults[id];
      SetHosts(id, vault.hosts[host.hostId := host]);
      ok := saved.Saved?;
      if ok {
        IndexHost(id, vault.entry.name, host);
      }
    }

    method DeleteHost(id: string, hostId: string, storeOk: bool) returns (deleted: bool)
      requires Valid()
      modifies this, index
      ensures Valid() && index == old(index)
      ensures Now() == DeleteHostStep(old(Now()), id, hostId, storeOk)
      ensures deleted <==>
                id in old(vaults) && !old(vaults)[id].access.Closed? && hostId in old(vaults)[id].hosts && storeOk
    {
      deleted := id in vaults && !vaults[id].access.Closed? && hostId in vaults[id].hosts && storeOk;
      if deleted {
        var vault := vaults[id];
        SetHosts(id, vault.hosts - {hostId});
        index.RemoveByScope((id, hostId));
      }
    }

    /** A credential, a key or a port forward. */
    method SaveOther(id: string, recordId: string, storeOk: bool) returns (stored: bool)
      requires Valid()
      modifies this`vaults
      ensures Valid()
      ensures Now() == SaveOtherStep(old(Now()), id, recordId, storeOk)
      ensures stored <==> id in old(vaults) && old(vaults)[id].access.Unlocked? && storeOk
    {
      stored := id in vaults && vaults[id].access.Unlocked? && storeOk;
      if stored {
        SetHosts(id, vaults[id].hosts - {recordId});
      }
    }

    // ---- Runs ----

    /** Any operation; a generated id is never one in use. */
    method Perform(op: Op)
      requires Valid() && (op.Create? ==> FreshId(Now(), op.id))
      modifies this, settings, index
      ensures Valid() && (index == old(index) || fresh(index))
      ensures Now() == Step(env, old(Now()), op)
    {
      if op.Unlock? || op.DeviceUnlock? || op.Lock? || op.Open? || op.Close? {
        PerformAccess(op);
      } else if op.SaveHost? || op.DeleteHost? || op.SaveOther? {
        PerformRecord(op);
      } else {
        PerformRegistry(op);
      }
    }

    method PerformAccess(op: Op)
      requires Valid() && (op.Unlock? || op.DeviceUnlock? || op.Lock? || op.Open? || op.Close?)
      modifies this, settings, index
      ensures Valid() && index == old(index) && Now() == Step(env, old(Now()), op)
    {
      if op.Unlock? || op.DeviceUnlock? {
        PerformUnlock(op);
      } else {
        PerformDoor(op);
      }
    }

    method PerformUnlock(op: Op)
      requires Valid() && (op.Unlock? || op.DeviceUnlock?)
      modifies this, settings, index
      ensures Valid() && index == old(index) && Now() == Step(env, old(Now()), op)
    {
      if op.Unlock? {
        var _ := UnlockVault(op.id, op.openOk, op.persistOk, op.unlockOk, op.listOk);
      } else {
        var _ := TryUnlockVaultWithDevice(op.id, op.openOk, op.persistOk, op.outcome, op.listOk);
      }
    }

    method PerformDoor(op: Op)
      requires Valid() && (op.Lock? || op.Open? || op.Close?)
      modifies this, settings, index
      ensures Valid() && index == old(index) && Now() == Step(env, old(Now()), op)
    {
      match op {
        case Open(id, openOk, persistOk) => var _ := OpenVault(id, openOk, persistOk);
        case Close(id, persistOk) => var _ := CloseVault(id, persistOk);
        case Lock(id) => var _ := LockVault(id);
      }
    }

    method PerformRecord(op: Op)
      requires Valid() && (op.SaveHost? || op.DeleteHost? || op.SaveOther?)
      modifies this, index
      ensures Valid() && index == old(index) && Now() == Step(env, old(Now()), op)
    {
      if op.SaveHost? {
        PerformSave(op);
      } else if op.DeleteHost? {
        PerformDelete(op);
      } else {
        PerformOther(op);
      }
    }

    method PerformSave(op: Op)
      requires Valid() && op.SaveHost?
      modifies this, index
      ensures Valid() && index == old(index) && Now() == Step(env, old(Now()), op)
    {
      var _ := SaveHost(op.id, op.host, op.saved);
    }

    method PerformDelete(op: Op)
      requires Valid() && op.DeleteHost?
      modifies this, index
      ensures Valid() && index == old(index) && Now() == Step(env, old(Now()), op)
    {
      var _ := DeleteHost(op.id, op.hostId, op.storeOk);
    }

    method PerformOther(op: Op)
      requires Valid() && op.SaveOther?
      modifies this`vaults
      ensures Valid() && Now() == Step(env, old(Now()), op)
    {
      var _ := SaveOther(op.id, op.recordId, op.storeOk);
    }

    method PerformRegistry(op: Op)
      requires Valid() && (op.Bootstrap? || op.Create? || op.Rename? || op.Delete? || op.SetDefault?)
      requires op.Create? ==> FreshId(Now(), op.id)
      modifies this, settings, index
      ensures Valid() && (index == old(index) || fresh(index)) && Now() == Step(env, old(Now()), op)
    {
      match op {
        case Bootstrap(order, unlockable, unlistable) => var _ := Bootstrap(order, unlockable, unlistable);
        case Create(id, name, now, storeOk, persistOk) => var _ := CreateNamedVault(id, name, now, storeOk, persistOk);
        case Rename(id, name, now, persistOk) => var _ := RenameVault(id, name, now, persistOk);
        case Delete(id, persistOk) => var _ := DeleteVaultPermanently(id, persistOk, true);
        case SetDefault(id, persistOk) => var _ := SetDefaultTargetVault(id, persistOk);
      }
    }

    /**
     Any run of operations, one after the other under the controller's lock, and a lookup after it:
     from start-up on, without a late failure, the lookup in the two inverse maps is a scan.
     */
    method LookupAfter(
      ops: seq<Op>, kind: Kind, vaultId: string, id: string) returns (found: Option<seq<HostReference>>)
      requires Valid() && IdsFresh(env, Now(), ops)
      modifies this, settings, index
      ensures Valid() && Now() == RunFrom(env, old(Now()), ops)
      ensures found.None? <==> vaultId !in vaults
      ensures found.Some? && LoadedFrom(old(Now()), old(settings.config)) && AllIndexed(env, old(Now()), ops) ==>
                IsScan(Now(), env.lower, kind, (vaultId, id), found.value)
    {
      ghost var start := Now();
      PerformAll(ops);
      if LoadedFrom(start, start.config) && AllIndexed(env, start, ops) {
        IndexAgreesOverRuns(env, start, start.config, ops);
      }
      found := HostReferences(kind, vaultId, id);
    }

    method PerformAll(ops: seq<Op>)
      requires Valid() && IdsFresh(env, Now(), ops)
      modifies this, settings, index
      ensures Valid() && Now() == RunFrom(env, old(Now()), ops)
    {
      ghost var start := Now();
      for i := 0 to |ops|
        invariant Valid() && (index == old(index) || fresh(index))
        invariant Now() == RunFrom(env, start, ops[..i])
      {
        if ops[i].Create? { IdsFreshAt(env, start, ops, i); }
        Perform(ops[i]);
        assert ops[..i + 1][..i] == ops[..i];
      }
      assert ops[..|ops|] == ops;
    }
  }

  ghost predicate IdsFresh(env: Env, s: State, ops: seq<Op>) {
    forall i | 0 <= i < |ops| && ops[i].Create? :: FreshId(RunFrom(env, s, ops[..i]), ops[i].id)
  }

  lemma IdsFreshAt(env: Env, s: State, ops: seq<Op>, i: nat)
    requires IdsFresh(env, s, ops) && i < |ops| && ops[i].Create?
    ensures FreshId(RunFrom(env, s, ops[..i]), ops[i].id)
  {
  }

  lemma IdsSoFar(env: Env, registry: VaultRegistryConfig, i: nat)
    requires VaultsValid(env, registry) && i < |registry.entries|
    ensures forall j | 0 <= j < i :: registry.entries[j].id != registry.entries[i].id
  {
    forall j | 0 <= j < i ensures registry.entries[j].id != registry.entries[i].id {
      assert EntriesApart(env, registry.entries[j], registry.entries[i]);
    }
  }
}
