/** Runs from start-up that show where the index, the mirror and the default target go wrong. */
module WitnessRuns {
  import opened Text
  import opened Keybindings
  import opened ConfigModel
  import opened ConfigValidation
  import opened AuthReferences
  import opened VaultModel
  import opened IndexAgreement
  import opened RegistryMirror
  import opened DefaultTarget

  predicate Clean(e: VaultRegistryEntry) {
    EntryValid(e) && Trimmed(e.id) && Trimmed(e.name) && Trimmed(e.dbFile)
  }

  lemma RunOne(env: Env, s: State, op: Op)
    ensures RunFrom(env, s, [op]) == Step(env, s, op)
  {
    assert [op][..0] == [];
  }

  lemma RunTwo(env: Env, s: State, a: Op, b: Op)
    ensures RunFrom(env, s, [a, b]) == Step(env, Step(env, s, a), b)
  {
    RunOne(env, s, a);
    assert [a, b][..1] == [a];
  }

  lemma RunThree(env: Env, s: State, a: Op, b: Op, c: Op)
    ensures RunFrom(env, s, [a, b, c]) == Step(env, RunFrom(env, s, [a, b]), c)
  {
    assert [a, b, c][..2] == [a, b];
  }

  // ---- One vault ----

  /** One vault, listed as open or not, everything else as it is by default. */
  function OneVault(
    entry: VaultRegistryEntry, access: Access, hosts: map<string, HostAuthSummary>, listed: bool): State {
    State(map[entry.id := ManagedVault(entry, access, hosts)],
          DEFAULT_CONFIG.(vaults := VaultRegistryConfig([entry], if listed then [entry.id] else [], None)),
          map[])
  }

  lemma OneVaultLoaded(entry: VaultRegistryEntry, access: Access, hosts: map<string, HostAuthSummary>, listed: bool)
    requires !access.Unlocked? && (access.Locked? ==> listed) && forall h | h in hosts :: hosts[h].hostId == h
    ensures var s := OneVault(entry, access, hosts, listed); LoadedFrom(s, s.config)
  {
    var s := OneVault(entry, access, hosts, listed);
    assert s.config.vaults.entries[0] == entry;
  }

  lemma OneVaultMirrors(
    env: Env, entry: VaultRegistryEntry, access: Access, hosts: map<string, HostAuthSummary>, listed: bool)
    requires Clean(entry) && !access.Unlocked? && (access.Locked? ==> listed)
            && forall h | h in hosts :: hosts[h].hostId == h
    ensures Mirrors(env, OneVault(entry, access, hosts, listed))
  {
    var s := OneVault(entry, access, hosts, listed);
    assert s.config.vaults.entries[0] == entry;
    OneVaultLoaded(entry, access, hosts, listed);
    DefaultsAreValid(env);
    SectionUpdate(env, DEFAULT_CONFIG, s.config.vaults);
    LoadedMirrors(env, s, s.config);
  }

  /** A device unlock that cannot note its use, and an unlock after which the hosts cannot be listed. */
  lemma LateFailuresHideHosts(env: Env, entry: VaultRegistryEntry, host: HostAuthSummary)
    ensures var s := OneVault(entry, Locked, map[host.hostId := host], true);
            && LoadedFrom(s, s.config)
            && !Agrees(RunFrom(env, s, [DeviceUnlock(entry.id, true, true, FailedLate, true)]))
            && !Agrees(RunFrom(env, s, [Unlock(entry.id, true, true, true, false)]))
  {
    var s := OneVault(entry, Locked, map[host.hostId := host], true);
    OneVaultLoaded(entry, Locked, map[host.hostId := host], true);
    LoadedAgrees(s, s.config);
    assert host.hostId in s.vaults[entry.id].hosts;
    var device, passphrase := DeviceUnlock(entry.id, true, true, FailedLate, true),
        Unlock(entry.id, true, true, true, false);
    RunOne(env, s, device);
    RunOne(env, s, passphrase);
    AgreementStep(env, s, device);
    AgreementStep(env, s, passphrase);
  }

  /** A bootstrap that cannot list the hosts of an unlocked vault. */
  lemma FailedListingStopsBootstrap(env: Env, entry: VaultRegistryEntry, host: HostAuthSummary)
    ensures var s := OneVault(entry, Locked, map[host.hostId := host], true);
            !Agrees(RunFrom(env, s, [Bootstrap([entry.id], {entry.id}, {entry.id})]))
  {
    var s, op := OneVault(entry, Locked, map[host.hostId := host], true), Bootstrap([entry.id], {entry.id}, {entry.id});
    OneVaultLoaded(entry, Locked, map[host.hostId := host], true);
    LoadedAgrees(s, s.config);
    RunOne(env, s, op);
    var vaults := BootVaults(s.vaults, {entry.id});
    assert entry.id in vaults && vaults[entry.id].access.Unlocked? && host.hostId in vaults[entry.id].hosts;
    assert StopsAt(vaults, entry.id, {entry.id});
    AgreementStep(env, s, op);
  }

  /** A new host that is stored and cannot be read back. */
  lemma UnreadSaveHidesHost(env: Env, entry: VaultRegistryEntry, host: HostAuthSummary)
    ensures var s := OneVault(entry, Locked, map[], true);
            !Agrees(RunFrom(env, s, [Unlock(entry.id, true, true, true, true), SaveHost(entry.id, host, StoredUnread)]))
  {
    var s := OneVault(entry, Locked, map[], true);
    var first, second := Unlock(entry.id, true, true, true, true), SaveHost(entry.id, host, StoredUnread);
    OneVaultLoaded(entry, Locked, map[], true);
    LoadedAgrees(s, s.config);
    RunTwo(env, s, first, second);
    AgreementStep(env, s, first);
    AgreementStep(env, Step(env, s, first), second);
  }

  /** A credential, key or port forward saved under the id of a host. */
  lemma ReplacedHostStaysIndexed(env: Env, entry: VaultRegistryEntry, host: HostAuthSummary)
    ensures var s := OneVault(entry, Locked, map[host.hostId := host], true);
            !Agrees(RunFrom(env, s, [Unlock(entry.id, true, true, true, true), SaveOther(entry.id, host.hostId, true)]))
  {
    var s := OneVault(entry, Locked, map[host.hostId := host], true);
    var first, second := Unlock(entry.id, true, true, true, true), SaveOther(entry.id, host.hostId, true);
    OneVaultLoaded(entry, Locked, map[host.hostId := host], true);
    LoadedAgrees(s, s.config);
    RunTwo(env, s, first, second);
    AgreementStep(env, s, first);
    UnlockListed(env, s, entry.id);
    ReplacedHost(env, Step(env, s, first), entry.id, host.hostId);
  }

  lemma UnlockListed(env: Env, s: State, id: string)
    requires id in s.vaults && s.vaults[id].access.Locked? && id in s.config.vaults.openVaultIds
    ensures var s' := Step(env, s, Unlock(id, true, true, true, true));
            && s'.vaults == WithAccess(s, id, Unlocked)
            && !LeavesUnindexed(env, s, Unlock(id, true, true, true, true))
  {
  }

  lemma ReplacedHost(env: Env, s: State, id: string, hostId: string)
    requires Agrees(s) && id in s.vaults && s.vaults[id].access.Unlocked? && hostId in s.vaults[id].hosts
    ensures !Agrees(Step(env, s, SaveOther(id, hostId, true)))
  {
    SaveOtherAgrees(env, s, SaveOther(id, hostId, true));
  }

  /** Opening a vault whose listing cannot be written. */
  lemma FailedOpenBreaksMirror(env: Env, entry: VaultRegistryEntry)
    requires Clean(entry)
    ensures var s := OneVault(entry, Closed, map[], false);
            Mirrors(env, s) && !Mirrors(env, RunFrom(env, s, [Open(entry.id, true, false)]))
  {
    var s := OneVault(entry, Closed, map[], false);
    OneVaultMirrors(env, entry, Closed, map[], false);
    RunOpen(env, s, entry.id);
    OpenMirror(env, s, entry.id, true, false);
  }

  lemma RunOpen(env: Env, s: State, id: string)
    ensures RunFrom(env, s, [Open(id, true, false)]) == OpenStep(env, s, id, true, false)
  {
    RunOne(env, s, Open(id, true, false));
  }

  lemma RunDelete(env: Env, s: State, id: string)
    ensures RunFrom(env, s, [Delete(id, false)]) == DeleteStep(env, s, id, false)
  {
    RunOne(env, s, Delete(id, false));
  }

  /** Deleting a vault that cannot be unlisted. */
  lemma FailedDeleteBreaksMirror(env: Env, entry: VaultRegistryEntry)
    requires Clean(entry)
    ensures var s := OneVault(entry, Closed, map[], false);
            Mirrors(env, s) && !Mirrors(env, RunFrom(env, s, [Delete(entry.id, false)]))
  {
    var s := OneVault(entry, Closed, map[], false);
    OneVaultMirrors(env, entry, Closed, map[], false);
    RunDelete(env, s, entry.id);
    DeleteOpMirror(env, s, entry.id, false);
  }

  // ---- Two vaults ----

  /** Two open vaults and no default, everything else as it is by default. */
  function TwoVaults(one: VaultRegistryEntry, two: VaultRegistryEntry, access: Access): State {
    State(map[one.id := ManagedVault(one, access, map[]), two.id := ManagedVault(two, access, map[])],
          DEFAULT_CONFIG.(vaults := TwoEntries(one, two)),
          map[])
  }

  function TwoEntries(one: VaultRegistryEntry, two: VaultRegistryEntry): VaultRegistryConfig {
    VaultRegistryConfig([one, two], [one.id, two.id], None)
  }

  lemma TwoVaultsValid(env: Env, one: VaultRegistryEntry, two: VaultRegistryEntry)
    requires Clean(one) && Clean(two) && EntriesApart(env, one, two)
    ensures VaultsNormalized(TwoEntries(one, two)) && VaultsValid(env, TwoEntries(one, two))
  {
    var entries := [one, two];
    assert entries[0] == one && entries[1] == two;
  }

  lemma TwoVaultsMatch(one: VaultRegistryEntry, two: VaultRegistryEntry, access: Access)
    requires one.id != two.id
    ensures Matches(TwoVaults(one, two, access).vaults, TwoEntries(one, two))
  {
    var entries, ids := [one, two], [one.id, two.id];
    assert entries[0] in entries && entries[1] in entries;
    assert ids[0] in ids && ids[1] in ids;
  }

  lemma TwoVaultsMirror(env: Env, one: VaultRegistryEntry, two: VaultRegistryEntry, access: Access)
    requires Clean(one) && Clean(two) && EntriesApart(env, one, two)
    ensures Mirrors(env, TwoVaults(one, two, access))
  {
    TwoVaultsValid(env, one, two);
    TwoVaultsMatch(one, two, access);
    DefaultsAreValid(env);
    SectionUpdate(env, DEFAULT_CONFIG, TwoEntries(one, two));
  }

  lemma TwoVaultsLoaded(one: VaultRegistryEntry, two: VaultRegistryEntry)
    requires one.id != two.id
    ensures var s := TwoVaults(one, two, Locked); LoadedFrom(s, s.config)
  {
    var entries := [one, two];
    assert entries[0] == one && entries[1] == two;
  }

  lemma UnlockEmpty(env: Env, s: State, id: string)
    requires id in s.vaults && s.vaults[id].access.Locked? && s.vaults[id].hosts == map[]
    requires id in s.config.vaults.openVaultIds && s.index == map[]
    ensures Step(env, s, Unlock(id, true, true, true, true)) == s.(vaults := WithAccess(s, id, Unlocked))
  {
    var s' := Step(env, s, Unlock(id, true, true, true, true));
    forall scope: Scope ensures scope !in s'.index {
      VaultEntriesAt(id, s'.vaults[id], scope);
    }
    assert s'.index == map[];
  }

  lemma UnlockBoth(env: Env, one: VaultRegistryEntry, two: VaultRegistryEntry)
    requires one.id != two.id
    ensures RunFrom(env, TwoVaults(one, two, Locked),
            [Unlock(one.id, true, true, true, true), Unlock(two.id, true, true, true, true)])
            == TwoVaults(one, two, Unlocked)
  {
    var s := TwoVaults(one, two, Locked);
    var ids := [one.id, two.id];
    assert ids[0] in ids && ids[1] in ids;
    RunTwo(env, s, Unlock(one.id, true, true, true, true), Unlock(two.id, true, true, true, true));
    UnlockEmpty(env, s, one.id);
    var s1 := s.(vaults := WithAccess(s, one.id, Unlocked));
    UnlockEmpty(env, s1, two.id);
    assert WithAccess(s1, two.id, Unlocked) == TwoVaults(one, two, Unlocked).vaults;
  }

  function UnlockThenRename(one: VaultRegistryEntry, two: VaultRegistryEntry, name: string, now: int): seq<Op> {
    [Unlock(one.id, true, true, true, true), Unlock(two.id, true, true, true, true), Rename(two.id, name, now, true)]
  }

  /** After start-up and two unlocks, any name that clashes with another only once lowercased in full. */
  lemma ClashingRenameTies(env: Env, one: VaultRegistryEntry, two: VaultRegistryEntry, name: string, now: int)
    requires Clean(one) && Clean(two) && EntriesApart(env, one, two) && name != [] && Trimmed(name)
    requires env.lower(name) == env.lower(one.name) && !EqIgnoreAsciiCase(one.name, name)
    ensures var s := TwoVaults(one, two, Locked);
            && LoadedFrom(s, s.config) && Mirrors(env, s)
            && OrderMatters(env, RunFrom(env, s, UnlockThenRename(one, two, name, now)))
  {
    TwoVaultsLoaded(one, two);
    TwoVaultsMirror(env, one, two, Locked);
    UnlockThenRenameEnds(env, one, two, name, now);
    UnlockedRenameTies(env, one, two, name, now);
  }

  lemma UnlockThenRenameEnds(env: Env, one: VaultRegistryEntry, two: VaultRegistryEntry, name: string, now: int)
    requires one.id != two.id
    ensures RunFrom(env, TwoVaults(one, two, Locked), UnlockThenRename(one, two, name, now))
            == RenameStep(env, TwoVaults(one, two, Unlocked), Rename(two.id, name, now, true))
  {
    var first, second := Unlock(one.id, true, true, true, true), Unlock(two.id, true, true, true, true);
    UnlockBoth(env, one, two);
    RunThree(env, TwoVaults(one, two, Locked), first, second, Rename(two.id, name, now, true));
  }

  lemma UnlockedRenameTies(env: Env, one: VaultRegistryEntry, two: VaultRegistryEntry, name: string, now: int)
    requires Clean(one) && Clean(two) && EntriesApart(env, one, two) && name != [] && Trimmed(name)
    requires env.lower(name) == env.lower(one.name) && !EqIgnoreAsciiCase(one.name, name)
    ensures OrderMatters(env, RenameStep(env, TwoVaults(one, two, Unlocked), Rename(two.id, name, now, true)))
  {
    TwoVaultsMirror(env, one, two, Unlocked);
    TrimIsTrimmed(name);
    StrLessIrreflexive(env.lower(one.name));
    RefusedRenameTies(env, TwoVaults(one, two, Unlocked), Rename(two.id, name, now, true), one.id);
  }

  /** For one, a vault "é" beside one that is renamed from "b" to "É". */
  lemma AccentedRenameTies()
    ensures var env := Env(OtherOs, (s: string) => if s == "É" then "é" else s);
            var one, two := VaultRegistryEntry("1", "é", "1.sqlite", 0, 0),
                VaultRegistryEntry("2", "b", "2.sqlite", 0, 0);
            var s := TwoVaults(one, two, Locked);
            LoadedFrom(s, s.config) && OrderMatters(env, RunFrom(env, s, UnlockThenRename(one, two, "É", 1)))
  {
    var env := Env(OtherOs, (s: string) => if s == "É" then "é" else s);
    var one, two := VaultRegistryEntry("1", "é", "1.sqlite", 0, 0), VaultRegistryEntry("2", "b", "2.sqlite", 0, 0);
    assert one.id[0] != two.id[0] && one.dbFile[0] != two.dbFile[0] && one.name[0] != two.name[0];
    assert "é"[0] == 'é' && "É"[0] == 'É';
    ClashingRenameTies(env, one, two, "É", 1);
  }
}
