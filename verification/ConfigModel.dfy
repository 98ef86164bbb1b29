/** The application's configuration values and their normalisation. */
module ConfigModel {
  import opened Text

  /** `f32` as far as range checks can tell values apart. */
  datatype F32 = NaN | Infinite(negative: bool) | Finite(value: real)

  datatype VaultRegistryEntry = VaultRegistryEntry(id: string, name: string, dbFile: string, createdAt: int,
      updatedAt: int)

  datatype VaultRegistryConfig = VaultRegistryConfig(
    entries: seq<VaultRegistryEntry>,
    openVaultIds: seq<string>,
    defaultTargetVaultId: Option<string>)

  datatype KeybindingContext =
    | AppGlobal
    | WorkspaceTerminal
    | WorkspaceSettings
    | WorkspaceSecure
    | WorkspaceSftp
    | Palette
    | VaultModal
    | ConfirmDialog

  datatype KeybindingOverride = KeybindingOverride(id: string, chord: Option<string>, disabled: bool)

  datatype CustomKeybinding = CustomKeybinding(chord: string, command: string, context: KeybindingContext)

  datatype TerminalConfig = TerminalConfig(localShell: Option<string>, fontFamily: string, fontSizePx: F32,
      lineHeightPx: F32)

  datatype LoggingConfig = LoggingConfig(transcriptEnabled: bool, retentionDays: nat, maxBytesPerSession: nat)

  /** `otherSettings` stands for the sections that are neither normalised nor validated. */
  datatype AppConfig = AppConfig(
    theme: string,
    vaults: VaultRegistryConfig,
    terminal: TerminalConfig,
    logging: LoggingConfig,
    overrides: seq<KeybindingOverride>,
    custom: seq<CustomKeybinding>,
    otherSettings: nat)

  const DEFAULT_THEME_KEY := "obsidian-smoke"

  const DEFAULT_CONFIG: AppConfig := AppConfig(
    DEFAULT_THEME_KEY,
    VaultRegistryConfig([], [], None),
    TerminalConfig(None, "Menlo", Finite(13.0), Finite(19.0)),
    LoggingConfig(false, 7, 64 * 1024 * 1024),
    [],
    [],
    0)

  // ---- Normalisation ----

  /** Trim, and treat a blank value as absent. */
  function TrimOption(value: Option<string>): Option<string> {
    if value.Some? && Trim(value.value) != [] then Some(Trim(value.value)) else None
  }

  function TrimEntry(entry: VaultRegistryEntry): VaultRegistryEntry {
    entry.(id := Trim(entry.id), name := Trim(entry.name), dbFile := Trim(entry.dbFile))
  }

  function TrimOverride(binding: KeybindingOverride): KeybindingOverride {
    binding.(id := Trim(binding.id), chord := TrimOption(binding.chord))
  }

  function TrimCustom(binding: CustomKeybinding): CustomKeybinding {
    binding.(chord := Trim(binding.chord), command := Trim(binding.command))
  }

  function Map<A, B>(f: A -> B, s: seq<A>): (r: seq<B>)
    ensures |r| == |s| && forall i | 0 <= i < |s| :: r[i] == f(s[i])
  {
    seq(|s|, i requires 0 <= i < |s| => f(s[i]))
  }

  /** Trimmed ids, the blank ones left out. */
  function TrimIds(ids: seq<string>): seq<string> {
    if ids == [] then []
    else TrimIds(ids[..|ids| - 1]) + (if Trim(ids[|ids| - 1]) == [] then [] else [Trim(ids[|ids| - 1])])
  }

  function NormalizeVaults(vaults: VaultRegistryConfig): VaultRegistryConfig {
    VaultRegistryConfig(
      Map(TrimEntry, vaults.entries),
      TrimIds(vaults.openVaultIds),
      TrimOption(vaults.defaultTargetVaultId))
  }

  function Normalize(config: AppConfig): AppConfig {
    config.(
      theme := Trim(config.theme),
      vaults := NormalizeVaults(config.vaults),
      terminal := config.terminal.(
        fontFamily := Trim(config.terminal.fontFamily),
        localShell := TrimOption(config.terminal.localShell)),
      overrides := Map(TrimOverride, config.overrides),
      custom := Map(TrimCustom, config.custom))
  }

  /** The clone, changed field by field. */
  method Normalized(config: AppConfig) returns (normalized: AppConfig)
    ensures normalized == Normalize(config)
  {
    normalized := config.(theme := Trim(config.theme));
    var entries := config.vaults.entries;
    for i := 0 to |entries|
      invariant |entries| == |config.vaults.entries|
      invariant forall j | 0 <= j < |entries| ::
                  entries[j] == if j < i then TrimEntry(config.vaults.entries[j]) else config.vaults.entries[j]
    {
      entries := entries[i :=
          entries[i].(id := Trim(entries[i].id), name := Trim(entries[i].name), dbFile := Trim(entries[i].dbFile))];
    }
    var openIds: seq<string> := [];
    for i := 0 to |config.vaults.openVaultIds|
      invariant openIds == TrimIds(config.vaults.openVaultIds[..i])
    {
      assert config.vaults.openVaultIds[..i + 1][..i] == config.vaults.openVaultIds[..i];
      var id := Trim(config.vaults.openVaultIds[i]);
      if id != [] {
        openIds := openIds + [id];
      }
    }
    assert config.vaults.openVaultIds[..|config.vaults.openVaultIds|] == config.vaults.openVaultIds;
    assert entries == Map(TrimEntry, config.vaults.entries);
    normalized := normalized.(
      vaults := VaultRegistryConfig(entries, openIds, TrimOption(config.vaults.defaultTargetVaultId)),
      terminal := normalized.terminal.(
        fontFamily := Trim(config.terminal.fontFamily),
        localShell := TrimOption(config.terminal.localShell)));
    var overrides := config.overrides;
    for i := 0 to |overrides|
      invariant |overrides| == |config.overrides|
      invariant forall j | 0 <= j < |overrides| ::
                  overrides[j] == if j < i then TrimOverride(config.overrides[j]) else config.overrides[j]
    {
      overrides := overrides[i := overrides[i].(id := Trim(overrides[i].id), chord := TrimOption(overrides[i].chord))];
    }
    var custom := config.custom;
    for i := 0 to |custom|
      invariant |custom| == |config.custom|
      invariant forall j | 0 <= j < |custom| ::
                  custom[j] == if j < i then TrimCustom(config.custom[j]) else config.custom[j]
    {
      custom := custom[i := custom[i].(chord := Trim(custom[i].chord), command := Trim(custom[i].command))];
    }
    assert overrides == Map(TrimOverride, config.overrides);
    assert custom == Map(TrimCustom, config.custom);
    normalized := normalized.(overrides := overrides, custom := custom);
  }

  // ---- What normalised means ----

  predicate OptionNormalized(value: Option<string>) {
    value.Some? ==> value.value != [] && Trimmed(value.value)
  }

  predicate VaultsNormalized(vaults: VaultRegistryConfig) {
    && (forall i | 0 <= i < |vaults.entries| ::
          Trimmed(vaults.entries[i].id) && Trimmed(vaults.entries[i].name) && Trimmed(vaults.entries[i].dbFile))
    && (forall i | 0 <= i < |vaults.openVaultIds| :: vaults.openVaultIds[i] != [] && Trimmed(vaults.openVaultIds[i]))
    && OptionNormalized(vaults.defaultTargetVaultId)
  }

  /** No string carries outer whitespace and no optional value or open id is blank. */
  predicate IsNormalized(config: AppConfig) {
    && Trimmed(config.theme)
    && VaultsNormalized(config.vaults)
    && Trimmed(config.terminal.fontFamily)
    && OptionNormalized(config.terminal.localShell)
    && (forall i | 0 <= i < |config.overrides| ::
          Trimmed(config.overrides[i].id) && OptionNormalized(config.overrides[i].chord))
    && (forall i | 0 <= i < |config.custom| ::
          Trimmed(config.custom[i].chord) && Trimmed(config.custom[i].command))
  }

  lemma TrimOptionNormalizes(value: Option<string>)
    ensures OptionNormalized(TrimOption(value))
    ensures TrimOption(value) == value <==> OptionNormalized(value)
  {
    if value.Some? {
      TrimIsTrimmed(value.value);
    }
  }

  ghost predicate IdsNormalized(ids: seq<string>) {
    forall i | 0 <= i < |ids| :: ids[i] != [] && Trimmed(ids[i])
  }

  lemma {:induction false} TrimIdsNormalizes(ids: seq<string>)
    ensures IdsNormalized(TrimIds(ids))
    ensures |TrimIds(ids)| <= |ids|
    ensures TrimIds(ids) == ids <==> IdsNormalized(ids)
  {
    if ids != [] {
      var n := |ids| - 1;
      TrimIdsNormalizes(ids[..n]);
      TrimIsTrimmed(ids[n]);
      assert ids == ids[..n] + [ids[n]];
    }
  }

  lemma NormalizeVaultsNormalizes(vaults: VaultRegistryConfig)
    ensures VaultsNormalized(NormalizeVaults(vaults))
    ensures NormalizeVaults(vaults) == vaults <==> VaultsNormalized(vaults)
  {
    var r := NormalizeVaults(vaults);
    TrimIdsNormalizes(vaults.openVaultIds);
    TrimOptionNormalizes(vaults.defaultTargetVaultId);
    forall i | 0 <= i < |vaults.entries|
      ensures Trimmed(r.entries[i].id) && Trimmed(r.entries[i].name) && Trimmed(r.entries[i].dbFile)
      ensures r.entries[i] == vaults.entries[i]
              <==> Trimmed(vaults.entries[i].id) && Trimmed(vaults.entries[i].name) && Trimmed(vaults.entries[i].dbFile)
    {
      TrimIsTrimmed(vaults.entries[i].id);
      TrimIsTrimmed(vaults.entries[i].name);
      TrimIsTrimmed(vaults.entries[i].dbFile);
    }
    if VaultsNormalized(vaults) {
      assert r.entries == vaults.entries;
    }
  }

  lemma NormalizeBindings(overrides: seq<KeybindingOverride>, custom: seq<CustomKeybinding>)
    ensures var o, c := Map(TrimOverride, overrides), Map(TrimCustom, custom);
            && (forall i | 0 <= i < |o| :: Trimmed(o[i].id) && OptionNormalized(o[i].chord))
            && (forall i | 0 <= i < |c| :: Trimmed(c[i].chord) && Trimmed(c[i].command))
    ensures Map(TrimOverride, overrides) == overrides
            <==> forall i | 0 <= i < |overrides| :: Trimmed(overrides[i].id) && OptionNormalized(overrides[i].chord)
    ensures Map(TrimCustom, custom) == custom
            <==> forall i | 0 <= i < |custom| :: Trimmed(custom[i].chord) && Trimmed(custom[i].command)
  {
    forall i | 0 <= i < |overrides|
      ensures var t := TrimOverride(overrides[i]);
              && Trimmed(t.id) && OptionNormalized(t.chord)
              && (t == overrides[i] <==> Trimmed(overrides[i].id) && OptionNormalized(overrides[i].chord))
    {
      TrimIsTrimmed(overrides[i].id);
      TrimOptionNormalizes(overrides[i].chord);
    }
    forall i | 0 <= i < |custom|
      ensures var t := TrimCustom(custom[i]);
              && Trimmed(t.chord) && Trimmed(t.command)
              && (t == custom[i] <==> Trimmed(custom[i].chord) && Trimmed(custom[i].command))
    {
      TrimIsTrimmed(custom[i].chord);
      TrimIsTrimmed(custom[i].command);
    }
  }

  /** Normalising gives a normalised value, and changes exactly the values that are not. */
  lemma NormalizeNormalizes(config: AppConfig)
    ensures IsNormalized(Normalize(config))
    ensures Normalize(config) == config <==> IsNormalized(config)
  {
    TrimIsTrimmed(config.theme);
    TrimIsTrimmed(config.terminal.fontFamily);
    TrimOptionNormalizes(config.terminal.localShell);
    NormalizeVaultsNormalizes(config.vaults);
    NormalizeBindings(config.overrides, config.custom);
  }

  lemma NormalizeIsIdempotent(config: AppConfig)
    ensures Normalize(Normalize(config)) == Normalize(config)
  {
    NormalizeNormalizes(config);
    NormalizeNormalizes(Normalize(config));
  }

  // ---- What normalising keeps ----

  /** Absent or blank values become absent, others their core. */
  ghost predicate OptionCore(before: Option<string>, after: Option<string>) {
    && (after.None? <==> before.None? || Blank(before.value))
    && (after.Some? && before.Some? ==> IsCore(before.value, after.value))
  }

  ghost predicate EntryCore(before: VaultRegistryEntry, after: VaultRegistryEntry) {
    && IsCore(before.id, after.id) && IsCore(before.name, after.name) && IsCore(before.dbFile, after.dbFile)
    && after.createdAt == before.createdAt && after.updatedAt == before.updatedAt
  }

  ghost predicate OverrideCore(before: KeybindingOverride, after: KeybindingOverride) {
    IsCore(before.id, after.id) && OptionCore(before.chord, after.chord) && after.disabled == before.disabled
  }

  ghost predicate CustomCore(before: CustomKeybinding, after: CustomKeybinding) {
    IsCore(before.chord, after.chord) && IsCore(before.command, after.command) && after.context == before.context
  }

  /** The cores of the ids that are not blank, all of them and in order. */
  ghost predicate IdsCore(before: seq<string>, after: seq<string>) {
    exists at: seq<nat> :: CoresAt(before, after, at)
  }

  ghost predicate CoresAt(before: seq<string>, after: seq<string>, at: seq<nat>) {
    && |at| == |after|
    && (forall k | 0 <= k < |at| :: at[k] < |before| && IsCore(before[at[k]], after[k]))
    && (forall k, l | 0 <= k < l < |at| :: at[k] < at[l])
    && (forall i | 0 <= i < |before| :: i in at <==> !Blank(before[i]))
  }

  lemma TrimOptionCore(value: Option<string>)
    ensures OptionCore(value, TrimOption(value))
  {
    if value.Some? {
      TrimIsCore(value.value);
      BlankIffTrimmedAway(value.value);
    }
  }

  lemma {:induction false} TrimIdsCores(ids: seq<string>) returns (at: seq<nat>)
    ensures CoresAt(ids, TrimIds(ids), at)
  {
    at := [];
    if ids != [] {
      var n := |ids| - 1;
      var before := TrimIdsCores(ids[..n]);
      TrimIsCore(ids[n]);
      BlankIffTrimmedAway(ids[n]);
      assert ids == ids[..n] + [ids[n]];
      if Blank(ids[n]) {
        at := before;
        CoresSkip(ids[..n], ids[n], TrimIds(ids[..n]), before);
      } else {
        at := before + [n];
        CoresKeep(ids[..n], ids[n], TrimIds(ids[..n]), Trim(ids[n]), before);
      }
    }
  }

  lemma CoresSkip(ids: seq<string>, last: string, kept: seq<string>, at: seq<nat>)
    requires CoresAt(ids, kept, at) && Blank(last)
    ensures CoresAt(ids + [last], kept, at)
  {
    var n := |ids|;
    forall i | 0 <= i < n + 1 ensures i in at <==> !Blank((ids + [last])[i]) {
    }
  }

  lemma CoresKeep(ids: seq<string>, last: string, kept: seq<string>, core: string, at: seq<nat>)
    requires CoresAt(ids, kept, at) && !Blank(last) && IsCore(last, core)
    ensures CoresAt(ids + [last], kept + [core], at + [|ids|])
  {
    var n := |ids|;
    forall i | 0 <= i < n + 1 ensures i in at + [n] <==> !Blank((ids + [last])[i]) {
    }
  }

  ghost predicate VaultsCore(before: VaultRegistryConfig, after: VaultRegistryConfig) {
    && |after.entries| == |before.entries|
    && (forall i | 0 <= i < |before.entries| :: EntryCore(before.entries[i], after.entries[i]))
    && IdsCore(before.openVaultIds, after.openVaultIds)
    && OptionCore(before.defaultTargetVaultId, after.defaultTargetVaultId)
  }

  lemma NormalizeVaultsCores(vaults: VaultRegistryConfig)
    ensures VaultsCore(vaults, NormalizeVaults(vaults))
  {
    var at := TrimIdsCores(vaults.openVaultIds);
    TrimOptionCore(vaults.defaultTargetVaultId);
    forall i | 0 <= i < |vaults.entries| ensures EntryCore(vaults.entries[i], TrimEntry(vaults.entries[i])) {
      TrimIsCore(vaults.entries[i].id);
      TrimIsCore(vaults.entries[i].name);
      TrimIsCore(vaults.entries[i].dbFile);
    }
  }

  ghost predicate BindingsCore(before: AppConfig, after: AppConfig) {
    && |after.overrides| == |before.overrides| && |after.custom| == |before.custom|
    && (forall i | 0 <= i < |before.overrides| :: OverrideCore(before.overrides[i], after.overrides[i]))
    && (forall i | 0 <= i < |before.custom| :: CustomCore(before.custom[i], after.custom[i]))
  }

  lemma NormalizeBindingsCores(config: AppConfig)
    ensures BindingsCore(config, Normalize(config))
  {
    forall i | 0 <= i < |config.overrides| ensures OverrideCore(config.overrides[i],
        TrimOverride(config.overrides[i])) {
      TrimIsCore(config.overrides[i].id);
      TrimOptionCore(config.overrides[i].chord);
    }
    forall i | 0 <= i < |config.custom| ensures CustomCore(config.custom[i], TrimCustom(config.custom[i])) {
      TrimIsCore(config.custom[i].chord);
      TrimIsCore(config.custom[i].command);
    }
  }

  ghost predicate TerminalCore(before: TerminalConfig, after: TerminalConfig) {
    && IsCore(before.fontFamily, after.fontFamily) && OptionCore(before.localShell, after.localShell)
    && after.fontSizePx == before.fontSizePx && after.lineHeightPx == before.lineHeightPx
  }

  lemma NormalizeTerminalCore(config: AppConfig)
    ensures TerminalCore(config.terminal, Normalize(config).terminal)
  {
    TrimIsCore(config.terminal.fontFamily);
    TrimOptionCore(config.terminal.localShell);
  }

  /** Every text becomes its core, blank optional values and open ids go, and nothing else changes. */
  lemma NormalizeKeepsCores(config: AppConfig)
    ensures var r := Normalize(config);
            && IsCore(config.theme, r.theme) && VaultsCore(config.vaults, r.vaults)
            && TerminalCore(config.terminal, r.terminal) && BindingsCore(config, r)
            && r.logging == config.logging && r.otherSettings == config.otherSettings
  {
    TrimIsCore(config.theme);
    NormalizeVaultsCores(config.vaults);
    NormalizeTerminalCore(config);
    NormalizeBindingsCores(config);
  }
}
