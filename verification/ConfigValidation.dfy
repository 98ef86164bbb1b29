/** Validation of a configuration: when it succeeds, and what its errors mean. */
module ConfigValidation {
  import opened Text
  import opened Keybindings
  import opened ConfigModel

  const SUPPORTED_THEME_KEYS := {
    "obsidian-smoke", "midnight-frost", "bone", "phosphor", "tokyo-night",
    "catppuccin-mocha", "rose-pine", "dracula", "nord", "solarized-dark"
  }

  const BUILTIN_KEYBINDING_IDS := {
    "app.open_preferences", "app.open_command_palette", "session.new_local", "session.close_active",
    "debug.toggle_perf_hud", "window.new", "app.quit", "app.hide", "session.select_previous",
    "session.select_next", "session.copy_previous_turn", "session.select_slot_1", "session.select_slot_2",
    "session.select_slot_3", "session.select_slot_4", "session.select_slot_5", "session.select_slot_6",
    "session.select_slot_7", "session.select_slot_8", "session.select_slot_9", "session.select_slot_10"
  }

  datatype Field =
    | FontFamily | FontSize | LineHeight | LocalShell | RetentionDays | MaxBytes
    | OverrideId | CustomChord | CustomCommand | VaultId | VaultName | VaultDbFile

  datatype ConfigError =
    | InvalidTheme(theme: string)
    | EmptyField(field: Field)
    | OutOfRange(field: Field)
    | UnknownKeybindingId(id: string)
    | UnknownKeybindingCommand(command: string)
    | InvalidKeybindingChord(chord: string)
    | InvalidKeybindingOverride(id: string)
    | DuplicateKeybindingOverrideId(id: string)
    | DuplicateCustomKeybinding(chord: string, command: string, context: KeybindingContext)
    | DuplicateVaultId(id: string)
    | DuplicateVaultName(name: string)
    | DuplicateVaultDbFile(dbFile: string)
    | UnknownOpenVaultId(id: string)
    | UnknownDefaultVaultId(id: string)

  /** The platform the build is for, and `str::to_lowercase`. */
  datatype Env = Env(platform: Platform, lower: string -> string)

  // ---- The declarative predicate ----

  predicate InRange(value: F32, lo: real, hi: real) {
    value.Finite? && lo <= value.value <= hi
  }

  predicate TerminalValid(terminal: TerminalConfig) {
    && Trim(terminal.fontFamily) != []
    && InRange(terminal.fontSizePx, 8.0, 32.0)
    && InRange(terminal.lineHeightPx, 10.0, 40.0)
    && (terminal.localShell.Some? ==> Trim(terminal.localShell.value) != [])
  }

  predicate LoggingValid(logging: LoggingConfig) {
    1 <= logging.retentionDays <= 365 && 1024 <= logging.maxBytesPerSession <= 1024 * 1024 * 1024
  }

  /** Disabled overrides carry no chord; the others carry a valid one. */
  predicate OverrideValid(env: Env, binding: KeybindingOverride) {
    if binding.disabled then binding.chord.None? else binding.chord.Some? && IsChord(env.platform, binding.chord.value)
  }

  ghost predicate OverridesValid(env: Env, overrides: seq<KeybindingOverride>) {
    && (forall i | 0 <= i < |overrides| ::
          Trim(overrides[i].id) in BUILTIN_KEYBINDING_IDS && OverrideValid(env, overrides[i]))
    && (forall i, j | 0 <= i < j < |overrides| :: Trim(overrides[i].id) != Trim(overrides[j].id))
  }

  function Triple(binding: CustomKeybinding): (string, string, KeybindingContext) {
    (Trim(binding.chord), Trim(binding.command), binding.context)
  }

  predicate CustomBindingValid(env: Env, binding: CustomKeybinding) {
    && Trim(binding.chord) != []
    && IsChord(env.platform, Trim(binding.chord))
    && Trim(binding.command) in BUILTIN_KEYBINDING_IDS
  }

  ghost predicate CustomValid(env: Env, custom: seq<CustomKeybinding>) {
    && (forall i | 0 <= i < |custom| :: CustomBindingValid(env, custom[i]))
    && (forall i, j | 0 <= i < j < |custom| :: Triple(custom[i]) != Triple(custom[j]))
  }

  predicate EntryValid(entry: VaultRegistryEntry) {
    entry.id != [] && entry.name != [] && entry.dbFile != []
  }

  predicate EntriesApart(env: Env, a: VaultRegistryEntry, b: VaultRegistryEntry) {
    a.id != b.id && env.lower(a.name) != env.lower(b.name) && a.dbFile != b.dbFile
  }

  ghost predicate EntriesValid(env: Env, entries: seq<VaultRegistryEntry>) {
    && (forall i | 0 <= i < |entries| :: EntryValid(entries[i]))
    && (forall i, j | 0 <= i < j < |entries| :: EntriesApart(env, entries[i], entries[j]))
  }

  predicate KnownVault(entries: seq<VaultRegistryEntry>, id: string) {
    exists i | 0 <= i < |entries| :: entries[i].id == id
  }

  ghost predicate VaultsValid(env: Env, vaults: VaultRegistryConfig) {
    && EntriesValid(env, vaults.entries)
    && (forall i | 0 <= i < |vaults.openVaultIds| :: KnownVault(vaults.entries, vaults.openVaultIds[i]))
    && (vaults.defaultTargetVaultId.Some? ==> KnownVault(vaults.entries, vaults.defaultTargetVaultId.value))
  }

  ghost predicate ConfigValid(env: Env, config: AppConfig) {
    && config.theme in SUPPORTED_THEME_KEYS
    && TerminalValid(config.terminal)
    && LoggingValid(config.logging)
    && OverridesValid(env, config.overrides)
    && CustomValid(env, config.custom)
    && VaultsValid(env, config.vaults)
  }

  // ---- What each error says about the configuration ----

  ghost predicate OverrideErrorTrue(env: Env, overrides: seq<KeybindingOverride>, error: ConfigError) {
    match error
    case EmptyField(OverrideId) => exists i | 0 <= i < |overrides| :: Trim(overrides[i].id) == []
    case UnknownKeybindingId(id) =>
      id !in BUILTIN_KEYBINDING_IDS && exists i | 0 <= i < |overrides| :: Trim(overrides[i].id) == id
    case InvalidKeybindingOverride(id) => exists i | 0 <= i < |overrides| ::
      overrides[i].id == id && overrides[i].disabled == overrides[i].chord.Some?
    case InvalidKeybindingChord(chord) => !IsChord(env.platform, chord)
      && exists i | 0 <= i < |overrides| :: overrides[i].chord == Some(chord)
    case DuplicateKeybindingOverrideId(id) =>
      exists i, j | 0 <= i < j < |overrides| :: Trim(overrides[i].id) == Trim(overrides[j].id) == id
    case _ => false
  }

  ghost predicate CustomErrorTrue(env: Env, custom: seq<CustomKeybinding>, error: ConfigError) {
    match error
    case EmptyField(CustomChord) => exists i | 0 <= i < |custom| :: Trim(custom[i].chord) == []
    case EmptyField(CustomCommand) => exists i | 0 <= i < |custom| :: Trim(custom[i].command) == []
    case InvalidKeybindingChord(chord) => !IsChord(env.platform, chord)
      && exists i | 0 <= i < |custom| :: Trim(custom[i].chord) == chord
    case UnknownKeybindingCommand(command) => command !in BUILTIN_KEYBINDING_IDS
      && exists i | 0 <= i < |custom| :: Trim(custom[i].command) == command
    case DuplicateCustomKeybinding(chord, command, context) =>
      exists i, j | 0 <= i < j < |custom| :: Triple(custom[i]) == Triple(custom[j]) == (chord, command, context)
    case _ => false
  }

  ghost predicate EntryErrorTrue(env: Env, entries: seq<VaultRegistryEntry>, error: ConfigError) {
    match error
    case EmptyField(VaultId) => exists i | 0 <= i < |entries| :: entries[i].id == []
    case EmptyField(VaultName) => exists i | 0 <= i < |entries| :: entries[i].name == []
    case EmptyField(VaultDbFile) => exists i | 0 <= i < |entries| :: entries[i].dbFile == []
    case DuplicateVaultId(id) => exists i, j | 0 <= i < j < |entries| :: entries[i].id == entries[j].id == id
    case DuplicateVaultName(name) =>
      exists i, j | 0 <= i < j < |entries| :: entries[j].name == name && env.lower(entries[i].name) == env.lower(name)
    case DuplicateVaultDbFile(dbFile) =>
      exists i, j | 0 <= i < j < |entries| :: entries[i].dbFile == entries[j].dbFile == dbFile
    case _ => false
  }

  ghost predicate ErrorTrue(env: Env, config: AppConfig, error: ConfigError) {
    || OverrideErrorTrue(env, config.overrides, error)
    || CustomErrorTrue(env, config.custom, error)
    || EntryErrorTrue(env, config.vaults.entries, error)
    || match error
       case InvalidTheme(theme) => theme == config.theme && theme !in SUPPORTED_THEME_KEYS
       case EmptyField(FontFamily) => Trim(config.terminal.fontFamily) == []
       case EmptyField(LocalShell) => config.terminal.localShell.Some? && Trim(config.terminal.localShell.value) == []
       case OutOfRange(FontSize) => !InRange(config.terminal.fontSizePx, 8.0, 32.0)
       case OutOfRange(LineHeight) => !InRange(config.terminal.lineHeightPx, 10.0, 40.0)
       case OutOfRange(RetentionDays) => !(1 <= config.logging.retentionDays <= 365)
       case OutOfRange(MaxBytes) => !(1024 <= config.logging.maxBytesPerSession <= 1024 * 1024 * 1024)
       case UnknownOpenVaultId(id) => id in config.vaults.openVaultIds && !KnownVault(config.vaults.entries, id)
       case UnknownDefaultVaultId(id) =>
         config.vaults.defaultTargetVaultId == Some(id) && !KnownVault(config.vaults.entries, id)
       case _ => false
  }

  // ---- The checks, as the code makes them ----

  method ValidateOverride(env: Env, binding: KeybindingOverride) returns (error: Option<ConfigError>)
    ensures error.None? <==> OverrideValid(env, binding)
    ensures error.Some? ==> match error.value
                            case InvalidKeybindingOverride(id) =>
                              id == binding.id && binding.disabled == binding.chord.Some?
                            case InvalidKeybindingChord(chord) =>
                              binding.chord == Some(chord) && !IsChord(env.platform, chord)
                            case _ => false
  {
    if binding.disabled && binding.chord.Some? {
      return Some(InvalidKeybindingOverride(binding.id));
    } else if binding.disabled {
      return None;
    } else if binding.chord.None? {
      return Some(InvalidKeybindingOverride(binding.id));
    } else {
      var ok := ValidateChordSyntax(env.platform, binding.chord.value);
      return if ok then None else Some(InvalidKeybindingChord(binding.chord.value));
    }
  }

  lemma BlankIsUnknown()
    ensures [] !in BUILTIN_KEYBINDING_IDS
  {
  }

  method ValidateOverrides(env: Env, overrides: seq<KeybindingOverride>) returns (error: Option<ConfigError>)
    ensures error.None? <==> OverridesValid(env, overrides)
    ensures error.Some? ==> OverrideErrorTrue(env, overrides, error.value)
  {
    BlankIsUnknown();
    var seen: set<string> := {};
    for i := 0 to |overrides|
      invariant OverridesValid(env, overrides[..i])
      invariant seen == set j | 0 <= j < i :: Trim(overrides[j].id)
    {
      var id := Trim(overrides[i].id);
      if id == [] {
        return Some(EmptyField(OverrideId));
      }
      if id !in BUILTIN_KEYBINDING_IDS {
        return Some(UnknownKeybindingId(id));
      }
      error := ValidateOverride(env, overrides[i]);
      if error.Some? {
        return;
      }
      if id in seen {
        return Some(DuplicateKeybindingOverrideId(id));
      }
      seen := seen + {id};
      assert overrides[..i + 1] == overrides[..i] + [overrides[i]];
    }
    assert overrides[..|overrides|] == overrides;
    error := None;
  }

  ghost function TriplesBefore(custom: seq<CustomKeybinding>, i: nat): set<(string, string, KeybindingContext)>
    requires i <= |custom|
  {
    set j | 0 <= j < i :: Triple(custom[j])
  }

  lemma CustomValidGrows(env: Env, custom: seq<CustomKeybinding>, i: nat)
    requires i < |custom| && CustomValid(env, custom[..i])
    requires CustomBindingValid(env, custom[i]) && Triple(custom[i]) !in TriplesBefore(custom, i)
    ensures CustomValid(env, custom[..i + 1])
    ensures TriplesBefore(custom, i + 1) == TriplesBefore(custom, i) + {Triple(custom[i])}
  {
    var grown := custom[..i + 1];
    assert forall j | 0 <= j < i :: grown[j] == custom[..i][j];
    forall j | 0 <= j <= i ensures CustomBindingValid(env, grown[j]) {
    }
    forall j, k | 0 <= j < k <= i ensures Triple(grown[j]) != Triple(grown[k]) {
      if k == i {
        assert Triple(custom[j]) in TriplesBefore(custom, i);
      } else {
        assert Triple(custom[..i][j]) != Triple(custom[..i][k]);
      }
    }
    TriplesGrow(custom, i);
  }

  lemma TriplesGrow(custom: seq<CustomKeybinding>, i: nat)
    requires i < |custom|
    ensures TriplesBefore(custom, i + 1) == TriplesBefore(custom, i) + {Triple(custom[i])}
  {
  }

  method ValidateCustom(env: Env, custom: seq<CustomKeybinding>) returns (error: Option<ConfigError>)
    ensures error.None? <==> CustomValid(env, custom)
    ensures error.Some? ==> CustomErrorTrue(env, custom, error.value)
  {
    var seen: set<(string, string, KeybindingContext)> := {};
    for i := 0 to |custom|
      invariant CustomValid(env, custom[..i])
      invariant seen == TriplesBefore(custom, i)
    {
      error := CheckCustom(env, custom[i], seen);
      if error.Some? {
        CheckedCustomError(env, custom, i, error.value, seen);
        return;
      }
      CustomValidGrows(env, custom, i);
      seen := seen + {Triple(custom[i])};
    }
    assert custom[..|custom|] == custom;
    error := None;
  }

  method CheckCustom(env: Env, binding: CustomKeybinding, seen: set<(string, string, KeybindingContext)>)
    returns (error: Option<ConfigError>)
    ensures error.None? <==> CustomBindingValid(env, binding) && Triple(binding) !in seen
    ensures error.Some? ==> CustomErrorAgainst(env, binding, seen, error.value)
  {
    BlankIsUnknown();
    var chord, command := Trim(binding.chord), Trim(binding.command);
    if chord == [] {
      return Some(EmptyField(CustomChord));
    }
    if command == [] {
      return Some(EmptyField(CustomCommand));
    }
    var ok := ValidateChordSyntax(env.platform, chord);
    if !ok {
      return Some(InvalidKeybindingChord(chord));
    }
    if command !in BUILTIN_KEYBINDING_IDS {
      return Some(UnknownKeybindingCommand(command));
    }
    var key := (chord, command, binding.context);
    if key in seen {
      return Some(DuplicateCustomKeybinding(key.0, key.1, key.2));
    }
    return None;
  }

  predicate CustomErrorAgainst(
    env: Env, binding: CustomKeybinding, seen: set<(string, string, KeybindingContext)>, error: ConfigError)
  {
    match error
    case EmptyField(CustomChord) => Trim(binding.chord) == []
    case EmptyField(CustomCommand) => Trim(binding.command) == []
    case InvalidKeybindingChord(chord) => Trim(binding.chord) == chord && !IsChord(env.platform, chord)
    case UnknownKeybindingCommand(command) => Trim(binding.command) == command && command !in BUILTIN_KEYBINDING_IDS
    case DuplicateCustomKeybinding(chord, command, context) =>
      Triple(binding) == (chord, command, context) && Triple(binding) in seen
    case _ => false
  }

  lemma CheckedCustomError(
    env: Env, custom: seq<CustomKeybinding>, i: nat, error: ConfigError, seen: set<(string, string, KeybindingContext)>)
    requires i < |custom| && CustomErrorAgainst(env, custom[i], seen, error)
    requires seen == TriplesBefore(custom, i)
    ensures CustomErrorTrue(env, custom, error) && !CustomValid(env, custom)
  {
    BlankIsUnknown();
    if error.DuplicateCustomKeybinding? {
      var j :| 0 <= j < i && Triple(custom[j]) == Triple(custom[i]);
    } else {
      assert !CustomBindingValid(env, custom[i]);
    }
  }

  method ValidateEntries(
    env: Env, entries: seq<VaultRegistryEntry>) returns (error: Option<ConfigError>, known: set<string>)
    ensures error.None? <==> EntriesValid(env, entries)
    ensures error.Some? ==> EntryErrorTrue(env, entries, error.value)
    ensures error.None? ==> forall id :: id in known <==> KnownVault(entries, id)
  {
    var seenIds: set<string>, seenNames: set<string>, seenDbFiles: set<string> := {}, {}, {};
    known := {};
    for i := 0 to |entries|
      invariant EntriesValid(env, entries[..i])
      invariant seenIds == known == set j | 0 <= j < i :: entries[j].id
      invariant seenNames == set j | 0 <= j < i :: env.lower(entries[j].name)
      invariant seenDbFiles == set j | 0 <= j < i :: entries[j].dbFile
    {
      var entry := entries[i];
      error := CheckEntry(env, entry, seenIds, seenNames, seenDbFiles);
      if error.Some? {
        CheckedEntryError(env, entries, i, error.value, seenIds, seenNames, seenDbFiles);
        return;
      }
      seenIds := seenIds + {entry.id};
      seenNames := seenNames + {env.lower(entry.name)};
      seenDbFiles := seenDbFiles + {entry.dbFile};
      known := known + {entry.id};
      assert entries[..i + 1] == entries[..i] + [entry];
    }
    assert entries[..|entries|] == entries;
    error := None;
  }

  method CheckEntry(env: Env, entry: VaultRegistryEntry, ids: set<string>, names: set<string>, dbFiles: set<string>)
    returns (error: Option<ConfigError>)
    ensures error.None? <==>
              EntryValid(entry) && entry.id !in ids && env.lower(entry.name) !in names && entry.dbFile !in dbFiles
    ensures error.Some? ==> EntryErrorAgainst(env, entry, ids, names, dbFiles, error.value)
  {
    if entry.id == [] {
      return Some(EmptyField(VaultId));
    }
    if entry.name == [] {
      return Some(EmptyField(VaultName));
    }
    if entry.dbFile == [] {
      return Some(EmptyField(VaultDbFile));
    }
    if entry.id in ids {
      return Some(DuplicateVaultId(entry.id));
    }
    if env.lower(entry.name) in names {
      return Some(DuplicateVaultName(entry.name));
    }
    if entry.dbFile in dbFiles {
      return Some(DuplicateVaultDbFile(entry.dbFile));
    }
    return None;
  }

  predicate EntryErrorAgainst(
    env: Env, entry: VaultRegistryEntry, ids: set<string>, names: set<string>, dbFiles: set<string>, error: ConfigError)
  {
    match error
    case EmptyField(VaultId) => entry.id == []
    case EmptyField(VaultName) => entry.name == []
    case EmptyField(VaultDbFile) => entry.dbFile == []
    case DuplicateVaultId(id) => entry.id == id && id in ids
    case DuplicateVaultName(name) => entry.name == name && env.lower(name) in names
    case DuplicateVaultDbFile(dbFile) => entry.dbFile == dbFile && dbFile in dbFiles
    case _ => false
  }

  /** An error found against the values seen so far is true of the whole list, which is then not valid. */
  lemma CheckedEntryError(
    env: Env, entries: seq<VaultRegistryEntry>, i: nat, error: ConfigError,
    ids: set<string>, names: set<string>, dbFiles: set<string>)
    requires i < |entries| && EntryErrorAgainst(env, entries[i], ids, names, dbFiles, error)
    requires ids == set j | 0 <= j < i :: entries[j].id
    requires names == set j | 0 <= j < i :: env.lower(entries[j].name)
    requires dbFiles == set j | 0 <= j < i :: entries[j].dbFile
    ensures EntryErrorTrue(env, entries, error) && !EntriesValid(env, entries)
  {
    var entry := entries[i];
    if error.DuplicateVaultId? {
      var j :| 0 <= j < i && entries[j].id == entry.id;
      assert !EntriesApart(env, entries[j], entry);
    } else if error.DuplicateVaultName? {
      var j :| 0 <= j < i && env.lower(entries[j].name) == env.lower(entry.name);
      assert !EntriesApart(env, entries[j], entry);
    } else if error.DuplicateVaultDbFile? {
      var j :| 0 <= j < i && entries[j].dbFile == entry.dbFile;
      assert !EntriesApart(env, entries[j], entry);
    }
  }

  method ValidateVaults(env: Env, vaults: VaultRegistryConfig) returns (error: Option<ConfigError>)
    ensures error.None? <==> VaultsValid(env, vaults)
    ensures error.Some? ==>
              || EntryErrorTrue(env, vaults.entries, error.value)
              || (error.value.UnknownOpenVaultId? && error.value.id in vaults.openVaultIds
                  && !KnownVault(vaults.entries, error.value.id))
              || (error.value.UnknownDefaultVaultId? && vaults.defaultTargetVaultId == Some(error.value.id)
                  && !KnownVault(vaults.entries, error.value.id))
  {
    var known;
    error, known := ValidateEntries(env, vaults.entries);
    if error.Some? {
      return;
    }
    for i := 0 to |vaults.openVaultIds|
      invariant forall j | 0 <= j < i :: KnownVault(vaults.entries, vaults.openVaultIds[j])
    {
      if vaults.openVaultIds[i] !in known {
        return Some(UnknownOpenVaultId(vaults.openVaultIds[i]));
      }
    }
    if vaults.defaultTargetVaultId.Some? && vaults.defaultTargetVaultId.value !in known {
      return Some(UnknownDefaultVaultId(vaults.defaultTargetVaultId.value));
    }
    error := None;
  }

  method ValidateScalars(config: AppConfig) returns (error: Option<ConfigError>)
    ensures error.None? <==>
              config.theme in SUPPORTED_THEME_KEYS && TerminalValid(config.terminal) && LoggingValid(config.logging)
    ensures error.Some? ==> forall env :: ErrorTrue(env, config, error.value)
  {
    if config.theme !in SUPPORTED_THEME_KEYS {
      return Some(InvalidTheme(config.theme));
    }
    if Trim(config.terminal.fontFamily) == [] {
      return Some(EmptyField(FontFamily));
    }
    if !InRange(config.terminal.fontSizePx, 8.0, 32.0) {
      return Some(OutOfRange(FontSize));
    }
    if !InRange(config.terminal.lineHeightPx, 10.0, 40.0) {
      return Some(OutOfRange(LineHeight));
    }
    if config.terminal.localShell.Some? && Trim(config.terminal.localShell.value) == [] {
      return Some(EmptyField(LocalShell));
    }
    if !(1 <= config.logging.retentionDays <= 365) {
      return Some(OutOfRange(RetentionDays));
    }
    if !(1024 <= config.logging.maxBytesPerSession <= 1024 * 1024 * 1024) {
      return Some(OutOfRange(MaxBytes));
    }
    return None;
  }

  /** Validation succeeds exactly on valid configurations, and an error it reports is true. */
  method Validate(env: Env, config: AppConfig) returns (error: Option<ConfigError>)
    ensures error.None? <==> ConfigValid(env, config)
    ensures error.Some? ==> ErrorTrue(env, config, error.value)
  {
    error := ValidateScalars(config);
    if error.Some? { return; }
    error := ValidateOverrides(env, config.overrides);
    if error.Some? { return; }
    error := ValidateCustom(env, config.custom);
    if error.Some? { return; }
    error := ValidateVaults(env, config.vaults);
  }

  /** The defaults pass every check and are already normalised. */
  lemma DefaultsAreValid(env: Env)
    ensures IsNormalized(DEFAULT_CONFIG) && ConfigValid(env, DEFAULT_CONFIG)
  {
    TrimIsTrimmed("Menlo");
  }
}
