/** The configuration store: what it holds is always normalised and valid. */
module ConfigStore {
  import opened Text
  import opened ConfigModel
  import opened ConfigValidation

  /** The config file; reading back what was written gives the value written. */
  datatype File = Missing | Unreadable | Unparsable | Holds(config: AppConfig)

  datatype StoreError = ReadFailed | ParseFailed | WriteFailed | Rejected(error: ConfigError)

  ghost predicate Acceptable(env: Env, config: AppConfig) {
    IsNormalized(config) && ConfigValid(env, config)
  }

  ghost predicate Loadable(env: Env, file: File) {
    file.Missing? || (file.Holds? && ConfigValid(env, Normalize(file.config)))
  }

  function Loaded(file: File): AppConfig {
    if file.Holds? then Normalize(file.config) else DEFAULT_CONFIG
  }

  datatype State = State(config: AppConfig, file: File)

  datatype Op =
    | Replace(config: AppConfig, persistOk: bool)
    | Update(change: AppConfig -> AppConfig, persistOk: bool)

  /** Opening falls back to the defaults when the file cannot be used. */
  ghost function Open(env: Env, file: File): State {
    State(if Loadable(env, file) then Loaded(file) else DEFAULT_CONFIG, file)
  }

  ghost predicate Succeeds(env: Env, s: State, op: Op) {
    ConfigValid(env, Normalize(Proposed(s, op))) && op.persistOk
  }

  function Proposed(s: State, op: Op): AppConfig {
    match op
    case Replace(config, _) => config
    case Update(change, _) => change(s.config)
  }

  ghost function Step(env: Env, s: State, op: Op): State {
    if Succeeds(env, s, op) then
      State(Normalize(Proposed(s, op)), Holds(Normalize(Proposed(s, op))))
    else s
  }

  ghost function Run(env: Env, file: File, ops: seq<Op>): State {
    if ops == [] then Open(env, file) else Step(env, Run(env, file, ops[..|ops| - 1]), ops[|ops| - 1])
  }

  /** Whatever the file held and whatever was asked of it, the store holds an acceptable value. */
  lemma {:induction false} StoreStaysAcceptable(env: Env, file: File, ops: seq<Op>)
    ensures Acceptable(env, Run(env, file, ops).config)
  {
    if ops == [] {
      DefaultsAreValid(env);
      if file.Holds? { NormalizeNormalizes(file.config); }
    } else {
      var s := Run(env, file, ops[..|ops| - 1]);
      StoreStaysAcceptable(env, file, ops[..|ops| - 1]);
      NormalizeNormalizes(Proposed(s, ops[|ops| - 1]));
    }
  }

  /** After any successful change, opening the file again gives exactly the store's value. */
  lemma ReopeningRestores(env: Env, file: File, ops: seq<Op>, op: Op)
    requires Succeeds(env, Run(env, file, ops), op)
    ensures var s := Step(env, Run(env, file, ops), op);
            Open(env, s.file) == s
  {
    NormalizeIsIdempotent(Proposed(Run(env, file, ops), op));
  }

  /** A change is taken exactly if it is valid once normalised and can be written; then file and store hold it alike. */
  lemma ChangeEffect(env: Env, s: State, op: Op)
    ensures var wanted := Normalize(if op.Replace? then op.config else op.change(s.config));
            Step(env, s, op) == if ConfigValid(env, wanted) && op.persistOk then State(wanted, Holds(wanted)) else s
  {
  }

  /** An update that changes nothing succeeds whenever the write does. */
  lemma IdentityUpdateIsAccepted(env: Env, file: File, ops: seq<Op>)
    ensures var s := Run(env, file, ops);
            var op := Update((c: AppConfig) => c, true);
            Succeeds(env, s, op) && Step(env, s, op).config == s.config
  {
    StoreStaysAcceptable(env, file, ops);
    NormalizeNormalizes(Run(env, file, ops).config);
  }

  class Store {
    const env: Env
    var config: AppConfig
    var file: File

    ghost predicate Valid()
      reads this
    {
      Acceptable(env, config)
    }

    constructor WithDefaults(env: Env, file: File)
      ensures Valid() && this.env == env && config == DEFAULT_CONFIG && this.file == file
    {
      this.env, this.config, this.file := env, DEFAULT_CONFIG, file;
      DefaultsAreValid(env);
    }

    static method LoadOrDefault(env: Env, file: File) returns (error: Option<StoreError>, config: AppConfig)
      ensures error.None? <==> Loadable(env, file)
      ensures error.None? ==> config == Loaded(file) && Acceptable(env, config)
      ensures error == Some(ReadFailed) <==> file.Unreadable?
      ensures error == Some(ParseFailed) <==> file.Unparsable?
      ensures error.Some? && error.value.Rejected? ==>
              file.Holds? && ErrorTrue(env, Normalize(file.config), error.value.error)
    {
      DefaultsAreValid(env);
      config := DEFAULT_CONFIG;
      match file {
        case Missing => error := None;
        case Unreadable => error := Some(ReadFailed);
        case Unparsable => error := Some(ParseFailed);
        case Holds(parsed) =>
          var normalized := Normalized(parsed);
          NormalizeNormalizes(parsed);
          var rejected := Validate(env, normalized);
          if rejected.Some? {
            error := Some(Rejected(rejected.value));
          } else {
            error, config := None, normalized;
          }
      }
    }

    /** The new value is normalised, validated and written before it is kept; otherwise nothing changes. */
    method Replace(next: AppConfig, persistOk: bool) returns (error: Option<StoreError>)
      requires Valid()
      modifies this
      ensures Valid()
      ensures State(config, file) == Step(env, old(State(config, file)), Op.Replace(next, persistOk))
      ensures error.None? <==> Succeeds(env, old(State(config, file)), Op.Replace(next, persistOk))
      ensures error.Some? ==> unchanged(this)
      ensures error.Some? && error.value.Rejected? ==> ErrorTrue(env, Normalize(next), error.value.error)
    {
      var normalized := Normalized(next);
      NormalizeNormalizes(next);
      var rejected := Validate(env, normalized);
      if rejected.Some? {
        return Some(Rejected(rejected.value));
      }
      if !persistOk {
        return Some(WriteFailed);
      }
      file := Holds(normalized);
      config := normalized;
      return None;
    }

    method Update(change: AppConfig -> AppConfig, persistOk: bool) returns (error: Option<StoreError>)
      requires Valid()
      modifies this
      ensures Valid()
      ensures State(config, file) == Step(env, old(State(config, file)), Op.Update(change, persistOk))
      ensures error.None? <==> Succeeds(env, old(State(config, file)), Op.Update(change, persistOk))
      ensures error.Some? ==> unchanged(this)
    {
      var next := change(config);
      error := Replace(next, persistOk);
    }
  }
}
