/** What repairs the index after a late failure: host by host, what the last operation on it made of it. */
module IndexRepair {
  import opened Text
  import opened ConfigModel
  import opened ConfigValidation
  import opened AuthReferences
  import opened VaultModel
  import opened IndexAgreement

  /** The index is right about one host: it has an entry exactly if a scan would find it, and one that fits. */
  ghost predicate RightAt(s: State, scope: Scope) {
    && (scope in s.index <==> Visible(s, scope))
    && (scope in s.index && Visible(s, scope) ==> EntryFits(s.index[scope], scope.0, HostAt(s, scope)))
  }

  lemma AgreesIffRight(s: State)
    requires HostsKeyed(s.vaults)
    ensures Agrees(s) <==> AllRight(s)
  {
    if Agrees(s) {
      forall scope: Scope ensures RightAt(s, scope) {
      }
    }
    if AllRight(s) {
      forall scope: Scope
        ensures scope in s.index <==> Visible(s, scope)
        ensures scope in s.index && Visible(s, scope) ==> EntryFits(s.index[scope], scope.0, HostAt(s, scope))
      {
        assert RightAt(s, scope);
      }
    }
  }

  /** No entry is left of a vault that is not unlocked. */
  ghost predicate OnlyUnlocked(s: State) {
    forall scope: Scope | scope in s.index :: scope.0 in s.vaults && s.vaults[scope.0].access.Unlocked?
  }

  ghost predicate Ready(s: State) {
    HostsKeyed(s.vaults) && OnlyUnlocked(s)
  }

  // ---- Which operations decide about a host ----

  /** The operation changes whether the host can be seen, the host itself, or its entry. */
  ghost predicate Decides(env: Env, s: State, op: Op, scope: Scope) {
    match op
    case Bootstrap(_, _, _) => true
    case Create(id, _, _, _, _) => id == scope.0 && CreateAccepted(env, s, op)
    case Close(id, _) => id == scope.0 && id in s.vaults
    case Unlock(id, openOk, persistOk, unlockOk, _) =>
      id == scope.0 && OpenSucceeds(env, s, id, openOk, persistOk) && unlockOk
    case DeviceUnlock(id, openOk, persistOk, outcome, _) =>
      && id == scope.0 && OpenSucceeds(env, s, id, openOk, persistOk)
      && (outcome.Granted? || (outcome.FailedLate? && !s.vaults[id].access.Unlocked?))
    case Lock(id) => id == scope.0 && id in s.vaults && !s.vaults[id].access.Closed?
    case Delete(id, _) => id == scope.0 && id in s.vaults && !s.vaults[id].access.Unlocked?
    case SaveHost(id, host, saved) =>
      (id, host.hostId) == scope && id in s.vaults && s.vaults[id].access.Unlocked? && !saved.Refused?
    case DeleteHost(id, hostId, storeOk) =>
      && (id, hostId) == scope && id in s.vaults && !s.vaults[id].access.Closed?
      && hostId in s.vaults[id].hosts && storeOk
    case SaveOther(id, recordId, storeOk) =>
      (id, recordId) == scope && id in s.vaults && s.vaults[id].access.Unlocked? && storeOk
    case _ => false
  }

  /** What it makes of it: right, unless it failed late and there was something to see. */
  ghost predicate ComesOutRight(s: State, op: Op, scope: Scope) {
    match op
    case Bootstrap(order, unlockable, unlistable) =>
      var vaults := BootVaults(s.vaults, unlockable);
      InView(vaults, scope) ==> scope.0 in Reached(vaults, order, unlistable)
    case Unlock(id, _, _, _, listOk) => listOk || (id in s.vaults && scope.1 !in s.vaults[id].hosts)
    case DeviceUnlock(id, _, _, outcome, listOk) =>
      (outcome.Granted? && listOk) || (id in s.vaults && scope.1 !in s.vaults[id].hosts)
    case SaveHost(id, host, saved) =>
      saved.Saved? || (scope in s.index && EntryFits(s.index[scope], id, host))
    case SaveOther(_, _, _) => scope !in s.index
    case _ => true
  }

  // ---- One operation ----

  lemma OpenRight(env: Env, s: State, id: string, openOk: bool, persistOk: bool, scope: Scope)
    requires Ready(s)
    ensures var s' := OpenStep(env, s, id, openOk, persistOk); Ready(s') && (RightAt(s', scope) <==> RightAt(s, scope))
  {
    OpenShape(env, s, id, openOk, persistOk);
    OpenedHosts(env, s, id, openOk, persistOk);
    var s' := OpenStep(env, s, id, openOk, persistOk);
    assert Visible(s', scope) <==> Visible(s, scope);
  }

  lemma UnlockedRight(s: State, id: string, listOk: bool, scope: Scope)
    requires Ready(s) && id in s.vaults
    ensures var s' := UnlockedStep(s, id, listOk);
            RightAt(s', scope) <==> if scope.0 == id then listOk || scope.1 !in s.vaults[id].hosts
                else RightAt(s, scope)
  {
    var s' := UnlockedStep(s, id, listOk);
    VaultEntriesAt(id, s'.vaults[id], scope);
    if scope.0 == id && scope.1 in s.vaults[id].hosts {
      EntryOfIsEntry(id, s'.vaults[id].entry.name, s'.vaults[id].hosts[scope.1]);
    }
  }

  lemma LateRight(s: State, id: string, scope: Scope)
    requires Ready(s) && id in s.vaults && !s.vaults[id].access.Unlocked?
    ensures var s' := s.(vaults := WithAccess(s, id, Unlocked));
            RightAt(s', scope) <==> if scope.0 == id then scope.1 !in s.vaults[id].hosts else RightAt(s, scope)
  {
  }

  lemma UnlockRight(env: Env, s: State, op: Op, scope: Scope)
    requires Ready(s) && op.Unlock?
    ensures RightAt(Step(env, s, op), scope)
            <==> if Decides(env, s, op, scope) then ComesOutRight(s, op, scope) else RightAt(s, scope)
  {
    var after := OpenStep(env, s, op.id, op.openOk, op.persistOk);
    OpenRight(env, s, op.id, op.openOk, op.persistOk, scope);
    if OpenSucceeds(env, s, op.id, op.openOk, op.persistOk) {
      OpenKeepsVault(env, s, op.id, op.openOk, op.persistOk);
      UnlockedRight(after, op.id, op.listOk, scope);
    }
  }

  lemma DeviceUnlockRight(env: Env, s: State, op: Op, scope: Scope)
    requires Ready(s) && op.DeviceUnlock?
    ensures RightAt(Step(env, s, op), scope)
            <==> if Decides(env, s, op, scope) then ComesOutRight(s, op, scope) else RightAt(s, scope)
  {
    var after := OpenStep(env, s, op.id, op.openOk, op.persistOk);
    OpenRight(env, s, op.id, op.openOk, op.persistOk, scope);
    if OpenSucceeds(env, s, op.id, op.openOk, op.persistOk) {
      OpenKeepsVault(env, s, op.id, op.openOk, op.persistOk);
      DeviceOutcomeRight(after, op.id, op.outcome, op.listOk, scope);
    }
  }

  lemma DeviceOutcomeRight(s: State, id: string, outcome: DeviceOutcome, listOk: bool, scope: Scope)
    requires Ready(s) && id in s.vaults
    ensures RightAt(DeviceOutcomeStep(s, id, outcome, listOk), scope)
            <==> if scope.0 == id && (outcome.Granted? || (outcome.FailedLate? && !s.vaults[id].access.Unlocked?))
                 then (outcome.Granted? && listOk) || scope.1 !in s.vaults[id].hosts
                 else RightAt(s, scope)
  {
    if outcome.Granted? {
      UnlockedRight(s, id, listOk, scope);
    } else if outcome.FailedLate? {
      if s.vaults[id].access.Unlocked? {
        assert WithAccess(s, id, Unlocked) == s.vaults;
      } else {
        LateRight(s, id, scope);
      }
    }
  }

  lemma BootstrapRight(env: Env, s: State, op: Op, scope: Scope)
    requires Ready(s) && op.Bootstrap?
    ensures RightAt(Step(env, s, op), scope) <==> ComesOutRight(s, op, scope)
  {
    var vaults := BootVaults(s.vaults, op.unlockable);
    var s', reached := BootstrapStep(s, op.order, op.unlockable, op.unlistable),
        Reached(vaults, op.order, op.unlistable);
    RebuildSomeAt(vaults, reached, scope);
    if Visible(s', scope) {
      EntryOfIsEntry(scope.0, vaults[scope.0].entry.name, HostAt(s', scope));
    }
  }

  lemma WithdrawalRight(env: Env, s: State, op: Op, scope: Scope)
    requires Ready(s) && (op.Close? || op.Lock? || op.Delete?)
    ensures RightAt(Step(env, s, op), scope) <==> Decides(env, s, op, scope) || RightAt(s, scope)
  {
  }

  lemma CreateRight(env: Env, s: State, op: Op, scope: Scope)
    requires Ready(s) && op.Create?
    ensures RightAt(Step(env, s, op), scope) <==> Decides(env, s, op, scope) || RightAt(s, scope)
  {
    if CreateAccepted(env, s, op) {
      NewVaultRight(s, CreateStep(env, s, op), op.id, NewEntry(op.id, op.name, op.now), scope);
    }
  }

  lemma NewVaultRight(s: State, s': State, id: string, entry: VaultRegistryEntry, scope: Scope)
    requires OnlyUnlocked(s) && id !in s.vaults
    requires s'.vaults == s.vaults[id := ManagedVault(entry, Unlocked, map[])]
    requires s'.index == Rebuild(s.index, s'.vaults, id)
    ensures RightAt(s', scope) <==> scope.0 == id || RightAt(s, scope)
  {
    VaultEntriesAt(id, s'.vaults[id], scope);
  }

  lemma SettingsRight(env: Env, s: State, op: Op, scope: Scope)
    requires Ready(s) && (op.Rename? || op.SetDefault?)
    ensures RightAt(Step(env, s, op), scope) <==> RightAt(s, scope)
  {
  }

  lemma HostRight(env: Env, s: State, op: Op, scope: Scope)
    requires Ready(s) && (op.SaveHost? || op.DeleteHost? || op.SaveOther?)
    ensures RightAt(Step(env, s, op), scope)
            <==> if Decides(env, s, op, scope) then ComesOutRight(s, op, scope) else RightAt(s, scope)
  {
    if op.SaveHost? && op.id in s.vaults {
      EntryOfIsEntry(op.id, s.vaults[op.id].entry.name, op.host);
    }
  }

  /** After an operation the index is right about a host exactly if the operation came out right, or left it alone. */
  lemma RightStep(env: Env, s: State, op: Op, scope: Scope)
    requires Ready(s)
    ensures RightAt(Step(env, s, op), scope)
            <==> if Decides(env, s, op, scope) then ComesOutRight(s, op, scope) else RightAt(s, scope)
  {
    match op {
      case Bootstrap(_, _, _) => BootstrapRight(env, s, op, scope);
      case Create(_, _, _, _, _) => CreateRight(env, s, op, scope);
      case Rename(_, _, _, _) => SettingsRight(env, s, op, scope);
      case Open(id, openOk, persistOk) => OpenRight(env, s, id, openOk, persistOk, scope);
      case Close(_, _) => WithdrawalRight(env, s, op, scope);
      case Unlock(_, _, _, _, _) => UnlockRight(env, s, op, scope);
      case DeviceUnlock(_, _, _, _, _) => DeviceUnlockRight(env, s, op, scope);
      case Lock(_) => WithdrawalRight(env, s, op, scope);
      case Delete(_, _) => WithdrawalRight(env, s, op, scope);
      case SetDefault(_, _) => SettingsRight(env, s, op, scope);
      case SaveHost(_, _, _) => HostRight(env, s, op, scope);
      case DeleteHost(_, _, _) => HostRight(env, s, op, scope);
      case SaveOther(_, _, _) => HostRight(env, s, op, scope);
    }
  }

  // ---- Runs ----

  lemma UnlockedStaysOnly(s: State, id: string, listOk: bool)
    requires OnlyUnlocked(s) && id in s.vaults
    ensures OnlyUnlocked(UnlockedStep(s, id, listOk)) && OnlyUnlocked(s.(vaults := WithAccess(s, id, Unlocked)))
  {
    var s' := UnlockedStep(s, id, listOk);
    forall scope: Scope | scope in s'.index ensures scope.0 in s'.vaults && s'.vaults[scope.0].access.Unlocked? {
      VaultEntriesAt(id, s'.vaults[id], scope);
    }
  }

  lemma OpenStaysOnly(env: Env, s: State, op: Op)
    requires OnlyUnlocked(s) && (op.Open? || op.Unlock? || op.DeviceUnlock?)
    ensures OnlyUnlocked(Step(env, s, op))
  {
    OpenShape(env, s, op.id, op.openOk, op.persistOk);
    var after := OpenStep(env, s, op.id, op.openOk, op.persistOk);
    assert OnlyUnlocked(after);
    if !op.Open? && OpenSucceeds(env, s, op.id, op.openOk, op.persistOk) {
      UnlockedStaysOnly(after, op.id, op.listOk);
    }
  }

  lemma BootStaysOnly(env: Env, s: State, op: Op)
    requires op.Bootstrap?
    ensures OnlyUnlocked(Step(env, s, op))
  {
    var s' := Step(env, s, op);
    forall scope: Scope | scope in s'.index ensures scope.0 in s'.vaults && s'.vaults[scope.0].access.Unlocked? {
      RebuildSomeAt(s'.vaults, Reached(s'.vaults, op.order, op.unlistable), scope);
    }
  }

  lemma CreateStaysOnly(env: Env, s: State, op: Op)
    requires OnlyUnlocked(s) && op.Create?
    ensures OnlyUnlocked(Step(env, s, op))
  {
    if CreateAccepted(env, s, op) {
      var s' := CreateStep(env, s, op);
      forall scope: Scope | scope in s'.index ensures scope.0 in s'.vaults && s'.vaults[scope.0].access.Unlocked? {
        VaultEntriesAt(op.id, s'.vaults[op.id], scope);
      }
    }
  }

  lemma OtherStaysOnly(env: Env, s: State, op: Op)
    requires OnlyUnlocked(s)
    requires op.Rename? || op.SetDefault? || op.Close? || op.Lock? || op.Delete?
    ensures OnlyUnlocked(Step(env, s, op))
  {
  }

  lemma HostStaysOnly(env: Env, s: State, op: Op)
    requires OnlyUnlocked(s) && (op.SaveHost? || op.DeleteHost? || op.SaveOther?)
    ensures OnlyUnlocked(Step(env, s, op))
  {
  }

  lemma ReadyStep(env: Env, s: State, op: Op)
    requires Ready(s)
    ensures Ready(Step(env, s, op))
  {
    HostsStayKeyed(env, s, op);
    if op.Open? || op.Unlock? || op.DeviceUnlock? {
      OpenStaysOnly(env, s, op);
    } else if op.Bootstrap? {
      BootStaysOnly(env, s, op);
    } else if op.Create? {
      CreateStaysOnly(env, s, op);
    } else if op.SaveHost? || op.DeleteHost? || op.SaveOther? {
      HostStaysOnly(env, s, op);
    } else {
      OtherStaysOnly(env, s, op);
    }
  }

  lemma {:induction false} ReadyRun(env: Env, s: State, ops: seq<Op>)
    requires Ready(s)
    ensures Ready(RunFrom(env, s, ops))
  {
    if ops != [] {
      ReadyRun(env, s, ops[..|ops| - 1]);
      ReadyStep(env, RunFrom(env, s, ops[..|ops| - 1]), ops[|ops| - 1]);
    }
  }

  /** The last operation of the run that decided about the host, if any did, came out right. */
  ghost predicate LastCameOutRight(env: Env, s: State, ops: seq<Op>, scope: Scope) {
    ops != [] ==>
      var before, op := RunFrom(env, s, ops[..|ops| - 1]), ops[|ops| - 1];
      if Decides(env, before, op, scope) then ComesOutRight(before, op, scope)
      else LastCameOutRight(env, s, ops[..|ops| - 1], scope)
  }

  lemma {:induction false} RightOverRuns(env: Env, s: State, ops: seq<Op>, scope: Scope)
    requires Ready(s) && RightAt(s, scope)
    ensures RightAt(RunFrom(env, s, ops), scope) <==> LastCameOutRight(env, s, ops, scope)
  {
    if ops != [] {
      RightOverRuns(env, s, ops[..|ops| - 1], scope);
      ReadyRun(env, s, ops[..|ops| - 1]);
      RightStep(env, RunFrom(env, s, ops[..|ops| - 1]), ops[|ops| - 1], scope);
    }
  }

  /**
   From start-up, over every run whatever, late failures included: in the end the index agrees with a
   scan exactly if for every host the last operation that decided about it came out right. An unlock,
   a lock, a close or a new bootstrap so repairs what failed before.
   */
  lemma AgreesIffLastCameOutRight(env: Env, s: State, config: AppConfig, ops: seq<Op>)
    requires LoadedFrom(s, config)
    ensures Agrees(RunFrom(env, s, ops)) <==> AllLastRight(env, s, ops)
  {
    LoadedReady(s, config);
    ReadyRun(env, s, ops);
    AgreesIffRight(RunFrom(env, s, ops));
    AllRightIff(env, s, ops);
  }

  lemma LoadedReady(s: State, config: AppConfig)
    requires LoadedFrom(s, config)
    ensures Ready(s) && AllRight(s)
  {
    LoadedAgrees(s, config);
    AgreesIffRight(s);
  }

  ghost predicate AllRight(s: State) {
    forall scope: Scope :: RightAt(s, scope)
  }

  ghost predicate AllLastRight(env: Env, s: State, ops: seq<Op>) {
    forall scope: Scope :: LastCameOutRight(env, s, ops, scope)
  }

  lemma RightIfLastRight(env: Env, s: State, ops: seq<Op>, scope: Scope)
    requires Ready(s) && AllRight(s) && AllLastRight(env, s, ops)
    ensures RightAt(RunFrom(env, s, ops), scope)
  {
    assert RightAt(s, scope) && LastCameOutRight(env, s, ops, scope);
    RightOverRuns(env, s, ops, scope);
  }

  lemma LastRightIfRight(env: Env, s: State, ops: seq<Op>, scope: Scope)
    requires Ready(s) && AllRight(s) && AllRight(RunFrom(env, s, ops))
    ensures LastCameOutRight(env, s, ops, scope)
  {
    assert RightAt(s, scope) && RightAt(RunFrom(env, s, ops), scope);
    RightOverRuns(env, s, ops, scope);
  }

  lemma AllRightIff(env: Env, s: State, ops: seq<Op>)
    requires Ready(s) && AllRight(s)
    ensures AllRight(RunFrom(env, s, ops)) <==> AllLastRight(env, s, ops)
  {
    if AllLastRight(env, s, ops) {
      forall scope: Scope ensures RightAt(RunFrom(env, s, ops), scope) {
        RightIfLastRight(env, s, ops, scope);
      }
    }
    if AllRight(RunFrom(env, s, ops)) {
      forall scope: Scope ensures LastCameOutRight(env, s, ops, scope) {
        LastRightIfRight(env, s, ops, scope);
      }
    }
  }

  // ---- A whole bootstrap ----

  lemma {:induction false} ReachedWhole(vaults: map<string, ManagedVault>, order: seq<string>)
    ensures forall id :: id in Reached(vaults, order, {}) <==> id in order
  {
    if order != [] {
      ReachedWhole(vaults, order[1..]);
      assert order == [order[0]] + order[1..];
    }
  }

  /** A bootstrap that goes through all vaults and can list them all leaves nothing out, whatever came before. */
  lemma WholeBootstrapAgrees(env: Env, s: State, order: seq<string>, unlockable: set<string>)
    requires HostsKeyed(s.vaults) && forall id | id in s.vaults :: id in order
    ensures !LeavesUnindexed(env, s, Bootstrap(order, unlockable, {}))
    ensures Agrees(Step(env, s, Bootstrap(order, unlockable, {})))
  {
    ReachedWhole(BootVaults(s.vaults, unlockable), order);
    BootstrapAgrees(s, order, unlockable, {});
  }
}
