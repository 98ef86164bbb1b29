/** The index agrees with a full scan of the unlocked vaults, over every run of vault operations. */
module IndexAgreement {
  import opened Text
  import opened Sorting
  import opened ConfigModel
  import opened ConfigValidation
  import opened AuthReferences
  import opened VaultModel

  /** A host that a scan of the unlocked vaults would find. */
  predicate Visible(s: State, scope: Scope) {
    InView(s.vaults, scope)
  }

  function HostAt(s: State, scope: Scope): HostAuthSummary
    requires Visible(s, scope)
  {
    s.vaults[scope.0].hosts[scope.1]
  }

  /** The entry is the host's, apart from the vault name it was made under. */
  ghost predicate EntryFits(entry: IndexedHost, vaultId: string, host: HostAuthSummary) {
    IsEntry(entry, vaultId, entry.hostReference.vaultName, host)
  }

  /** The index holds the visible hosts, all of them and no others, as they now are. */
  ghost predicate Agrees(s: State) {
    && (forall scope: Scope :: scope in s.index <==> Visible(s, scope))
    && (forall scope: Scope | scope in s.index
        && Visible(s, scope) :: EntryFits(s.index[scope], scope.0, HostAt(s, scope)))
    && HostsKeyed(s.vaults)
  }

  /** As far as the index can tell, the same host. */
  ghost predicate SameReferences(a: HostAuthSummary, b: HostAuthSummary) {
    && a.hostLabel == b.hostLabel
    && MentionedKeys(a.authOrder) == MentionedKeys(b.authOrder)
    && MentionedCredentials(a.authOrder) == MentionedCredentials(b.authOrder)
  }

  predicate HasHosts(s: State, id: string) {
    id in s.vaults && s.vaults[id].hosts != map[]
  }

  /** An unlocked vault with hosts that a bootstrap does not come to. */
  ghost predicate Missed(vaults: map<string, ManagedVault>, reached: set<string>) {
    exists id | id in vaults :: vaults[id].access.Unlocked? && vaults[id].hosts != map[] && id !in reached
  }

  /**
   The failures that come after the effect and before the index is brought up to date: hosts that
   cannot be listed, a device unlock that cannot note its use, a saved host that cannot be read back;
   and a record of another kind that replaces a host.
   */
  ghost predicate LeavesUnindexed(env: Env, s: State, op: Op) {
    match op
    case Bootstrap(order, unlockable, unlistable) =>
      var vaults := BootVaults(s.vaults, unlockable); Missed(vaults, Reached(vaults, order, unlistable))
    case Unlock(id, openOk, persistOk, unlockOk, listOk) =>
      OpenSucceeds(env, s, id, openOk, persistOk) && unlockOk && !listOk && HasHosts(s, id)
    case DeviceUnlock(id, openOk, persistOk, outcome, listOk) =>
      && OpenSucceeds(env, s, id, openOk, persistOk) && HasHosts(s, id)
      && ((outcome.Granted? && !listOk) || (outcome.FailedLate? && !s.vaults[id].access.Unlocked?))
    case SaveHost(id, host, saved) =>
      && saved.StoredUnread? && id in s.vaults && s.vaults[id].access.Unlocked?
      && !(host.hostId in s.vaults[id].hosts && SameReferences(s.vaults[id].hosts[host.hostId], host))
    case SaveOther(id, recordId, storeOk) =>
      storeOk && id in s.vaults && s.vaults[id].access.Unlocked? && recordId in s.vaults[id].hosts
    case _ => false
  }

  lemma RebuildAgrees(s: State, vaults: map<string, ManagedVault>, id: string)
    requires Agrees(s) && id in vaults && HostsKeyed(vaults)
    requires forall v | v != id :: (v in vaults) == (v in s.vaults)
    requires forall v | v != id && v in vaults :: vaults[v] == s.vaults[v]
    ensures Agrees(s.(vaults := vaults, index := Rebuild(s.index, vaults, id)))
  {
    var index := Rebuild(s.index, vaults, id);
    var s' := s.(vaults := vaults, index := index);
    forall scope: Scope
      ensures scope in index <==> Visible(s', scope)
      ensures scope in index && Visible(s', scope) ==> EntryFits(index[scope], scope.0, HostAt(s', scope))
    {
      VaultEntriesAt(id, vaults[id], scope);
      if scope.0 == id {
        if Visible(s', scope) {
          EntryOfIsEntry(id, vaults[id].entry.name, vaults[id].hosts[scope.1]);
        }
      } else {
        assert Visible(s', scope) <==> Visible(s, scope);
      }
    }
  }

  /** A vault that leaves the unlocked ones leaves the index. */
  lemma DropAgrees(s: State, vaults: map<string, ManagedVault>, id: string)
    requires Agrees(s) && HostsKeyed(vaults)
    requires id in vaults ==> !vaults[id].access.Unlocked?
    requires forall v | v != id :: (v in vaults) == (v in s.vaults)
    requires forall v | v != id && v in vaults :: vaults[v] == s.vaults[v]
    ensures Agrees(s.(vaults := vaults, index := DropVault(s.index, id)))
  {
    var s' := s.(vaults := vaults, index := DropVault(s.index, id));
    forall scope: Scope ensures Visible(s', scope) <==> Visible(s, scope) && scope.0 != id {
    }
  }

  /** Changes that no scan can see leave the agreement as it is. */
  lemma UnseenChangeAgrees(s: State, s': State)
    requires Agrees(s) && s'.index == s.index
    requires forall id :: (id in s'.vaults) == (id in s.vaults)
    requires forall id | id in s.vaults :: s'.vaults[id].hosts == s.vaults[id].hosts
    requires forall id | id in s.vaults :: s'.vaults[id].access.Unlocked? == s.vaults[id].access.Unlocked?
    ensures Agrees(s')
  {
    forall scope: Scope ensures Visible(s', scope) <==> Visible(s, scope) {
    }
  }

  /** Opening changes at most a closed vault to a locked one, as far as the index is concerned. */
  lemma OpenShape(env: Env, s: State, id: string, openOk: bool, persistOk: bool)
    ensures var s' := OpenStep(env, s, id, openOk, persistOk);
            && s'.index == s.index
            && (s'.vaults == s.vaults
                || (id in s.vaults && s.vaults[id].access.Closed? && s'.vaults == WithAccess(s, id, Locked)))
  {
  }

  lemma ClosedToLockedAgrees(s: State, id: string)
    requires Agrees(s) && id in s.vaults && s.vaults[id].access.Closed?
    ensures Agrees(s.(vaults := WithAccess(s, id, Locked)))
  {
    UnseenChangeAgrees(s, s.(vaults := WithAccess(s, id, Locked)));
  }

  /** The configuration plays no part in the agreement. */
  lemma ConfigIsIrrelevant(s: State, config: AppConfig)
    ensures Agrees(s) <==> Agrees(s.(config := config))
  {
    var s' := s.(config := config);
    forall scope: Scope ensures Visible(s, scope) <==> Visible(s', scope) {
    }
  }

  lemma OpenAgrees(env: Env, s: State, id: string, openOk: bool, persistOk: bool)
    requires Agrees(s)
    ensures Agrees(OpenStep(env, s, id, openOk, persistOk))
    ensures OpenSucceeds(env, s, id, openOk, persistOk) ==> id in OpenStep(env, s, id, openOk, persistOk).vaults
  {
    var s' := OpenStep(env, s, id, openOk, persistOk);
    OpenShape(env, s, id, openOk, persistOk);
    if s'.vaults != s.vaults {
      ClosedToLockedAgrees(s, id);
    }
    ConfigIsIrrelevant(s', s.config);
    assert s'.(config := s.config) == s || s'.(config := s.config) == s.(vaults := WithAccess(s, id, Locked));
  }

  /** Unlocking keeps the agreement exactly when the hosts can be listed, or there are none. */
  lemma UnlockAgrees(s: State, id: string, listOk: bool)
    requires Agrees(s) && id in s.vaults
    ensures Agrees(UnlockedStep(s, id, listOk)) <==> listOk || !HasHosts(s, id)
  {
    if listOk {
      RebuildAgrees(s, WithAccess(s, id, Unlocked), id);
    } else {
      UnlistedUnlock(s, id);
    }
  }

  lemma UnlistedUnlock(s: State, id: string)
    requires Agrees(s) && id in s.vaults
    ensures Agrees(UnlockedStep(s, id, false)) <==> !HasHosts(s, id)
  {
    var s' := UnlockedStep(s, id, false);
    if HasHosts(s, id) {
      var h :| h in s.vaults[id].hosts;
      assert Visible(s', (id, h)) && (id, h) !in s'.index;
    } else {
      forall scope: Scope ensures Visible(s', scope) <==> Visible(s, scope) && scope.0 != id {
      }
    }
  }

  lemma RebuiltAtScope(s: State, reached: set<string>, scope: Scope)
    requires s.index == RebuildSome(s.vaults, reached) && HostsKeyed(s.vaults)
    ensures scope in s.index <==> Visible(s, scope) && scope.0 in reached
    ensures scope in s.index && Visible(s, scope) ==> EntryFits(s.index[scope], scope.0, HostAt(s, scope))
  {
    RebuildSomeAt(s.vaults, reached, scope);
    if Visible(s, scope) {
      EntryOfIsEntry(scope.0, s.vaults[scope.0].entry.name, HostAt(s, scope));
    }
  }

  lemma MissedIsVisible(s: State, reached: set<string>)
    requires s.index == RebuildSome(s.vaults, reached) && HostsKeyed(s.vaults) && Missed(s.vaults, reached)
    ensures !Agrees(s)
  {
    var id :| id in s.vaults && s.vaults[id].access.Unlocked? && s.vaults[id].hosts != map[] && id !in reached;
    var h :| h in s.vaults[id].hosts;
    RebuiltAtScope(s, reached, (id, h));
    assert Visible(s, (id, h));
  }

  lemma RebuiltAgrees(s: State, reached: set<string>)
    requires s.index == RebuildSome(s.vaults, reached) && HostsKeyed(s.vaults)
    ensures Agrees(s) <==> !Missed(s.vaults, reached)
  {
    if Missed(s.vaults, reached) {
      MissedIsVisible(s, reached);
    } else {
      forall scope: Scope
        ensures scope in s.index <==> Visible(s, scope)
        ensures scope in s.index && Visible(s, scope) ==> EntryFits(s.index[scope], scope.0, HostAt(s, scope))
      {
        RebuiltAtScope(s, reached, scope);
        assert Visible(s, scope) ==> s.vaults[scope.0].hosts != map[];
      }
    }
  }

  lemma BootstrapAgrees(s: State, order: seq<string>, unlockable: set<string>, unlistable: set<string>)
    requires HostsKeyed(s.vaults)
    ensures var vaults := BootVaults(s.vaults, unlockable);
            Agrees(BootstrapStep(s, order, unlockable, unlistable))
            <==> !Missed(vaults, Reached(vaults, order, unlistable))
  {
    var vaults := BootVaults(s.vaults, unlockable);
    RebuiltAgrees(BootstrapStep(s, order, unlockable, unlistable), Reached(vaults, order, unlistable));
  }

  lemma SaveHostAgrees(s: State, id: string, host: HostAuthSummary)
    requires Agrees(s)
    ensures Agrees(SaveHostStep(s, id, host, Saved))
  {
    if id in s.vaults && s.vaults[id].access.Unlocked? {
      var s' := SaveHostStep(s, id, host, Saved);
      EntryOfIsEntry(id, s.vaults[id].entry.name, host);
      forall scope: Scope
        ensures Visible(s', scope) <==> Visible(s, scope) || scope == (id, host.hostId)
        ensures Visible(s', scope) && scope != (id, host.hostId) ==> HostAt(s', scope) == HostAt(s, scope)
      {
      }
    }
  }

  lemma SameReferencesFit(entry: IndexedHost, vaultId: string, a: HostAuthSummary, b: HostAuthSummary)
    requires EntryFits(entry, vaultId, a) && a.hostId == b.hostId
    ensures EntryFits(entry, vaultId, b) <==> SameReferences(a, b)
  {
    if EntryFits(entry, vaultId, b) {
      assert forall k :: k in MentionedKeys(a.authOrder) <==> k in entry.keyIds;
      assert forall k :: k in MentionedKeys(b.authOrder) <==> k in entry.keyIds;
      assert forall c :: c in MentionedCredentials(a.authOrder) <==> c in entry.credentialIds;
      assert forall c :: c in MentionedCredentials(b.authOrder) <==> c in entry.credentialIds;
    }
  }

  /** A host that is stored and not read back: what the index has must already be right for it. */
  lemma UnreadSaveAgrees(s: State, id: string, host: HostAuthSummary)
    requires Agrees(s) && id in s.vaults && s.vaults[id].access.Unlocked?
    ensures Agrees(SaveHostStep(s, id, host, StoredUnread))
            <==> host.hostId in s.vaults[id].hosts && SameReferences(s.vaults[id].hosts[host.hostId], host)
  {
    var s', scope := SaveHostStep(s, id, host, StoredUnread), (id, host.hostId);
    assert Visible(s', scope) && HostAt(s', scope) == host;
    forall other: Scope | other != scope
      ensures Visible(s', other) <==> Visible(s, other)
      ensures Visible(s', other) ==> HostAt(s', other) == HostAt(s, other)
    {
    }
    if Visible(s, scope) {
      assert HostAt(s, scope).hostId == host.hostId;
      SameReferencesFit(s.index[scope], id, HostAt(s, scope), host);
    }
  }

  lemma DeleteHostAgrees(s: State, id: string, hostId: string, storeOk: bool)
    requires Agrees(s)
    ensures Agrees(DeleteHostStep(s, id, hostId, storeOk))
  {
    var s' := DeleteHostStep(s, id, hostId, storeOk);
    if s' != s {
      forall scope: Scope ensures Visible(s', scope) <==> Visible(s, scope) && scope != (id, hostId) {
      }
    }
  }

  lemma NewVaultAgrees(s: State, id: string, entry: VaultRegistryEntry)
    requires Agrees(s)
    ensures var vaults := s.vaults[id := ManagedVault(entry, Unlocked, map[])];
            Agrees(s.(vaults := vaults, index := Rebuild(s.index, vaults, id)))
  {
    RebuildAgrees(s, s.vaults[id := ManagedVault(entry, Unlocked, map[])], id);
  }

  lemma CreateAgrees(env: Env, s: State, op: Op)
    requires Agrees(s) && op.Create?
    ensures Agrees(CreateStep(env, s, op))
  {
    if CreateAccepted(env, s, op) {
      var s' := CreateStep(env, s, op);
      NewVaultAgrees(s, op.id, NewEntry(op.id, op.name, op.now));
      ConfigIsIrrelevant(s', s.config);
    }
  }

  /** Unlocking without indexing keeps the agreement exactly when no host comes into view. */
  lemma UnindexedUnlock(s: State, id: string)
    requires Agrees(s) && id in s.vaults
    ensures Agrees(s.(vaults := WithAccess(s, id, Unlocked))) <==> s.vaults[id].access.Unlocked? || !HasHosts(s, id)
  {
    var s' := s.(vaults := WithAccess(s, id, Unlocked));
    if s.vaults[id].access.Unlocked? || s.vaults[id].hosts == map[] {
      forall scope: Scope ensures Visible(s', scope) <==> Visible(s, scope) {
      }
    } else {
      var h :| h in s.vaults[id].hosts;
      assert Visible(s', (id, h)) && (id, h) !in s.index;
    }
  }

  lemma OpenKeepsVault(env: Env, s: State, id: string, openOk: bool, persistOk: bool)
    requires OpenSucceeds(env, s, id, openOk, persistOk)
    ensures var after := OpenStep(env, s, id, openOk, persistOk);
            && id in after.vaults
            && after.vaults[id].access.Unlocked? == s.vaults[id].access.Unlocked?
            && after.vaults[id].hosts == s.vaults[id].hosts
  {
  }

  lemma DeviceOutcomeAgrees(s: State, id: string, outcome: DeviceOutcome, listOk: bool)
    requires Agrees(s) && id in s.vaults
    ensures Agrees(DeviceOutcomeStep(s, id, outcome, listOk))
            <==> || !HasHosts(s, id)
                 || ((outcome.Granted? ==> listOk) && (outcome.FailedLate? ==> s.vaults[id].access.Unlocked?))
  {
    if outcome.Granted? {
      UnlockAgrees(s, id, listOk);
    } else if outcome.FailedLate? {
      UnindexedUnlock(s, id);
    }
  }

  lemma DeviceUnlockAgrees(env: Env, s: State, op: Op)
    requires Agrees(s) && op.DeviceUnlock?
    ensures Agrees(DeviceUnlockStep(env, s, op.id, op.openOk, op.persistOk, op.outcome, op.listOk))
            <==> !LeavesUnindexed(env, s, op)
  {
    OpenAgrees(env, s, op.id, op.openOk, op.persistOk);
    if OpenSucceeds(env, s, op.id, op.openOk, op.persistOk) {
      OpenKeepsVault(env, s, op.id, op.openOk, op.persistOk);
      DeviceOutcomeAgrees(OpenStep(env, s, op.id, op.openOk, op.persistOk), op.id, op.outcome, op.listOk);
    }
  }

  lemma UnlockOpAgrees(env: Env, s: State, op: Op)
    requires Agrees(s) && op.Unlock?
    ensures Agrees(UnlockStep(env, s, op.id, op.openOk, op.persistOk, op.unlockOk, op.listOk))
            <==> !LeavesUnindexed(env, s, op)
  {
    OpenAgrees(env, s, op.id, op.openOk, op.persistOk);
    if OpenSucceeds(env, s, op.id, op.openOk, op.persistOk) {
      OpenKeepsVault(env, s, op.id, op.openOk, op.persistOk);
      UnlockAgrees(OpenStep(env, s, op.id, op.openOk, op.persistOk), op.id, op.listOk);
    }
  }

  lemma SaveHostOpAgrees(env: Env, s: State, op: Op)
    requires Agrees(s) && op.SaveHost?
    ensures Agrees(SaveHostStep(s, op.id, op.host, op.saved)) <==> !LeavesUnindexed(env, s, op)
  {
    SaveHostAgrees(s, op.id, op.host);
    if op.id in s.vaults && s.vaults[op.id].access.Unlocked? {
      UnreadSaveAgrees(s, op.id, op.host);
    }
  }

  lemma SaveOtherAgrees(env: Env, s: State, op: Op)
    requires Agrees(s) && op.SaveOther?
    ensures Agrees(SaveOtherStep(s, op.id, op.recordId, op.storeOk)) <==> !LeavesUnindexed(env, s, op)
  {
    var s' := SaveOtherStep(s, op.id, op.recordId, op.storeOk);
    if LeavesUnindexed(env, s, op) {
      var scope := (op.id, op.recordId);
      assert Visible(s, scope) && scope in s'.index && !Visible(s', scope);
    } else {
      assert forall id | id in s.vaults :: s'.vaults[id].hosts == s.vaults[id].hosts;
      UnseenChangeAgrees(s, s');
    }
  }

  lemma LeavingAgrees(s: State, id: string)
    requires Agrees(s) && id in s.vaults
    ensures forall access: Access | !access.Unlocked? ::
              Agrees(s.(vaults := WithAccess(s, id, access), index := DropVault(s.index, id)))
    ensures Agrees(s.(vaults := s.vaults - {id}, index := DropVault(s.index, id)))
  {
    forall access: Access | !access.Unlocked?
      ensures Agrees(s.(vaults := WithAccess(s, id, access), index := DropVault(s.index, id)))
    {
      DropAgrees(s, WithAccess(s, id, access), id);
    }
    DropAgrees(s, s.vaults - {id}, id);
  }

  lemma WithdrawalAgrees(env: Env, s: State, op: Op)
    requires Agrees(s) && (op.Close? || op.Lock? || op.Delete?)
    ensures Agrees(Step(env, s, op))
  {
    if op.id in s.vaults {
      LeavingAgrees(s, op.id);
      ConfigIsIrrelevant(Step(env, s, op), s.config);
    }
  }

  lemma SettingsAgree(env: Env, s: State, op: Op)
    requires Agrees(s) && (op.Rename? || op.SetDefault?)
    ensures Agrees(Step(env, s, op))
  {
    UnseenChangeAgrees(s, Step(env, s, op));
  }

  /** One operation keeps the agreement exactly when it is none of the late failures. */
  lemma AgreementStep(env: Env, s: State, op: Op)
    requires Agrees(s)
    ensures Agrees(Step(env, s, op)) <==> !LeavesUnindexed(env, s, op)
  {
    match op {
      case Bootstrap(order, unlockable, unlistable) => BootstrapAgrees(s, order, unlockable, unlistable);
      case Create(_, _, _, _, _) => CreateAgrees(env, s, op);
      case Rename(_, _, _, _) => SettingsAgree(env, s, op);
      case Open(id, openOk, persistOk) => OpenAgrees(env, s, id, openOk, persistOk);
      case Close(_, _) => WithdrawalAgrees(env, s, op);
      case Unlock(_, _, _, _, _) => UnlockOpAgrees(env, s, op);
      case DeviceUnlock(_, _, _, _, _) => DeviceUnlockAgrees(env, s, op);
      case Lock(_) => WithdrawalAgrees(env, s, op);
      case Delete(_, _) => WithdrawalAgrees(env, s, op);
      case SetDefault(_, _) => SettingsAgree(env, s, op);
      case SaveHost(_, _, _) => SaveHostOpAgrees(env, s, op);
      case DeleteHost(id, hostId, storeOk) => DeleteHostAgrees(s, id, hostId, storeOk);
      case SaveOther(_, _, _) => SaveOtherAgrees(env, s, op);
    }
  }

  ghost predicate AllIndexed(env: Env, s: State, ops: seq<Op>) {
    ops != [] ==>
      && AllIndexed(env, s, ops[..|ops| - 1])
      && !LeavesUnindexed(env, RunFrom(env, s, ops[..|ops| - 1]), ops[|ops| - 1])
  }

  lemma LoadedAgrees(s: State, config: AppConfig)
    requires LoadedFrom(s, config)
    ensures Agrees(s)
  {
    forall scope: Scope ensures !Visible(s, scope) {
      if scope.0 in s.vaults {
        var i :| 0 <= i < |config.vaults.entries| && config.vaults.entries[i].id == scope.0;
      }
    }
  }

  /** From start-up on, over every run without such a failure, the index agrees with a scan. */
  lemma {:induction false} IndexAgreesOverRuns(env: Env, s: State, config: AppConfig, ops: seq<Op>)
    requires LoadedFrom(s, config) && AllIndexed(env, s, ops)
    ensures Agrees(RunFrom(env, s, ops))
  {
    if ops == [] {
      LoadedAgrees(s, config);
    } else {
      IndexAgreesOverRuns(env, s, config, ops[..|ops| - 1]);
      AgreementStep(env, RunFrom(env, s, ops[..|ops| - 1]), ops[|ops| - 1]);
    }
  }

  // ---- What a lookup returns ----

  function MentionedBy(kind: Kind, host: HostAuthSummary): set<string> {
    match kind
    case Keys => MentionedKeys(host.authOrder)
    case Credentials => MentionedCredentials(host.authOrder)
  }

  /** A visible host that mentions the id. */
  predicate Uses(s: State, kind: Kind, scope: Scope, hostId: string) {
    Visible(s, (scope.0, hostId)) && scope.1 in MentionedBy(kind, HostAt(s, (scope.0, hostId)))
  }

  /** What a scan of the unlocked vaults would report: every using host once, with its label, in order. */
  ghost predicate IsScan(s: State, lower: string -> string, kind: Kind, scope: Scope, list: seq<HostReference>) {
    && (forall i, j | 0 <= i < j < |list| :: LabelBefore(lower, list[i], list[j]))
    && (forall i, j | 0 <= i < j < |list| :: list[i].hostId != list[j].hostId)
    && (forall r | r in list ::
          && r.vaultId == scope.0
          && Uses(s, kind, scope, r.hostId)
          && r.hostLabel == HostAt(s, (scope.0, r.hostId)).hostLabel)
    && (forall h | Uses(s, kind, scope, h) :: exists i | 0 <= i < |list| :: list[i].hostId == h)
  }

  /** Nothing is used in a vault that is locked, closed or gone, so a lookup there finds nothing. */
  lemma LookupIsScan(s: State, lower: string -> string, kind: Kind, inverse: Inverse, scope: Scope)
    requires Agrees(s) && InverseOk(lower, s.index, kind, inverse)
    ensures IsScan(s, lower, kind, scope, Listed(inverse, scope))
  {
    var list := Listed(inverse, scope);
    assert ListOk(lower, s.index, kind, scope, list);
    forall r | r in list
      ensures r.vaultId == scope.0 && Uses(s, kind, scope, r.hostId)
      ensures r.hostLabel == HostAt(s, (scope.0, r.hostId)).hostLabel
    {
      assert Mentions(s.index, kind, scope, r);
      assert EntryFits(s.index[(scope.0, r.hostId)], scope.0, HostAt(s, (scope.0, r.hostId)));
    }
    forall h | Uses(s, kind, scope, h) ensures exists i | 0 <= i < |list| :: list[i].hostId == h {
      var entry := s.index[(scope.0, h)];
      assert EntryFits(entry, scope.0, HostAt(s, (scope.0, h)));
      assert Mentions(s.index, kind, scope, entry.hostReference);
      var i :| 0 <= i < |list| && list[i] == entry.hostReference;
      assert list[i].hostId == h;
    }
    ListedOnce(lower, s.index, kind, scope, list);
    forall i, j | 0 <= i < j < |list| ensures LabelBefore(lower, list[i], list[j]) {
      ReferenceOrderIs(lower, list[i], list[j]);
    }
  }

  lemma ListedOnce(lower: string -> string, forward: Forward, kind: Kind, scope: Scope, list: seq<HostReference>)
    requires ListOk(lower, forward, kind, scope, list)
    ensures forall i, j | 0 <= i < j < |list| :: list[i].hostId != list[j].hostId
  {
    ReferenceOrderIsStrict(lower);
    forall i, j | 0 <= i < j < |list| ensures list[i].hostId != list[j].hostId {
      assert ReferenceOrder(lower)(list[i], list[j]);
      assert list[i] in list && list[j] in list;
      assert Mentions(forward, kind, scope, list[i]) && Mentions(forward, kind, scope, list[j]);
    }
  }

  /** Nothing is found in a vault that is not unlocked. */
  lemma LockedVaultsAreSilent(s: State, lower: string -> string, kind: Kind, inverse: Inverse, scope: Scope)
    requires Agrees(s) && InverseOk(lower, s.index, kind, inverse)
    requires scope.0 in s.vaults ==> !s.vaults[scope.0].access.Unlocked?
    ensures scope !in inverse
  {
    LookupIsScan(s, lower, kind, inverse, scope);
    var list := Listed(inverse, scope);
    assert forall r | r in list :: Uses(s, kind, scope, r.hostId);
    FirstIsMember(list);
  }

  // ---- The cached vault names ----

  /** Every entry carries the name its vault now has. */
  ghost predicate NamesCurrent(s: State) {
    forall scope: Scope | scope in s.index ::
      scope.0 in s.vaults && s.index[scope].hostReference.vaultName == s.vaults[scope.0].entry.name
  }

  /** A change of name that the index does not hear of. */
  predicate RenamesIndexed(s: State, op: Op) {
    && op.Rename? && RenameAttempted(s, op) && Trim(op.name) != s.vaults[op.id].entry.name
    && s.vaults[op.id].access.Unlocked? && HasHosts(s, op.id)
  }

  /** Each entry is an old one of a vault with its old name, or carries the present name. */
  lemma NamesKept(s: State, s': State)
    requires NamesCurrent(s)
    requires forall scope: Scope | scope in s'.index ::
               && scope.0 in s'.vaults
               && ((scope in s.index && scope.0 in s.vaults && s'.index[scope] == s.index[scope]
                    && s'.vaults[scope.0].entry.name == s.vaults[scope.0].entry.name)
                   || s'.index[scope].hostReference.vaultName == s'.vaults[scope.0].entry.name)
    ensures NamesCurrent(s')
  {
  }

  lemma RebuildNames(s: State, s': State, id: string, listOk: bool)
    requires NamesCurrent(s) && id in s'.vaults && s'.index == TryRebuild(s.index, s'.vaults, id, listOk)
    requires forall v | v in s.vaults && v != id :: v in s'.vaults && s'.vaults[v].entry == s.vaults[v].entry
    ensures NamesCurrent(s')
  {
    forall scope: Scope | scope in s'.index
      ensures scope.0 in s'.vaults
      ensures (scope in s.index && scope.0 in s.vaults && s'.index[scope] == s.index[scope]
               && s'.vaults[scope.0].entry.name == s.vaults[scope.0].entry.name)
              || s'.index[scope].hostReference.vaultName == s'.vaults[scope.0].entry.name
    {
      VaultEntriesAt(id, s'.vaults[id], scope);
    }
    NamesKept(s, s');
  }

  lemma UnlockNames(s: State, id: string, outcome: DeviceOutcome, listOk: bool)
    requires NamesCurrent(s) && id in s.vaults
    ensures NamesCurrent(UnlockedStep(s, id, listOk)) && NamesCurrent(DeviceOutcomeStep(s, id, outcome, listOk))
  {
    RebuildNames(s, UnlockedStep(s, id, listOk), id, listOk);
    NamesKept(s, s.(vaults := WithAccess(s, id, Unlocked)));
  }

  lemma OpenNames(env: Env, s: State, id: string, openOk: bool, persistOk: bool)
    requires NamesCurrent(s)
    ensures NamesCurrent(OpenStep(env, s, id, openOk, persistOk))
  {
    NamesKept(s, OpenStep(env, s, id, openOk, persistOk));
  }

  lemma BootstrapNames(s: State, order: seq<string>, unlockable: set<string>, unlistable: set<string>)
    ensures NamesCurrent(BootstrapStep(s, order, unlockable, unlistable))
  {
    var s' := BootstrapStep(s, order, unlockable, unlistable);
    forall scope: Scope | scope in s'.index
      ensures scope.0 in s'.vaults && s'.index[scope].hostReference.vaultName == s'.vaults[scope.0].entry.name
    {
      RebuildSomeAt(s'.vaults, Reached(s'.vaults, order, unlistable), scope);
    }
  }

  lemma CreateNames(env: Env, s: State, op: Op)
    requires NamesCurrent(s) && op.Create?
    ensures NamesCurrent(CreateStep(env, s, op))
  {
    if CreateAccepted(env, s, op) {
      RebuildNames(s, CreateStep(env, s, op), op.id, true);
    }
  }

  lemma RenameNames(env: Env, s: State, op: Op)
    requires Agrees(s) && NamesCurrent(s) && op.Rename?
    ensures NamesCurrent(RenameStep(env, s, op)) <==> !RenamesIndexed(s, op)
  {
    var s' := RenameStep(env, s, op);
    if RenamesIndexed(s, op) {
      var h :| h in s.vaults[op.id].hosts;
      assert Visible(s, (op.id, h)) && (op.id, h) in s'.index;
    } else if RenameAttempted(s, op) {
      forall scope: Scope | scope in s'.index
        ensures scope.0 in s'.vaults && s'.vaults[scope.0].entry.name == s.vaults[scope.0].entry.name
      {
        assert Visible(s, scope);
      }
    }
  }

  lemma WithdrawalNames(env: Env, s: State, op: Op)
    requires NamesCurrent(s) && (op.Close? || op.Lock? || op.Delete?)
    ensures NamesCurrent(Step(env, s, op))
  {
    NamesKept(s, Step(env, s, op));
  }

  lemma HostNames(env: Env, s: State, op: Op)
    requires NamesCurrent(s) && (op.SaveHost? || op.DeleteHost? || op.SaveOther?)
    ensures NamesCurrent(Step(env, s, op))
  {
    NamesKept(s, Step(env, s, op));
  }

  lemma NamesStep(env: Env, s: State, op: Op)
    requires Agrees(s) && NamesCurrent(s)
    ensures NamesCurrent(Step(env, s, op)) <==> !RenamesIndexed(s, op)
  {
    match op {
      case Bootstrap(order, unlockable, unlistable) => BootstrapNames(s, order, unlockable, unlistable);
      case Create(_, _, _, _, _) => CreateNames(env, s, op);
      case Rename(_, _, _, _) => RenameNames(env, s, op);
      case Open(id, openOk, persistOk) => OpenNames(env, s, id, openOk, persistOk);
      case Close(_, _) => WithdrawalNames(env, s, op);
      case Unlock(id, openOk, persistOk, _, listOk) => UnlockOpNames(env, s, id, openOk, persistOk, Granted, listOk);
      case DeviceUnlock(id, openOk, persistOk, outcome, listOk) =>
        UnlockOpNames(env, s, id, openOk, persistOk, outcome, listOk);
      case Lock(_) => WithdrawalNames(env, s, op);
      case Delete(_, _) => WithdrawalNames(env, s, op);
      case SetDefault(_, _) => NamesKept(s, Step(env, s, op));
      case SaveHost(_, _, _) => HostNames(env, s, op);
      case DeleteHost(_, _, _) => HostNames(env, s, op);
      case SaveOther(_, _, _) => HostNames(env, s, op);
    }
  }

  lemma UnlockOpNames(
    env: Env, s: State, id: string, openOk: bool, persistOk: bool, outcome: DeviceOutcome, listOk: bool)
    requires NamesCurrent(s)
    ensures forall unlockOk :: NamesCurrent(UnlockStep(env, s, id, openOk, persistOk, unlockOk, listOk))
    ensures NamesCurrent(DeviceUnlockStep(env, s, id, openOk, persistOk, outcome, listOk))
  {
    OpenNames(env, s, id, openOk, persistOk);
    if OpenSucceeds(env, s, id, openOk, persistOk) {
      UnlockNames(OpenStep(env, s, id, openOk, persistOk), id, outcome, listOk);
    }
  }

  lemma RebuiltAgreesNamed(s: State)
    requires HostsKeyed(s.vaults) && s.index == RebuildAll(s.vaults)
    ensures Agrees(s) && NamesCurrent(s)
  {
    RebuiltAgrees(s, s.vaults.Keys);
    forall scope: Scope | scope in s.index
      ensures scope.0 in s.vaults && s.index[scope].hostReference.vaultName == s.vaults[scope.0].entry.name
    {
      RebuildSomeAt(s.vaults, s.vaults.Keys, scope);
    }
  }

  lemma RebuiltAt(s: State, scope: Scope)
    requires Agrees(s) && NamesCurrent(s)
    ensures scope in s.index <==> scope in RebuildAll(s.vaults)
    ensures scope in s.index ==> s.index[scope] == RebuildAll(s.vaults)[scope]
  {
    RebuildSomeAt(s.vaults, s.vaults.Keys, scope);
    if scope in s.index {
      var host, name := HostAt(s, scope), s.vaults[scope.0].entry.name;
      EntryOfIsEntry(scope.0, name, host);
      EntryUnique(s.index[scope], EntryOf(scope.0, name, host), scope.0, name, host);
    }
  }

  /** Agreement and current names together say that the index is what a rebuild would give. */
  lemma RebuiltIffAgrees(s: State)
    requires HostsKeyed(s.vaults)
    ensures s.index == RebuildAll(s.vaults) <==> Agrees(s) && NamesCurrent(s)
  {
    if s.index == RebuildAll(s.vaults) {
      RebuiltAgreesNamed(s);
    }
    if Agrees(s) && NamesCurrent(s) {
      forall scope: Scope
        ensures scope in s.index <==> scope in RebuildAll(s.vaults)
        ensures scope in s.index ==> s.index[scope] == RebuildAll(s.vaults)[scope]
      {
        RebuiltAt(s, scope);
      }
    }
  }

  /**
   One operation leaves exactly the index that a rebuild from all vaults would give, vault names
   included, if and only if it is none of the late failures and renames no indexed vault.
   */
  lemma RebuiltStep(env: Env, s: State, op: Op)
    requires HostsKeyed(s.vaults) && s.index == RebuildAll(s.vaults)
    ensures HostsKeyed(Step(env, s, op).vaults)
    ensures Step(env, s, op).index == RebuildAll(Step(env, s, op).vaults)
            <==> !LeavesUnindexed(env, s, op) && !RenamesIndexed(s, op)
  {
    RebuiltIffAgrees(s);
    AgreementStep(env, s, op);
    NamesStep(env, s, op);
    HostsStayKeyed(env, s, op);
    RebuiltIffAgrees(Step(env, s, op));
  }

  lemma KeyedIfSameHosts(s: State, s': State)
    requires HostsKeyed(s.vaults)
    requires forall id | id in s'.vaults ::
               s'.vaults[id].hosts == map[] || (id in s.vaults && s'.vaults[id].hosts == s.vaults[id].hosts)
    ensures HostsKeyed(s'.vaults)
  {
  }

  lemma OpenedHosts(env: Env, s: State, id: string, openOk: bool, persistOk: bool)
    requires HostsKeyed(s.vaults)
    ensures HostsKeyed(OpenStep(env, s, id, openOk, persistOk).vaults)
    ensures OpenSucceeds(env, s, id, openOk, persistOk) ==>
              var after := OpenStep(env, s, id, openOk, persistOk);
              id in after.vaults && HostsKeyed(WithAccess(after, id, Unlocked))
  {
    OpenShape(env, s, id, openOk, persistOk);
    KeyedIfSameHosts(s, OpenStep(env, s, id, openOk, persistOk));
  }

  lemma WithdrawnHosts(env: Env, s: State, op: Op)
    requires HostsKeyed(s.vaults) && (op.Close? || op.Lock? || op.Delete?)
    ensures HostsKeyed(Step(env, s, op).vaults)
  {
    if op.id in s.vaults {
      KeyedIfSameHosts(s, s.(vaults := WithAccess(s, op.id, Locked)));
      KeyedIfSameHosts(s, s.(vaults := WithAccess(s, op.id, Closed)));
      KeyedIfSameHosts(s, s.(vaults := s.vaults - {op.id}));
    }
  }

  lemma EntryHosts(env: Env, s: State, op: Op)
    requires HostsKeyed(s.vaults) && (op.Create? || op.Rename?)
    ensures HostsKeyed(Step(env, s, op).vaults)
  {
  }

  lemma BootHosts(s: State, order: seq<string>, unlockable: set<string>, unlistable: set<string>)
    requires HostsKeyed(s.vaults)
    ensures HostsKeyed(BootstrapStep(s, order, unlockable, unlistable).vaults)
  {
  }

  lemma SavedHosts(s: State, id: string, host: HostAuthSummary, saved: SaveOutcome)
    requires HostsKeyed(s.vaults)
    ensures HostsKeyed(SaveHostStep(s, id, host, saved).vaults)
  {
  }

  lemma DeletedHosts(s: State, id: string, hostId: string, storeOk: bool)
    requires HostsKeyed(s.vaults)
    ensures HostsKeyed(DeleteHostStep(s, id, hostId, storeOk).vaults)
    ensures HostsKeyed(SaveOtherStep(s, id, hostId, storeOk).vaults)
  {
  }

  lemma HostsStayKeyed(env: Env, s: State, op: Op)
    requires HostsKeyed(s.vaults)
    ensures HostsKeyed(Step(env, s, op).vaults)
  {
    match op {
      case Open(id, openOk, persistOk) => OpenedHosts(env, s, id, openOk, persistOk);
      case Unlock(id, openOk, persistOk, _, _) => OpenedHosts(env, s, id, openOk, persistOk);
      case DeviceUnlock(id, openOk, persistOk, _, _) => OpenedHosts(env, s, id, openOk, persistOk);
      case SaveHost(id, host, saved) => SavedHosts(s, id, host, saved);
      case DeleteHost(id, hostId, storeOk) => DeletedHosts(s, id, hostId, storeOk);
      case SaveOther(id, recordId, storeOk) => DeletedHosts(s, id, recordId, storeOk);
      case Rename(_, _, _, _) => EntryHosts(env, s, op);
      case Create(_, _, _, _, _) => EntryHosts(env, s, op);
      case Bootstrap(order, unlockable, unlistable) => BootHosts(s, order, unlockable, unlistable);
      case Close(_, _) => WithdrawnHosts(env, s, op);
      case Lock(_) => WithdrawnHosts(env, s, op);
      case Delete(_, _) => WithdrawnHosts(env, s, op);
      case SetDefault(id, persistOk) =>
    }
  }
}
