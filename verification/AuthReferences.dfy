/**
 Which hosts use a key or a credential: a forward map from hosts to the ids they mention and two
 inverse maps, kept up to date one host at a time.
 */
module AuthReferences {
  import opened Text
  import opened Sorting

  datatype HostAuthRef =
    | Password(credentialId: string)
    | PrivateKey(keyId: string, passphraseCredentialId: Option<string>)

  datatype HostAuthSummary = HostAuthSummary(hostId: string, hostLabel: string, authOrder: seq<HostAuthRef>)

  datatype HostReference = HostReference(vaultId: string, vaultName: string, hostId: string, hostLabel: string)

  datatype IndexedHost = IndexedHost(hostReference: HostReference, keyIds: seq<string>, credentialIds: seq<string>)

  /** A vault id with the id of a host, key or credential in it. */
  type Scope = (string, string)

  type Forward = map<Scope, IndexedHost>
  type Inverse = map<Scope, seq<HostReference>>

  /** The two inverse maps have the same shape; they differ in the ids they are about. */
  datatype Kind = Keys | Credentials

  function Ids(kind: Kind, host: IndexedHost): seq<string> {
    match kind
    case Keys => host.keyIds
    case Credentials => host.credentialIds
  }

  // ---- Orders ----

  function IdOrder(): (string, string) -> bool {
    (a, b) => StrLess(a, b)
  }

  lemma IdOrderIsStrict()
    ensures StrictOrder(IdOrder())
  {
    forall x ensures !IdOrder()(x, x) { StrLessIrreflexive(x); }
    forall x, y, z | IdOrder()(x, y) && IdOrder()(y, z) ensures IdOrder()(x, z) { StrLessTransitive(x, y, z); }
  }

  /** By lowercased label, then host id. `lower` stands for `str::to_lowercase`, whatever it does. */
  predicate ReferenceLess(lower: string -> string, a: HostReference, b: HostReference) {
    || StrLess(lower(a.hostLabel), lower(b.hostLabel))
    || (lower(a.hostLabel) == lower(b.hostLabel) && StrLess(a.hostId, b.hostId))
  }

  function ReferenceOrder(lower: string -> string): (HostReference, HostReference) -> bool {
    (a, b) => ReferenceLess(lower, a, b)
  }

  lemma ReferenceOrderIsStrict(lower: string -> string)
    ensures StrictOrder(ReferenceOrder(lower))
  {
    var less := ReferenceOrder(lower);
    forall x ensures !less(x, x) {
      StrLessIrreflexive(lower(x.hostLabel));
      StrLessIrreflexive(x.hostId);
    }
    forall x, y, z | less(x, y) && less(y, z) ensures less(x, z) {
      var a, b, c := lower(x.hostLabel), lower(y.hostLabel), lower(z.hostLabel);
      if StrLess(a, b) && StrLess(b, c) { StrLessTransitive(a, b, c); }
      StrLessIrreflexive(a);
      if a == b && b == c { StrLessTransitive(x.hostId, y.hostId, z.hostId); }
    }
  }

  /**
   The order of a list, said directly: the smaller lowercased label first, and the smaller host id
   among equal labels.
   */
  ghost predicate LabelBefore(lower: string -> string, a: HostReference, b: HostReference) {
    || TextBefore(lower(a.hostLabel), lower(b.hostLabel))
    || (lower(a.hostLabel) == lower(b.hostLabel) && TextBefore(a.hostId, b.hostId))
  }

  lemma ReferenceOrderIs(lower: string -> string, a: HostReference, b: HostReference)
    ensures ReferenceOrder(lower)(a, b) <==> LabelBefore(lower, a, b)
  {
    StrLessIff(lower(a.hostLabel), lower(b.hostLabel));
    StrLessIff(a.hostId, b.hostId);
  }

  /** Different host ids can always be compared. */
  lemma ReferencesComparable(lower: string -> string, a: HostReference, b: HostReference)
    requires a.hostId != b.hostId
    ensures ReferenceLess(lower, a, b) || ReferenceLess(lower, b, a)
  {
    StrLessTotal(lower(a.hostLabel), lower(b.hostLabel));
    StrLessTotal(a.hostId, b.hostId);
  }

  // ---- Ids mentioned by a host ----

  /** Every key id in the auth order. */
  function MentionedKeys(order: seq<HostAuthRef>): set<string> {
    set i | 0 <= i < |order| && order[i].PrivateKey? :: order[i].keyId
  }

  /** Every credential id in the auth order, passphrases included. */
  function MentionedCredentials(order: seq<HostAuthRef>): set<string> {
    (set i | 0 <= i < |order| && order[i].Password? :: order[i].credentialId)
    + (set i | 0 <= i < |order| && order[i].PrivateKey? && order[i].passphraseCredentialId.Some? ::
         order[i].passphraseCredentialId.value)
  }

  ghost predicate SortedIdsOf(ids: seq<string>, members: set<string>) {
    Ascending(IdOrder(), ids) && forall id :: id in ids <==> id in members
  }

  method SortedIds(members: set<string>) returns (ids: seq<string>)
    ensures SortedIdsOf(ids, members)
  {
    ids := [];
    var left := members;
    IdOrderIsStrict();
    while left != {}
      invariant left <= members
      invariant SortedIdsOf(ids, members - left)
      decreases |left|
    {
      var id :| id in left;
      forall y | y in ids ensures IdOrder()(id, y) || IdOrder()(y, id) { StrLessTotal(id, y); }
      InsertAscends(IdOrder(), ids, id);
      InsertMembers(IdOrder(), ids, id);
      ids := Insert(IdOrder(), ids, id);
      left := left - {id};
    }
  }

  /** The mentioned ids, each once, in order. */
  method CollectHostAuthReferenceIds(
    authOrder: seq<HostAuthRef>) returns (keyIds: seq<string>, credentialIds: seq<string>)
    ensures SortedIdsOf(keyIds, MentionedKeys(authOrder))
    ensures SortedIdsOf(credentialIds, MentionedCredentials(authOrder))
  {
    var keys, credentials := {}, {};
    for i := 0 to |authOrder|
      invariant keys == MentionedKeys(authOrder[..i])
      invariant credentials == MentionedCredentials(authOrder[..i])
    {
      MentionedSnoc(authOrder, i);
      match authOrder[i] {
        case Password(credentialId) =>
          credentials := credentials + {credentialId};
        case PrivateKey(keyId, passphraseCredentialId) =>
          keys := keys + {keyId};
          if passphraseCredentialId.Some? {
            credentials := credentials + {passphraseCredentialId.value};
          }
      }
    }
    assert authOrder[..|authOrder|] == authOrder;
    keyIds := SortedIds(keys);
    credentialIds := SortedIds(credentials);
  }

  function KeyOf(auth: HostAuthRef): set<string> {
    if auth.PrivateKey? then {auth.keyId} else {}
  }

  function CredentialOf(auth: HostAuthRef): set<string> {
    match auth
    case Password(id) => {id}
    case PrivateKey(_, passphrase) => if passphrase.Some? then {passphrase.value} else {}
  }

  lemma MentionedSnoc(order: seq<HostAuthRef>, i: nat)
    requires i < |order|
    ensures MentionedKeys(order[..i + 1]) == MentionedKeys(order[..i]) + KeyOf(order[i])
    ensures MentionedCredentials(order[..i + 1]) == MentionedCredentials(order[..i]) + CredentialOf(order[i])
  {
    var longer, shorter := order[..i + 1], order[..i];
    assert forall j | 0 <= j < i :: longer[j] == shorter[j];
    assert longer[i] == order[i];
    forall id ensures id in MentionedKeys(longer) <==> id in MentionedKeys(shorter) + KeyOf(order[i]) {
      if id in MentionedKeys(shorter) {
        var j :| 0 <= j < i && shorter[j].PrivateKey? && shorter[j].keyId == id;
        assert longer[j].keyId == id;
      }
    }
    forall id ensures id in MentionedCredentials(longer)
        <==> id in MentionedCredentials(shorter) + CredentialOf(order[i]) {
      if id in MentionedCredentials(shorter) {
        var j :| 0 <= j < i && id in CredentialOf(shorter[j]);
        assert longer[j] == shorter[j];
      }
    }
  }

  /** The forward entry of a host: its reference and the ids it mentions. */
  ghost predicate IsEntry(entry: IndexedHost, vaultId: string, vaultName: string, host: HostAuthSummary) {
    && entry.hostReference == HostReference(vaultId, vaultName, host.hostId, host.hostLabel)
    && SortedIdsOf(entry.keyIds, MentionedKeys(host.authOrder))
    && SortedIdsOf(entry.credentialIds, MentionedCredentials(host.authOrder))
  }

  lemma EntryUnique(a: IndexedHost, b: IndexedHost, vaultId: string, vaultName: string, host: HostAuthSummary)
    requires IsEntry(a, vaultId, vaultName, host) && IsEntry(b, vaultId, vaultName, host)
    ensures a == b
  {
    IdOrderIsStrict();
    AscendingUnique(IdOrder(), a.keyIds, b.keyIds);
    AscendingUnique(IdOrder(), a.credentialIds, b.credentialIds);
  }

  ghost function SortedIdList(members: set<string>): seq<string>
    decreases |members|
  {
    if members == {} then [] else
      var id :| id in members;
      Insert(IdOrder(), SortedIdList(members - {id}), id)
  }

  lemma {:induction false} SortedIdListIsSorted(members: set<string>)
    ensures SortedIdsOf(SortedIdList(members), members)
    decreases |members|
  {
    if members != {} {
      IdOrderIsStrict();
      var id :| id in members && SortedIdList(members) == Insert(IdOrder(), SortedIdList(members - {id}), id);
      SortedIdListIsSorted(members - {id});
      var rest := SortedIdList(members - {id});
      forall y | y in rest ensures IdOrder()(id, y) || IdOrder()(y, id) { StrLessTotal(id, y); }
      InsertAscends(IdOrder(), rest, id);
      InsertMembers(IdOrder(), rest, id);
    }
  }

  /** The one entry of a host. */
  ghost function EntryOf(vaultId: string, vaultName: string, host: HostAuthSummary): IndexedHost {
    IndexedHost(
      HostReference(vaultId, vaultName, host.hostId, host.hostLabel),
      SortedIdList(MentionedKeys(host.authOrder)),
      SortedIdList(MentionedCredentials(host.authOrder)))
  }

  lemma EntryOfIsEntry(vaultId: string, vaultName: string, host: HostAuthSummary)
    ensures IsEntry(EntryOf(vaultId, vaultName, host), vaultId, vaultName, host)
  {
    SortedIdListIsSorted(MentionedKeys(host.authOrder));
    SortedIdListIsSorted(MentionedCredentials(host.authOrder));
  }

  // ---- When an inverse map is right ----

  ghost predicate ForwardOk(forward: Forward) {
    forall scope | scope in forward ::
      var entry := forward[scope];
      && entry.hostReference.vaultId == scope.0
      && entry.hostReference.hostId == scope.1
      && Ascending(IdOrder(), entry.keyIds)
      && Ascending(IdOrder(), entry.credentialIds)
  }

  /** The host of `r` is indexed in this vault, under this reference, and mentions the id. */
  predicate Mentions(forward: Forward, kind: Kind, scope: Scope, r: HostReference) {
    var host := (scope.0, r.hostId);
    host in forward && forward[host].hostReference == r && scope.1 in Ids(kind, forward[host])
  }

  function Listed(inverse: Inverse, scope: Scope): seq<HostReference> {
    if scope in inverse then inverse[scope] else []
  }

  /** The list for one id: exactly the hosts that mention it, strictly ordered. */
  ghost predicate ListOk(
    lower: string -> string, forward: Forward, kind: Kind, scope: Scope, list: seq<HostReference>) {
    && Ascending(ReferenceOrder(lower), list)
    && forall r :: r in list <==> Mentions(forward, kind, scope, r)
  }

  ghost predicate InverseOk(lower: string -> string, forward: Forward, kind: Kind, inverse: Inverse) {
    && (forall scope: Scope :: ListOk(lower, forward, kind, scope, Listed(inverse, scope)))
    && (forall scope | scope in inverse :: inverse[scope] != [])
  }

  /** There is one right inverse: the maps are determined by the indexed hosts alone. */
  lemma InverseIsCanonical(lower: string -> string, forward: Forward, kind: Kind, a: Inverse, b: Inverse)
    requires InverseOk(lower, forward, kind, a) && InverseOk(lower, forward, kind, b)
    ensures a == b
  {
    ReferenceOrderIsStrict(lower);
    forall scope: Scope ensures Listed(a, scope) == Listed(b, scope) {
      var la, lb := Listed(a, scope), Listed(b, scope);
      assert ListOk(lower, forward, kind, scope, la) && ListOk(lower, forward, kind, scope, lb);
      AscendingUnique(ReferenceOrder(lower), la, lb);
    }
    forall scope: Scope ensures (scope in a) == (scope in b) {
      assert Listed(a, scope) == Listed(b, scope);
    }
    forall scope | scope in a ensures scope in b && a[scope] == b[scope] {
      assert Listed(a, scope) == Listed(b, scope);
    }
  }

  // ---- One host in or out ----

  /** `refs.push(reference)` then `sort_host_references`, for each id. */
  ghost predicate Added(
    lower: string -> string, before: Inverse, after: Inverse, vaultId: string, ids: seq<string>, r: HostReference) {
    && (forall scope: Scope :: Listed(after, scope)
         == if scope.0 == vaultId && scope.1 in ids then Sort(ReferenceOrder(lower), Listed(before, scope) + [r])
            else Listed(before, scope))
    && (forall scope | scope in after :: after[scope] != [])
  }

  function NotHost(hostId: string): HostReference -> bool {
    (r: HostReference) => r.hostId != hostId
  }

  /** `hosts.retain(..)` and removal of an emptied list, for each id. */
  ghost predicate Dropped(before: Inverse, after: Inverse, vaultId: string, ids: seq<string>, hostId: string) {
    && (forall scope: Scope :: Listed(after, scope)
         == if scope.0 == vaultId && scope.1 in ids then Filter(NotHost(hostId), Listed(before, scope))
            else Listed(before, scope))
    && (forall scope | scope in after :: after[scope] != [])
  }

  lemma AddedIsOk(
    lower: string -> string, forward: Forward, kind: Kind, before: Inverse, after: Inverse, scope: Scope,
        entry: IndexedHost)
    requires ForwardOk(forward) && InverseOk(lower, forward, kind, before) && scope !in forward
    requires entry.hostReference.vaultId == scope.0 && entry.hostReference.hostId == scope.1
    requires Added(lower, before, after, scope.0, Ids(kind, entry), entry.hostReference)
    ensures InverseOk(lower, forward[scope := entry], kind, after)
  {
    forall s: Scope ensures ListOk(lower, forward[scope := entry], kind, s, Listed(after, s)) {
      assert ListOk(lower, forward, kind, s, Listed(before, s));
      AddedListIsOk(lower, forward, kind, scope, entry, s, Listed(before, s), Listed(after, s));
    }
  }

  /** Adding the host to the lists of the ids it mentions leaves every list right with it. */
  lemma AddedListIsOk(
    lower: string -> string, forward: Forward, kind: Kind, scope: Scope, entry: IndexedHost, s: Scope,
    list: seq<HostReference>, list': seq<HostReference>)
    requires scope !in forward && ListOk(lower, forward, kind, s, list)
    requires entry.hostReference.vaultId == scope.0 && entry.hostReference.hostId == scope.1
    requires list' == if s.0 == scope.0 && s.1 in Ids(kind, entry)
                      then Sort(ReferenceOrder(lower), list + [entry.hostReference]) else list
    ensures ListOk(lower, forward[scope := entry], kind, s, list')
  {
    var forward' := forward[scope := entry];
    if s.0 == scope.0 && s.1 in Ids(kind, entry) {
      InsertedIsOk(lower, forward, kind, s, list, entry.hostReference);
      forall x ensures x in list' <==> Mentions(forward', kind, s, x) {
      }
    } else {
      forall x ensures Mentions(forward, kind, s, x) <==> Mentions(forward', kind, s, x) {
      }
    }
  }

  /** Sorting a right list with a reference of a new host behind it. */
  lemma InsertedIsOk(
    lower: string -> string, forward: Forward, kind: Kind, s: Scope, list: seq<HostReference>, r: HostReference)
    requires ListOk(lower, forward, kind, s, list) && (s.0, r.hostId) !in forward
    ensures Ascending(ReferenceOrder(lower), Sort(ReferenceOrder(lower), list + [r]))
    ensures forall x :: x in Sort(ReferenceOrder(lower), list + [r]) <==> x in list || x == r
  {
    var less := ReferenceOrder(lower);
    ReferenceOrderIsStrict(lower);
    SortAscending(less, list);
    assert (list + [r])[..|list|] == list;
    forall y | y in list ensures less(r, y) || less(y, r) {
      assert Mentions(forward, kind, s, y);
      ReferencesComparable(lower, r, y);
    }
    InsertAscends(less, list, r);
    InsertMembers(less, list, r);
  }

  lemma DroppedIsOk(
    lower: string -> string, forward: Forward, kind: Kind, before: Inverse, after: Inverse, scope: Scope)
    requires ForwardOk(forward) && InverseOk(lower, forward, kind, before) && scope in forward
    requires Dropped(before, after, scope.0, Ids(kind, forward[scope]), scope.1)
    ensures InverseOk(lower, forward - {scope}, kind, after)
  {
    forall s: Scope ensures ListOk(lower, forward - {scope}, kind, s, Listed(after, s)) {
      assert ListOk(lower, forward, kind, s, Listed(before, s));
      DroppedListIsOk(lower, forward, kind, scope, s, Listed(before, s), Listed(after, s));
    }
  }

  /** Dropping the host from the lists of the ids it mentions leaves every list right without it. */
  lemma DroppedListIsOk(
    lower: string -> string, forward: Forward, kind: Kind, scope: Scope, s: Scope,
    list: seq<HostReference>, list': seq<HostReference>)
    requires scope in forward && ListOk(lower, forward, kind, s, list)
    requires list' == if s.0 == scope.0 && s.1 in Ids(kind, forward[scope]) then Filter(NotHost(scope.1), list)
            else list
    ensures ListOk(lower, forward - {scope}, kind, s, list')
  {
    FilterAscends(ReferenceOrder(lower), NotHost(scope.1), list);
    FilterMembers(NotHost(scope.1), list);
    forall r ensures Mentions(forward - {scope}, kind, s, r)
        <==> Mentions(forward, kind, s, r) && (s.0, r.hostId) != scope {
    }
  }

  /** One more list gets the reference. */
  function AddOne(lower: string -> string, inverse: Inverse, scope: Scope, r: HostReference): Inverse {
    inverse[scope := Sort(ReferenceOrder(lower), Listed(inverse, scope) + [r])]
  }

  /** The list that is touched now was not touched before. */
  lemma AddedHere(
    lower: string -> string, before: Inverse, mid: Inverse, vaultId: string, ids: seq<string>, i: nat, r: HostReference)
    requires Ascending(IdOrder(), ids) && i < |ids| && Added(lower, before, mid, vaultId, ids[..i], r)
    ensures var scope := (vaultId, ids[i]);
            && Listed(AddOne(lower, mid, scope, r), scope) == Sort(ReferenceOrder(lower), Listed(before, scope) + [r])
            && Listed(AddOne(lower, mid, scope, r), scope) != []
  {
    NotSeenYet(ids, i);
    SortIsNotEmpty(ReferenceOrder(lower), Listed(mid, (vaultId, ids[i])), r);
  }

  /** All others are as they were. */
  lemma AddedElsewhere(lower: string -> string, mid: Inverse, scope: Scope, r: HostReference, other: Scope)
    requires other != scope
    ensures Listed(AddOne(lower, mid, scope, r), other) == Listed(mid, other)
  {
  }

  lemma AddedOne(
    lower: string -> string, before: Inverse, mid: Inverse, vaultId: string, ids: seq<string>, i: nat, r: HostReference)
    requires Ascending(IdOrder(), ids) && i < |ids| && Added(lower, before, mid, vaultId, ids[..i], r)
    ensures Added(lower, before, AddOne(lower, mid, (vaultId, ids[i]), r), vaultId, ids[..i + 1], r)
  {
    var scope := (vaultId, ids[i]);
    forall other: Scope
      ensures Listed(AddOne(lower, mid, scope, r), other)
              == if other.0 == vaultId && other.1 in ids[..i + 1]
                  then Sort(ReferenceOrder(lower), Listed(before, other) + [r])
                 else Listed(before, other)
    {
      AddedAt(lower, before, mid, vaultId, ids, i, r, other);
    }
    AddedHere(lower, before, mid, vaultId, ids, i, r);
  }

  lemma AddedAt(
    lower: string -> string, before: Inverse, mid: Inverse, vaultId: string, ids: seq<string>, i: nat, r: HostReference,
    other: Scope)
    requires Ascending(IdOrder(), ids) && i < |ids| && Added(lower, before, mid, vaultId, ids[..i], r)
    ensures Listed(AddOne(lower, mid, (vaultId, ids[i]), r), other)
            == if other.0 == vaultId && other.1 in ids[..i + 1]
               then Sort(ReferenceOrder(lower), Listed(before, other) + [r])
               else Listed(before, other)
  {
    assert ids[..i + 1] == ids[..i] + [ids[i]];
    if other == (vaultId, ids[i]) {
      AddedHere(lower, before, mid, vaultId, ids, i, r);
    } else {
      AddedElsewhere(lower, mid, (vaultId, ids[i]), r, other);
    }
  }

  /** The host is dropped from one more list, which goes if it is then empty. */
  function DropOne(inverse: Inverse, scope: Scope, hostId: string): Inverse {
    if scope !in inverse then inverse else
      var hosts := Filter(NotHost(hostId), inverse[scope]);
      if hosts == [] then inverse - {scope} else inverse[scope := hosts]
  }

  lemma DroppedOne(before: Inverse, mid: Inverse, vaultId: string, ids: seq<string>, i: nat, hostId: string)
    requires Ascending(IdOrder(), ids) && i < |ids| && Dropped(before, mid, vaultId, ids[..i], hostId)
    ensures Dropped(before, DropOne(mid, (vaultId, ids[i]), hostId), vaultId, ids[..i + 1], hostId)
  {
    NotSeenYet(ids, i);
    assert ids[..i + 1] == ids[..i] + [ids[i]];
    var after, scope := DropOne(mid, (vaultId, ids[i]), hostId), (vaultId, ids[i]);
    assert Listed(after, scope) == Filter(NotHost(hostId), Listed(mid, scope));
    assert forall s: Scope | s != scope :: Listed(after, s) == Listed(mid, s);
  }

  // ---- The index, in place ----

  class AuthReferenceIndex {
    const lower: string -> string
    var hostsByScope: Forward
    var hostsForKeys: Inverse
    var hostsForCredentials: Inverse

    ghost predicate Valid()
      reads this
    {
      && ForwardOk(hostsByScope)
      && InverseOk(lower, hostsByScope, Keys, hostsForKeys)
      && InverseOk(lower, hostsByScope, Credentials, hostsForCredentials)
    }

    constructor (lower: string -> string)
      ensures Valid() && hostsByScope == map[] && this.lower == lower
    {
      this.lower := lower;
      hostsByScope, hostsForKeys, hostsForCredentials := map[], map[], map[];
    }

    method AddReferences(before: Inverse, vaultId: string, ids: seq<string>, r: HostReference) returns (after: Inverse)
      requires Ascending(IdOrder(), ids) && forall scope | scope in before :: before[scope] != []
      ensures Added(lower, before, after, vaultId, ids, r)
    {
      after := before;
      for i := 0 to |ids|
        invariant Added(lower, before, after, vaultId, ids[..i], r)
      {
        var scope := (vaultId, ids[i]);
        var refs := Sort(ReferenceOrder(lower), Listed(after, scope) + [r]);
        AddedOne(lower, before, after, vaultId, ids, i, r);
        after := after[scope := refs];
      }
      assert ids[..|ids|] == ids;
    }

    method DropReferences(before: Inverse, vaultId: string, ids: seq<string>, hostId: string) returns (after: Inverse)
      requires Ascending(IdOrder(), ids) && forall scope | scope in before :: before[scope] != []
      ensures Dropped(before, after, vaultId, ids, hostId)
    {
      after := before;
      for i := 0 to |ids|
        invariant Dropped(before, after, vaultId, ids[..i], hostId)
      {
        var scope := (vaultId, ids[i]);
        DroppedOne(before, after, vaultId, ids, i, hostId);
        if scope in after {
          var hosts := Filter(NotHost(hostId), after[scope]);
          if hosts == [] {
            after := after - {scope};
          } else {
            after := after[scope := hosts];
          }
        }
      }
      assert ids[..|ids|] == ids;
    }

    method RemoveByScope(scope: Scope)
      requires Valid()
      modifies this
      ensures Valid() && hostsByScope == old(hostsByScope) - {scope}
    {
      if scope in hostsByScope {
        var entry := hostsByScope[scope];
        var keys := DropReferences(hostsForKeys, scope.0, entry.keyIds, scope.1);
        var credentials := DropReferences(hostsForCredentials, scope.0, entry.credentialIds, scope.1);
        DroppedIsOk(lower, hostsByScope, Keys, hostsForKeys, keys, scope);
        DroppedIsOk(lower, hostsByScope, Credentials, hostsForCredentials, credentials, scope);
        hostsByScope := hostsByScope - {scope};
        hostsForKeys, hostsForCredentials := keys, credentials;
      }
    }

    /** Replaces whatever was indexed for the host; every other host is untouched. */
    method Upsert(vaultId: string, vaultName: string, host: HostAuthSummary) returns (entry: IndexedHost)
      requires Valid()
      modifies this
      ensures Valid() && IsEntry(entry, vaultId, vaultName, host)
      ensures hostsByScope == old(hostsByScope)[(vaultId, host.hostId) := entry]
    {
      var scope := (vaultId, host.hostId);
      RemoveByScope(scope);
      var keyIds, credentialIds := CollectHostAuthReferenceIds(host.authOrder);
      var r := HostReference(vaultId, vaultName, host.hostId, host.hostLabel);
      entry := IndexedHost(r, keyIds, credentialIds);
      AddEntry(scope, entry);
    }

    method AddEntry(scope: Scope, entry: IndexedHost)
      requires Valid() && scope !in hostsByScope && ForwardOk(map[scope := entry])
      modifies this
      ensures Valid() && hostsByScope == old(hostsByScope)[scope := entry]
    {
      assert entry == map[scope := entry][scope];
      var keys := AddReferences(hostsForKeys, scope.0, entry.keyIds, entry.hostReference);
      var credentials := AddReferences(hostsForCredentials, scope.0, entry.credentialIds, entry.hostReference);
      AddedIsOk(lower, hostsByScope, Keys, hostsForKeys, keys, scope, entry);
      AddedIsOk(lower, hostsByScope, Credentials, hostsForCredentials, credentials, scope, entry);
      hostsForKeys, hostsForCredentials := keys, credentials;
      hostsByScope := hostsByScope[scope := entry];
    }

    /** Removes every host of the vault, in whatever order the map gives them. */
    method RemoveVault(vaultId: string)
      requires Valid()
      modifies this
      ensures Valid()
      ensures hostsByScope == map s | s in old(hostsByScope) && s.0 != vaultId :: old(hostsByScope)[s]
    {
      var scopes := set s | s in hostsByScope && s.0 == vaultId;
      while scopes != {}
        invariant Valid()
        invariant forall s | s in scopes :: s.0 == vaultId
        invariant forall s :: s in hostsByScope <==> s in old(hostsByScope) && (s.0 != vaultId || s in scopes)
        invariant forall s | s in hostsByScope :: hostsByScope[s] == old(hostsByScope)[s]
        decreases |scopes|
      {
        var scope :| scope in scopes;
        scopes := scopes - {scope};
        RemoveByScope(scope);
      }
    }
  }

  /** Two indexes of the same hosts are equal, whatever was inserted and removed on the way, and in which order. */
  lemma SameHostsSameMaps(a: AuthReferenceIndex, b: AuthReferenceIndex)
    requires a.Valid() && b.Valid() && a.lower == b.lower && a.hostsByScope == b.hostsByScope
    ensures a.hostsForKeys == b.hostsForKeys && a.hostsForCredentials == b.hostsForCredentials
  {
    InverseIsCanonical(a.lower, a.hostsByScope, Keys, a.hostsForKeys, b.hostsForKeys);
    InverseIsCanonical(a.lower, a.hostsByScope, Credentials, a.hostsForCredentials, b.hostsForCredentials);
  }

  lemma NotSeenYet(ids: seq<string>, i: nat)
    requires Ascending(IdOrder(), ids) && i < |ids|
    ensures ids[i] !in ids[..i]
  {
    IdOrderIsStrict();
    forall j | 0 <= j < i ensures ids[..i][j] != ids[i] {
      assert IdOrder()(ids[j], ids[i]);
    }
  }

  lemma SortIsNotEmpty(less: (HostReference, HostReference) -> bool, s: seq<HostReference>, r: HostReference)
    ensures Sort(less, s + [r]) != []
  {
    InsertMembers(less, Sort(less, (s + [r])[..|s|]), r);
    assert r in Sort(less, s + [r]);
  }
}
