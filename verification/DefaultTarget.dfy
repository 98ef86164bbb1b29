/** The vault that actions go to when none is named, and when it depends on how a map is iterated. */
module DefaultTarget {
  import opened Text
  import opened Sorting
  import opened ConfigModel
  import opened ConfigValidation
  import opened VaultModel
  import opened RegistryMirror

  predicate IsUnlocked(s: State, id: string) {
    id in s.vaults && s.vaults[id].access.Unlocked?
  }

  /** The name that vaults are compared by. */
  function SortName(env: Env, s: State, id: string): string
    requires id in s.vaults
  {
    env.lower(s.vaults[id].entry.name)
  }

  predicate DefaultUnlocked(s: State) {
    s.config.vaults.defaultTargetVaultId.Some? && IsUnlocked(s, s.config.vaults.defaultTargetVaultId.value)
  }

  /** An order in which a map may hand out its keys: every key, once. */
  ghost predicate Enumerates(order: seq<string>, keys: set<string>) {
    && (forall id :: id in order <==> id in keys)
    && (forall i, j | 0 <= i < j < |order| :: order[i] != order[j])
  }

  /** Unlocked, and no unlocked vault has a smaller name. */
  ghost predicate Least(env: Env, s: State, id: string) {
    IsUnlocked(s, id) && forall other | IsUnlocked(s, other) :: !StrLess(SortName(env, s, other), SortName(env, s, id))
  }

  /** The first least vault in the order. */
  ghost predicate FirstLeast(env: Env, s: State, order: seq<string>, id: string) {
    Least(env, s, id)
    && exists k | 0 <= k < |order| :: order[k] == id && forall j | 0 <= j < k :: !Least(env, s, order[j])
  }

  ghost predicate IsTarget(env: Env, s: State, order: seq<string>, target: Option<string>) {
    if DefaultUnlocked(s) then target == s.config.vaults.defaultTargetVaultId
    else if target.Some? then FirstLeast(env, s, order, target.value)
    else forall id :: !IsUnlocked(s, id)
  }

  // ---- The choice, as the code makes it ----

  /** An unlocked vault's id with its lowercased name. */
  type Candidate = (string, string)

  function NameOrder(): (Candidate, Candidate) -> bool {
    (a: Candidate, b: Candidate) => StrLess(a.1, b.1)
  }

  lemma NameOrderIsWeak(a: Candidate, b: Candidate, c: Candidate)
    requires NameOrder()(a, b) && !NameOrder()(c, b)
    ensures NameOrder()(a, c)
  {
    StrLessTotal(b.1, c.1);
    if StrLess(b.1, c.1) {
      StrLessTransitive(a.1, b.1, c.1);
    }
  }

  /** A stable sort puts the first of the smallest elements in front. */
  lemma {:induction false} SortHead(s: seq<Candidate>) returns (k: nat)
    requires s != []
    ensures k < |s| && Sort(NameOrder(), s) != [] && Sort(NameOrder(), s)[0] == s[k]
    ensures forall j | 0 <= j < |s| :: !NameOrder()(s[j], s[k])
    ensures forall j | 0 <= j < k :: NameOrder()(s[k], s[j])
  {
    var n := |s| - 1;
    StrLessIrreflexive(s[n].1);
    k := n;
    if n > 0 {
      var front := s[..n];
      var m := SortHead(front);
      if NameOrder()(s[n], s[m]) {
        forall j | 0 <= j < n ensures NameOrder()(s[n], s[j]) && !NameOrder()(s[j], s[n]) {
          assert front[j] == s[j];
          NameOrderIsWeak(s[n], s[m], s[j]);
          StrLessIrreflexive(s[n].1);
          if StrLess(s[j].1, s[n].1) { StrLessTransitive(s[n].1, s[j].1, s[n].1); }
        }
      } else {
        k := m;
        assert forall j | 0 <= j < n :: front[j] == s[j];
      }
    }
  }

  /** The unlocked vaults among the first `i` in the order, with their names. */
  ghost predicate Collects(env: Env, s: State, order: seq<string>, i: nat, found: seq<Candidate>, at: seq<nat>) {
    && i <= |order| && |at| == |found|
    && (forall m | 0 <= m < |at| ::
          at[m] < i && order[at[m]] == found[m].0 && IsUnlocked(s, found[m].0)
              && found[m].1 == SortName(env, s, found[m].0))
    && (forall m, n | 0 <= m < n < |at| :: at[m] < at[n])
    && (forall j | 0 <= j < i && IsUnlocked(s, order[j]) :: j in at)
  }

  lemma CollectedFirst(env: Env, s: State, order: seq<string>, found: seq<Candidate>, at: seq<nat>, k: nat)
    requires Enumerates(order, s.vaults.Keys) && Collects(env, s, order, |order|, found, at) && k < |found|
    requires forall j | 0 <= j < |found| :: !NameOrder()(found[j], found[k])
    requires forall j | 0 <= j < k :: NameOrder()(found[k], found[j])
    ensures FirstLeast(env, s, order, found[k].0)
  {
    var id := found[k].0;
    forall other | IsUnlocked(s, other) ensures !StrLess(SortName(env, s, other), SortName(env, s, id)) {
      assert other in order;
      var j :| 0 <= j < |order| && order[j] == other;
      var m :| 0 <= m < |at| && at[m] == j;
      assert !NameOrder()(found[m], found[k]);
    }
    forall j | 0 <= j < at[k] ensures !Least(env, s, order[j]) {
      if IsUnlocked(s, order[j]) {
        var m :| 0 <= m < |at| && at[m] == j;
        assert m < k;
        assert NameOrder()(found[k], found[m]);
      }
    }
  }

  /** `order` is whatever order the vault map is iterated in. */
  method DefaultTargetVaultIdForActions(env: Env, s: State, order: seq<string>) returns (target: Option<string>)
    requires Enumerates(order, s.vaults.Keys)
    ensures IsTarget(env, s, order, target)
    ensures target.Some? ==> IsUnlocked(s, target.value)
    ensures target.None? <==> forall id :: !IsUnlocked(s, id)
  {
    if DefaultUnlocked(s) {
      return s.config.vaults.defaultTargetVaultId;
    }
    var found: seq<Candidate> := [];
    ghost var at: seq<nat> := [];
    for i := 0 to |order|
      invariant Collects(env, s, order, i, found, at)
    {
      assert order[i] in order;
      if s.vaults[order[i]].access.Unlocked? {
        found := found + [(order[i], env.lower(s.vaults[order[i]].entry.name))];
        at := at + [i];
        assert at[|at| - 1] == i;
      }
    }
    if found == [] {
      NoneCollected(env, s, order, at);
      return None;
    }
    ghost var k := SortHead(found);
    CollectedFirst(env, s, order, found, at, k);
    target := Some(Sort(NameOrder(), found)[0].0);
  }

  lemma NoneCollected(env: Env, s: State, order: seq<string>, at: seq<nat>)
    requires Enumerates(order, s.vaults.Keys) && Collects(env, s, order, |order|, [], at)
    ensures forall id :: !IsUnlocked(s, id)
  {
    forall id ensures !IsUnlocked(s, id) {
      if id in s.vaults {
        var j :| 0 <= j < |order| && order[j] == id;
      }
    }
  }

  // ---- When the order matters ----

  /** Two least vaults, and no unlocked default to prefer. */
  ghost predicate Tied(env: Env, s: State) {
    !DefaultUnlocked(s) && exists a, b | a != b :: Least(env, s, a) && Least(env, s, b)
  }

  ghost predicate OrderMatters(env: Env, s: State) {
    exists o1, o2, t1, t2 ::
      && Enumerates(o1, s.vaults.Keys) && Enumerates(o2, s.vaults.Keys)
      && IsTarget(env, s, o1, t1) && IsTarget(env, s, o2, t2) && t1 != t2
  }

  ghost function Listing(keys: set<string>): (order: seq<string>)
    ensures Enumerates(order, keys)
    decreases |keys|
  {
    if keys == {} then [] else
      var id :| id in keys;
      [id] + Listing(keys - {id})
  }

  lemma ChosenFirst(env: Env, s: State, a: string) returns (order: seq<string>)
    requires !DefaultUnlocked(s) && Least(env, s, a)
    ensures Enumerates(order, s.vaults.Keys) && IsTarget(env, s, order, Some(a))
  {
    order := [a] + Listing(s.vaults.Keys - {a});
    assert order[0] == a;
    forall id ensures id in order <==> id in s.vaults.Keys {
      if id != a { assert id in order <==> id in Listing(s.vaults.Keys - {a}); }
    }
    forall i, j | 0 <= i < j < |order| ensures order[i] != order[j] {
      if i == 0 { assert order[j] in Listing(s.vaults.Keys - {a}); }
    }
  }

  /** The target depends on the iteration order exactly when two unlocked vaults tie for it. */
  lemma OrderMattersIffTied(env: Env, s: State)
    ensures OrderMatters(env, s) <==> Tied(env, s)
  {
    if Tied(env, s) {
      var a, b :| a != b && Least(env, s, a) && Least(env, s, b);
      var o1 := ChosenFirst(env, s, a);
      var o2 := ChosenFirst(env, s, b);
      assert IsTarget(env, s, o1, Some(a)) && IsTarget(env, s, o2, Some(b)) && Some(a) != Some(b);
    }
    if OrderMatters(env, s) {
      var o1, o2, t1, t2 :|
        && Enumerates(o1, s.vaults.Keys) && Enumerates(o2, s.vaults.Keys)
        && IsTarget(env, s, o1, t1) && IsTarget(env, s, o2, t2) && t1 != t2;
      assert t1.Some? && t2.Some? ==> Least(env, s, t1.value) && Least(env, s, t2.value);
    }
  }

  /** Two least vaults have the same lowercased name. */
  lemma LeastShareName(env: Env, s: State, a: string, b: string)
    requires Least(env, s, a) && Least(env, s, b)
    ensures SortName(env, s, a) == SortName(env, s, b)
  {
    StrLessTotal(SortName(env, s, a), SortName(env, s, b));
  }

  /** Where memory mirrors a valid registry, names are distinct and the order cannot matter. */
  lemma MirroredTargetIsStable(env: Env, s: State)
    requires Mirrors(env, s)
    ensures !OrderMatters(env, s)
  {
    OrderMattersIffTied(env, s);
    if Tied(env, s) {
      var a, b :| a != b && Least(env, s, a) && Least(env, s, b);
      LeastShareName(env, s, a, b);
      MirroredNamesDiffer(env, s, a, b);
    }
  }

  lemma MirroredNamesDiffer(env: Env, s: State, a: string, b: string)
    requires Mirrors(env, s) && a in s.vaults && b in s.vaults && a != b
    ensures SortName(env, s, a) != SortName(env, s, b)
  {
    var es := s.config.vaults.entries;
    var i :| 0 <= i < |es| && es[i] == s.vaults[a].entry;
    var j :| 0 <= j < |es| && es[j] == s.vaults[b].entry;
    assert es[i].id == a && es[j].id == b;
    assert EntriesApart(env, es[if i < j then i else j], es[if i < j then j else i]);
  }

  /** Over every run without one of the refusals that leave memory and configuration apart. */
  lemma TargetIsStableOverRuns(env: Env, s: State, config: AppConfig, ops: seq<Op>)
    requires LoadedFrom(s, config) && IsNormalized(config) && ConfigValid(env, config) && NoBreak(env, s, ops)
    ensures !OrderMatters(env, RunFrom(env, s, ops))
  {
    MirrorHoldsOverRuns(env, s, config, ops);
    MirroredTargetIsStable(env, RunFrom(env, s, ops));
  }

  /**
   Renaming compares names by ASCII case only, validation by full lowercasing. A name that clashes
   only in the second way is refused by the configuration but stays in memory: if the vault so named
   is unlocked along with the one it clashes with, no unlocked vault comes before them and no default
   is unlocked, the target then depends on the iteration order.
   */
  lemma RefusedRenameTies(env: Env, s: State, op: Op, other: string)
    requires Mirrors(env, s) && op.Rename? && RenameAttempted(s, op) && !DefaultUnlocked(s)
    requires IsUnlocked(s, op.id) && IsUnlocked(s, other) && other != op.id
    requires forall v | IsUnlocked(s, v) && v != op.id :: !StrLess(SortName(env, s, v), SortName(env, s, other))
    requires SortName(env, s, other) == env.lower(Trim(op.name))
    ensures RenameStep(env, s, op).config == s.config
    ensures OrderMatters(env, RenameStep(env, s, op))
  {
    var s' := RenameStep(env, s, op);
    RefusedRename(env, s, op, other);
    RenamedIsLeast(env, s, s', op, other);
    OrderMattersIffTied(env, s');
  }

  lemma RenamedIsLeast(env: Env, s: State, s': State, op: Op, other: string)
    requires op.Rename? && IsUnlocked(s, op.id) && IsUnlocked(s, other) && other != op.id
    requires s'.vaults == s.vaults[op.id := s.vaults[op.id].(entry := RenamedEntry(s, op))]
    requires forall v | IsUnlocked(s, v) && v != op.id :: !StrLess(SortName(env, s, v), SortName(env, s, other))
    requires SortName(env, s, other) == env.lower(Trim(op.name))
    ensures Least(env, s', other) && Least(env, s', op.id)
  {
    forall id | IsUnlocked(s', id)
      ensures IsUnlocked(s, id) && SortName(env, s', id)
              == if id == op.id then SortName(env, s, other) else SortName(env, s, id)
    {
    }
    StrLessIrreflexive(SortName(env, s, other));
  }

  lemma RefusedRename(env: Env, s: State, op: Op, other: string)
    requires Mirrors(env, s) && op.Rename? && RenameAttempted(s, op)
    requires other in s.vaults && other != op.id && SortName(env, s, other) == env.lower(Trim(op.name))
    ensures RenameStep(env, s, op).config == s.config
  {
    var es, entry := s.config.vaults.entries, RenamedEntry(s, op);
    var k :| 0 <= k < |es| && es[k] == s.vaults[op.id].entry;
    ReplacedAt(env, es, k, entry);
    TrimIsTrimmed(op.name);
    RenamedRegistry(env, s.config.vaults, k, entry);
    AfterUpdate(env, s, RenameStep(env, s, op), s.config.vaults.(entries := es[k := entry]), op.persistOk);
    NameFreeAgrees(env, s, entry);
    assert !NameFree(env, s, op.id, entry.name);
  }
}
