/** Which session was used last: access numbers that refine a move-to-front list. */
module SessionRegistry {
  import opened Text

  type SessionId = nat

  const U64_RANGE: nat := 0x1_0000_0000_0000_0000

  datatype Kind = Local | Remote

  datatype Metadata = Metadata(kind: Kind, lastAccessSeq: nat)

  datatype State = State(sessions: set<SessionId>, metadata: map<SessionId, Metadata>, accessSeq: nat)

  datatype Target = MostRecentOrNew | NewLocal | Attach(id: SessionId)

  /** `spawned` is the id of the local session a window may have to start, if that succeeds. */
  datatype Op =
    | Register(id: SessionId, kind: Kind)
    | Touch(id: SessionId)
    | PrepareWindow(target: Target, spawned: Option<SessionId>)
    | CloseSession(id: SessionId)

  function Init(): State {
    State({}, map[], 0)
  }

  function Bump(s: State): State {
    s.(accessSeq := (s.accessSeq + 1) % U64_RANGE)
  }

  function Registered(s: State, id: SessionId, kind: Kind): State {
    var b := Bump(s);
    b.(sessions := b.sessions + {id}, metadata := b.metadata[id := Metadata(kind, b.accessSeq)])
  }

  function Touched(s: State, id: SessionId): State {
    var b := Bump(s);
    if id in b.metadata then b.(metadata := b.metadata[id := b.metadata[id].(lastAccessSeq := b.accessSeq)]) else b
  }

  ghost predicate IsMostRecent(s: State, id: SessionId) {
    id in s.metadata && forall j | j in s.metadata :: s.metadata[j].lastAccessSeq <= s.metadata[id].lastAccessSeq
  }

  lemma {:induction false} MostRecentExists(s: State)
    requires s.metadata != map[]
    ensures exists id :: IsMostRecent(s, id)
    decreases |s.metadata|
  {
    var id :| id in s.metadata;
    var rest := s.(metadata := s.metadata - {id});
    if rest.metadata == map[] {
      assert s.metadata.Keys == {id} by {
        assert forall j | j in s.metadata && j != id :: j in rest.metadata;
      }
      assert IsMostRecent(s, id);
    } else {
      MostRecentExists(rest);
      var best :| IsMostRecent(rest, best);
      assert forall j | j in s.metadata && j != id :: j in rest.metadata;
      var winner := if s.metadata[best].lastAccessSeq <= s.metadata[id].lastAccessSeq then id else best;
      assert IsMostRecent(s, winner);
    }
  }

  ghost function MostRecent(s: State): (id: SessionId)
    requires s.metadata != map[]
    ensures IsMostRecent(s, id)
  {
    MostRecentExists(s);
    var id :| IsMostRecent(s, id);
    id
  }

  ghost function Step(s: State, op: Op): State {
    match op
    case Register(id, kind) => Registered(s, id, kind)
    case Touch(id) => Touched(s, id)
    case CloseSession(id) => s.(sessions := s.sessions - {id}, metadata := s.metadata - {id})
    case PrepareWindow(MostRecentOrNew, spawned) =>
      if s.metadata != map[] then Touched(s, MostRecent(s))
      else if spawned.Some? then Touched(Registered(s, spawned.value, Local), spawned.value)
      else s
    case PrepareWindow(NewLocal, spawned) =>
      if spawned.Some? then Touched(Registered(s, spawned.value, Local), spawned.value) else s
    case PrepareWindow(Attach(id), _) => if id in s.sessions then Touched(s, id) else s
  }

  ghost function Run(ops: seq<Op>): State {
    if ops == [] then Init() else Step(Run(ops[..|ops| - 1]), ops[|ops| - 1])
  }

  // ---- The reference: a list with the latest first ----

  function Without(list: seq<SessionId>, id: SessionId): seq<SessionId> {
    if list == [] then [] else (if list[0] == id then [] else [list[0]]) + Without(list[1..], id)
  }

  function ToFront(list: seq<SessionId>, id: SessionId): seq<SessionId> {
    [id] + Without(list, id)
  }

  function ListStep(list: seq<SessionId>, op: Op): seq<SessionId> {
    match op
    case Register(id, _) => ToFront(list, id)
    case Touch(id) => if id in list then ToFront(list, id) else list
    case CloseSession(id) => Without(list, id)
    case PrepareWindow(MostRecentOrNew, spawned) =>
      if list != [] then list else if spawned.Some? then [spawned.value] else []
    case PrepareWindow(NewLocal, spawned) => if spawned.Some? then ToFront(list, spawned.value) else list
    case PrepareWindow(Attach(id), _) => if id in list then ToFront(list, id) else list
  }

  function ListRun(ops: seq<Op>): seq<SessionId> {
    if ops == [] then [] else ListStep(ListRun(ops[..|ops| - 1]), ops[|ops| - 1])
  }

  /** How often an operation advances the access counter. */
  function BumpsOf(list: seq<SessionId>, op: Op): nat {
    match op
    case Register(_, _) => 1
    case Touch(_) => 1
    case CloseSession(_) => 0
    case PrepareWindow(MostRecentOrNew, spawned) => if list != [] then 1 else if spawned.Some? then 2 else 0
    case PrepareWindow(NewLocal, spawned) => if spawned.Some? then 2 else 0
    case PrepareWindow(Attach(id), _) => if id in list then 1 else 0
  }

  function Bumps(ops: seq<Op>): nat {
    if ops == [] then 0
    else Bumps(ops[..|ops| - 1]) + BumpsOf(ListRun(ops[..|ops| - 1]), ops[|ops| - 1])
  }

  /** Same sessions in both maps and the list; access numbers fall along the list, none above the counter. */
  ghost predicate Refines(s: State, list: seq<SessionId>) {
    && s.sessions == s.metadata.Keys
    && (forall id :: id in list <==> id in s.metadata)
    && (forall id | id in s.metadata :: s.metadata[id].lastAccessSeq <= s.accessSeq)
    && Descending(s.metadata, list)
  }

  ghost predicate Descending(metadata: map<SessionId, Metadata>, list: seq<SessionId>) {
    forall i, j | 0 <= i < j < |list| && list[i] in metadata && list[j] in metadata ::
      metadata[list[i]].lastAccessSeq > metadata[list[j]].lastAccessSeq
  }

  lemma {:induction false} WithoutMembers(list: seq<SessionId>, id: SessionId)
    ensures forall x :: x in Without(list, id) <==> x in list && x != id
  {
    if list != [] {
      WithoutMembers(list[1..], id);
      assert list == [list[0]] + list[1..];
    }
  }

  lemma {:induction false} WithoutDescends(metadata: map<SessionId, Metadata>, list: seq<SessionId>, id: SessionId)
    requires Descending(metadata, list) && forall x | x in list :: x in metadata
    ensures Descending(metadata, Without(list, id))
  {
    if list != [] {
      WithoutDescends(metadata, list[1..], id);
      WithoutMembers(list[1..], id);
      var rest := Without(list[1..], id);
      forall j | 0 <= j < |rest| ensures metadata[list[0]].lastAccessSeq > metadata[rest[j]].lastAccessSeq {
        assert rest[j] in list[1..];
      }
    }
  }

  /** Giving a session the newest number moves it to the front. */
  lemma NewestGoesFirst(s: State, s': State, list: seq<SessionId>, id: SessionId)
    requires Refines(s, list)
    requires s'.accessSeq == s.accessSeq + 1 && id in s'.metadata && s'.metadata[id].lastAccessSeq == s'.accessSeq
    requires s'.sessions == s.sessions + {id} == s'.metadata.Keys
    requires forall j | j in s.metadata && j != id :: s'.metadata[j] == s.metadata[j]
    ensures Refines(s', ToFront(list, id))
  {
    WithoutMembers(list, id);
    WithoutDescends(s.metadata, list, id);
    var rest := Without(list, id);
    forall j | 0 <= j < |rest| ensures rest[j] in s.metadata && rest[j] != id {
      assert rest[j] in rest;
    }
  }

  lemma CloseKeepsOrder(s: State, list: seq<SessionId>, id: SessionId)
    requires Refines(s, list)
    ensures Refines(Step(s, CloseSession(id)), Without(list, id))
  {
    WithoutMembers(list, id);
    WithoutDescends(s.metadata, list, id);
  }

  /** The most recent session by number is the head of the list. */
  lemma HeadIsMostRecent(s: State, list: seq<SessionId>, id: SessionId)
    requires Refines(s, list) && IsMostRecent(s, id)
    ensures list != [] && list[0] == id
  {
    var i :| 0 <= i < |list| && list[i] == id;
    assert list[0] in list;
  }

  lemma TouchedMovesToFront(s: State, list: seq<SessionId>, id: SessionId)
    requires Refines(s, list) && s.accessSeq + 1 < U64_RANGE
    ensures Touched(s, id).accessSeq == s.accessSeq + 1
    ensures Refines(Touched(s, id), if id in list then ToFront(list, id) else list)
  {
    if id in list {
      NewestGoesFirst(s, Touched(s, id), list, id);
    }
  }

  lemma RegisteredMovesToFront(s: State, list: seq<SessionId>, id: SessionId, kind: Kind)
    requires Refines(s, list) && s.accessSeq + 1 < U64_RANGE
    ensures Registered(s, id, kind).accessSeq == s.accessSeq + 1
    ensures Refines(Registered(s, id, kind), ToFront(list, id))
  {
    NewestGoesFirst(s, Registered(s, id, kind), list, id);
  }

  /** Moving the head to the front changes nothing. */
  lemma ToFrontOfHead(s: State, list: seq<SessionId>)
    requires list != [] && Refines(s, list)
    ensures ToFront(list, list[0]) == list
  {
    var rest := list[1..];
    forall j | 0 <= j < |rest| ensures rest[j] != list[0] {
      assert rest[j] == list[j + 1] && list[j + 1] in list && list[0] in list;
    }
    WithoutAbsent(rest, list[0]);
  }

  lemma {:induction false} WithoutAbsent(list: seq<SessionId>, id: SessionId)
    requires id !in list
    ensures Without(list, id) == list
  {
    if list != [] {
      WithoutAbsent(list[1..], id);
    }
  }

  lemma StepRefines(s: State, list: seq<SessionId>, op: Op)
    requires Refines(s, list) && s.accessSeq + BumpsOf(list, op) < U64_RANGE
    ensures Refines(Step(s, op), ListStep(list, op))
    ensures Step(s, op).accessSeq == s.accessSeq + BumpsOf(list, op)
  {
    match op {
      case Register(id, kind) => RegisteredMovesToFront(s, list, id, kind);
      case Touch(id) => TouchedMovesToFront(s, list, id);
      case CloseSession(id) => CloseKeepsOrder(s, list, id);
      case PrepareWindow(target, spawned) => WindowRefines(s, list, target, spawned);
    }
  }

  lemma WindowRefines(s: State, list: seq<SessionId>, target: Target, spawned: Option<SessionId>)
    requires Refines(s, list) && s.accessSeq + BumpsOf(list, PrepareWindow(target, spawned)) < U64_RANGE
    ensures Refines(Step(s, PrepareWindow(target, spawned)), ListStep(list, PrepareWindow(target, spawned)))
    ensures Step(s, PrepareWindow(target, spawned)).accessSeq == s.accessSeq
            + BumpsOf(list, PrepareWindow(target, spawned))
  {
    assert list == [] <==> s.metadata == map[] by {
      if list != [] { assert list[0] in s.metadata; }
      if s.metadata != map[] { var id :| id in s.metadata; assert id in list; }
    }
    if target.MostRecentOrNew? && list != [] {
      var id := MostRecent(s);
      HeadIsMostRecent(s, list, id);
      TouchedMovesToFront(s, list, id);
      ToFrontOfHead(s, list);
    } else if target.Attach? {
      if target.id in list {
        TouchedMovesToFront(s, list, target.id);
      }
    } else if spawned.Some? {
      var id := spawned.value;
      var r, first := Registered(s, id, Local), ToFront(list, id);
      RegisteredMovesToFront(s, list, id, Local);
      TouchedMovesToFront(r, first, id);
      ToFrontOfHead(r, first);
    }
  }

  /**
   As long as the counter has not wrapped, the registry refines the move-to-front list: both maps
   have the list's sessions, access numbers are distinct and at most the counter.
   */
  lemma {:induction false} RegistryRefinesList(ops: seq<Op>)
    requires Bumps(ops) < U64_RANGE
    ensures Refines(Run(ops), ListRun(ops))
    ensures Run(ops).accessSeq == Bumps(ops)
  {
    if ops != [] {
      var init := ops[..|ops| - 1];
      RegistryRefinesList(init);
      StepRefines(Run(init), ListRun(init), ops[|ops| - 1]);
    }
  }

  // ---- The list, said in terms of the run alone ----

  /** The session an operation uses, given the open ones. */
  function UsedBy(list: seq<SessionId>, op: Op): Option<SessionId> {
    match op
    case Register(id, _) => Some(id)
    case Touch(id) => if id in list then Some(id) else None
    case CloseSession(_) => None
    case PrepareWindow(MostRecentOrNew, spawned) => if list != [] then Some(list[0]) else spawned
    case PrepareWindow(NewLocal, spawned) => spawned
    case PrepareWindow(Attach(id), _) => if id in list then Some(id) else None
  }

  /** The uses of the run, in order. */
  function Uses(ops: seq<Op>): seq<SessionId> {
    if ops == [] then [] else
      var init := ops[..|ops| - 1];
      var used := UsedBy(ListRun(init), ops[|ops| - 1]);
      Uses(init) + (if used.Some? then [used.value] else [])
  }

  /** The last use of a session that satisfies `open`. */
  function LastUse(uses: seq<SessionId>, open: set<SessionId>): Option<SessionId> {
    if uses == [] then None
    else if uses[|uses| - 1] in open then Some(uses[|uses| - 1])
    else LastUse(uses[..|uses| - 1], open)
  }

  /** The list is the uses, latest first, without closed sessions and repetitions. */
  function Latest(uses: seq<SessionId>, open: set<SessionId>): seq<SessionId> {
    if uses == [] then [] else
      var last := uses[|uses| - 1];
      if last in open then [last] + Latest(uses[..|uses| - 1], open - {last})
      else Latest(uses[..|uses| - 1], open)
  }

  lemma {:induction false} LatestHead(uses: seq<SessionId>, open: set<SessionId>)
    ensures Latest(uses, open) == [] <==> LastUse(uses, open).None?
    ensures Latest(uses, open) != [] ==> LastUse(uses, open) == Some(Latest(uses, open)[0])
  {
    if uses != [] && uses[|uses| - 1] !in open {
      LatestHead(uses[..|uses| - 1], open);
    }
  }

  lemma {:induction false} LatestWithout(uses: seq<SessionId>, open: set<SessionId>, id: SessionId)
    ensures Latest(uses, open - {id}) == Without(Latest(uses, open), id)
  {
    if uses != [] {
      var init, last := uses[..|uses| - 1], uses[|uses| - 1];
      if last in open {
        LatestWithout(init, open - {last}, id);
        assert open - {last} - {id} == open - {id} - {last};
        if last == id {
          assert open - {id} == open - {last};
          assert open - {last} - {id} == open - {id};
        }
        assert ([last] + Latest(init, open - {last}))[1..] == Latest(init, open - {last});
      } else {
        LatestWithout(init, open, id);
      }
    }
  }

  function OpenSessions(list: seq<SessionId>): set<SessionId> {
    set id | id in list
  }

  lemma {:induction false} LatestSnoc(uses: seq<SessionId>, open: set<SessionId>, id: SessionId)
    requires id in open
    ensures Latest(uses + [id], open) == [id] + Latest(uses, open - {id})
  {
    assert (uses + [id])[..|uses|] == uses;
  }

  /** The list depends only on the order of uses and on what is still open. */
  lemma {:induction false} ListIsLatestUses(ops: seq<Op>)
    ensures ListRun(ops) == Latest(Uses(ops), OpenSessions(ListRun(ops)))
    ensures NoDuplicates(ListRun(ops))
  {
    if ops != [] {
      var init, op := ops[..|ops| - 1], ops[|ops| - 1];
      ListIsLatestUses(init);
      var before, after := ListRun(init), ListRun(ops);
      var used := UsedBy(before, op);
      if op.CloseSession? {
        WithoutMembers(before, op.id);
        WithoutNoDuplicates(before, op.id);
        LatestWithout(Uses(init), OpenSessions(before), op.id);
        assert OpenSessions(after) == OpenSessions(before) - {op.id};
        assert Uses(init) + [] == Uses(init);
      } else if used.Some? {
        var id := used.value;
        UsedGoesFirst(before, op);
        WithoutMembers(before, id);
        WithoutNoDuplicates(before, id);
        LatestSnoc(Uses(init), OpenSessions(after), id);
        LatestWithout(Uses(init), OpenSessions(before), id);
        assert OpenSessions(after) - {id} == OpenSessions(before) - {id};
        var rest := Without(before, id);
        forall j | 0 <= j < |rest| ensures rest[j] != id {
          assert rest[j] in rest;
        }
      } else {
        assert Uses(init) + [] == Uses(init);
        assert after == before;
      }
    }
  }

  ghost predicate NoDuplicates(list: seq<SessionId>) {
    forall i, j | 0 <= i < j < |list| :: list[i] != list[j]
  }

  lemma {:induction false} WithoutNoDuplicates(list: seq<SessionId>, id: SessionId)
    requires NoDuplicates(list)
    ensures NoDuplicates(Without(list, id))
  {
    if list != [] {
      WithoutNoDuplicates(list[1..], id);
      WithoutMembers(list[1..], id);
      var rest := Without(list[1..], id);
      forall j | 0 <= j < |rest| ensures rest[j] != list[0] {
        assert rest[j] in list[1..];
      }
    }
  }

  lemma UsedGoesFirst(list: seq<SessionId>, op: Op)
    requires NoDuplicates(list) && UsedBy(list, op).Some?
    ensures ListStep(list, op) == ToFront(list, UsedBy(list, op).value)
  {
    if op.PrepareWindow? && op.target.MostRecentOrNew? && list != [] {
      WithoutAbsent(list[1..], list[0]);
    }
  }

  /** The most recent session is the last one registered or touched that is still open. */
  lemma MostRecentIsLastOpenUse(ops: seq<Op>, id: SessionId)
    requires Bumps(ops) < U64_RANGE && IsMostRecent(Run(ops), id)
    ensures LastUse(Uses(ops), Run(ops).sessions) == Some(id)
  {
    RegistryRefinesList(ops);
    HeadIsMostRecent(Run(ops), ListRun(ops), id);
    ListIsLatestUses(ops);
    LatestHead(Uses(ops), OpenSessions(ListRun(ops)));
    assert OpenSessions(ListRun(ops)) == Run(ops).sessions;
  }

  /** Once the counter wraps, a fresh touch gets the smallest number and is no longer most recent. */
  lemma WrapBreaksRecency(s: State, used: SessionId, other: SessionId)
    requires s.accessSeq == U64_RANGE - 1 && used in s.metadata && other in s.metadata && used != other
    requires s.metadata[other].lastAccessSeq > 0
    ensures !IsMostRecent(Step(s, Touch(used)), used)
  {
    var t := Step(s, Touch(used));
    assert t.metadata[other].lastAccessSeq > t.metadata[used].lastAccessSeq;
  }

  // ---- Kinds ----

  /** The session an operation registers, and as what. */
  function RegisteredBy(s: State, op: Op): Option<(SessionId, Kind)> {
    match op
    case Register(id, kind) => Some((id, kind))
    case PrepareWindow(target, spawned) =>
      if spawned.Some? && (target.NewLocal? || (target.MostRecentOrNew? && s.metadata == map[]))
      then Some((spawned.value, Local)) else None
    case _ => None
  }

  /** What a session was last registered as. */
  ghost function KindOf(ops: seq<Op>, id: SessionId): Option<Kind> {
    if ops == [] then None else
      var r := RegisteredBy(Run(ops[..|ops| - 1]), ops[|ops| - 1]);
      if r.Some? && r.value.0 == id then Some(r.value.1) else KindOf(ops[..|ops| - 1], id)
  }

  /** Over every run, of any length, an open session is of the kind it was last registered as. */
  lemma {:induction false} KindIsAsRegistered(ops: seq<Op>, id: SessionId)
    ensures id in Run(ops).metadata ==> KindOf(ops, id) == Some(Run(ops).metadata[id].kind)
  {
    if ops != [] {
      KindIsAsRegistered(ops[..|ops| - 1], id);
    }
  }

  // ---- When the counter wraps ----

  /** The counter after an operation. */
  function SeqAfter(s: State, list: seq<SessionId>, op: Op): nat {
    (s.accessSeq + BumpsOf(list, op)) % U64_RANGE
  }

  /** A wrap leaves the new number not above that of another session. */
  ghost predicate WrapHurts(s: State, list: seq<SessionId>, op: Op) {
    && s.accessSeq + BumpsOf(list, op) >= U64_RANGE
    && exists other | other in list && other in s.metadata ::
         if UsedBy(list, op).Some? then
           other != UsedBy(list, op).value && s.metadata[other].lastAccessSeq >= SeqAfter(s, list, op)
         else s.metadata[other].lastAccessSeq > SeqAfter(s, list, op)
  }

  /** The session has been given the counter's new value, and nothing else has changed. */
  ghost predicate UsedNow(s: State, s': State, id: SessionId) {
    && id in s'.metadata && s'.metadata[id].lastAccessSeq == s'.accessSeq
    && s'.sessions == s.sessions + {id} && s'.metadata.Keys == s.metadata.Keys + {id}
    && forall j | j in s.metadata && j != id :: s'.metadata[j] == s.metadata[j]
  }

  /** No other session of the list has a number as high as the counter now. */
  ghost predicate OthersBelow(s: State, s': State, list: seq<SessionId>, id: SessionId) {
    forall j | j in list && j != id && j in s.metadata :: s.metadata[j].lastAccessSeq < s'.accessSeq
  }

  lemma RestOfFront(s: State, list: seq<SessionId>, id: SessionId, k: nat)
    requires Refines(s, list) && k < |Without(list, id)|
    ensures var j := Without(list, id)[k]; j in list && j != id && j in s.metadata
    ensures ToFront(list, id)[k + 1] == Without(list, id)[k]
  {
    WithoutMembers(list, id);
    assert Without(list, id)[k] in Without(list, id);
  }

  lemma UseRefines(s: State, s': State, list: seq<SessionId>, id: SessionId)
    requires Refines(s, list) && UsedNow(s, s', id) && OthersBelow(s, s', list, id)
    ensures Refines(s', ToFront(list, id))
  {
    WithoutMembers(list, id);
    WithoutDescends(s.metadata, list, id);
    forall k | 0 <= k < |Without(list, id)|
      ensures var j := Without(list, id)[k]; j in list && j != id && j in s.metadata
    {
      RestOfFront(s, list, id, k);
    }
  }

  lemma UseBreaks(s: State, s': State, list: seq<SessionId>, id: SessionId)
    requires Refines(s, list) && UsedNow(s, s', id) && Refines(s', ToFront(list, id))
    ensures OthersBelow(s, s', list, id)
  {
    WithoutMembers(list, id);
    var rest, front := Without(list, id), ToFront(list, id);
    forall j | j in list && j != id && j in s.metadata ensures s.metadata[j].lastAccessSeq < s'.accessSeq {
      var k: nat :| k < |rest| && rest[k] == j;
      RestOfFront(s, list, id, k);
      assert s'.metadata[front[0]].lastAccessSeq > s'.metadata[front[k + 1]].lastAccessSeq;
    }
  }

  lemma EmptyTogether(s: State, list: seq<SessionId>)
    requires Refines(s, list)
    ensures list == [] <==> s.metadata == map[]
  {
    if list != [] { assert list[0] in s.metadata; }
    if s.metadata != map[] { var id :| id in s.metadata; assert id in list; }
  }

  lemma TouchedNow(s: State, id: SessionId)
    requires s.sessions == s.metadata.Keys && id in s.metadata
    ensures UsedNow(s, Touched(s, id), id) && Touched(s, id).accessSeq == (s.accessSeq + 1) % U64_RANGE
  {
  }

  lemma RegisteredNow(s: State, id: SessionId, kind: Kind)
    requires s.sessions == s.metadata.Keys
    ensures UsedNow(s, Registered(s, id, kind), id)
            && Registered(s, id, kind).accessSeq == (s.accessSeq + 1) % U64_RANGE
  {
  }

  lemma SpawnedNow(s: State, id: SessionId)
    requires s.sessions == s.metadata.Keys
    ensures var s' := Touched(Registered(s, id, Local), id);
            UsedNow(s, s', id) && s'.accessSeq == (s.accessSeq + 2) % U64_RANGE
  {
    RegisteredNow(s, id, Local);
    TouchedNow(Registered(s, id, Local), id);
  }

  /** Whatever uses a session gives it the new number, also across a wrap. */
  lemma UseStep(s: State, list: seq<SessionId>, op: Op)
    requires Refines(s, list) && UsedBy(list, op).Some?
    ensures Step(s, op).accessSeq == SeqAfter(s, list, op)
    ensures UsedNow(s, Step(s, op), UsedBy(list, op).value)
  {
    var id := UsedBy(list, op).value;
    match op {
      case Register(_, kind) => RegisteredNow(s, id, kind);
      case Touch(_) => TouchedNow(s, id);
      case PrepareWindow(target, spawned) => WindowUse(s, list, target, spawned);
    }
  }

  lemma WindowUse(s: State, list: seq<SessionId>, target: Target, spawned: Option<SessionId>)
    requires Refines(s, list) && UsedBy(list, PrepareWindow(target, spawned)).Some?
    ensures var op := PrepareWindow(target, spawned);
            Step(s, op).accessSeq == SeqAfter(s, list, op) && UsedNow(s, Step(s, op), UsedBy(list, op).value)
  {
    EmptyTogether(s, list);
    var id := UsedBy(list, PrepareWindow(target, spawned)).value;
    if target.MostRecentOrNew? && list != [] {
      HeadIsMostRecent(s, list, MostRecent(s));
      TouchedNow(s, id);
    } else if target.Attach? {
      TouchedNow(s, id);
    } else {
      SpawnedNow(s, id);
    }
  }

  lemma IdleStep(s: State, list: seq<SessionId>, op: Op)
    requires Refines(s, list) && UsedBy(list, op).None? && !op.CloseSession?
    ensures Step(s, op) == s.(accessSeq := SeqAfter(s, list, op)) || (Step(s, op) == s && BumpsOf(list, op) == 0)
    ensures ListStep(list, op) == list
  {
    EmptyTogether(s, list);
  }

  /** One operation keeps the refinement exactly when no wrap leaves another session with a number as high. */
  lemma StepRefinesIff(s: State, list: seq<SessionId>, op: Op)
    requires Refines(s, list) && NoDuplicates(list) && s.accessSeq < U64_RANGE
    ensures Refines(Step(s, op), ListStep(list, op)) <==> !WrapHurts(s, list, op)
  {
    if s.accessSeq + BumpsOf(list, op) < U64_RANGE {
      StepRefines(s, list, op);
    } else if UsedBy(list, op).Some? {
      UseStep(s, list, op);
      UsedGoesFirst(list, op);
      var s', id := Step(s, op), UsedBy(list, op).value;
      if OthersBelow(s, s', list, id) {
        UseRefines(s, s', list, id);
      } else if Refines(s', ToFront(list, id)) {
        UseBreaks(s, s', list, id);
      }
    } else {
      IdleStep(s, list, op);
    }
  }

  /** For a touch: the counter does not wrap, or the touched session is the only one. */
  lemma TouchRefinesIff(s: State, list: seq<SessionId>, used: SessionId)
    requires Refines(s, list) && NoDuplicates(list) && used in list && s.accessSeq < U64_RANGE
    ensures Refines(Step(s, Touch(used)), ListStep(list, Touch(used)))
            <==> s.accessSeq + 1 < U64_RANGE || list == [used]
  {
    StepRefinesIff(s, list, Touch(used));
    if s.accessSeq + 1 == U64_RANGE {
      TouchWrapHurts(s, list, used);
    }
  }

  /** At the wrap the new number is 0, which is above no other. */
  lemma TouchWrapHurts(s: State, list: seq<SessionId>, used: SessionId)
    requires Refines(s, list) && NoDuplicates(list) && used in list && s.accessSeq + 1 == U64_RANGE
    ensures WrapHurts(s, list, Touch(used)) <==> list != [used]
  {
    OnlyOneOrAnother(list, used);
    assert SeqAfter(s, list, Touch(used)) == 0;
    if list != [used] {
      var other :| other in list && other != used;
      assert other in s.metadata && s.metadata[other].lastAccessSeq >= 0;
    }
  }

  lemma OnlyOneOrAnother(list: seq<SessionId>, used: SessionId)
    requires NoDuplicates(list) && used in list
    ensures list == [used] <==> forall other | other in list :: other == used
  {
    if forall other | other in list :: other == used {
      assert |list| > 1 ==> list[0] in list && list[1] in list && list[0] != list[1];
      assert list[0] in list;
    }
  }

  ghost predicate RefinesThroughout(ops: seq<Op>) {
    Refines(Run(ops), ListRun(ops)) && (ops != [] ==> RefinesThroughout(ops[..|ops| - 1]))
  }

  ghost predicate NoWrapHurts(ops: seq<Op>) {
    ops != [] ==>
      && NoWrapHurts(ops[..|ops| - 1])
      && !WrapHurts(Run(ops[..|ops| - 1]), ListRun(ops[..|ops| - 1]), ops[|ops| - 1])
  }

  lemma {:induction false} SeqIsBounded(ops: seq<Op>)
    ensures Run(ops).accessSeq < U64_RANGE
  {
    if ops != [] {
      SeqIsBounded(ops[..|ops| - 1]);
    }
  }

  /** Over every run, of any length, the registry refines the list throughout exactly when no wrap hurts. */
  lemma {:induction false} RefinesIffNoWrapHurts(ops: seq<Op>)
    ensures RefinesThroughout(ops) <==> NoWrapHurts(ops)
  {
    if ops != [] {
      var init, op := ops[..|ops| - 1], ops[|ops| - 1];
      RefinesIffNoWrapHurts(init);
      SeqIsBounded(init);
      ListIsLatestUses(init);
      if RefinesThroughout(init) {
        StepRefinesIff(Run(init), ListRun(init), op);
      }
    }
  }

  /** Two sessions, and the first of them touched over and over. */
  function LongRun(a: SessionId, b: SessionId, touches: nat): seq<Op> {
    if touches == 0 then [Register(a, Local), Register(b, Local), Touch(a)] else LongRun(a, b, touches - 1) + [Touch(a)]
  }

  lemma MoveFirst(a: SessionId, b: SessionId, list: seq<SessionId>)
    requires a != b && (list == [a, b] || list == [b, a])
    ensures ToFront(list, a) == [a, b]
  {
    var second := list[1];
    assert list[1..] == [second] && [second][1..] == [];
    assert Without([second], a) == if second == a then [] else [second];
  }

  lemma {:induction false} LongRunEnds(a: SessionId, b: SessionId, touches: nat)
    requires a != b
    ensures ListRun(LongRun(a, b, touches)) == [a, b] && Bumps(LongRun(a, b, touches)) == touches + 3
  {
    var ops := LongRun(a, b, touches);
    if touches == 0 {
      var one, two := [Register(a, Local)], [Register(a, Local), Register(b, Local)];
      assert one[..0] == [] && two[..1] == one && ops[..2] == two;
      assert ListRun(one) == [a] && Bumps(one) == 1;
      WithoutAbsent([a], b);
      assert ListRun(two) == [b, a] && Bumps(two) == 2;
      MoveFirst(a, b, [b, a]);
    } else {
      LongRunEnds(a, b, touches - 1);
      assert ops[..|ops| - 1] == LongRun(a, b, touches - 1);
      MoveFirst(a, b, [a, b]);
    }
  }

  /** A run that reaches the wrap with two sessions open: the session touched last is then not the most recent. */
  lemma WrapIsReached(a: SessionId, b: SessionId)
    requires a != b
    ensures var ops := LongRun(a, b, U64_RANGE - 4);
            && Refines(Run(ops), ListRun(ops)) && Run(ops).accessSeq == U64_RANGE - 1
            && !Refines(Run(ops + [Touch(a)]), ListRun(ops + [Touch(a)]))
  {
    var ops := LongRun(a, b, U64_RANGE - 4);
    LongRunEnds(a, b, U64_RANGE - 4);
    RegistryRefinesList(ops);
    assert (ops + [Touch(a)])[..|ops|] == ops;
    TouchRefinesIff(Run(ops), [a, b], a);
  }

  /** What a window request does, also when equal access numbers leave a choice to the map's order. */
  ghost predicate WindowEffect(
    s: State, target: Target, spawned: Option<SessionId>, attached: Option<SessionId>, s': State) {
    match target
    case MostRecentOrNew =>
      if s.metadata != map[] then
        attached.Some? && IsMostRecent(s, attached.value) && s' == Touched(s, attached.value)
      else SpawnEffect(s, spawned, attached, s')
    case NewLocal => SpawnEffect(s, spawned, attached, s')
    case Attach(id) =>
      if id in s.sessions then attached == Some(id) && s' == Touched(s, id) else attached.None? && s' == s
  }

  predicate SpawnEffect(s: State, spawned: Option<SessionId>, attached: Option<SessionId>, s': State) {
    && attached == spawned
    && s' == if spawned.Some? then Touched(Registered(s, spawned.value, Local), spawned.value) else s
  }

  // ---- In place ----

  class Registry {
    var sessions: set<SessionId>
    var metadata: map<SessionId, Metadata>
    var accessSeq: nat

    ghost function Model(): State
      reads this
    {
      State(sessions, metadata, accessSeq)
    }

    constructor ()
      ensures Model() == Init()
    {
      sessions, metadata, accessSeq := {}, map[], 0;
    }

    method BumpAccessSeq()
      modifies this`accessSeq
      ensures Model() == Bump(old(Model()))
    {
      accessSeq := (accessSeq + 1) % U64_RANGE;
    }

    method RegisterSession(id: SessionId, kind: Kind)
      modifies this
      ensures Model() == Step(old(Model()), Register(id, kind))
    {
      BumpAccessSeq();
      sessions := sessions + {id};
      metadata := metadata[id := Metadata(kind, accessSeq)];
    }

    method TouchSession(id: SessionId)
      modifies this
      ensures Model() == Step(old(Model()), Touch(id))
    {
      BumpAccessSeq();
      if id in metadata {
        metadata := metadata[id := metadata[id].(lastAccessSeq := accessSeq)];
      }
    }

    method Remove(id: SessionId) returns (removed: bool)
      modifies this
      ensures Model() == Step(old(Model()), CloseSession(id))
      ensures removed == (id in old(sessions))
    {
      removed := id in sessions;
      sessions := sessions - {id};
      metadata := metadata - {id};
    }

    /** Scans the map in whatever order it comes. */
    method MostRecentSessionId() returns (best: Option<SessionId>)
      ensures best.None? <==> metadata == map[]
      ensures best.Some? ==> IsMostRecent(Model(), best.value)
    {
      best := None;
      var left := metadata.Keys;
      while left != {}
        invariant left <= metadata.Keys
        invariant best.None? ==> left == metadata.Keys
        invariant best.Some? ==> best.value in metadata && forall j | j in metadata && j !in left ::
                    metadata[j].lastAccessSeq <= metadata[best.value].lastAccessSeq
        decreases |left|
      {
        var id :| id in left;
        left := left - {id};
        if best.None? || metadata[best.value].lastAccessSeq <= metadata[id].lastAccessSeq {
          best := Some(id);
        }
      }
    }

    /** The session the window attaches to, or nothing (and no change) when there is none to be had. */
    method PrepareWindow(target: Target, spawned: Option<SessionId>, ghost list: seq<SessionId>)
      returns (attached: Option<SessionId>)
      modifies this
      ensures WindowEffect(old(Model()), target, spawned, attached, Model())
      ensures Refines(old(Model()), list) ==>
                && Model() == Step(old(Model()), Op.PrepareWindow(target, spawned))
                && attached == UsedBy(list, Op.PrepareWindow(target, spawned))
    {
      match target {
        case MostRecentOrNew =>
          attached := MostRecentSessionId();
          if attached.Some? {
            if Refines(Model(), list) {
              HeadIsMostRecent(Model(), list, attached.value);
              HeadIsMostRecent(Model(), list, MostRecent(Model()));
            }
          } else if spawned.Some? {
            RegisterSession(spawned.value, Local);
            attached := spawned;
          }
          assert list != [] ==> list[0] in list;
        case NewLocal =>
          attached := spawned;
          if spawned.Some? {
            RegisterSession(spawned.value, Local);
          }
        case Attach(id) =>
          attached := if id in sessions then Some(id) else None;
      }
      if attached.Some? {
        TouchSession(attached.value);
      }
    }
  }
}
