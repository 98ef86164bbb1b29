/** Two copies of a vault that are edited apart and exchange deltas come to hold the same records. */
module SyncConvergence {
  import opened Text
  import opened Sorting
  import opened VaultSync

  /** One copy; `cursor` is its logical clock. */
  datatype Replica = Replica(cursor: nat, table: Table)

  /** Rows under their ids, and no record from the future. */
  ghost predicate ReplicaOk(r: Replica) {
    forall id | id in r.table :: r.table[id].recordId == id && r.table[id].logicalClock <= r.cursor
  }

  /** A delta exported since a cursor: the records with later clocks, in any order. */
  ghost predicate Exports(delta: Delta, r: Replica, since: nat) {
    && delta.fromClock == (if since < r.cursor then since else r.cursor)
    && delta.toClock == r.cursor
    && forall x :: x in delta.records <==>
         x.recordId in r.table && r.table[x.recordId] == x && x.logicalClock > delta.fromClock
  }

  function Apply(r: Replica, delta: Delta): Replica {
    Replica(MaxClock(Max(r.cursor, delta.toClock), delta.records), Merge(r.table, delta.records))
  }

  // ---- What one exchange does to one record ----

  /** What is sent for an id. */
  function Sent(x: Option<Record>, since: nat): Option<Record> {
    if x.Some? && x.value.logicalClock > since then x else None
  }

  function Received(before: Option<Record>, sent: Option<Record>): Option<Record> {
    if sent.None? then before else AcceptAt(before, sent.value)
  }

  predicate MatchOption(x: Option<Record>, y: Option<Record>) {
    (x.Some? <==> y.Some?) && (x.Some? && y.Some? ==> Match(x.value, y.value))
  }

  lemma AcceptedAt(table: Table, r: Record, id: string)
    ensures At(Accept(table, r), id) == if id == r.recordId then AcceptAt(At(table, id), r) else At(table, id)
  {
  }

  lemma AcceptTwice(x: Option<Record>, r: Record)
    ensures AcceptAt(AcceptAt(x, r), r) == AcceptAt(x, r)
  {
    PrecedenceIsTotal(AsSynced(r), r);
  }

  lemma {:induction false} MergeOneOffer(table: Table, records: seq<Record>, id: string, r: Record)
    requires Offered(records, id, r) && forall q | Offered(records, id, q) :: q == r
    ensures At(Merge(table, records), id) == AcceptAt(At(table, id), r)
  {
    var front, last := records[..|records| - 1], records[|records| - 1];
    assert records == front + [last];
    OfferedSnoc(front, last, id);
    assert last.recordId == id ==> Offered(records, id, last);
    AcceptedAt(Merge(table, front), last, id);
    if Offered(front, id, r) {
      assert forall q | Offered(front, id, q) :: Offered(records, id, q);
      MergeOneOffer(table, front, id, r);
      AcceptTwice(At(table, id), r);
    } else {
      assert forall q :: !Offered(front, id, q);
      MergeNotOffered(table, front, id);
    }
  }

  lemma ApplyAt(to: Replica, from: Replica, since: nat, delta: Delta, id: string)
    requires ReplicaOk(from) && Exports(delta, from, since)
    ensures At(Apply(to, delta).table, id) == Received(At(to.table, id), Sent(At(from.table, id), since))
  {
    var sent := Sent(At(from.table, id), since);
    assert forall r :: Offered(delta.records, id, r) <==> sent == Some(r);
    if sent.Some? {
      MergeOneOffer(to.table, delta.records, id, sent.value);
    } else {
      MergeNotOffered(to.table, delta.records, id);
    }
  }

  /** The later of the two records of an id. */
  function Winner(x: Option<Record>, y: Option<Record>): Option<Record> {
    if x.None? || (y.Some? && Precedes(x.value, y.value)) then y else x
  }

  predicate KindsDiffer(x: Option<Record>, y: Option<Record>) {
    x.Some? && y.Some? && x.value.kind != y.value.kind
  }

  /**
   The record for an id is the same in both copies; or the later one is new enough to be sent; or
   the two are of different kinds and either is, since then whichever is sent replaces the other.
   */
  predicate Settles(x: Option<Record>, y: Option<Record>, since: nat) {
    || MatchOption(x, y)
    || (if KindsDiffer(x, y) then Sent(x, since).Some? || Sent(y, since).Some? else Sent(Winner(x, y), since).Some?)
  }

  /** An exchange makes a record the same in both copies exactly when it settles. */
  lemma ExchangeAt(x: Option<Record>, y: Option<Record>, since: nat)
    ensures var x' := Received(x, Sent(y, since));
            var y' := Received(y, Sent(x', since));
            MatchOption(x', y') <==> Settles(x, y, since)
  {
    if x.Some? { PrecedenceIsTotal(AsSynced(x.value), x.value); }
    if y.Some? {
      PrecedenceIsTotal(AsSynced(y.value), y.value);
      PrecedenceIsTotal(y.value, AsSynced(y.value));
    }
    if x.Some? && y.Some? { PrecedenceIsTotal(x.value, y.value); }
  }

  // ---- An exchange of deltas ----

  /** Each side applies what the other exports since the cursor; the second export is made after the first import. */
  ghost predicate Exchange(a: Replica, b: Replica, since: nat, first: Delta, second: Delta) {
    Exports(first, b, since) && Exports(second, Apply(a, first), since)
  }

  ghost predicate AllSettle(a: Replica, b: Replica, since: nat) {
    forall id :: Settles(At(a.table, id), At(b.table, id), since)
  }

  /** Importing keeps a copy in order; its clock is then the later of the two. */
  lemma ApplyOk(to: Replica, from: Replica, since: nat, delta: Delta)
    requires ReplicaOk(to) && ReplicaOk(from) && Exports(delta, from, since)
    ensures ReplicaOk(Apply(to, delta)) && Apply(to, delta).cursor == Max(to.cursor, from.cursor)
  {
    var to' := Apply(to, delta);
    ClockCatchesUp(Max(to.cursor, delta.toClock), delta.records);
    forall id | id in to'.table ensures to'.table[id].recordId == id && to'.table[id].logicalClock <= to'.cursor {
      ApplyAt(to, from, since, delta, id);
    }
  }

  lemma {:induction false} ClockCatchesUp(clock: nat, records: seq<Record>)
    requires forall r | r in records :: r.logicalClock <= clock
    ensures MaxClock(clock, records) == clock
  {
    if records != [] {
      ClockCatchesUp(clock, records[..|records| - 1]);
    }
  }

  /** Two copies agree after an exchange exactly when every record settles. */
  lemma ExchangeConvergesIff(a: Replica, b: Replica, since: nat, first: Delta, second: Delta)
    requires ReplicaOk(a) && ReplicaOk(b) && Exchange(a, b, since, first, second)
    ensures Agree(Apply(a, first).table, Apply(b, second).table) <==> AllSettle(a, b, since)
  {
    var a', b' := Apply(a, first), Apply(b, second);
    ApplyOk(a, b, since, first);
    forall id ensures AgreeAt(a'.table, b'.table, id) <==> Settles(At(a.table, id), At(b.table, id), since) {
      ApplyAt(a, b, since, first, id);
      ApplyAt(b, a', since, second, id);
      ExchangeAt(At(a.table, id), At(b.table, id), since);
    }
  }

  // ---- Copies with a common base ----

  datatype Edit =
    | Store(id: string, kind: RecordKind, modifiedAt: int, contents: Sealed)
    | Delete(id: string, kind: RecordKind, deletedAt: int)

  const RECORD_SCHEMA_VERSION: nat := 1

  predicate HasRow(table: Table, id: string, kind: RecordKind) {
    id in table && table[id].kind == kind
  }

  /** `store_record` and `delete_record`: a record that changes gets the next clock. */
  function EditStep(r: Replica, edit: Edit): Replica {
    match edit
    case Store(id, kind, modifiedAt, contents) =>
      var synced := if HasRow(r.table, id, kind) then r.table[id].lastSyncedClock else None;
      Replica(r.cursor + 1, r.table[id :=
        Record(id, kind, RECORD_SCHEMA_VERSION, r.cursor + 1, modifiedAt, None, contents, synced, Pending)])
    case Delete(id, kind, deletedAt) =>
      if !HasRow(r.table, id, kind) || r.table[id].deletedAt.Some? then r else
      Replica(r.cursor + 1, r.table[id :=
        r.table[id].(logicalClock := r.cursor + 1, modifiedAt := deletedAt, deletedAt := Some(deletedAt),
            syncState := Pending)])
  }

  /** What a store leaves in the row, whatever was there before. */
  lemma StoreEffect(r: Replica, id: string, kind: RecordKind, modifiedAt: int, contents: Sealed)
    ensures var r' := EditStep(r, Store(id, kind, modifiedAt, contents));
            && r'.cursor == r.cursor + 1 && id in r'.table && r'.table[id].recordId == id
            && r'.table[id].kind == kind && r'.table[id].contents == contents
            && r'.table[id].modifiedAt == modifiedAt && r'.table[id].deletedAt.None?
            && r'.table[id].logicalClock == r'.cursor && r'.table[id].syncState == Pending
            && r'.table[id].version == RECORD_SCHEMA_VERSION
            && r'.table[id].lastSyncedClock == (if HasRow(r.table, id, kind) then r.table[id].lastSyncedClock else None)
            && forall other | other != id :: At(r'.table, other) == At(r.table, other)
  {
  }

  /** A live record of the kind becomes a tombstone with its contents; anything else is left alone. */
  lemma DeleteEffect(r: Replica, id: string, kind: RecordKind, deletedAt: int)
    ensures var r' := EditStep(r, Delete(id, kind, deletedAt));
            if id in r.table && r.table[id].kind == kind && r.table[id].deletedAt.None? then
              && r'.cursor == r.cursor + 1 && id in r'.table
              && r'.table[id].deletedAt == Some(deletedAt) && r'.table[id].modifiedAt == deletedAt
              && r'.table[id].logicalClock == r'.cursor && r'.table[id].syncState == Pending
              && r'.table[id].contents == r.table[id].contents && r'.table[id].kind == kind
              && r'.table[id].lastSyncedClock == r.table[id].lastSyncedClock
              && forall other | other != id :: At(r'.table, other) == At(r.table, other)
            else r' == r
  {
  }

  /** A record that one copy has not touched since is the same in the other, or newer there. */
  ghost predicate BehindAt(x: Option<Record>, y: Option<Record>, base: nat) {
    x.Some? && x.value.logicalClock <= base ==> y.Some? && (Match(x.value, y.value) || y.value.logicalClock > base)
  }

  ghost predicate CommonBase(a: Table, b: Table, base: nat) {
    forall id :: BehindAt(At(a, id), At(b, id), base) && BehindAt(At(b, id), At(a, id), base)
  }

  lemma BasedSettles(x: Option<Record>, y: Option<Record>, base: nat)
    requires BehindAt(x, y, base) && BehindAt(y, x, base)
    ensures Settles(x, y, base)
  {
    if x.Some? && y.Some? && x.value.logicalClock != y.value.logicalClock {
      if x.value.logicalClock < y.value.logicalClock { LaterClockWins(x.value, y.value); }
      else { LaterClockWins(y.value, x.value); PrecedenceIsTotal(x.value, y.value); }
    }
  }

  lemma CommonBaseSettles(a: Replica, b: Replica, base: nat)
    requires CommonBase(a.table, b.table, base)
    ensures AllSettle(a, b, base)
  {
    forall id ensures Settles(At(a.table, id), At(b.table, id), base) {
      assert BehindAt(At(a.table, id), At(b.table, id), base);
      BasedSettles(At(a.table, id), At(b.table, id), base);
    }
  }

  // ---- Runs ----

  /** Two copies and the cursor of their last exchange. */
  datatype Pair = Pair(a: Replica, b: Replica, base: nat)

  datatype Op = EditA(edit: Edit) | EditB(edit: Edit) | Sync(first: Delta, second: Delta)

  /** A sync applies deltas that were exported since the last one. */
  ghost predicate Genuine(p: Pair, op: Op) {
    op.Sync? ==> Exchange(p.a, p.b, p.base, op.first, op.second)
  }

  function PairStep(p: Pair, op: Op): Pair {
    match op
    case EditA(edit) => p.(a := EditStep(p.a, edit))
    case EditB(edit) => p.(b := EditStep(p.b, edit))
    case Sync(first, second) => Pair(Apply(p.a, first), Apply(p.b, second), Apply(p.a, first).cursor)
  }

  function PairRun(p: Pair, ops: seq<Op>): Pair {
    if ops == [] then p else PairStep(PairRun(p, ops[..|ops| - 1]), ops[|ops| - 1])
  }

  ghost predicate AllGenuine(p: Pair, ops: seq<Op>) {
    ops != [] ==>
      && AllGenuine(p, ops[..|ops| - 1])
      && Genuine(PairRun(p, ops[..|ops| - 1]), ops[|ops| - 1])
  }

  ghost predicate PairOk(p: Pair) {
    && ReplicaOk(p.a) && ReplicaOk(p.b)
    && p.base <= p.a.cursor && p.base <= p.b.cursor
    && CommonBase(p.a.table, p.b.table, p.base)
  }

  lemma EditKeepsBase(r: Replica, other: Table, base: nat, edit: Edit)
    requires ReplicaOk(r) && base <= r.cursor && CommonBase(r.table, other, base)
    ensures var r' := EditStep(r, edit);
            ReplicaOk(r') && base <= r'.cursor && CommonBase(r'.table, other, base)
  {
    var r' := EditStep(r, edit);
    forall id ensures BehindAt(At(r'.table, id), At(other, id), base)
        && BehindAt(At(other, id), At(r'.table, id), base) {
      assert BehindAt(At(r.table, id), At(other, id), base) && BehindAt(At(other, id), At(r.table, id), base);
    }
  }

  lemma CommonBaseSwaps(a: Table, b: Table, base: nat)
    requires CommonBase(a, b, base)
    ensures CommonBase(b, a, base)
  {
    forall id ensures BehindAt(At(b, id), At(a, id), base) && BehindAt(At(a, id), At(b, id), base) {
      assert BehindAt(At(a, id), At(b, id), base);
    }
  }

  /** A sync is refused by neither side, and leaves both with the same records and the same clock. */
  lemma SyncConverges(p: Pair, first: Delta, second: Delta)
    requires PairOk(p) && Exchange(p.a, p.b, p.base, first, second)
    ensures first.fromClock <= p.a.cursor && second.fromClock <= p.b.cursor
    ensures var p' := PairStep(p, Sync(first, second));
            Agree(p'.a.table, p'.b.table) && p'.a.cursor == p'.b.cursor && PairOk(p')
  {
    var a' := Apply(p.a, first);
    ApplyOk(p.a, p.b, p.base, first);
    ApplyOk(p.b, a', p.base, second);
    CommonBaseSettles(p.a, p.b, p.base);
    ExchangeConvergesIff(p.a, p.b, p.base, first, second);
    AgreementIsBase(a'.table, Apply(p.b, second).table, a'.cursor);
  }

  lemma AgreementIsBase(a: Table, b: Table, base: nat)
    requires Agree(a, b)
    ensures CommonBase(a, b, base)
  {
    forall id ensures BehindAt(At(a, id), At(b, id), base) && BehindAt(At(b, id), At(a, id), base) {
      assert AgreeAt(a, b, id);
    }
  }

  lemma {:induction false} PairStaysOk(p: Pair, ops: seq<Op>)
    requires PairOk(p) && AllGenuine(p, ops)
    ensures PairOk(PairRun(p, ops))
  {
    if ops != [] {
      var q, op := PairRun(p, ops[..|ops| - 1]), ops[|ops| - 1];
      PairStaysOk(p, ops[..|ops| - 1]);
      match op {
        case EditA(edit) => EditKeepsBase(q.a, q.b.table, q.base, edit);
        case EditB(edit) =>
          CommonBaseSwaps(q.a.table, q.b.table, q.base);
          EditKeepsBase(q.b, q.a.table, q.base, edit);
          CommonBaseSwaps(EditStep(q.b, edit).table, q.a.table, q.base);
        case Sync(first, second) => SyncConverges(q, first, second);
      }
    }
  }

  /**
   From two equal copies on, as after importing a snapshot, whatever each side stores and deletes and
   whenever they sync, the copies hold the same records after every sync.
   */
  lemma CopiesConverge(a: Replica, b: Replica, ops: seq<Op>)
    requires ReplicaOk(a) && ReplicaOk(b) && Agree(a.table, b.table) && a.cursor == b.cursor
    requires ops != [] && ops[|ops| - 1].Sync? && AllGenuine(Pair(a, b, a.cursor), ops)
    ensures var p := PairRun(Pair(a, b, a.cursor), ops);
            Agree(p.a.table, p.b.table) && p.a.cursor == p.b.cursor
  {
    var start, last := Pair(a, b, a.cursor), ops[|ops| - 1];
    AgreementIsBase(a.table, b.table, a.cursor);
    PairStaysOk(start, ops[..|ops| - 1]);
    SyncConverges(PairRun(start, ops[..|ops| - 1]), last.first, last.second);
  }

  // ---- Who wins ----

  /** Two versions of one kind that are both sent: both copies end with the one the fields put later. */
  lemma ExchangeKeepsLater(x: Record, y: Record, since: nat)
    requires x.kind == y.kind && x.logicalClock > since && y.logicalClock > since
    ensures var x' := Received(Some(x), Sent(Some(y), since));
            var y' := Received(Some(y), Sent(x', since));
            && (Earlier(x, y) ==> MatchOption(x', Some(y)) && MatchOption(y', Some(y)))
            && (Earlier(y, x) ==> MatchOption(x', Some(x)) && MatchOption(y', Some(x)))
  {
    PrecedesIffEarlier(x, y);
    PrecedesIffEarlier(y, x);
    PrecedenceIsTotal(x, y);
    PrecedenceIsTotal(AsSynced(x), x);
    PrecedenceIsTotal(AsSynced(y), y);
    PrecedenceIsTotal(y, AsSynced(y));
  }

  /** The same for whole copies. */
  lemma SyncKeepsLater(a: Replica, b: Replica, since: nat, first: Delta, second: Delta, id: string)
    requires ReplicaOk(a) && ReplicaOk(b) && Exchange(a, b, since, first, second)
    requires id in a.table && id in b.table && a.table[id].kind == b.table[id].kind
    requires a.table[id].logicalClock > since && b.table[id].logicalClock > since
    requires Earlier(a.table[id], b.table[id]) || Earlier(b.table[id], a.table[id])
    ensures var a', b' := Apply(a, first).table, Apply(b, second).table;
            var later := if Earlier(a.table[id], b.table[id]) then b.table[id] else a.table[id];
            id in a' && id in b' && Match(a'[id], later) && Match(b'[id], later)
  {
    ApplyOk(a, b, since, first);
    ApplyAt(a, b, since, first, id);
    ApplyAt(b, Apply(a, first), since, second, id);
    ExchangeKeepsLater(a.table[id], b.table[id], since);
  }

  /**
   Two copies with the same clock store the same record at different times and then sync: both then hold
   the contents that were stored later.
   */
  lemma LaterEditWins(
    p: Pair, id: string, kind: RecordKind, early: int, old': Sealed, late: int, new': Sealed, lateInA: bool,
    first: Delta, second: Delta)
    requires PairOk(p) && p.a.cursor == p.b.cursor && early < late
    requires var q := PairRun(p, ConcurrentStores(id, kind, early, old', late, new', lateInA));
             Exchange(q.a, q.b, p.base, first, second)
    ensures var q := PairRun(p, ConcurrentStores(id, kind, early, old', late, new', lateInA));
            var a', b' := Apply(q.a, first).table, Apply(q.b, second).table;
            && id in a' && id in b' && a'[id].contents == new' == b'[id].contents
            && a'[id].modifiedAt == late == b'[id].modifiedAt
  {
    var ops := ConcurrentStores(id, kind, early, old', late, new', lateInA);
    PairTwo(p, ops[0], ops[1]);
    assert ops == [ops[0], ops[1]];
    var q := PairRun(p, ops);
    EditKeepsBase(p.a, p.b.table, p.base, ops[0].edit);
    CommonBaseSwaps(p.a.table, p.b.table, p.base);
    EditKeepsBase(p.b, p.a.table, p.base, ops[1].edit);
    SyncKeepsLater(q.a, q.b, p.base, first, second, id);
  }

  function ConcurrentStores(
    id: string, kind: RecordKind, early: int, old': Sealed, late: int, new': Sealed, lateInA: bool): seq<Op>
  {
    var e, l := Store(id, kind, early, old'), Store(id, kind, late, new');
    if lateInA then [EditA(l), EditB(e)] else [EditA(e), EditB(l)]
  }

  lemma PairTwo(p: Pair, x: Op, y: Op)
    ensures PairRun(p, [x, y]) == PairStep(PairStep(p, x), y)
  {
    assert [x][..0] == [];
    assert PairRun(p, [x]) == PairStep(PairRun(p, [x][..0]), x);
    assert [x, y][..1] == [x];
  }

  // ---- Snapshots ----

  /** What importing a snapshot leaves: the last record given for each id. */
  function Restored(records: seq<Record>): Table {
    if records == [] then map[] else
      var last := records[|records| - 1];
      Restored(records[..|records| - 1])[last.recordId := AsSynced(last)]
  }

  /** A snapshot's records: all rows, in any order. */
  ghost predicate Snapshots(records: seq<Record>, r: Replica) {
    forall x :: x in records <==> x.recordId in r.table && r.table[x.recordId] == x
  }

  lemma {:induction false} RestoredAt(records: seq<Record>, id: string)
    ensures id in Restored(records) <==> exists x :: Offered(records, id, x)
    ensures id in Restored(records) ==> exists x :: Offered(records, id, x) && Restored(records)[id] == AsSynced(x)
  {
    if records != [] {
      var front, last := records[..|records| - 1], records[|records| - 1];
      assert records == front + [last];
      RestoredAt(front, id);
      OfferedSnoc(front, last, id);
      if id == last.recordId {
        assert Offered(records, id, last);
      } else if id in Restored(front) {
        var x :| Offered(front, id, x) && Restored(front)[id] == AsSynced(x);
        assert Offered(records, id, x);
      }
    }
  }

  /** The copy made from a snapshot agrees with the one it was taken of, and has the same clock. */
  lemma SnapshotAgrees(r: Replica, records: seq<Record>)
    requires ReplicaOk(r) && Snapshots(records, r)
    ensures var copy := Replica(MaxClock(r.cursor, records), Restored(records));
            ReplicaOk(copy) && Agree(r.table, copy.table) && copy.cursor == r.cursor
  {
    ClockCatchesUp(r.cursor, records);
    forall id
      ensures AgreeAt(r.table, Restored(records), id)
      ensures id in Restored(records) ==>
                Restored(records)[id].recordId == id && Restored(records)[id].logicalClock <= r.cursor
    {
      RestoredAt(records, id);
      if id in r.table { assert Offered(records, id, r.table[id]); }
    }
  }

  // ---- Where it fails ----

  /** Asking for what is newer than one's own clock misses everything the other side did meanwhile. */
  lemma OwnCursorMissesEdits(a: Replica, b: Replica, delta: Delta)
    requires ReplicaOk(a) && ReplicaOk(b) && b.cursor <= a.cursor && Exports(delta, b, a.cursor)
    ensures Apply(a, delta).table == a.table
    ensures !Agree(a.table, b.table) ==> !Agree(Apply(a, delta).table, b.table)
  {
    FirstIsMember(delta.records);
    assert delta.records == [];
  }

  /**
   Two copies that used an id for different kinds agree after an exchange, but not always on the
   later record: what the second copy sends replaces the first copy's record, however new.
   */
  lemma KindClashLosesNewer(a: Replica, b: Replica, since: nat, first: Delta, second: Delta, id: string)
    requires ReplicaOk(a) && ReplicaOk(b) && Exchange(a, b, since, first, second)
    requires id in a.table && id in b.table && a.table[id].kind != b.table[id].kind
    requires b.table[id].logicalClock > since && Precedes(b.table[id], a.table[id])
    ensures var a', b' := Apply(a, first).table, Apply(b, second).table;
            id in a' && id in b' && Match(a'[id], b.table[id]) && Match(b'[id], b.table[id])
                && Precedes(a'[id], a.table[id])
  {
    ApplyOk(a, b, since, first);
    ApplyAt(a, b, since, first, id);
    ApplyAt(b, Apply(a, first), since, second, id);
    PrecedenceIsTotal(AsSynced(b.table[id]), b.table[id]);
    SamePrecedes(AsSynced(b.table[id]), b.table[id], a.table[id]);
  }
}
