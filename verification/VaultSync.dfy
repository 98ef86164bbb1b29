/** Synchronising two copies of a vault by exchanging deltas: the last writer wins, and copies converge. */
module VaultSync {
  import opened Text

  datatype RecordKind = Host | PasswordCredential | PrivateKey | Snippet | PortForward

  datatype SyncState = Pending | Synced

  type Bytes = seq<int>

  datatype Sealed = Sealed(keyNonce: Bytes, wrappedRecordKey: Bytes, payloadNonce: Bytes, payloadCiphertext: Bytes)

  datatype Record = Record(
    recordId: string,
    kind: RecordKind,
    version: nat,
    logicalClock: nat,
    modifiedAt: int,
    deletedAt: Option<int>,
    contents: Sealed,
    lastSyncedClock: Option<nat>,
    syncState: SyncState)

  /** The table of records, by its primary key. */
  type Table = map<string, Record>

  datatype Delta = Delta(vaultId: string, fromClock: nat, toClock: nat, records: seq<Record>)

  // ---- Precedence ----

  /** Lexicographic order. */
  predicate LexLess<T(==)>(less: (T, T) -> bool, a: seq<T>, b: seq<T>) {
    b != [] && (a == [] || less(a[0], b[0]) || (a[0] == b[0] && LexLess(less, a[1..], b[1..])))
  }

  ghost predicate StrictTotal<T(!new)>(less: (T, T) -> bool) {
    && (forall x :: !less(x, x))
    && (forall x, y, z :: less(x, y) && less(y, z) ==> less(x, z))
    && (forall x, y :: less(x, y) || x == y || less(y, x))
  }

  lemma {:induction false} LexIrreflexive<T(!new)>(less: (T, T) -> bool, a: seq<T>)
    requires StrictTotal(less)
    ensures !LexLess(less, a, a)
  {
    if a != [] { LexIrreflexive(less, a[1..]); }
  }

  lemma {:induction false} LexTransitive<T(!new)>(less: (T, T) -> bool, a: seq<T>, b: seq<T>, c: seq<T>)
    requires StrictTotal(less) && LexLess(less, a, b) && LexLess(less, b, c)
    ensures LexLess(less, a, c)
  {
    if a != [] && a[0] == b[0] == c[0] { LexTransitive(less, a[1..], b[1..], c[1..]); }
  }

  lemma {:induction false} LexTotal<T(!new)>(less: (T, T) -> bool, a: seq<T>, b: seq<T>)
    requires StrictTotal(less)
    ensures LexLess(less, a, b) || a == b || LexLess(less, b, a)
  {
    if a != [] && b != [] && a[0] == b[0] {
      LexTotal(less, a[1..], b[1..]);
      assert a == [a[0]] + a[1..] && b == [b[0]] + b[1..];
    }
  }

  lemma LexIsStrictTotal<T(!new)>(less: (T, T) -> bool, lex: (seq<T>, seq<T>) -> bool)
    requires StrictTotal(less) && forall a, b :: lex(a, b) == LexLess(less, a, b)
    ensures StrictTotal(lex)
  {
    forall a ensures !lex(a, a) { LexIrreflexive(less, a); }
    forall a, b, c | lex(a, b) && lex(b, c) ensures lex(a, c) { LexTransitive(less, a, b, c); }
    forall a, b ensures lex(a, b) || a == b || lex(b, a) { LexTotal(less, a, b); }
  }

  function IntOrder(): (int, int) -> bool {
    (a, b) => a < b
  }

  function FieldOrder(): (seq<int>, seq<int>) -> bool {
    (a, b) => LexLess(IntOrder(), a, b)
  }

  function CodePoints(s: string): seq<int> {
    seq(|s|, i requires 0 <= i < |s| => s[i] as int)
  }

  /** The fields that precedence looks at, in turn; an absent time comes before any time. */
  function Fields(r: Record): seq<seq<int>> {
    [[r.logicalClock], [r.modifiedAt], CodePoints(r.recordId), if r.deletedAt.Some? then [r.deletedAt.value] else [],
     r.contents.keyNonce, r.contents.wrappedRecordKey, r.contents.payloadNonce, r.contents.payloadCiphertext]
  }

  /** `compare_record_precedence(a, b).is_lt()`. */
  predicate Precedes(a: Record, b: Record) {
    LexLess(FieldOrder(), Fields(a), Fields(b))
  }

  /** Equal but for the kind, the schema version and each copy's own bookkeeping. */
  predicate Same(a: Record, b: Record) {
    && a.logicalClock == b.logicalClock && a.modifiedAt == b.modifiedAt && a.recordId == b.recordId
    && a.deletedAt == b.deletedAt && a.contents == b.contents
  }

  lemma SameIffFields(a: Record, b: Record)
    ensures Same(a, b) <==> Fields(a) == Fields(b)
  {
    var f, g := Fields(a), Fields(b);
    if f == g {
      assert f[0] == g[0] && f[1] == g[1] && f[2] == g[2] && f[3] == g[3];
      assert f[4] == g[4] && f[5] == g[5] && f[6] == g[6] && f[7] == g[7];
      assert a.logicalClock == f[0][0] && a.modifiedAt == f[1][0];
      forall i | 0 <= i < |a.recordId| ensures a.recordId[i] == b.recordId[i] {
        assert f[2][i] == g[2][i];
      }
      assert a.deletedAt.Some? ==> f[3][0] == g[3][0];
    }
  }

  lemma FieldOrderIsTotal()
    ensures StrictTotal(FieldOrder())
  {
    assert StrictTotal(IntOrder());
    LexIsStrictTotal(IntOrder(), FieldOrder());
  }

  /** Precedence is a total order on records, up to what it does not look at. */
  lemma PrecedenceIsTotal(a: Record, b: Record)
    ensures Precedes(a, b) || Same(a, b) || Precedes(b, a)
    ensures Same(a, b) ==> !Precedes(a, b)
    ensures !(Precedes(a, b) && Precedes(b, a))
  {
    FieldOrderIsTotal();
    LexTotal(FieldOrder(), Fields(a), Fields(b));
    LexIrreflexive(FieldOrder(), Fields(a));
    SameIffFields(a, b);
    if Precedes(a, b) && Precedes(b, a) {
      LexTransitive(FieldOrder(), Fields(a), Fields(b), Fields(a));
    }
  }

  lemma PrecedenceIsTransitive(a: Record, b: Record, c: Record)
    requires !Precedes(b, a) && !Precedes(c, b)
    ensures !Precedes(c, a)
  {
    PrecedenceIsTotal(a, b);
    PrecedenceIsTotal(b, c);
    SameIffFields(a, b);
    SameIffFields(b, c);
    if Precedes(a, b) && Precedes(b, c) {
      FieldOrderIsTotal();
      LexTransitive(FieldOrder(), Fields(a), Fields(b), Fields(c));
    }
    PrecedenceIsTotal(a, c);
  }

  /** What precedence ignores makes no difference to it. */
  lemma SamePrecedes(a: Record, b: Record, c: Record)
    requires Same(a, b)
    ensures Precedes(a, c) == Precedes(b, c) && Precedes(c, a) == Precedes(c, b)
  {
    SameIffFields(a, b);
  }

  // ---- Precedence, field by field ----

  /** Byte strings in order: equal up to some place, where the first ends or has the smaller byte. */
  ghost predicate BytesBefore(a: Bytes, b: Bytes) {
    exists k: nat :: k <= |a| && k < |b| && a[..k] == b[..k] && (k == |a| || a[k] < b[k])
  }

  /** An absent time comes before any time. */
  predicate TimeBefore(a: Option<int>, b: Option<int>) {
    b.Some? && (a.None? || a.value < b.value)
  }

  ghost predicate SealedBefore(a: Sealed, b: Sealed) {
    || BytesBefore(a.keyNonce, b.keyNonce)
    || (a.keyNonce == b.keyNonce
        && (|| BytesBefore(a.wrappedRecordKey, b.wrappedRecordKey)
            || (a.wrappedRecordKey == b.wrappedRecordKey
                && (|| BytesBefore(a.payloadNonce, b.payloadNonce)
                    || (a.payloadNonce == b.payloadNonce
                        && BytesBefore(a.payloadCiphertext, b.payloadCiphertext))))))
  }

  /**
   The earlier clock, then the earlier change, then the smaller id, then the absent or earlier
   deletion, then the bytes.
   */
  ghost predicate Earlier(a: Record, b: Record) {
    || a.logicalClock < b.logicalClock
    || (a.logicalClock == b.logicalClock
        && (|| a.modifiedAt < b.modifiedAt
            || (a.modifiedAt == b.modifiedAt
                && (|| TextBefore(a.recordId, b.recordId)
                    || (a.recordId == b.recordId
                        && (|| TimeBefore(a.deletedAt, b.deletedAt)
                            || (a.deletedAt == b.deletedAt && SealedBefore(a.contents, b.contents))))))))
  }

  lemma {:induction false} BytesLess(a: Bytes, b: Bytes)
    ensures FieldOrder()(a, b) <==> BytesBefore(a, b)
  {
    if a != [] && b != [] && a[0] == b[0] {
      BytesLess(a[1..], b[1..]);
      if BytesBefore(a[1..], b[1..]) {
        var k: nat :| k <= |a[1..]| && k < |b[1..]| && a[1..][..k] == b[1..][..k]
            && (k == |a[1..]| || a[1..][k] < b[1..][k]);
        assert a[..k + 1] == [a[0]] + a[1..][..k] && b[..k + 1] == [b[0]] + b[1..][..k];
        assert k + 1 == |a| || a[k + 1] < b[k + 1];
      }
      if BytesBefore(a, b) {
        var k: nat :| k <= |a| && k < |b| && a[..k] == b[..k] && (k == |a| || a[k] < b[k]);
        assert k > 0;
        assert a[1..][..k - 1] == a[..k][1..] && b[1..][..k - 1] == b[..k][1..];
        assert k - 1 == |a[1..]| || a[1..][k - 1] < b[1..][k - 1];
      }
    } else {
      BytesLessAtFirst(a, b);
    }
  }

  lemma FirstByte(s: Bytes, k: nat)
    requires k <= |s|
    ensures k > 0 ==> s[..k][0] == s[0]
  {
  }

  lemma BytesLessAtFirst(a: Bytes, b: Bytes)
    requires a == [] || b == [] || a[0] != b[0]
    ensures FieldOrder()(a, b) <==> BytesBefore(a, b)
  {
    if FieldOrder()(a, b) {
      assert a[..0] == b[..0] && (0 == |a| || a[0] < b[0]);
    }
    if BytesBefore(a, b) {
      var k: nat :| k <= |a| && k < |b| && a[..k] == b[..k] && (k == |a| || a[k] < b[k]);
      FirstByte(a, k);
      FirstByte(b, k);
    }
  }

  lemma TextLess(a: string, b: string)
    ensures FieldOrder()(CodePoints(a), CodePoints(b)) <==> TextBefore(a, b)
    ensures CodePoints(a) == CodePoints(b) <==> a == b
  {
    var x, y := CodePoints(a), CodePoints(b);
    BytesLess(x, y);
    forall k: nat | k <= |a| && k < |b| ensures x[..k] == y[..k] <==> a[..k] == b[..k] {
      SamePoints(a[..k], b[..k]);
      assert x[..k] == CodePoints(a[..k]) && y[..k] == CodePoints(b[..k]);
    }
    SamePoints(a, b);
  }

  lemma SamePoints(a: string, b: string)
    ensures CodePoints(a) == CodePoints(b) <==> a == b
  {
    if CodePoints(a) == CodePoints(b) {
      forall i | 0 <= i < |a| ensures a[i] == b[i] {
        assert CodePoints(a)[i] == CodePoints(b)[i];
      }
    }
  }

  lemma LexCons(x: seq<int>, xs: seq<seq<int>>, y: seq<int>, ys: seq<seq<int>>)
    ensures LexLess(FieldOrder(), [x] + xs, [y] + ys) <==>
              FieldOrder()(x, y) || (x == y && LexLess(FieldOrder(), xs, ys))
  {
    assert ([x] + xs)[1..] == xs && ([y] + ys)[1..] == ys;
  }

  function SealedFields(c: Sealed): seq<seq<int>> {
    [c.keyNonce] + ([c.wrappedRecordKey] + ([c.payloadNonce] + ([c.payloadCiphertext] + [])))
  }

  lemma SealedLess(a: Sealed, b: Sealed)
    ensures LexLess(FieldOrder(), SealedFields(a), SealedFields(b)) <==> SealedBefore(a, b)
  {
    var a3, b3 := [a.payloadCiphertext] + [], [b.payloadCiphertext] + [];
    var a2, b2 := [a.payloadNonce] + a3, [b.payloadNonce] + b3;
    LexCons(a.keyNonce, [a.wrappedRecordKey] + a2, b.keyNonce, [b.wrappedRecordKey] + b2);
    LexCons(a.wrappedRecordKey, a2, b.wrappedRecordKey, b2);
    LexCons(a.payloadNonce, a3, b.payloadNonce, b3);
    LexCons(a.payloadCiphertext, [], b.payloadCiphertext, []);
    BytesLess(a.keyNonce, b.keyNonce);
    BytesLess(a.wrappedRecordKey, b.wrappedRecordKey);
    BytesLess(a.payloadNonce, b.payloadNonce);
    BytesLess(a.payloadCiphertext, b.payloadCiphertext);
  }

  function TimeField(time: Option<int>): seq<int> {
    if time.Some? then [time.value] else []
  }

  lemma FieldsInTurn(r: Record)
    ensures Fields(r) == [[r.logicalClock]] + ([[r.modifiedAt]] + ([CodePoints(r.recordId)]
                          + ([TimeField(r.deletedAt)] + SealedFields(r.contents))))
  {
  }

  lemma NumberLess(x: int, y: int)
    ensures FieldOrder()([x], [y]) <==> x < y
    ensures [x] == [y] <==> x == y
  {
    assert [x][0] == x && [y][0] == y;
    assert [y][1..] == [];
    assert !LexLess(IntOrder(), [x][1..], [y][1..]);
  }

  lemma TimeLess(x: Option<int>, y: Option<int>)
    ensures FieldOrder()(TimeField(x), TimeField(y)) <==> TimeBefore(x, y)
    ensures TimeField(x) == TimeField(y) <==> x == y
  {
    if x.Some? && y.Some? { NumberLess(x.value, y.value); }
  }

  /** Precedence compares the fields one after the other, in this order and each in its own order. */
  lemma PrecedesIffEarlier(a: Record, b: Record)
    ensures Precedes(a, b) <==> Earlier(a, b)
  {
    var a3, b3 := [TimeField(a.deletedAt)] + SealedFields(a.contents), [TimeField(b.deletedAt)]
        + SealedFields(b.contents);
    var a2, b2 := [CodePoints(a.recordId)] + a3, [CodePoints(b.recordId)] + b3;
    FieldsInTurn(a);
    FieldsInTurn(b);
    LexCons([a.logicalClock], [[a.modifiedAt]] + a2, [b.logicalClock], [[b.modifiedAt]] + b2);
    LexCons([a.modifiedAt], a2, [b.modifiedAt], b2);
    LexCons(CodePoints(a.recordId), a3, CodePoints(b.recordId), b3);
    LexCons(TimeField(a.deletedAt), SealedFields(a.contents), TimeField(b.deletedAt), SealedFields(b.contents));
    NumberLess(a.logicalClock, b.logicalClock);
    NumberLess(a.modifiedAt, b.modifiedAt);
    TextLess(a.recordId, b.recordId);
    TimeLess(a.deletedAt, b.deletedAt);
    SealedLess(a.contents, b.contents);
  }

  lemma LaterClockWins(a: Record, b: Record)
    requires a.logicalClock < b.logicalClock
    ensures Precedes(a, b)
  {
    assert FieldOrder()([a.logicalClock], [b.logicalClock]);
  }

  // ---- Applying a delta ----

  /** `delta_record_to_synced_record`. */
  function AsSynced(r: Record): Record {
    r.(lastSyncedClock := Some(r.logicalClock), syncState := Synced)
  }

  predicate Skipped(table: Table, incoming: Record) {
    incoming.recordId in table && table[incoming.recordId].kind == incoming.kind
    && !Precedes(table[incoming.recordId], incoming)
  }

  function Accept(table: Table, incoming: Record): Table {
    if Skipped(table, incoming) then table else table[incoming.recordId := AsSynced(incoming)]
  }

  function Merge(table: Table, records: seq<Record>): Table {
    if records == [] then table else Accept(Merge(table, records[..|records| - 1]), records[|records| - 1])
  }

  function MaxClock(clock: nat, records: seq<Record>): nat {
    if records == [] then clock else
      var before := MaxClock(clock, records[..|records| - 1]);
      if before < records[|records| - 1].logicalClock then records[|records| - 1].logicalClock else before
  }

  function CountSkipped(table: Table, records: seq<Record>): nat {
    if records == [] then 0 else
      CountSkipped(table, records[..|records| - 1])
      + if Skipped(Merge(table, records[..|records| - 1]), records[|records| - 1]) then 1 else 0
  }

  // ---- When merging keeps the latest ----

  function At(table: Table, id: string): Option<Record> {
    if id in table then Some(table[id]) else None
  }

  predicate Offered(records: seq<Record>, id: string, r: Record) {
    r in records && r.recordId == id
  }

  /** The same record, kind included, but for each copy's own bookkeeping. */
  predicate Match(a: Record, b: Record) {
    Same(a, b) && a.kind == b.kind
  }

  ghost predicate LatestAt(after: Table, before: Table, records: seq<Record>, id: string) {
    && (id in before ==> id in after && !Precedes(after[id], before[id]))
    && (forall r | Offered(records, id, r) :: id in after && !Precedes(after[id], r))
    && (id in after ==>
          || (id in before && after[id] == before[id])
          || (exists r :: Offered(records, id, r) && Match(after[id], r)))
  }

  /** The table holds, for each id, the latest of what it held and what it was offered, and nothing else. */
  ghost predicate IsLatest(after: Table, before: Table, records: seq<Record>) {
    forall id :: LatestAt(after, before, records, id)
  }

  /** Rows are looked up by id and kind but stored by id: a record of another kind replaces a later one. */
  predicate Clashes(table: Table, r: Record) {
    r.recordId in table && table[r.recordId].kind != r.kind && Precedes(r, table[r.recordId])
  }

  ghost predicate LatestThroughout(table: Table, records: seq<Record>) {
    && IsLatest(Merge(table, records), table, records)
    && (records != [] ==> LatestThroughout(table, records[..|records| - 1]))
  }

  ghost predicate NoClash(table: Table, records: seq<Record>) {
    records != [] ==>
      && NoClash(table, records[..|records| - 1])
      && !Clashes(Merge(table, records[..|records| - 1]), records[|records| - 1])
  }

  lemma OfferedSnoc(front: seq<Record>, last: Record, id: string)
    ensures forall r :: Offered(front + [last], id, r) <==> Offered(front, id, r) || (id == last.recordId && r == last)
  {
  }

  /** An accepted record that is not earlier than the row it replaces is the latest so far. */
  lemma AcceptedIsLatest(table: Table, front: seq<Record>, last: Record)
    requires var mid := Merge(table, front);
             LatestAt(mid, table, front, last.recordId) && !Skipped(mid, last) && !Clashes(mid, last)
    ensures LatestAt(Accept(Merge(table, front), last), table, front + [last], last.recordId)
  {
    var mid, id := Merge(table, front), last.recordId;
    var after := Accept(mid, last);
    OfferedSnoc(front, last, id);
    assert Offered(front + [last], id, last) && Match(after[id], last);
    PrecedenceIsTotal(last, last);
    SamePrecedesAll(AsSynced(last), last);
    if id in mid {
      PrecedenceIsTotal(mid[id], last);
      if id in table { PrecedenceIsTransitive(table[id], mid[id], last); }
      forall r | Offered(front, id, r) ensures !Precedes(AsSynced(last), r) {
        PrecedenceIsTransitive(r, mid[id], last);
      }
    }
  }

  lemma KeptIsLatest(table: Table, front: seq<Record>, last: Record, id: string)
    requires LatestAt(Merge(table, front), table, front, id)
    requires id != last.recordId || Skipped(Merge(table, front), last)
    ensures LatestAt(Accept(Merge(table, front), last), table, front + [last], id)
  {
    var mid := Merge(table, front);
    OfferedSnoc(front, last, id);
    if id in mid && !(id in table && mid[id] == table[id]) {
      var r :| Offered(front, id, r) && Match(mid[id], r);
      assert Offered(front + [last], id, r);
    }
  }

  /** A clash leaves an earlier record than one that was there or was offered. */
  lemma ClashIsNotLatest(table: Table, front: seq<Record>, last: Record)
    requires LatestAt(Merge(table, front), table, front, last.recordId) && Clashes(Merge(table, front), last)
    ensures !LatestAt(Accept(Merge(table, front), last), table, front + [last], last.recordId)
  {
    var mid, id := Merge(table, front), last.recordId;
    SamePrecedes(AsSynced(last), last, mid[id]);
    OfferedSnoc(front, last, id);
    if !(id in table && mid[id] == table[id]) {
      var r :| Offered(front, id, r) && Match(mid[id], r);
      SamePrecedes(mid[id], r, AsSynced(last));
      assert Offered(front + [last], id, r);
    }
  }

  lemma LatestStepIff(table: Table, front: seq<Record>, last: Record)
    requires IsLatest(Merge(table, front), table, front)
    ensures IsLatest(Accept(Merge(table, front), last), table, front + [last]) <==> !Clashes(Merge(table, front), last)
  {
    var mid := Merge(table, front);
    assert forall id :: LatestAt(mid, table, front, id);
    if Clashes(mid, last) {
      ClashIsNotLatest(table, front, last);
    } else {
      forall id ensures LatestAt(Accept(mid, last), table, front + [last], id) {
        if id == last.recordId && !Skipped(mid, last) {
          AcceptedIsLatest(table, front, last);
        } else {
          KeptIsLatest(table, front, last, id);
        }
      }
    }
  }

  /** One record: the table then holds the latest exactly when the record does not clash. */
  lemma AcceptLatestIff(table: Table, r: Record)
    ensures IsLatest(Accept(table, r), table, [r]) <==> !Clashes(table, r)
  {
    EmptyMergeIsLatest(table);
    assert Merge(table, []) == table && [] + [r] == [r];
    LatestStepIff(table, [], r);
  }

  lemma EmptyMergeIsLatest(table: Table)
    ensures IsLatest(Merge(table, []), table, [])
  {
    forall id ensures LatestAt(table, table, [], id) {
      if id in table { PrecedenceIsTotal(table[id], table[id]); }
    }
  }

  /** A whole delta: the table holds the latest after every record exactly when none clashes. */
  lemma {:induction false} LatestIffNoClash(table: Table, records: seq<Record>)
    ensures LatestThroughout(table, records) <==> NoClash(table, records)
  {
    if records == [] {
      EmptyMergeIsLatest(table);
    } else {
      var front, last := records[..|records| - 1], records[|records| - 1];
      assert records == front + [last];
      LatestIffNoClash(table, front);
      if LatestThroughout(table, front) {
        LatestStepIff(table, front, last);
      }
    }
  }

  // ---- Bookkeeping ----

  /** The record as received: everything as offered, and noted as in step with the clock it came with. */
  predicate ReceivedAs(row: Record, r: Record) {
    && row.recordId == r.recordId && row.kind == r.kind && row.version == r.version
    && row.logicalClock == r.logicalClock && row.modifiedAt == r.modifiedAt && row.deletedAt == r.deletedAt
    && row.contents == r.contents
    && row.syncState == Synced && row.lastSyncedClock == Some(r.logicalClock)
  }

  /** After a delta every row is the one that was there, untouched, or an offered record as received. */
  lemma {:induction false} RowsAreKeptOrReceived(table: Table, records: seq<Record>, id: string)
    requires id in Merge(table, records)
    ensures (id in table && Merge(table, records)[id] == table[id])
            || exists r :: Offered(records, id, r) && ReceivedAs(Merge(table, records)[id], r)
  {
    if records != [] {
      var front, last := records[..|records| - 1], records[|records| - 1];
      assert records == front + [last];
      OfferedSnoc(front, last, id);
      if id == last.recordId && !Skipped(Merge(table, front), last) {
        assert Offered(records, id, last) && ReceivedAs(Merge(table, records)[id], last);
      } else {
        RowsAreKeptOrReceived(table, front, id);
        if r :| Offered(front, id, r) && ReceivedAs(Merge(table, front)[id], r) {
          assert Offered(records, id, r);
        }
      }
    }
  }

  /** The clock after a delta is the latest of the clocks it has seen. */
  lemma {:induction false} MaxClockIsLatest(clock: nat, records: seq<Record>)
    ensures MaxClock(clock, records) >= clock
    ensures forall r | r in records :: MaxClock(clock, records) >= r.logicalClock
    ensures MaxClock(clock, records) == clock || exists r :: r in records && r.logicalClock == MaxClock(clock, records)
  {
    if records != [] {
      var front, last := records[..|records| - 1], records[|records| - 1];
      assert records == front + [last];
      MaxClockIsLatest(clock, front);
      if MaxClock(clock, front) >= last.logicalClock && MaxClock(clock, front) != clock {
        var r :| r in front && r.logicalClock == MaxClock(clock, front);
        assert r in records;
      } else {
        assert last in records;
      }
    }
  }

  // ---- Records of one kind ----

  /** No id is offered under two kinds. */
  ghost predicate KindsConsistent(records: seq<Record>) {
    forall a, b | a in records && b in records && a.recordId == b.recordId :: a.kind == b.kind
  }

  ghost predicate FitsTable(table: Table, records: seq<Record>) {
    forall r | r in records && r.recordId in table :: table[r.recordId].kind == r.kind
  }

  /** Where every id has one kind, nothing clashes. */
  lemma {:induction false} OneKindNeverClashes(table: Table, records: seq<Record>)
    requires KindsConsistent(records) && FitsTable(table, records)
    ensures NoClash(table, records) && IsLatest(Merge(table, records), table, records)
  {
    if records == [] {
      EmptyMergeIsLatest(table);
    } else {
      var front, last := records[..|records| - 1], records[|records| - 1];
      assert records == front + [last];
      assert forall r | r in front :: r in records;
      assert last in records;
      OneKindNeverClashes(table, front);
      var mid, id := Merge(table, front), last.recordId;
      assert LatestAt(mid, table, front, id);
      LatestStepIff(table, front, last);
    }
  }

  /** The rows that an offered record of the same kind could be compared with, and those not offered. */
  ghost function Comparable(table: Table, records: seq<Record>): Table {
    map id | id in table && (forall r | r in records && r.recordId == id :: r.kind == table[id].kind) :: table[id]
  }

  lemma {:induction false} MergeNotOffered(table: Table, records: seq<Record>, id: string)
    requires forall r :: !Offered(records, id, r)
    ensures At(Merge(table, records), id) == At(table, id)
  {
    if records != [] {
      var front, last := records[..|records| - 1], records[|records| - 1];
      assert last in records && !Offered(records, id, last);
      assert forall r :: Offered(front, id, r) ==> Offered(records, id, r);
      MergeNotOffered(table, front, id);
    }
  }

  /** What happens to an id depends on that id's row only. */
  lemma {:induction false} MergeIsLocal(a: Table, b: Table, records: seq<Record>, id: string)
    requires At(a, id) == At(b, id)
    ensures At(Merge(a, records), id) == At(Merge(b, records), id)
  {
    if records != [] {
      MergeIsLocal(a, b, records[..|records| - 1], id);
    }
  }

  /** Once an id is offered, a row of another kind no longer matters. */
  lemma {:induction false} OtherKindIsReplaced(a: Table, b: Table, records: seq<Record>, id: string, k: RecordKind)
    requires forall r | Offered(records, id, r) :: r.kind == k
    requires id !in b && id in a && a[id].kind != k
    ensures (exists r :: Offered(records, id, r)) ==> At(Merge(a, records), id) == At(Merge(b, records), id)
  {
    if records != [] {
      var front, last := records[..|records| - 1], records[|records| - 1];
      assert records == front + [last];
      OfferedSnoc(front, last, id);
      OtherKindIsReplaced(a, b, front, id, k);
      if forall r :: !Offered(front, id, r) {
        MergeNotOffered(a, front, id);
        MergeNotOffered(b, front, id);
      }
    }
  }

  lemma ComparableSuffices(table: Table, records: seq<Record>, id: string, r: Record)
    requires KindsConsistent(records) && Offered(records, id, r)
    ensures At(Merge(table, records), id) == At(Merge(Comparable(table, records), records), id)
  {
    var kept := Comparable(table, records);
    if id in table && table[id].kind != r.kind {
      OtherKindIsReplaced(table, kept, records, id, r.kind);
    } else {
      assert At(kept, id) == At(table, id);
      MergeIsLocal(table, kept, records, id);
    }
  }

  lemma ComparableIsLatest(table: Table, records: seq<Record>)
    requires KindsConsistent(records)
    ensures var kept := Comparable(table, records); IsLatest(Merge(kept, records), kept, records)
  {
    OneKindNeverClashes(Comparable(table, records), records);
  }

  // ---- Order ----

  predicate AgreeAt(a: Table, b: Table, id: string) {
    (id in a <==> id in b) && (id in a && id in b ==> Match(a[id], b[id]))
  }

  /** The same records, but for each copy's own bookkeeping. */
  ghost predicate Agree(a: Table, b: Table) {
    forall id :: AgreeAt(a, b, id)
  }

  ghost predicate SameMembers(a: seq<Record>, b: seq<Record>) {
    forall r :: r in a <==> r in b
  }

  lemma LatestIsUnique(
    after1: Table, after2: Table, before: Table, records1: seq<Record>, records2: seq<Record>, id: string)
    requires LatestAt(after1, before, records1, id) && LatestAt(after2, before, records2, id)
    requires SameMembers(records1, records2) && KindsConsistent(records1) && FitsTable(before, records1)
    ensures AgreeAt(after1, after2, id)
  {
    assert forall r :: Offered(records1, id, r) <==> Offered(records2, id, r);
    if id in after1 && id in after2 {
      NotBehind(after1, after2, before, records1, records2, id);
      NotBehind(after2, after1, before, records2, records1, id);
      PrecedenceIsTotal(after1[id], after2[id]);
    }
  }

  lemma NotBehind(after1: Table, after2: Table, before: Table, records1: seq<Record>, records2: seq<Record>, id: string)
    requires LatestAt(after1, before, records1, id) && LatestAt(after2, before, records2, id)
    requires forall r :: Offered(records1, id, r) <==> Offered(records2, id, r)
    requires id in after1 && id in after2
    ensures !Precedes(after2[id], after1[id])
  {
    if !(id in before && after1[id] == before[id]) {
      var r :| Offered(records1, id, r) && Match(after1[id], r);
      SamePrecedes(after1[id], r, after2[id]);
    }
  }

  ghost predicate Reordered(a: seq<Record>, b: seq<Record>) {
    multiset(a) == multiset(b)
  }

  ghost predicate OrderIrrelevant(table: Table, records: seq<Record>) {
    forall other | Reordered(records, other) :: Agree(Merge(table, records), Merge(table, other))
  }

  /** Without two kinds for an id, neither the order nor repetitions make a difference. */
  lemma ConsistentOrder(table: Table, records: seq<Record>, other: seq<Record>)
    requires KindsConsistent(records) && SameMembers(records, other)
    ensures Agree(Merge(table, records), Merge(table, other))
  {
    var kept := Comparable(table, records);
    assert kept == Comparable(table, other);
    ComparableIsLatest(table, records);
    ComparableIsLatest(table, other);
    forall id ensures AgreeAt(Merge(table, records), Merge(table, other), id) {
      if r :| Offered(records, id, r) {
        assert LatestAt(Merge(kept, records), kept, records, id) && LatestAt(Merge(kept, other), kept, other, id);
        LatestIsUnique(Merge(kept, records), Merge(kept, other), kept, records, other, id);
        ComparableSuffices(table, records, id, r);
        ComparableSuffices(table, other, id, r);
      } else {
        assert forall r :: !Offered(records, id, r) && !Offered(other, id, r) by {
          assert forall r :: Offered(other, id, r) ==> Offered(records, id, r);
        }
        MergeNotOffered(table, records, id);
        MergeNotOffered(table, other, id);
      }
    }
  }

  /** After a record of an id, the row is of that record's kind. */
  lemma LastKindStays(table: Table, records: seq<Record>, r: Record)
    ensures var after := Merge(table, records + [r]); r.recordId in after && after[r.recordId].kind == r.kind
  {
    assert (records + [r])[..|records|] == records;
  }

  lemma NotBothAgree(table: Table, one: Table, two: Table, id: string)
    requires id in one && id in two && one[id].kind != two[id].kind
    ensures !Agree(table, one) || !Agree(table, two)
  {
    assert !AgreeAt(table, one, id) || !AgreeAt(table, two, id);
  }

  /** The same records with one of them moved to the end. */
  lemma MovedLast(records: seq<Record>, a: Record) returns (front: seq<Record>)
    requires a in records
    ensures Reordered(records, front + [a])
  {
    var i :| 0 <= i < |records| && records[i] == a;
    front := records[..i] + records[i + 1..];
    assert records == records[..i] + [a] + records[i + 1..];
  }

  lemma MixedOrderMatters(table: Table, records: seq<Record>, a: Record, b: Record)
    requires a in records && b in records && a.recordId == b.recordId && a.kind != b.kind
    ensures !OrderIrrelevant(table, records)
  {
    var x := MovedLast(records, a);
    var y := MovedLast(records, b);
    LastKindStays(table, x, a);
    LastKindStays(table, y, b);
    NotBothAgree(Merge(table, records), Merge(table, x + [a]), Merge(table, y + [b]), a.recordId);
  }

  lemma ReorderedMembers(a: seq<Record>, b: seq<Record>)
    requires Reordered(a, b)
    ensures SameMembers(a, b)
  {
    forall r ensures r in a <==> r in b {
      assert r in a <==> multiset(a)[r] > 0;
      assert r in b <==> multiset(b)[r] > 0;
    }
  }

  /** The same records in another order leave the same table, always, exactly when no id has two kinds among them. */
  lemma OrderIrrelevantIffConsistent(table: Table, records: seq<Record>)
    ensures OrderIrrelevant(table, records) <==> KindsConsistent(records)
  {
    if KindsConsistent(records) {
      forall other | Reordered(records, other) ensures Agree(Merge(table, records), Merge(table, other)) {
        ReorderedMembers(records, other);
        ConsistentOrder(table, records, other);
      }
    } else {
      var a, b :| a in records && b in records && a.recordId == b.recordId && a.kind != b.kind;
      MixedOrderMatters(table, records, a, b);
    }
  }

  // ---- Repetition ----

  /** How the row of an id fares from two different starts. */
  ghost predicate Reunited(y: Option<Record>, w: Option<Record>, z: Option<Record>) {
    y == w || w == z || (y.Some? && w.Some? && y.value.kind == w.value.kind && !Precedes(y.value, w.value))
  }

  function AcceptAt(x: Option<Record>, r: Record): Option<Record> {
    if x.Some? && x.value.kind == r.kind && !Precedes(x.value, r) then x else Some(AsSynced(r))
  }

  lemma ReunitedStep(y: Option<Record>, w: Option<Record>, z: Option<Record>, r: Record)
    requires Reunited(y, w, z)
    ensures Reunited(AcceptAt(y, r), AcceptAt(w, r), z)
  {
    var s := AsSynced(r);
    SamePrecedesAll(s, r);
    PrecedenceIsTotal(s, r);
    if y.Some? { SamePrecedes(s, r, y.value); PrecedenceIsTotal(y.value, r); }
    if y.Some? && w.Some? && y != w && !Precedes(y.value, w.value) && Precedes(y.value, r) {
      SamePrecedes(s, r, w.value);
      PrecedenceIsTransitive(w.value, y.value, r);
    }
  }

  lemma {:induction false} TwoStarts(x: Table, z: Table, records: seq<Record>, id: string)
    ensures Reunited(At(Merge(x, records), id), At(Merge(z, records), id), At(z, id))
  {
    if records != [] {
      var front, last := records[..|records| - 1], records[|records| - 1];
      TwoStarts(x, z, front, id);
      ReunitedStep(At(Merge(x, front), id), At(Merge(z, front), id), At(z, id), last);
    }
  }

  /** A record accepted once is accepted again after a repetition of what came before it, or is still there. */
  lemma AcceptedAgain(y: Option<Record>, w: Option<Record>, last: Record)
    requires Reunited(y, w, Some(AsSynced(last))) && AcceptAt(y, last) == Some(AsSynced(last))
    requires y.Some? ==> y.value.kind != last.kind || Precedes(y.value, last)
    ensures AcceptAt(w, last) == Some(AsSynced(last))
  {
    var s := AsSynced(last);
    PrecedenceIsTotal(s, last);
    if y.Some? && w.Some? && y.value.kind == w.value.kind == last.kind && !Precedes(y.value, w.value) {
      PrecedenceIsTotal(y.value, last);
      PrecedenceIsTotal(w.value, last);
      if !Precedes(w.value, last) { PrecedenceIsTransitive(last, w.value, y.value); }
    }
  }

  lemma {:induction false} RepetitionAt(table: Table, records: seq<Record>, id: string)
    ensures At(Merge(Merge(table, records), records), id) == At(Merge(table, records), id)
  {
    if records != [] {
      var front, last := records[..|records| - 1], records[|records| - 1];
      var y, z := Merge(table, front), Merge(table, records);
      if id == last.recordId && !Skipped(y, last) {
        TwoStarts(table, z, front, id);
        AcceptedAgain(At(y, id), At(Merge(z, front), id), last);
      } else {
        RepetitionAt(table, front, id);
        MergeIsLocal(y, z, front, id);
      }
    }
  }

  /** Applying a delta again changes nothing, whatever it holds. */
  lemma MergeIsIdempotent(table: Table, records: seq<Record>)
    ensures Merge(Merge(table, records), records) == Merge(table, records)
  {
    var once := Merge(table, records);
    var twice := Merge(once, records);
    forall id ensures At(twice, id) == At(once, id) {
      RepetitionAt(table, records, id);
    }
    assert forall id :: id in twice <==> At(twice, id).Some?;
    assert forall id :: id in once <==> At(once, id).Some?;
    forall id | id in twice ensures id in once && twice[id] == once[id] {
      assert At(twice, id) == At(once, id);
    }
    forall id | id in once ensures id in twice {
      assert At(twice, id) == At(once, id);
    }
  }

  lemma {:induction false} AllSkippedIff(table: Table, records: seq<Record>)
    ensures CountSkipped(table, records) <= |records|
    ensures CountSkipped(table, records) == |records| <==> forall r | r in records :: Skipped(table, r)
    ensures CountSkipped(table, records) == |records| ==> Merge(table, records) == table
  {
    if records != [] {
      var front, last := records[..|records| - 1], records[|records| - 1];
      assert records == front + [last];
      AllSkippedIff(table, front);
    }
  }

  /** The second time, everything is skipped exactly when no id has two kinds in the delta. */
  lemma RepetitionIsSkippedIff(table: Table, records: seq<Record>)
    ensures CountSkipped(Merge(table, records), records) == |records| <==> KindsConsistent(records)
  {
    var once := Merge(table, records);
    AllSkippedIff(once, records);
    if KindsConsistent(records) {
      ComparableIsLatest(table, records);
      var kept := Comparable(table, records);
      forall r | r in records ensures Skipped(once, r) {
        var id := r.recordId;
        assert Offered(records, id, r);
        ComparableSuffices(table, records, id, r);
        assert LatestAt(Merge(kept, records), kept, records, id);
        assert At(once, id) == At(Merge(kept, records), id);
      }
    }
  }

  function Max(a: nat, b: nat): nat {
    if a < b then b else a
  }

  lemma SamePrecedesAll(a: Record, b: Record)
    requires Same(a, b)
    ensures forall c :: Precedes(a, c) == Precedes(b, c)
  {
    forall c ensures Precedes(a, c) == Precedes(b, c) { SamePrecedes(a, b, c); }
  }
}
