/** Ascending sequences under a strict order given as a function. */
module Sorting {

  ghost predicate Ascending<T(!new)>(less: (T, T) -> bool, s: seq<T>) {
    forall i, j | 0 <= i < j < |s| :: less(s[i], s[j])
  }

  ghost predicate StrictOrder<T(!new)>(less: (T, T) -> bool) {
    && (forall x :: !less(x, x))
    && (forall x, y, z :: less(x, y) && less(y, z) ==> less(x, z))
  }

  /** Where a stable sort puts a new last element. */
  function Insert<T>(less: (T, T) -> bool, s: seq<T>, x: T): seq<T> {
    if s == [] then [x]
    else if less(x, s[0]) then [x] + s
    else [s[0]] + Insert(less, s[1..], x)
  }

  /** A stable sort. */
  function Sort<T>(less: (T, T) -> bool, s: seq<T>): seq<T> {
    if s == [] then [] else Insert(less, Sort(less, s[..|s| - 1]), s[|s| - 1])
  }

  function Filter<T>(keep: T -> bool, s: seq<T>): seq<T> {
    if s == [] then [] else (if keep(s[0]) then [s[0]] else []) + Filter(keep, s[1..])
  }

  lemma {:induction false} InsertMembers<T(!new)>(less: (T, T) -> bool, s: seq<T>, x: T)
    ensures forall y :: y in Insert(less, s, x) <==> y in s || y == x
  {
    if s != [] && !less(x, s[0]) {
      InsertMembers(less, s[1..], x);
      assert s == [s[0]] + s[1..];
    }
  }

  /** Inserting an element comparable with all others keeps the sequence ascending. */
  lemma {:induction false} InsertAscends<T(!new)>(less: (T, T) -> bool, s: seq<T>, x: T)
    requires StrictOrder(less) && Ascending(less, s)
    requires forall y | y in s :: less(x, y) || less(y, x)
    ensures Ascending(less, Insert(less, s, x))
  {
    if s != [] {
      assert s[0] in s;
      if !less(x, s[0]) {
        var rest := s[1..];
        InsertAscends(less, rest, x);
        InsertMembers(less, rest, x);
        var t := Insert(less, rest, x);
        forall j | 0 <= j < |t| ensures less(s[0], t[j]) {
          assert t[j] in t;
          if t[j] != x {
            var k :| 0 <= k < |rest| && rest[k] == t[j];
            assert rest[k] == s[k + 1];
          }
        }
      }
    }
  }

  /** Sorting leaves an ascending sequence alone. */
  lemma {:induction false} SortAscending<T(!new)>(less: (T, T) -> bool, s: seq<T>)
    requires StrictOrder(less) && Ascending(less, s)
    ensures Sort(less, s) == s
  {
    if s != [] {
      var n := |s| - 1;
      SortAscending(less, s[..n]);
      InsertLast(less, s[..n], s[n]);
      assert s == s[..n] + [s[n]];
    }
  }

  lemma {:induction false} InsertLast<T(!new)>(less: (T, T) -> bool, s: seq<T>, x: T)
    requires StrictOrder(less) && forall y | y in s :: less(y, x)
    ensures Insert(less, s, x) == s + [x]
  {
    if s != [] {
      assert s[0] in s;
      InsertLast(less, s[1..], x);
      assert s == [s[0]] + s[1..];
    }
  }

  lemma {:induction false} FilterMembers<T(!new)>(keep: T -> bool, s: seq<T>)
    ensures forall y :: y in Filter(keep, s) <==> y in s && keep(y)
  {
    if s != [] {
      FilterMembers(keep, s[1..]);
      assert s == [s[0]] + s[1..];
    }
  }

  lemma {:induction false} FilterAscends<T(!new)>(less: (T, T) -> bool, keep: T -> bool, s: seq<T>)
    requires Ascending(less, s)
    ensures Ascending(less, Filter(keep, s))
  {
    if s != [] {
      var rest := s[1..];
      FilterAscends(less, keep, rest);
      FilterMembers(keep, rest);
      var t := Filter(keep, rest);
      forall j | 0 <= j < |t| ensures less(s[0], t[j]) {
        assert t[j] in t;
        var k :| 0 <= k < |rest| && rest[k] == t[j];
        assert rest[k] == s[k + 1];
      }
    }
  }

  lemma FirstIsMember<T>(s: seq<T>)
    ensures s == [] || s[0] in s
  {
  }

  /** An ascending sequence is determined by its elements. */
  lemma {:induction false} AscendingUnique<T(!new)>(less: (T, T) -> bool, a: seq<T>, b: seq<T>)
    requires StrictOrder(less) && Ascending(less, a) && Ascending(less, b)
    requires forall x :: x in a <==> x in b
    ensures a == b
  {
    FirstIsMember(b);
    if a != [] {
      assert a[0] in a;
      SameFirst(less, a, b);
      forall x ensures x in a[1..] <==> x in b[1..] {
        TailMember(less, a, x);
        TailMember(less, b, x);
      }
      AscendingUnique(less, a[1..], b[1..]);
      assert a == [a[0]] + a[1..] && b == [b[0]] + b[1..];
    }
  }

  lemma SameFirst<T(!new)>(less: (T, T) -> bool, a: seq<T>, b: seq<T>)
    requires StrictOrder(less) && Ascending(less, a) && Ascending(less, b)
    requires a != [] && b != [] && a[0] in b && b[0] in a
    ensures a[0] == b[0]
  {
    var i :| 0 <= i < |b| && b[i] == a[0];
    var j :| 0 <= j < |a| && a[j] == b[0];
  }

  lemma TailMember<T(!new)>(less: (T, T) -> bool, s: seq<T>, x: T)
    requires StrictOrder(less) && Ascending(less, s) && s != []
    ensures x in s[1..] <==> x in s && x != s[0]
  {
    assert s == [s[0]] + s[1..];
    if x in s[1..] {
      var k :| 0 <= k < |s[1..]| && s[1..][k] == x;
      assert s[k + 1] == x;
    }
  }
}
