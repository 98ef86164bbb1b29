/**
 When may a run of scroll deltas be replaced by one delta, its saturating sum?
 A clamped viewport walks between 0 and its largest offset; the sum walks between
 the two ends of `isize`. This module decides exactly when the two agree.
 */
module ScrollWalk {
  import opened SessionCommands

  function Clamp(lo: int, hi: int, x: int): int
    requires lo <= hi
  {
    if x < lo then lo else if hi < x then hi else x
  }

  /** Apply the deltas one after the other, keeping the position in [lo, hi]. */
  function Walk(lo: int, hi: int, start: int, deltas: seq<isize>): int
    requires lo <= hi
  {
    if deltas == [] then start else
      Clamp(lo, hi, Walk(lo, hi, start, deltas[..|deltas| - 1]) + deltas[|deltas| - 1])
  }

  /** `isize::saturating_add`. */
  function SaturatingAdd(a: isize, b: isize): isize {
    Clamp(ISIZE_MIN, ISIZE_MAX, a + b)
  }

  /** The saturating left fold of a run. */
  function SaturatingSum(deltas: seq<isize>): (total: isize)
  {
    WalkStays(ISIZE_MIN, ISIZE_MAX, 0, deltas);
    Walk(ISIZE_MIN, ISIZE_MAX, 0, deltas)
  }

  /** The saturating sum after the first `k` deltas. */
  function PartialSum(deltas: seq<isize>, k: nat): isize
    requires k <= |deltas|
  {
    SaturatingSum(deltas[..k])
  }

  lemma {:induction false} WalkStays(lo: int, hi: int, start: int, deltas: seq<isize>)
    requires lo <= start <= hi
    ensures lo <= Walk(lo, hi, start, deltas) <= hi
  {
    if deltas != [] {
      WalkStays(lo, hi, start, deltas[..|deltas| - 1]);
    }
  }

  /** Walking peels deltas off the front as well as off the back. */
  lemma {:induction false} WalkCons(lo: int, hi: int, start: int, first: isize, rest: seq<isize>)
    requires lo <= hi
    ensures Walk(lo, hi, start, [first] + rest) == Walk(lo, hi, Clamp(lo, hi, start + first), rest)
  {
    if rest == [] {
      assert ([first] + rest)[..0] == [];
    } else {
      var n := |rest|;
      WalkCons(lo, hi, start, first, rest[..n - 1]);
      assert ([first] + rest)[..n] == [first] + rest[..n - 1];
    }
  }

  lemma PartialSumStep(deltas: seq<isize>)
    requires deltas != []
    ensures var n := |deltas|;
            PartialSum(deltas, n) == SaturatingSum(deltas)
            && SaturatingSum(deltas) == SaturatingAdd(PartialSum(deltas, n - 1), deltas[n - 1])
  {
    assert deltas[..|deltas|] == deltas;
  }

  lemma PartialSumOfPrefix(deltas: seq<isize>, n: nat, k: nat)
    requires k <= n <= |deltas|
    ensures PartialSum(deltas[..n], k) == PartialSum(deltas, k)
  {
    assert deltas[..n][..k] == deltas[..k];
  }

  /** Every partial sum, from the `from`-th on, lies in [lo, hi]. */
  ghost predicate BetweenFrom(deltas: seq<isize>, from: nat, lo: int, hi: int) {
    forall k: nat | from <= k <= |deltas| :: lo <= PartialSum(deltas, k) <= hi
  }

  ghost predicate Between(deltas: seq<isize>, lo: int, hi: int) {
    BetweenFrom(deltas, 0, lo, hi)
  }

  lemma BetweenPrefix(deltas: seq<isize>, from: nat, lo: int, hi: int, n: nat)
    requires n <= |deltas| && BetweenFrom(deltas, from, lo, hi)
    ensures BetweenFrom(deltas[..n], from, lo, hi)
  {
    forall k: nat | from <= k <= n ensures lo <= PartialSum(deltas[..n], k) <= hi {
      PartialSumOfPrefix(deltas, n, k);
    }
  }

  /**
   The condition under which one delta can stand for the run: the sum ends saturated, or no
   partial sum leaves the range between 0 and the total. The last line is the one total, one
   step above `isize::MIN`, where the asymmetry of `isize` shows.
   */
  ghost predicate Mergeable(deltas: seq<isize>) {
    var total := SaturatingSum(deltas);
    || total == ISIZE_MAX
    || total == ISIZE_MIN
    || (0 <= total && Between(deltas, 0, total))
    || (total <= 0 && Between(deltas, total, 0))
    || (total == -ISIZE_MAX && RecoversFromFloor(deltas))
  }

  /** After every visit to `isize::MIN` the partial sum is at some later point not negative. */
  ghost predicate RecoversFromFloor(deltas: seq<isize>) {
    forall j: nat | j <= |deltas| && PartialSum(deltas, j) == ISIZE_MIN ::
      exists k: nat :: j < k <= |deltas| && PartialSum(deltas, k) >= 0
  }

  /** One delta does what the run does, for every viewport size and every start. */
  ghost predicate MergesInEveryViewport(deltas: seq<isize>) {
    forall limit: int, start: int | 0 <= start <= limit <= ISIZE_MAX ::
      Walk(0, limit, start, deltas) == Clamp(0, limit, start + SaturatingSum(deltas))
  }

  // ---- The condition suffices ----

  lemma {:induction false} RisingWalk(limit: int, start: int, deltas: seq<isize>, top: int)
    requires 0 <= start <= limit <= ISIZE_MAX
    requires Between(deltas, 0, top)
    ensures var w, s := Walk(0, limit, start, deltas), SaturatingSum(deltas);
            w <= start + s && (w >= limit + s - top || w >= start + s)
  {
    if deltas != [] {
      var n := |deltas|;
      BetweenPrefix(deltas, 0, 0, top, n - 1);
      RisingWalk(limit, start, deltas[..n - 1], top);
      PartialSumStep(deltas);
      WalkStays(0, limit, start, deltas);
    } else {
      assert PartialSum(deltas, 0) <= top;
    }
  }

  lemma {:induction false} FallingWalk(limit: int, start: int, deltas: seq<isize>, floor: int)
    requires 0 <= start <= limit <= ISIZE_MAX
    requires Between(deltas, floor, 0)
    ensures var w, s := Walk(0, limit, start, deltas), SaturatingSum(deltas);
            w >= start + s && (w <= s - floor || w <= start + s)
  {
    if deltas != [] {
      var n := |deltas|;
      BetweenPrefix(deltas, 0, floor, 0, n - 1);
      FallingWalk(limit, start, deltas[..n - 1], floor);
      PartialSumStep(deltas);
      WalkStays(0, limit, start, deltas);
    } else {
      assert floor <= PartialSum(deltas, 0);
    }
  }

  /** A saturated sum has pushed every viewport against the same end. */
  lemma {:induction false} SaturatedWalk(limit: int, start: int, deltas: seq<isize>)
    requires 0 <= start <= limit <= ISIZE_MAX
    ensures Walk(0, limit, start, deltas) >= limit + SaturatingSum(deltas) - ISIZE_MAX
    ensures Walk(0, limit, start, deltas) <= SaturatingSum(deltas) - ISIZE_MIN
  {
    if deltas != [] {
      SaturatedWalk(limit, start, deltas[..|deltas| - 1]);
      PartialSumStep(deltas);
      WalkStays(0, limit, start, deltas[..|deltas| - 1]);
    }
  }

  /** From a point `t` where the sum is not negative it stays above the floor to the end. */
  lemma {:induction false} DescendingWalk(limit: int, start: int, deltas: seq<isize>, t: nat)
    requires 0 <= start <= limit <= ISIZE_MAX
    requires t <= |deltas| && PartialSum(deltas, t) >= 0
    requires BetweenFrom(deltas, t + 1, ISIZE_MIN + 1, -1)
    ensures Walk(0, limit, start, deltas) <= SaturatingSum(deltas) + ISIZE_MAX
  {
    var n := |deltas|;
    WalkStays(0, limit, start, deltas);
    if t == n {
      assert deltas[..n] == deltas;
    } else {
      PartialSumOfPrefix(deltas, n - 1, t);
      BetweenPrefix(deltas, t + 1, ISIZE_MIN + 1, -1, n - 1);
      DescendingWalk(limit, start, deltas[..n - 1], t);
      PartialSumStep(deltas);
      assert ISIZE_MIN < PartialSum(deltas, n) < 0;
    }
  }

  /** The last point at or before `n` where the partial sum is not negative. */
  lemma {:induction false} LastNonNegative(deltas: seq<isize>, n: nat) returns (t: nat)
    requires n <= |deltas|
    ensures t <= n && PartialSum(deltas, t) >= 0
    ensures forall k: nat | t < k <= n :: PartialSum(deltas, k) < 0
  {
    if PartialSum(deltas, n) >= 0 {
      t := n;
    } else {
      assert n != 0;
      t := LastNonNegative(deltas, n - 1);
    }
  }

  lemma MergeableSuffices(deltas: seq<isize>, limit: int, start: int)
    requires Mergeable(deltas)
    requires 0 <= start <= limit <= ISIZE_MAX
    ensures Walk(0, limit, start, deltas) == Clamp(0, limit, start + SaturatingSum(deltas))
  {
    var total := SaturatingSum(deltas);
    WalkStays(0, limit, start, deltas);
    if total == ISIZE_MAX || total == ISIZE_MIN {
      SaturatedWalk(limit, start, deltas);
    } else if 0 <= total && Between(deltas, 0, total) {
      RisingWalk(limit, start, deltas, total);
    } else if total <= 0 && Between(deltas, total, 0) {
      FallingWalk(limit, start, deltas, total);
    } else {
      var n := |deltas|;
      var t := LastNonNegative(deltas, n);
      DescendingWalk(limit, start, deltas, t);
    }
  }

  // ---- The condition is necessary ----

  /** Two neighbouring viewports that end apart were never clamped on the way. */
  lemma {:induction false} NeverClamped(limit: int, start: int, deltas: seq<isize>, k: nat)
    requires 0 <= start < limit <= ISIZE_MAX && k <= |deltas|
    requires Walk(0, limit, start, deltas) != Walk(0, limit, start + 1, deltas)
    ensures Walk(0, limit, start, deltas) + 1 == Walk(0, limit, start + 1, deltas)
    ensures Walk(0, limit, start, deltas) == start + SaturatingSum(deltas) < limit
    ensures 0 <= start + PartialSum(deltas, k) < limit
  {
    var n := |deltas|;
    assert deltas[..n] == deltas;
    if deltas != [] {
      NeverClamped(limit, start, deltas[..n - 1], if k < n then k else 0);
      PartialSumStep(deltas);
      if k < n {
        PartialSumOfPrefix(deltas, n - 1, k);
      } else {
        WalkStays(0, limit, start, deltas);
      }
    }
  }

  /** From the floor, a sum that stays negative leaves the largest viewport no lower than it. */
  lemma {:induction false} ClimbFromFloor(deltas: seq<isize>, j: nat)
    requires j <= |deltas| && PartialSum(deltas, j) == ISIZE_MIN
    requires BetweenFrom(deltas, j + 1, ISIZE_MIN, -1)
    ensures Walk(0, ISIZE_MAX, 0, deltas) >= SaturatingSum(deltas) - ISIZE_MIN
  {
    var n := |deltas|;
    WalkStays(0, ISIZE_MAX, 0, deltas);
    if j == n {
      assert deltas[..n] == deltas;
    } else {
      PartialSumOfPrefix(deltas, n - 1, j);
      BetweenPrefix(deltas, j + 1, ISIZE_MIN, -1, n - 1);
      ClimbFromFloor(deltas[..n - 1], j);
      PartialSumStep(deltas);
      assert PartialSum(deltas, n) < 0;
    }
  }

  lemma MergeableNecessary(deltas: seq<isize>)
    requires MergesInEveryViewport(deltas)
    ensures Mergeable(deltas)
  {
    var total := SaturatingSum(deltas);
    if 0 <= total < ISIZE_MAX {
      assert Walk(0, total + 1, 0, deltas) == total;
      assert Walk(0, total + 1, 1, deltas) == total + 1;
      forall k: nat | k <= |deltas| ensures 0 <= PartialSum(deltas, k) <= total {
        NeverClamped(total + 1, 0, deltas, k);
      }
    } else if -ISIZE_MAX < total < 0 {
      var limit := 1 - total;
      assert Walk(0, limit, -total, deltas) == 0;
      assert Walk(0, limit, -total + 1, deltas) == 1;
      forall k: nat | k <= |deltas| ensures total <= PartialSum(deltas, k) <= 0 {
        NeverClamped(limit, -total, deltas, k);
      }
    } else if total == -ISIZE_MAX {
      assert Walk(0, ISIZE_MAX, 0, deltas) == 0;
      forall j: nat | j <= |deltas| && PartialSum(deltas, j) == ISIZE_MIN
        ensures exists k: nat :: j < k <= |deltas| && PartialSum(deltas, k) >= 0
      {
        if BetweenFrom(deltas, j + 1, ISIZE_MIN, -1) {
          ClimbFromFloor(deltas, j);
        }
      }
    }
  }

  /** The saturating sum stands for the run in every clamped viewport exactly when `Mergeable`. */
  lemma MergesExactlyWhenMergeable(deltas: seq<isize>)
    ensures MergesInEveryViewport(deltas) <==> Mergeable(deltas)
  {
    if Mergeable(deltas) {
      forall limit: int, start: int | 0 <= start <= limit <= ISIZE_MAX
        ensures Walk(0, limit, start, deltas) == Clamp(0, limit, start + SaturatingSum(deltas))
      {
        MergeableSuffices(deltas, limit, start);
      }
    }
    if MergesInEveryViewport(deltas) {
      MergeableNecessary(deltas);
    }
  }

  // ---- Consequences ----

  ghost predicate ScrollsDown(deltas: seq<isize>) {
    forall i | 0 <= i < |deltas| :: deltas[i] >= 0
  }

  ghost predicate ScrollsUp(deltas: seq<isize>) {
    forall i | 0 <= i < |deltas| :: deltas[i] <= 0
  }

  lemma {:induction false} DownwardSums(deltas: seq<isize>)
    requires ScrollsDown(deltas)
    ensures Between(deltas, 0, SaturatingSum(deltas))
  {
    var n := |deltas|;
    assert deltas[..n] == deltas;
    if n != 0 {
      DownwardSums(deltas[..n - 1]);
      PartialSumStep(deltas);
      forall k: nat | k < n ensures PartialSum(deltas[..n - 1], k) == PartialSum(deltas, k) {
        PartialSumOfPrefix(deltas, n - 1, k);
      }
    }
  }

  lemma {:induction false} UpwardSums(deltas: seq<isize>)
    requires ScrollsUp(deltas)
    ensures Between(deltas, SaturatingSum(deltas), 0)
  {
    var n := |deltas|;
    assert deltas[..n] == deltas;
    if n != 0 {
      UpwardSums(deltas[..n - 1]);
      PartialSumStep(deltas);
      forall k: nat | k < n ensures PartialSum(deltas[..n - 1], k) == PartialSum(deltas, k) {
        PartialSumOfPrefix(deltas, n - 1, k);
      }
    }
  }

  /** A run that scrolls one way only is always mergeable, even when the sum saturates. */
  lemma OneWayRunsMerge(deltas: seq<isize>)
    requires ScrollsDown(deltas) || ScrollsUp(deltas)
    ensures Mergeable(deltas)
  {
    if ScrollsDown(deltas) {
      DownwardSums(deltas);
    } else {
      UpwardSums(deltas);
    }
    assert |deltas| == 0 || PartialSum(deltas, 0) == 0;
  }

  /** Scrolling one row past the bottom and back: the run moves, the merged delta does not. */
  lemma OvershootIsLost(run: seq<isize>)
    requires run == [1, -1]
    ensures !Mergeable(run)
    ensures Walk(0, 1, 1, run) == 0 && Clamp(0, 1, 1 + SaturatingSum(run)) == 1
  {
    WalkCons(0, 1, 1, 1, [-1]);
    WalkCons(0, 1, 1, -1, []);
    WalkCons(ISIZE_MIN, ISIZE_MAX, 0, 1, [-1]);
    WalkCons(ISIZE_MIN, ISIZE_MAX, 1, -1, []);
    assert run == [1] + [-1] && [-1] == [-1] + [];
    MergesExactlyWhenMergeable(run);
  }

  /** The plain sum of a run. */
  function Sum(deltas: seq<isize>): int {
    if deltas == [] then 0 else Sum(deltas[..|deltas| - 1]) + deltas[|deltas| - 1]
  }

  /** What the additions of a run lose by saturating, at the upper end and at the lower. */
  function LostAbove(deltas: seq<isize>): nat {
    if deltas == [] then 0 else
      var n := |deltas| - 1;
      var exact := SaturatingSum(deltas[..n]) + deltas[n];
      LostAbove(deltas[..n]) + if exact > ISIZE_MAX then exact - ISIZE_MAX else 0
  }

  function LostBelow(deltas: seq<isize>): nat {
    if deltas == [] then 0 else
      var n := |deltas| - 1;
      var exact := SaturatingSum(deltas[..n]) + deltas[n];
      LostBelow(deltas[..n]) + if exact < ISIZE_MIN then ISIZE_MIN - exact else 0
  }

  lemma {:induction false} SaturationBalance(deltas: seq<isize>)
    ensures SaturatingSum(deltas) == Sum(deltas) - LostAbove(deltas) + LostBelow(deltas)
  {
    if deltas != [] {
      SaturationBalance(deltas[..|deltas| - 1]);
      PartialSumStep(deltas);
    }
  }

  /** The deltas one after the other, with no ends to stop at. */
  function FreeWalk(start: int, deltas: seq<isize>): int {
    if deltas == [] then start else FreeWalk(start, deltas[..|deltas| - 1]) + deltas[|deltas| - 1]
  }

  lemma {:induction false} FreeWalkSums(start: int, deltas: seq<isize>)
    ensures FreeWalk(start, deltas) == start + Sum(deltas)
  {
    if deltas != [] {
      FreeWalkSums(start, deltas[..|deltas| - 1]);
    }
  }

  /** In a viewport without ends the merged delta is right exactly when the losses at both ends of `isize` cancel. */
  lemma UnclampedMergesIff(start: int, deltas: seq<isize>)
    ensures FreeWalk(start, deltas) == start + SaturatingSum(deltas) <==> LostAbove(deltas) == LostBelow(deltas)
  {
    FreeWalkSums(start, deltas);
    SaturationBalance(deltas);
  }

  /** No partial sum leaves `isize`. */
  predicate NoOverflow(deltas: seq<isize>) {
    && ISIZE_MIN <= Sum(deltas) <= ISIZE_MAX
    && (deltas != [] ==> NoOverflow(deltas[..|deltas| - 1]))
  }

  /** Nothing is lost at either end exactly when no partial sum overflows. */
  lemma {:induction false} NothingLostIff(deltas: seq<isize>)
    ensures NoOverflow(deltas) <==> LostAbove(deltas) == 0 && LostBelow(deltas) == 0
  {
    SaturationBalance(deltas);
    if deltas != [] {
      NothingLostIff(deltas[..|deltas| - 1]);
      SaturationBalance(deltas[..|deltas| - 1]);
    }
  }

  /** So in particular when no partial sum overflows. */
  lemma UnclampedRunsMerge(start: int, deltas: seq<isize>)
    requires NoOverflow(deltas)
    ensures FreeWalk(start, deltas) == start + SaturatingSum(deltas)
  {
    NothingLostIff(deltas);
    UnclampedMergesIff(start, deltas);
  }
}
