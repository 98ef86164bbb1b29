/** Compaction of a burst of scroll commands before they reach the terminal. */
module ScrollCompaction {
  import opened Text
  import opened SessionCommands
  import opened ScrollWalk

  /** Reference definition: merge two leading deltas, else keep the first command. */
  function Compact(commands: seq<SessionCommand>): seq<SessionCommand>
    decreases |commands|
  {
    if commands == [] then []
    else if |commands| >= 2 && IsDelta(commands[0]) && IsDelta(commands[1]) then
      Compact([Delta(SaturatingAdd(commands[0].scroll.rows, commands[1].scroll.rows))] + commands[2..])
    else [commands[0]] + Compact(commands[1..])
  }

  /** The delta the loop is still holding back, as commands. */
  function Held(pending: Option<isize>): seq<SessionCommand> {
    match pending
    case None => []
    case Some(rows) => [Delta(rows)]
  }

  lemma CompactHeld(pending: Option<isize>, next: SessionCommand, rest: seq<SessionCommand>)
    ensures IsDelta(next) ==>
              Compact(Held(pending) + ([next] + rest))
              == Compact([Delta(SaturatingAdd(if pending.None? then 0 else pending.value, next.scroll.rows))] + rest)
    ensures !IsDelta(next) ==>
              Compact(Held(pending) + ([next] + rest)) == Held(pending) + [next] + Compact(rest)
  {
    var all := Held(pending) + ([next] + rest);
    if pending.None? {
      assert all == [next] + rest;
      assert all[1..] == rest;
    } else {
      assert all[2..] == rest && all[1] == next;
      assert all[1..] == [next] + rest && ([next] + rest)[1..] == rest;
    }
  }

  /** What the loop has pushed, then the compaction of what it holds back and has not read. */
  ghost predicate Progress(
    pushed: seq<SessionCommand>, pending: Option<isize>, rest: seq<SessionCommand>, all: seq<SessionCommand>)
  {
    pushed + Compact(Held(pending) + rest) == Compact(all)
  }

  lemma ProgressAbsorb(
    pushed: seq<SessionCommand>, pending: Option<isize>, rows: isize, rest: seq<SessionCommand>,
        all: seq<SessionCommand>)
    requires Progress(pushed, pending, [Delta(rows)] + rest, all)
    ensures Progress(pushed, Some(SaturatingAdd(if pending.None? then 0 else pending.value, rows)), rest, all)
  {
    CompactHeld(pending, Delta(rows), rest);
  }

  lemma ProgressPush(
    pushed: seq<SessionCommand>, pending: Option<isize>, next: SessionCommand, rest: seq<SessionCommand>,
        all: seq<SessionCommand>)
    requires !IsDelta(next) && Progress(pushed, pending, [next] + rest, all)
    ensures Progress(pushed + Held(pending) + [next], None, rest, all)
  {
    CompactHeld(pending, next, rest);
    assert Held(None) + rest == rest;
    assert pushed + (Held(pending) + [next] + Compact(rest)) == pushed + Held(pending) + [next] + Compact(rest);
  }

  lemma ProgressDone(pushed: seq<SessionCommand>, pending: Option<isize>, all: seq<SessionCommand>)
    requires Progress(pushed, pending, [], all)
    ensures pushed + Held(pending) == Compact(all)
  {
    assert Held(pending) + [] == Held(pending);
    if pending.Some? {
      assert Compact(Held(pending)) == [Held(pending)[0]] + Compact([]);
    }
  }

  method CompactScrollCommandBurst(commands: seq<SessionCommand>) returns (compacted: seq<SessionCommand>)
    ensures compacted == Compact(commands)
  {
    compacted := [];
    var pendingDelta: Option<isize> := None;
    assert Progress([], None, commands[0..], commands) by {
      assert Held(None) + commands[0..] == commands;
    }
    for i := 0 to |commands|
      invariant Progress(compacted, pendingDelta, commands[i..], commands)
    {
      ghost var rest := commands[i + 1..];
      assert commands[i..] == [commands[i]] + rest;
      if commands[i].ScrollViewport? && commands[i].scroll.DeltaRows? {
        var rows := commands[i].scroll.rows;
        ProgressAbsorb(compacted, pendingDelta, rows, rest, commands);
        pendingDelta := Some(SaturatingAdd(if pendingDelta.None? then 0 else pendingDelta.value, rows));
      } else {
        ProgressPush(compacted, pendingDelta, commands[i], rest, commands);
        if pendingDelta.Some? {
          compacted := compacted + [Delta(pendingDelta.value)];
          pendingDelta := None;
        } else {
          assert compacted + Held(pendingDelta) == compacted;
        }
        compacted := compacted + [commands[i]];
      }
    }
    assert commands[|commands|..] == [];
    ProgressDone(compacted, pendingDelta, commands);
    if pendingDelta.Some? {
      compacted := compacted + [Delta(pendingDelta.value)];
    } else {
      assert compacted + Held(None) == compacted;
    }
  }

  // ---- Shape of the output ----

  ghost predicate NoAdjacentDeltas(commands: seq<SessionCommand>) {
    forall i | 0 <= i < |commands| - 1 :: !(IsDelta(commands[i]) && IsDelta(commands[i + 1]))
  }

  function NonDeltas(commands: seq<SessionCommand>): seq<SessionCommand> {
    if commands == [] then []
    else (if IsDelta(commands[0]) then [] else [commands[0]]) + NonDeltas(commands[1..])
  }

  /** Whether a sequence starts with a delta survives compaction. */
  lemma {:induction false} CompactHead(commands: seq<SessionCommand>)
    ensures (Compact(commands) == []) == (commands == [])
    ensures commands != [] ==> IsDelta(Compact(commands)[0]) == IsDelta(commands[0])
    decreases |commands|
  {
    if |commands| >= 2 && IsDelta(commands[0]) && IsDelta(commands[1]) {
      CompactHead([Delta(SaturatingAdd(commands[0].scroll.rows, commands[1].scroll.rows))] + commands[2..]);
    }
  }

  /** No two deltas are left side by side, and every other command is kept, in order. */
  lemma {:induction false} CompactShape(commands: seq<SessionCommand>)
    ensures NoAdjacentDeltas(Compact(commands))
    ensures NonDeltas(Compact(commands)) == NonDeltas(commands)
    ensures |Compact(commands)| <= |commands|
    decreases |commands|
  {
    if commands == [] {
    } else if |commands| >= 2 && IsDelta(commands[0]) && IsDelta(commands[1]) {
      var merged := [Delta(SaturatingAdd(commands[0].scroll.rows, commands[1].scroll.rows))] + commands[2..];
      CompactShape(merged);
      assert merged[1..] == commands[2..] == commands[1..][1..];
    } else {
      CompactShape(commands[1..]);
      CompactHead(commands[1..]);
      var c := Compact(commands);
      assert c[1..] == Compact(commands[1..]);
      forall i | 0 <= i < |c| - 1 ensures !(IsDelta(c[i]) && IsDelta(c[i + 1])) {
        if i > 0 {
          assert c[i] == c[1..][i - 1] && c[i + 1] == c[1..][i];
        }
      }
    }
  }

  function Deltas(rows: seq<isize>): seq<SessionCommand> {
    seq(|rows|, i requires 0 <= i < |rows| => Delta(rows[i]))
  }

  ghost predicate StartsNoRun(commands: seq<SessionCommand>) {
    commands == [] || !IsDelta(commands[0])
  }

  lemma MergeLeading(a: isize, b: isize, rest: seq<isize>)
    ensures SaturatingSum([a] + ([b] + rest)) == SaturatingSum([SaturatingAdd(a, b)] + rest)
  {
    WalkCons(ISIZE_MIN, ISIZE_MAX, 0, a, [b] + rest);
    WalkCons(ISIZE_MIN, ISIZE_MAX, a, b, rest);
    WalkCons(ISIZE_MIN, ISIZE_MAX, 0, SaturatingAdd(a, b), rest);
  }

  /** A maximal run of deltas becomes one delta: the saturating left fold of the run. */
  lemma {:induction false} CompactRun(rows: seq<isize>, rest: seq<SessionCommand>)
    requires rows != [] && StartsNoRun(rest)
    ensures Compact(Deltas(rows) + rest) == [Delta(SaturatingSum(rows))] + Compact(rest)
    decreases |rows|
  {
    var all := Deltas(rows) + rest;
    if |rows| == 1 {
      WalkCons(ISIZE_MIN, ISIZE_MAX, 0, rows[0], []);
      assert rows == [rows[0]] + [];
      assert all[1..] == rest;
    } else {
      var merged := [SaturatingAdd(rows[0], rows[1])] + rows[2..];
      MergeLeading(rows[0], rows[1], rows[2..]);
      assert rows == [rows[0]] + ([rows[1]] + rows[2..]);
      CompactRun(merged, rest);
      assert [Delta(merged[0])] + all[2..] == Deltas(merged) + rest;
    }
  }

  // ---- Algebra ----

  /** A command that is not followed by a delta to merge with is kept. */
  lemma CompactKeeps(first: SessionCommand, rest: seq<SessionCommand>)
    requires !IsDelta(first) || StartsNoRun(rest)
    ensures Compact([first] + rest) == [first] + Compact(rest)
  {
    assert ([first] + rest)[1..] == rest;
  }

  /** Compacting a compacted prefix again changes nothing: bursts may be compacted in pieces. */
  lemma {:induction false} CompactIsLeftCompositional(a: seq<SessionCommand>, b: seq<SessionCommand>)
    ensures Compact(Compact(a) + b) == Compact(a + b)
    decreases |a|
  {
    if a == [] {
      assert Compact(a) + b == a + b;
    } else if |a| >= 2 && IsDelta(a[0]) && IsDelta(a[1]) {
      var merged := [Delta(SaturatingAdd(a[0].scroll.rows, a[1].scroll.rows))] + a[2..];
      CompactIsLeftCompositional(merged, b);
      assert [merged[0]] + (a + b)[2..] == merged + b;
    } else {
      CompactIsLeftCompositional(a[1..], b);
      CompactKeptFirst(a[0], a[1..], b);
      assert a == [a[0]] + a[1..];
    }
  }

  lemma CompactKeptFirst(first: SessionCommand, tail: seq<SessionCommand>, b: seq<SessionCommand>)
    requires !IsDelta(first) || StartsNoRun(tail)
    requires Compact(Compact(tail) + b) == Compact(tail + b)
    ensures Compact(Compact([first] + tail) + b) == Compact([first] + tail + b)
  {
    CompactKeeps(first, tail);
    CompactHead(tail);
    assert Compact([first] + tail) + b == [first] + (Compact(tail) + b);
    assert [first] + tail + b == [first] + (tail + b);
    if !IsDelta(first) || tail != [] {
      CompactKeeps(first, Compact(tail) + b);
      CompactKeeps(first, tail + b);
    }
  }

  lemma CompactIsIdempotent(a: seq<SessionCommand>)
    ensures Compact(Compact(a)) == Compact(a)
  {
    CompactIsLeftCompositional(a, []);
    assert Compact(a) + [] == Compact(a) && a + [] == a;
  }

  lemma CompactTwo(a: isize, b: isize)
    ensures Compact([Delta(a), Delta(b)]) == [Delta(SaturatingAdd(a, b))]
  {
    var sum := Delta(SaturatingAdd(a, b));
    assert [sum] + [Delta(a), Delta(b)][2..] == [sum];
    assert Compact([sum]) == [sum] + Compact([sum][1..]);
  }

  /** The mirror law fails: a suffix must not be compacted before what precedes it is known. */
  lemma CompactIsNotRightCompositional(a: seq<SessionCommand>, b: seq<SessionCommand>)
    requires a == [Delta(ISIZE_MAX)] && b == [Delta(1), Delta(-1)]
    ensures Compact(a + Compact(b)) != Compact(a + b)
  {
    CompactTwo(1, -1);
    assert a + [Delta(0)] == [Delta(ISIZE_MAX), Delta(0)];
    CompactTwo(ISIZE_MAX, 0);
    assert [Delta(ISIZE_MAX)] + (a + b)[2..] == [Delta(ISIZE_MAX), Delta(-1)];
    CompactTwo(ISIZE_MAX, -1);
  }

  // ---- Meaning ----

  /** The scrollbar as of the last refresh; the terminal consults it for absolute jumps. */
  datatype Scrollbar = Scrollbar(maxOffset: nat, offset: nat)

  /** A viewport between 0 and `limit`; `clamped` says whether a move is kept in that range. */
  datatype Terminal = Terminal(limit: nat, clamped: bool, rows: nat, cached: Option<Scrollbar>)

  datatype Viewport = Viewport(offset: int, atBottom: bool)

  function Move(terminal: Terminal, offset: int, delta: int): int {
    if terminal.clamped then Clamp(0, terminal.limit, offset + delta) else offset + delta
  }

  function PageStep(terminal: Terminal): nat {
    if terminal.rows == 0 then 0 else terminal.rows - 1
  }

  function Min(a: nat, b: nat): nat {
    if a < b then a else b
  }

  /** `TerminalEmulator::scroll_viewport`; between refreshes the cached scrollbar is fixed. */
  function Scroll(terminal: Terminal, view: Viewport, command: TerminalScrollCommand): Viewport {
    match command
    case Top => Viewport(0, false)
    case Bottom => Viewport(terminal.limit, true)
    case DeltaRows(rows) => Viewport(Move(terminal, view.offset, rows), false)
    case SetOffsetRows(target) =>
      if terminal.cached.None? then view else
        var bar := terminal.cached.value;
        var delta := Clamp(ISIZE_MIN, ISIZE_MAX, Min(target, bar.maxOffset) - bar.offset);
        Viewport(Move(terminal, view.offset, delta), Min(target, bar.maxOffset) == bar.maxOffset)
    case PageUp => Viewport(Move(terminal, view.offset, 0 - PageStep(terminal)), false)
    case PageDown => Viewport(Move(terminal, view.offset, PageStep(terminal)), true)
  }

  function ScrollOne(terminal: Terminal, view: Viewport, command: SessionCommand): Viewport {
    match command
    case ScrollViewport(scroll) => Scroll(terminal, view, scroll)
    case ScrollToBottom => Scroll(terminal, view, Bottom)
    case _ => view
  }

  function ScrollAll(terminal: Terminal, view: Viewport, commands: seq<SessionCommand>): Viewport
    decreases |commands|
  {
    if commands == [] then view
    else ScrollAll(terminal, ScrollOne(terminal, view, commands[0]), commands[1..])
  }

  /** With an up-to-date scrollbar, setting an offset arrives there, or at the end if it lies beyond. */
  lemma JumpArrives(terminal: Terminal, view: Viewport, target: nat)
    requires terminal.clamped && terminal.limit <= ISIZE_MAX && 0 <= view.offset
    requires terminal.cached == Some(Scrollbar(terminal.limit, view.offset)) && view.offset <= terminal.limit
    ensures var v := Scroll(terminal, view, SetOffsetRows(target));
            v.offset == Min(target, terminal.limit) && (v.atBottom <==> target >= terminal.limit)
  {
  }

  /** A page is all rows but one, down adds and up takes away, and the ends hold. */
  lemma PagesMove(terminal: Terminal, view: Viewport)
    requires terminal.clamped && 0 <= view.offset <= terminal.limit && terminal.rows > 0
    ensures Scroll(terminal, view, PageDown).offset == Min(view.offset + terminal.rows - 1, terminal.limit)
    ensures Scroll(terminal, view, PageUp).offset
            == if view.offset < terminal.rows - 1 then 0 else view.offset - (terminal.rows - 1)
    ensures Scroll(terminal, view, Top).offset == 0 && Scroll(terminal, view, Bottom).offset == terminal.limit
  {
  }

  /** The number of leading deltas. */
  function RunLength(commands: seq<SessionCommand>): (n: nat)
    ensures n <= |commands|
    ensures forall i | 0 <= i < n :: IsDelta(commands[i])
    ensures StartsNoRun(commands[n..])
  {
    if commands == [] || !IsDelta(commands[0]) then 0 else
      assert commands[1..][RunLength(commands[1..])..] == commands[1 + RunLength(commands[1..])..];
      1 + RunLength(commands[1..])
  }

  function Rows(commands: seq<SessionCommand>): (rows: seq<isize>)
    requires forall i | 0 <= i < |commands| :: IsDelta(commands[i])
    ensures Deltas(rows) == commands
  {
    if commands == [] then [] else assert IsDelta(commands[0]); [commands[0].scroll.rows] + Rows(commands[1..])
  }

  /** Exactly the runs that may be merged, whatever the viewport. */
  ghost predicate RunOk(terminal: Terminal, rows: seq<isize>) {
    if terminal.clamped then Mergeable(rows) else LostAbove(rows) == LostBelow(rows)
  }

  /** Commands that put the viewport in one place, wherever it was. */
  predicate IsReset(command: SessionCommand) {
    command.ScrollToBottom? || (command.ScrollViewport? && (command.scroll.Top? || command.scroll.Bottom?))
  }

  predicate HasReset(commands: seq<SessionCommand>) {
    exists i | 0 <= i < |commands| :: IsReset(commands[i])
  }

  /** Every maximal delta run of the burst may be merged on this terminal, or a reset after it makes it not matter. */
  ghost predicate BurstOk(terminal: Terminal, commands: seq<SessionCommand>)
    decreases |commands|
  {
    if commands == [] then true else
      var n := RunLength(commands);
      if n == 0 then BurstOk(terminal, commands[1..])
      else (HasReset(commands[n..]) || RunOk(terminal, Rows(commands[..n]))) && BurstOk(terminal, commands[n..])
  }

  ghost predicate InRange(terminal: Terminal, offset: int) {
    terminal.clamped ==> 0 <= offset <= terminal.limit <= ISIZE_MAX
  }

  lemma {:induction false} ScrollAllAppend(
    terminal: Terminal, view: Viewport, a: seq<SessionCommand>, b: seq<SessionCommand>)
    ensures ScrollAll(terminal, view, a + b) == ScrollAll(terminal, ScrollAll(terminal, view, a), b)
    decreases |a|
  {
    if a == [] {
      assert a + b == b;
    } else {
      ScrollAllAppend(terminal, ScrollOne(terminal, view, a[0]), a[1..], b);
      assert (a + b)[1..] == a[1..] + b;
    }
  }

  lemma {:induction false} ScrollRun(terminal: Terminal, view: Viewport, rows: seq<isize>)
    requires rows != [] && InRange(terminal, view.offset)
    ensures var v := ScrollAll(terminal, view, Deltas(rows));
            && !v.atBottom
            && v.offset == (if terminal.clamped then Walk(0, terminal.limit, view.offset, rows)
                            else view.offset + Sum(rows))
            && InRange(terminal, v.offset)
    decreases |rows|
  {
    var n := |rows|;
    var init, last := Deltas(rows[..n - 1]), Delta(rows[n - 1]);
    ScrollAllAppend(terminal, view, init, [last]);
    assert Deltas(rows) == init + [last];
    var mid := ScrollAll(terminal, view, init);
    if n > 1 {
      ScrollRun(terminal, view, rows[..n - 1]);
    }
    assert [last][1..] == [];
    assert ScrollAll(terminal, mid, [last]) == ScrollOne(terminal, mid, last);
    if terminal.clamped {
      WalkStays(0, terminal.limit, view.offset, rows);
    }
  }

  /** One command keeps the offset in range. */
  lemma ScrollOneInRange(terminal: Terminal, view: Viewport, command: SessionCommand)
    requires InRange(terminal, view.offset)
    ensures InRange(terminal, ScrollOne(terminal, view, command).offset)
  {
  }

  lemma MergedRun(terminal: Terminal, view: Viewport, rows: seq<isize>)
    requires rows != [] && InRange(terminal, view.offset) && RunOk(terminal, rows)
    ensures ScrollAll(terminal, view, Deltas(rows)) == ScrollOne(terminal, view, Delta(SaturatingSum(rows)))
    ensures InRange(terminal, ScrollAll(terminal, view, Deltas(rows)).offset)
  {
    ScrollRun(terminal, view, rows);
    if terminal.clamped {
      MergeableSuffices(rows, terminal.limit, view.offset);
    } else {
      SaturationBalance(rows);
    }
  }

  /** A reset forgets where the viewport was. */
  lemma {:induction false} ResetForgets(terminal: Terminal, one: Viewport, two: Viewport, commands: seq<SessionCommand>)
    requires HasReset(commands)
    ensures ScrollAll(terminal, one, commands) == ScrollAll(terminal, two, commands)
    decreases |commands|
  {
    if !IsReset(commands[0]) {
      var i :| 0 <= i < |commands| && IsReset(commands[i]);
      assert commands[1..][i - 1] == commands[i];
      ResetForgets(terminal, ScrollOne(terminal, one, commands[0]), ScrollOne(terminal, two, commands[0]),
          commands[1..]);
    }
  }

  lemma {:induction false} ResetIsNonDelta(commands: seq<SessionCommand>)
    ensures HasReset(commands) <==> HasReset(NonDeltas(commands))
  {
    if commands != [] {
      var first, rest := commands[0], commands[1..];
      ResetIsNonDelta(rest);
      assert commands == [first] + rest;
      ResetCons(first, rest);
      ResetCons(first, NonDeltas(rest));
      assert NonDeltas(commands) == if IsDelta(first) then NonDeltas(rest) else [first] + NonDeltas(rest);
    }
  }

  lemma ResetCons(first: SessionCommand, rest: seq<SessionCommand>)
    ensures HasReset([first] + rest) <==> IsReset(first) || HasReset(rest)
  {
    if HasReset(rest) {
      var i :| 0 <= i < |rest| && IsReset(rest[i]);
      assert ([first] + rest)[i + 1] == rest[i];
    }
    assert ([first] + rest)[0] == first;
  }

  lemma CompactKeepsResets(commands: seq<SessionCommand>)
    ensures HasReset(Compact(commands)) <==> HasReset(commands)
  {
    CompactShape(commands);
    ResetIsNonDelta(commands);
    ResetIsNonDelta(Compact(commands));
  }

  /** The leading run merged into one delta, and the rest compacted. */
  lemma CompactLeadingRun(terminal: Terminal, view: Viewport, commands: seq<SessionCommand>)
    requires RunLength(commands) > 0
    ensures var n := RunLength(commands);
            var rows, rest := Rows(commands[..n]), commands[n..];
            && rows != []
            && ScrollAll(terminal, view, commands) == ScrollAll(terminal, ScrollAll(terminal, view, Deltas(rows)), rest)
            && ScrollAll(terminal, view, Compact(commands))
               == ScrollAll(terminal, ScrollOne(terminal, view, Delta(SaturatingSum(rows))), Compact(rest))
  {
    var n := RunLength(commands);
    var rows, rest := Rows(commands[..n]), commands[n..];
    assert Deltas(rows) == commands[..n];
    assert commands == Deltas(rows) + rest;
    CompactRun(rows, rest);
    ScrollAllAppend(terminal, view, Deltas(rows), rest);
    var merged := [Delta(SaturatingSum(rows))];
    assert (merged + Compact(rest))[1..] == Compact(rest);
  }

  /**
   A burst leaves the viewport (offset and bottom flag) where its compaction does, whatever
   other scroll commands stand between the delta runs.
   */
  lemma {:induction false} CompactPreservesViewport(terminal: Terminal, view: Viewport, commands: seq<SessionCommand>)
    requires InRange(terminal, view.offset) && BurstOk(terminal, commands)
    ensures ScrollAll(terminal, view, Compact(commands)) == ScrollAll(terminal, view, commands)
    decreases |commands|
  {
    if commands == [] {
      return;
    }
    var n := RunLength(commands);
    if n == 0 {
      ScrollOneInRange(terminal, view, commands[0]);
      CompactPreservesViewport(terminal, ScrollOne(terminal, view, commands[0]), commands[1..]);
      assert Compact(commands)[1..] == Compact(commands[1..]);
    } else {
      var rows, rest := Rows(commands[..n]), commands[n..];
      CompactLeadingRun(terminal, view, commands);
      ScrollRun(terminal, view, rows);
      var moved := ScrollAll(terminal, view, Deltas(rows));
      CompactPreservesViewport(terminal, moved, rest);
      if HasReset(rest) {
        CompactKeepsResets(rest);
        ResetForgets(terminal, ScrollOne(terminal, view, Delta(SaturatingSum(rows))), moved, Compact(rest));
      } else {
        MergedRun(terminal, view, rows);
      }
    }
  }

  // ---- Bursts in a viewport without ends ----

  /** How far compaction is off: what the runs after the last reset lose by saturating. */
  function Slip(commands: seq<SessionCommand>): int
    decreases |commands|
  {
    if commands == [] then 0 else
      var n := RunLength(commands);
      if n == 0 then Slip(commands[1..])
      else
        var rows, rest := Rows(commands[..n]), commands[n..];
        (if HasReset(rest) then 0 else LostBelow(rows) - LostAbove(rows)) + Slip(rest)
  }

  /** Without ends and without resets, two viewports stay as far apart as they were. */
  lemma {:induction false} ScrollAllShift(
    terminal: Terminal, one: Viewport, two: Viewport, commands: seq<SessionCommand>)
    requires !terminal.clamped && !HasReset(commands) && one.atBottom == two.atBottom
    ensures var a, b := ScrollAll(terminal, one, commands), ScrollAll(terminal, two, commands);
            a.offset - b.offset == one.offset - two.offset && a.atBottom == b.atBottom
    decreases |commands|
  {
    if commands != [] {
      assert !IsReset(commands[0]);
      forall i | 0 <= i < |commands[1..]| ensures !IsReset(commands[1..][i]) {
        assert !IsReset(commands[i + 1]);
      }
      ScrollAllShift(terminal, ScrollOne(terminal, one, commands[0]), ScrollOne(terminal, two, commands[0]),
          commands[1..]);
    }
  }

  lemma {:induction false} UnclampedBurstSlips(terminal: Terminal, view: Viewport, commands: seq<SessionCommand>)
    requires !terminal.clamped
    ensures var a, b := ScrollAll(terminal, view, Compact(commands)), ScrollAll(terminal, view, commands);
            a.offset == b.offset + Slip(commands) && a.atBottom == b.atBottom
    decreases |commands|
  {
    if commands == [] {
      return;
    }
    var n := RunLength(commands);
    if n == 0 {
      UnclampedBurstSlips(terminal, ScrollOne(terminal, view, commands[0]), commands[1..]);
      assert Compact(commands)[1..] == Compact(commands[1..]);
    } else {
      var rows, rest := Rows(commands[..n]), commands[n..];
      CompactLeadingRun(terminal, view, commands);
      ScrollRun(terminal, view, rows);
      var moved, merged := ScrollAll(terminal, view, Deltas(rows)),
          ScrollOne(terminal, view, Delta(SaturatingSum(rows)));
      SaturationBalance(rows);
      UnclampedBurstSlips(terminal, moved, rest);
      CompactKeepsResets(rest);
      if HasReset(rest) {
        ResetForgets(terminal, merged, moved, Compact(rest));
      } else {
        ScrollAllShift(terminal, merged, moved, Compact(rest));
      }
    }
  }

  /**
   In a viewport without ends a burst is preserved exactly when the losses of its runs after the last
   reset cancel.
   */
  lemma UnclampedBurstIff(terminal: Terminal, view: Viewport, commands: seq<SessionCommand>)
    requires !terminal.clamped
    ensures ScrollAll(terminal, view, Compact(commands)) == ScrollAll(terminal, view, commands) <==> Slip(commands) == 0
  {
    UnclampedBurstSlips(terminal, view, commands);
  }
}
