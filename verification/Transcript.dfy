/** Session transcripts: a bounded channel into a byte-budgeted append-only file. */
module Transcript {
  import opened Text
  import opened SessionCommands

  type Bytes = seq<byte>

  const U64_MAX: nat := 0xFFFF_FFFF_FFFF_FFFF
  const TRANSCRIPT_CHANNEL_CAPACITY: nat := 512

  function SaturatingAdd(a: nat, b: nat): nat {
    if a + b > U64_MAX then U64_MAX else a + b
  }

  function Total(lines: seq<Bytes>): nat {
    if lines == [] then 0 else Total(lines[..|lines| - 1]) + |lines[|lines| - 1]|
  }

  lemma TotalSnoc(lines: seq<Bytes>, line: Bytes)
    ensures Total(lines + [line]) == Total(lines) + |line|
  {
    assert (lines + [line])[..|lines|] == lines;
  }

  lemma {:induction false} TotalMonotone(lines: seq<Bytes>, j: nat, k: nat)
    requires j <= k <= |lines|
    ensures Total(lines[..j]) <= Total(lines[..k])
    decreases k
  {
    if j < k {
      TotalMonotone(lines, j, k - 1);
      assert lines[..k][..k - 1] == lines[..k - 1];
    }
  }

  /** A counter that saturates can never pass the largest limit. */
  predicate WithinLimit(lines: seq<Bytes>, limit: nat) {
    Total(lines) <= limit || limit == U64_MAX
  }

  /** The first `k` lines are within the limit and one line more would not be. */
  predicate IsLongestFit(lines: seq<Bytes>, limit: nat, k: nat) {
    && k <= |lines|
    && WithinLimit(lines[..k], limit)
    && (k < |lines| ==> !WithinLimit(lines[..k + 1], limit))
  }

  /** No longer prefix fits either, so `k` is the longest prefix that does. */
  lemma LongestFitIsLongest(lines: seq<Bytes>, limit: nat, k: nat, j: nat)
    requires IsLongestFit(lines, limit, k) && j <= |lines|
    ensures WithinLimit(lines[..j], limit) <==> j <= k
  {
    if j <= k {
      TotalMonotone(lines, j, k);
    } else {
      TotalMonotone(lines, k + 1, j);
    }
  }

  /** How the longest fitting prefix changes when one more line is seen. */
  lemma FitGrows(lines: seq<Bytes>, limit: nat, i: nat, k: nat)
    requires k <= i < |lines| && IsLongestFit(lines[..i], limit, k)
    ensures Total(lines[..i + 1]) == Total(lines[..i]) + |lines[i]|
    ensures if k == i && WithinLimit(lines[..i + 1], limit) then IsLongestFit(lines[..i + 1], limit, i + 1)
            else IsLongestFit(lines[..i + 1], limit, k)
  {
    var seen, next := lines[..i], lines[..i + 1];
    assert next == seen + [lines[i]];
    TotalSnoc(seen, lines[i]);
    assert next[..k] == seen[..k];
    if k < i {
      assert next[..k + 1] == seen[..k + 1];
    } else {
      assert next[..k + 1] == next && seen[..k] == seen;
    }
  }

  // ---- The sink and its writer ----

  /**
   `offered`, `refused`, `taken` and `swallowed` record history: every event recorded, how many the
   channel refused, those the writer took, and how many of these it threw away uncounted.
   */
  datatype State = State(
    channel: seq<Bytes>,
    writerAlive: bool,
    file: seq<Bytes>,
    truncated: bool,
    marker: Option<Bytes>,
    bytesWritten: nat,
    dropped: nat,
    offered: seq<Bytes>,
    refused: nat,
    taken: seq<Bytes>,
    swallowed: nat)

  datatype Event =
    | Record(line: Bytes)
    | WriterTakes(writeOk: bool, marker: Bytes)

  function Init(): State {
    State([], true, [], false, None, 0, 0, [], 0, [], 0)
  }

  /** Events are JSON lines; encoding is left abstract. */
  function RecordStep(s: State, line: Bytes): State {
    var r := s.(offered := s.offered + [line]);
    if s.writerAlive && |s.channel| < TRANSCRIPT_CHANNEL_CAPACITY then r.(channel := s.channel + [line])
    else r.(dropped := s.dropped + 1, refused := s.refused + 1)
  }

  function TakeStep(s: State, limit: nat, writeOk: bool, marker: Bytes): State
    requires s.channel != []
  {
    var line := s.channel[0];
    var r := s.(channel := s.channel[1..]);
    if s.truncated then r.(taken := s.taken + [line], swallowed := s.swallowed + 1)
    else
      var nextTotal := SaturatingAdd(s.bytesWritten, |line|);
      if nextTotal > limit then
        r.(taken := s.taken + [line],
           truncated := true,
           dropped := s.dropped + 1,
           marker := if writeOk then Some(marker) else None,
           writerAlive := writeOk)
      else if writeOk then r.(taken := s.taken + [line], file := s.file + [line], bytesWritten := nextTotal)
      else r.(writerAlive := false)
  }

  function Step(s: State, limit: nat, e: Event): State {
    match e
    case Record(line) => RecordStep(s, line)
    case WriterTakes(writeOk, marker) =>
      if s.writerAlive && s.channel != [] then TakeStep(s, limit, writeOk, marker) else s
  }

  function Run(limit: nat, events: seq<Event>): State {
    if events == [] then Init() else Step(Run(limit, events[..|events| - 1]), limit, events[|events| - 1])
  }

  function B2N(b: bool): nat {
    if b then 1 else 0
  }

  ghost predicate FileInv(s: State, limit: nat) {
    && IsLongestFit(s.taken, limit, |s.file|)
    && s.file == s.taken[..|s.file|]
    && s.bytesWritten == SaturatingAdd(0, Total(s.file))
    && (s.truncated <==> |s.file| < |s.taken|)
    && (s.marker.Some? ==> s.truncated)
    && (s.writerAlive && s.truncated ==> s.marker.Some?)
  }

  ghost predicate CountInv(s: State) {
    && s.dropped == s.refused + B2N(s.truncated)
    && |s.taken| == |s.file| + B2N(s.truncated) + s.swallowed
    && |s.channel| <= TRANSCRIPT_CHANNEL_CAPACITY
    && |s.offered| == s.refused + |s.taken| + |s.channel| + B2N(!s.writerAlive && !s.truncated)
  }

  /** A taken line that is not kept: the writer is past the limit already, or passes it now. */
  lemma LineNotKept(s: State, limit: nat, line: Bytes)
    requires FileInv(s, limit)
    requires s.truncated || SaturatingAdd(s.bytesWritten, |line|) > limit
    ensures var taken := s.taken + [line];
            IsLongestFit(taken, limit, |s.file|) && s.file == taken[..|s.file|]
  {
    var taken, n, k := s.taken + [line], |s.taken|, |s.file|;
    assert taken[..n] == s.taken && taken[..n + 1] == taken;
    FitGrows(taken, limit, n, k);
    assert taken[..k] == s.taken[..k];
    if k == n {
      assert s.taken[..k] == s.taken;
    }
  }

  lemma LineKept(s: State, limit: nat, line: Bytes)
    requires limit <= U64_MAX && FileInv(s, limit) && !s.truncated
    requires SaturatingAdd(s.bytesWritten, |line|) <= limit
    ensures s.file == s.taken
    ensures IsLongestFit(s.taken + [line], limit, |s.file| + 1)
    ensures SaturatingAdd(s.bytesWritten, |line|) == SaturatingAdd(0, Total(s.file + [line]))
  {
    var taken, n := s.taken + [line], |s.taken|;
    assert s.taken[..n] == s.taken;
    assert taken[..n] == s.taken && taken[..n + 1] == taken;
    FitGrows(taken, limit, n, n);
  }

  lemma OtherEventsKeepFile(s: State, limit: nat, e: Event)
    requires FileInv(s, limit) && !e.WriterTakes?
    ensures FileInv(Step(s, limit, e), limit)
  {
  }

  lemma FileStep(s: State, limit: nat, e: Event)
    requires limit <= U64_MAX && FileInv(s, limit)
    ensures FileInv(Step(s, limit, e), limit)
  {
    if !e.WriterTakes? {
      OtherEventsKeepFile(s, limit, e);
    } else if s.writerAlive && s.channel != [] {
      var line := s.channel[0];
      if s.truncated || SaturatingAdd(s.bytesWritten, |line|) > limit {
        LineNotKept(s, limit, line);
      } else {
        LineKept(s, limit, line);
        assert (s.taken + [line])[..|s.taken| + 1] == s.taken + [line];
      }
    }
  }

  lemma CountStep(s: State, limit: nat, e: Event)
    requires CountInv(s)
    ensures CountInv(Step(s, limit, e))
  {
  }

  /** Over every run the file holds the longest prefix of the taken events that fits, then at most one marker. */
  lemma {:induction false} FileHoldsLongestPrefix(limit: nat, events: seq<Event>)
    requires limit <= U64_MAX
    ensures FileInv(Run(limit, events), limit)
  {
    if events == [] {
      assert Init().taken[..0] == [];
    } else {
      FileHoldsLongestPrefix(limit, events[..|events| - 1]);
      FileStep(Run(limit, events[..|events| - 1]), limit, events[|events| - 1]);
    }
  }

  /** All that was written, the marker included. */
  function Written(s: State): seq<Bytes> {
    s.file + (if s.marker.Some? then [s.marker.value] else [])
  }

  /** Below the largest limit the events stay within it, and the marker is the only excess. */
  lemma FileSizeIsBounded(limit: nat, events: seq<Event>)
    requires limit < U64_MAX
    ensures var s := Run(limit, events);
            && Total(s.file) <= limit
            && Total(Written(s)) <= limit + (if s.marker.Some? then |s.marker.value| else 0)
  {
    FileHoldsLongestPrefix(limit, events);
    var s := Run(limit, events);
    if s.marker.Some? {
      TotalSnoc(s.file, s.marker.value);
    } else {
      assert Written(s) == s.file;
    }
  }

  /** With the limit at the top of `u64` the counter saturates and nothing is ever cut off. */
  lemma LargestLimitNeverTruncates(events: seq<Event>)
    ensures !Run(U64_MAX, events).truncated
    ensures Run(U64_MAX, events).file == Run(U64_MAX, events).taken
  {
    FileHoldsLongestPrefix(U64_MAX, events);
    var s := Run(U64_MAX, events);
    assert s.taken[..|s.taken|] == s.taken;
  }

  /** The drop counter is the refused events plus one if truncated; nothing else is lost uncounted. */
  lemma {:induction false} DropsAreCounted(limit: nat, events: seq<Event>)
    ensures CountInv(Run(limit, events))
  {
    if events != [] {
      DropsAreCounted(limit, events[..|events| - 1]);
      CountStep(Run(limit, events[..|events| - 1]), limit, events[|events| - 1]);
    }
  }

  /** What is not in the file, nor on its way to a writer that still lives. */
  function Lost(s: State): int {
    |s.offered| - |s.file| - (if s.writerAlive then |s.channel| else 0)
  }

  /**
   The events lost number the drop counter plus those swallowed after truncation; and once a failed
   write has stopped the writer, also those it left in the channel and the event it could not write.
   So the counter stays behind exactly when something was swallowed or stranded in this way.
   */
  lemma LostEventsExceedDrops(limit: nat, events: seq<Event>)
    ensures var s := Run(limit, events);
            && Lost(s) == s.dropped + s.swallowed
                          + (if s.writerAlive then 0 else |s.channel| + B2N(!s.truncated))
            && (Lost(s) == s.dropped <==>
                  s.swallowed == 0 && (s.writerAlive || (s.channel == [] && s.truncated)))
  {
    DropsAreCounted(limit, events);
  }

  // ---- The writer's own loop ----

  /** What the writer makes of a received sequence when every write succeeds. */
  method WriteTranscriptEvents(lines: seq<Bytes>, limit: nat, marker: Bytes)
    returns (file: seq<Bytes>, truncated: bool, dropped: nat)
    requires limit <= U64_MAX
    ensures exists k :: 0 <= k <= |lines| && IsLongestFit(lines, limit, k)
                        && file == lines[..k] + (if k < |lines| then [marker] else [])
                        && truncated == (k < |lines|)
    ensures dropped == B2N(truncated)
  {
    file, truncated, dropped := [], false, 0;
    var bytesWritten: nat := 0;
    ghost var k: nat := 0;
    assert lines[..0] == [] && lines[..0][..0] == [];
    for i := 0 to |lines|
      invariant k <= i && IsLongestFit(lines[..i], limit, k)
      invariant file == lines[..k] + (if truncated then [marker] else [])
      invariant truncated == (k < i) && dropped == B2N(truncated)
      invariant bytesWritten == SaturatingAdd(0, Total(lines[..k]))
    {
      FitGrows(lines, limit, i, k);
      if !truncated {
        var nextTotal := SaturatingAdd(bytesWritten, |lines[i]|);
        if nextTotal > limit {
          truncated := true;
          dropped := dropped + 1;
          file := file + [marker];
        } else {
          assert lines[..i + 1] == lines[..i] + [lines[i]];
          file := file + [lines[i]];
          bytesWritten := nextTotal;
          k := i + 1;
        }
      }
    }
    assert lines[..|lines|] == lines;
  }

  /** The sink and the writer thread it shares its channel and drop counter with. */
  class FileTranscriptSink {
    const maxBytes: nat
    var channel: seq<Bytes>
    var writerAlive: bool
    var file: seq<Bytes>
    var truncated: bool
    var marker: Option<Bytes>
    var bytesWritten: nat
    var dropped: nat
    ghost var offered: seq<Bytes>
    ghost var refused: nat
    ghost var taken: seq<Bytes>
    ghost var swallowed: nat

    ghost function Model(): State
      reads this
    {
      State(channel, writerAlive, file, truncated, marker, bytesWritten, dropped, offered, refused, taken, swallowed)
    }

    constructor (maxBytes: nat)
      ensures this.maxBytes == maxBytes && Model() == Init()
    {
      this.maxBytes := maxBytes;
      channel, writerAlive, file, truncated, marker := [], true, [], false, None;
      bytesWritten, dropped := 0, 0;
      offered, refused, taken, swallowed := [], 0, [], 0;
    }

    /** `record`: the event is queued, or counted as dropped when the channel is full or closed. */
    method RecordEvent(line: Bytes)
      modifies this
      ensures Model() == Step(old(Model()), maxBytes, Record(line))
    {
      offered := offered + [line];
      if writerAlive && |channel| < TRANSCRIPT_CHANNEL_CAPACITY {
        channel := channel + [line];
      } else {
        dropped := dropped + 1;
        refused := refused + 1;
      }
    }

    /** One turn of the writer thread. */
    method WriteNext(writeOk: bool, truncationMarker: Bytes)
      requires writerAlive && channel != []
      modifies this
      ensures Model() == Step(old(Model()), maxBytes, WriterTakes(writeOk, truncationMarker))
    {
      var line := channel[0];
      channel := channel[1..];
      if truncated {
        taken := taken + [line];
        swallowed := swallowed + 1;
        return;
      }
      var nextTotal := SaturatingAdd(bytesWritten, |line|);
      if nextTotal > maxBytes {
        truncated := true;
        dropped := dropped + 1;
        taken := taken + [line];
        if writeOk {
          marker := Some(truncationMarker);
        } else {
          marker := None;
          writerAlive := false;
        }
      } else if writeOk {
        file := file + [line];
        bytesWritten := nextTotal;
        taken := taken + [line];
      } else {
        writerAlive := false;
      }
    }
  }

  // ---- Directory names ----

  predicate SafeChar(c: char) {
    'a' <= c <= 'z' || 'A' <= c <= 'Z' || '0' <= c <= '9' || c == '-' || c == '_'
  }

  function ReplaceUnsafe(value: string): string {
    if value == [] then []
    else [if SafeChar(value[0]) then value[0] else '-'] + ReplaceUnsafe(value[1..])
  }

  function TrimDashesStart(s: string): string {
    if s != [] && s[0] == '-' then TrimDashesStart(s[1..]) else s
  }

  function TrimDashesEnd(s: string): string {
    if s != [] && s[|s| - 1] == '-' then TrimDashesEnd(s[..|s| - 1]) else s
  }

  function SanitizePathComponent(value: string): string {
    var trimmed := TrimDashesEnd(TrimDashesStart(ReplaceUnsafe(value)));
    if trimmed == [] then "session" else trimmed
  }

  /** A usable directory name: not empty, safe characters only, no dash at either end. */
  predicate CleanName(s: string) {
    s != [] && (forall i | 0 <= i < |s| :: SafeChar(s[i])) && s[0] != '-' && s[|s| - 1] != '-'
  }

  lemma {:induction false} ReplaceUnsafeIsSafe(value: string)
    ensures forall i | 0 <= i < |ReplaceUnsafe(value)| :: SafeChar(ReplaceUnsafe(value)[i])
    ensures (forall i | 0 <= i < |value| :: SafeChar(value[i])) ==> ReplaceUnsafe(value) == value
  {
    if value != [] {
      ReplaceUnsafeIsSafe(value[1..]);
      assert value == [value[0]] + value[1..];
    }
  }

  lemma {:induction false} TrimDashesStartShape(s: string)
    requires forall i | 0 <= i < |s| :: SafeChar(s[i])
    ensures var t := TrimDashesStart(s);
            && (forall i | 0 <= i < |t| :: SafeChar(t[i]))
            && (t == [] || t[0] != '-')
  {
    if s != [] && s[0] == '-' {
      TrimDashesStartShape(s[1..]);
    }
  }

  lemma {:induction false} TrimDashesEndShape(s: string)
    requires forall i | 0 <= i < |s| :: SafeChar(s[i])
    ensures var t := TrimDashesEnd(s);
            && t <= s
            && (t == [] || t[|t| - 1] != '-')
  {
    if s != [] && s[|s| - 1] == '-' {
      TrimDashesEndShape(s[..|s| - 1]);
    }
  }

  /** Every title gives a clean name, and a clean name is left as it is. */
  lemma SanitizeGivesCleanNames(value: string)
    ensures CleanName(SanitizePathComponent(value))
    ensures CleanName(value) ==> SanitizePathComponent(value) == value
  {
    ReplaceUnsafeIsSafe(value);
    TrimmedIsClean(ReplaceUnsafe(value));
    if CleanName(value) {
      assert TrimDashesStart(value) == value && TrimDashesEnd(value) == value;
    }
  }

  lemma TrimmedIsClean(s: string)
    requires forall i | 0 <= i < |s| :: SafeChar(s[i])
    ensures var t := TrimDashesEnd(TrimDashesStart(s)); t == [] || CleanName(t)
  {
    TrimDashesStartShape(s);
    TrimDashesEndShape(TrimDashesStart(s));
  }

  /** A character as it may stand in a name. */
  function Replaced(c: char): char {
    if SafeChar(c) then c else '-'
  }

  predicate AllDashes(value: string) {
    forall i | 0 <= i < |value| :: Replaced(value[i]) == '-'
  }

  lemma {:induction false} ReplaceUnsafeAt(value: string)
    ensures |ReplaceUnsafe(value)| == |value|
    ensures forall i | 0 <= i < |value| :: ReplaceUnsafe(value)[i] == Replaced(value[i])
  {
    if value != [] {
      ReplaceUnsafeAt(value[1..]);
    }
  }

  lemma {:induction false} TrimDashesStartCuts(s: string) returns (i: nat)
    ensures i <= |s| && TrimDashesStart(s) == s[i..] && forall k | 0 <= k < i :: s[k] == '-'
  {
    i := 0;
    if s != [] && s[0] == '-' {
      var n := TrimDashesStartCuts(s[1..]);
      i := n + 1;
      forall k | 0 <= k < i ensures s[k] == '-' {
        if k > 0 { assert s[1..][k - 1] == '-'; }
      }
    }
  }

  lemma {:induction false} TrimDashesEndCuts(s: string) returns (j: nat)
    ensures j <= |s| && TrimDashesEnd(s) == s[..j] && forall k | j <= k < |s| :: s[k] == '-'
  {
    j := |s|;
    if s != [] && s[|s| - 1] == '-' {
      j := TrimDashesEndCuts(s[..|s| - 1]);
      forall k | j <= k < |s| ensures s[k] == '-' {
        if k < |s| - 1 { assert s[..|s| - 1][k] == '-'; }
      }
    }
  }

  /** `name` is what is left of the title, each character kept or replaced, between dashes at its ends. */
  ghost predicate IsTitleCore(value: string, name: string) {
    exists i: nat, j: nat ::
      && i <= j <= |value| && |name| == j - i
      && (forall k | 0 <= k < |name| :: name[k] == Replaced(value[i + k]))
      && AllDashes(value[..i]) && AllDashes(value[j..])
  }

  /** Letters, digits, dashes and underscores are kept, all else becomes a dash, dashes at the ends go. */
  lemma SanitizeKeepsTheCore(value: string)
    ensures if AllDashes(value) then SanitizePathComponent(value) == "session"
            else IsTitleCore(value, SanitizePathComponent(value))
  {
    var s := ReplaceUnsafe(value);
    ReplaceUnsafeAt(value);
    ReplaceUnsafeIsSafe(value);
    TrimDashesStartShape(s);
    var i := TrimDashesStartCuts(s);
    var n := TrimDashesEndCuts(TrimDashesStart(s));
    var j, trimmed := i + n, TrimDashesEnd(TrimDashesStart(s));
    assert trimmed == s[i..j];
    forall k | j <= k < |s| ensures s[k] == '-' {
      assert TrimDashesStart(s)[k - i] == '-';
    }
    assert AllDashes(value[..i]) && AllDashes(value[j..]);
    TitleCoreEmpty(value, i, j, trimmed);
  }

  lemma TitleCoreEmpty(value: string, i: nat, j: nat, trimmed: string)
    requires i <= j <= |value| && |trimmed| == j - i && (trimmed == [] || trimmed[0] != '-')
    requires forall k | 0 <= k < |trimmed| :: trimmed[k] == Replaced(value[i + k])
    requires AllDashes(value[..i]) && AllDashes(value[j..])
    ensures trimmed == [] <==> AllDashes(value)
    ensures IsTitleCore(value, trimmed)
  {
    if trimmed == [] {
      forall k | 0 <= k < |value| ensures Replaced(value[k]) == '-' {
        if k < i { assert value[..i][k] == value[k]; } else { assert value[j..][k - j] == value[k]; }
      }
    }
  }
}
