/** Key chords: splitting, platform normalisation and syntax checks. */
module Keybindings {
  import opened Text

  datatype Platform = MacOs | OtherOs

  function PrimaryModifierName(platform: Platform): string {
    if platform.MacOs? then "cmd" else "super"
  }

  // ---- Splitting and joining ----

  function WordLength(s: string): (n: nat)
    ensures n <= |s|
    ensures forall i | 0 <= i < n :: !IsWhitespace(s[i])
    ensures n < |s| ==> IsWhitespace(s[n])
  {
    if s == [] || IsWhitespace(s[0]) then 0 else 1 + WordLength(s[1..])
  }

  /** `str::split_whitespace`. */
  function SplitWhitespace(s: string): seq<string>
    decreases |s|
  {
    if s == [] then []
    else if IsWhitespace(s[0]) then SplitWhitespace(s[1..])
    else var n := WordLength(s); [s[..n]] + SplitWhitespace(s[n..])
  }

  /** `str::split` on a character: one more part than separators, so never empty. */
  function Split(s: string, sep: char): (parts: seq<string>)
    ensures parts != []
  {
    if s == [] then [[]]
    else
      var rest := Split(s[1..], sep);
      if s[0] == sep then [[]] + rest else [[s[0]] + rest[0]] + rest[1..]
  }

  function Join(parts: seq<string>, sep: char): string {
    if parts == [] then []
    else if |parts| == 1 then parts[0]
    else parts[0] + [sep] + Join(parts[1..], sep)
  }

  predicate IsWord(s: string) {
    s != [] && forall i | 0 <= i < |s| :: !IsWhitespace(s[i])
  }

  lemma {:induction false} SplitWhitespaceGivesWords(s: string)
    ensures forall i | 0 <= i < |SplitWhitespace(s)| :: IsWord(SplitWhitespace(s)[i])
    decreases |s|
  {
    if s != [] {
      SplitWhitespaceGivesWords(if IsWhitespace(s[0]) then s[1..] else s[WordLength(s)..]);
    }
  }

  /** One stretch of `s`, from place `n` on, without whitespace in it. */
  predicate IsStretch(s: string, n: nat, word: string, start: nat, end: nat) {
    n <= start < end <= |s| && word == s[start..end] && IsWord(word)
  }

  /** Whitespace, or inside one of the stretches. */
  ghost predicate Covered(s: string, starts: seq<nat>, ends: seq<nat>, k: nat)
    requires |starts| == |ends| && k < |s|
  {
    IsWhitespace(s[k]) || exists i | 0 <= i < |starts| :: starts[i] <= k < ends[i]
  }

  /** `words` are the stretches of `s` from place `n` on, all of them, whole and in order. */
  ghost predicate CutsWords(s: string, n: nat, words: seq<string>, starts: seq<nat>, ends: seq<nat>) {
    && |starts| == |ends| == |words| && n <= |s|
    && (forall i | 0 <= i < |words| :: IsStretch(s, n, words[i], starts[i], ends[i]))
    && (forall i, j | 0 <= i < j < |words| :: ends[i] < starts[j])
    && (forall k | n <= k < |s| :: Covered(s, starts, ends, k))
  }

  function Shifted(places: seq<nat>, n: nat): seq<nat> {
    seq(|places|, i requires 0 <= i < |places| => places[i] + n)
  }

  /** The words are exactly the stretches without whitespace. */
  lemma {:induction false} SplitWhitespaceCuts(s: string) returns (starts: seq<nat>, ends: seq<nat>)
    ensures CutsWords(s, 0, SplitWhitespace(s), starts, ends)
    decreases |s|
  {
    starts, ends := [], [];
    if s != [] {
      var n := if IsWhitespace(s[0]) then 1 else WordLength(s);
      var a, b := SplitWhitespaceCuts(s[n..]);
      var rest := SplitWhitespace(s[n..]);
      starts, ends := Shifted(a, n), Shifted(b, n);
      CutsShift(s, n, rest, a, b);
      if IsWhitespace(s[0]) {
        CutsSpace(s, rest, starts, ends);
      } else {
        CutsCons(s, n, rest, starts, ends);
        starts, ends := [0] + starts, [n] + ends;
      }
    }
  }

  /** Cuts of what follows place `n`, counted from the beginning. */
  lemma CutsShift(s: string, n: nat, words: seq<string>, starts: seq<nat>, ends: seq<nat>)
    requires n <= |s| && CutsWords(s[n..], 0, words, starts, ends)
    ensures CutsWords(s, n, words, Shifted(starts, n), Shifted(ends, n))
  {
    forall i | 0 <= i < |words| ensures IsStretch(s, n, words[i], starts[i] + n, ends[i] + n) {
      StretchShift(s, n, words[i], starts[i], ends[i]);
    }
    forall k | n <= k < |s| ensures Covered(s, Shifted(starts, n), Shifted(ends, n), k) {
      assert Covered(s[n..], starts, ends, k - n);
      CoveredShift(s, n, starts, ends, k);
    }
  }

  lemma StretchShift(s: string, n: nat, word: string, start: nat, end: nat)
    requires n <= |s| && IsStretch(s[n..], 0, word, start, end)
    ensures IsStretch(s, n, word, start + n, end + n)
  {
    assert s[n..][start..end] == s[start + n..end + n];
  }

  lemma CoveredShift(s: string, n: nat, starts: seq<nat>, ends: seq<nat>, k: nat)
    requires |starts| == |ends| && n <= k < |s| && Covered(s[n..], starts, ends, k - n)
    ensures Covered(s, Shifted(starts, n), Shifted(ends, n), k)
  {
    assert s[n..][k - n] == s[k];
    if !IsWhitespace(s[k]) {
      var i :| 0 <= i < |starts| && starts[i] <= k - n < ends[i];
      assert Shifted(starts, n)[i] <= k < Shifted(ends, n)[i];
    }
  }

  lemma CutsSpace(s: string, words: seq<string>, starts: seq<nat>, ends: seq<nat>)
    requires s != [] && IsWhitespace(s[0]) && CutsWords(s, 1, words, starts, ends)
    ensures CutsWords(s, 0, words, starts, ends)
  {
    forall i | 0 <= i < |words| ensures IsStretch(s, 0, words[i], starts[i], ends[i]) {
      assert IsStretch(s, 1, words[i], starts[i], ends[i]);
    }
    forall k | 0 <= k < |s| ensures Covered(s, starts, ends, k) {
      assert k > 0 ==> Covered(s, starts, ends, k);
    }
  }

  /** The first word ends before whitespace, so the next one starts after it. */
  lemma NextStartsLater(s: string, n: nat, words: seq<string>, starts: seq<nat>, ends: seq<nat>, i: nat)
    requires n == WordLength(s) && CutsWords(s, n, words, starts, ends) && i < |words|
    ensures n < starts[i]
  {
    assert IsStretch(s, n, words[i], starts[i], ends[i]);
    assert words[i][0] == s[starts[i]] && !IsWhitespace(words[i][0]);
  }

  lemma CoveredCons(s: string, n: nat, words: seq<string>, starts: seq<nat>, ends: seq<nat>, k: nat)
    requires CutsWords(s, n, words, starts, ends) && k < |s|
    ensures Covered(s, [0] + starts, [n] + ends, k)
  {
    if k < n {
      assert ([0] + starts)[0] <= k < ([n] + ends)[0];
    } else {
      assert Covered(s, starts, ends, k);
      if !IsWhitespace(s[k]) {
        var i :| 0 <= i < |starts| && starts[i] <= k < ends[i];
        assert ([0] + starts)[i + 1] <= k < ([n] + ends)[i + 1];
      }
    }
  }

  lemma StretchCons(s: string, n: nat, words: seq<string>, starts: seq<nat>, ends: seq<nat>, i: nat)
    requires s != [] && !IsWhitespace(s[0]) && n == WordLength(s) && CutsWords(s, n, words, starts, ends)
            && i <= |words|
    ensures IsStretch(s, 0, ([s[..n]] + words)[i], ([0] + starts)[i], ([n] + ends)[i])
  {
    if i == 0 {
      assert s[..n] == s[0..n];
    } else {
      assert IsStretch(s, n, words[i - 1], starts[i - 1], ends[i - 1]);
    }
  }

  lemma CutsCons(s: string, n: nat, words: seq<string>, starts: seq<nat>, ends: seq<nat>)
    requires s != [] && !IsWhitespace(s[0]) && n == WordLength(s) && CutsWords(s, n, words, starts, ends)
    ensures CutsWords(s, 0, [s[..n]] + words, [0] + starts, [n] + ends)
  {
    var all, froms, tos := [s[..n]] + words, [0] + starts, [n] + ends;
    forall i | 0 <= i < |all| ensures IsStretch(s, 0, all[i], froms[i], tos[i]) {
      StretchCons(s, n, words, starts, ends, i);
    }
    forall i, j | 0 <= i < j < |all| ensures tos[i] < froms[j] {
      NextStartsLater(s, n, words, starts, ends, j - 1);
    }
    forall k | 0 <= k < |s| ensures Covered(s, froms, tos, k) {
      CoveredCons(s, n, words, starts, ends, k);
    }
  }

  /** Splitting at a separator and joining with it gives the string back. */
  lemma {:induction false} JoinSplit(s: string, sep: char)
    ensures Join(Split(s, sep), sep) == s
  {
    if s != [] {
      JoinSplit(s[1..], sep);
      var rest := Split(s[1..], sep);
      assert s == [s[0]] + s[1..];
      if s[0] == sep {
        assert ([[]] + rest)[1..] == rest;
      } else if |rest| > 1 {
        assert ([[s[0]] + rest[0]] + rest[1..])[1..] == rest[1..];
      }
    }
  }

  lemma {:induction false} SplitPartsLackSeparator(s: string, sep: char)
    ensures forall i | 0 <= i < |Split(s, sep)| :: sep !in Split(s, sep)[i]
  {
    if s != [] {
      SplitPartsLackSeparator(s[1..], sep);
      var rest := Split(s[1..], sep);
      assert sep !in rest[0];
    }
  }

  lemma {:induction false} WordLengthOfWord(word: string, rest: string)
    requires forall i | 0 <= i < |word| :: !IsWhitespace(word[i])
    requires rest == [] || IsWhitespace(rest[0])
    ensures WordLength(word + rest) == |word|
  {
    if word == [] {
      assert word + rest == rest;
    } else {
      WordLengthOfWord(word[1..], rest);
      assert (word + rest)[1..] == word[1..] + rest;
    }
  }

  /** Joining words with a space and splitting again gives the words back. */
  lemma {:induction false} SplitJoinWords(words: seq<string>)
    requires forall i | 0 <= i < |words| :: IsWord(words[i])
    ensures SplitWhitespace(Join(words, ' ')) == words
  {
    if words != [] {
      var first, rest := words[0], words[1..];
      assert IsWord(first);
      SplitJoinWords(rest);
      var tail := if rest == [] then [] else [' '] + Join(rest, ' ');
      var joined := Join(words, ' ');
      assert joined == first + tail;
      WordLengthOfWord(first, tail);
      assert joined[..|first|] == first && joined[|first|..] == tail;
      if rest != [] {
        assert tail[1..] == Join(rest, ' ');
      }
      assert SplitWhitespace(joined) == [first] + SplitWhitespace(tail);
    }
  }

  lemma {:induction false} SplitPrefix(part: string, sep: char, rest: string)
    requires sep !in part
    ensures Split(part + [sep] + rest, sep) == [part] + Split(rest, sep)
    ensures Split(part, sep) == [part]
  {
    var all := part + [sep] + rest;
    if part == [] {
      assert all[1..] == rest;
    } else {
      SplitPrefix(part[1..], sep, rest);
      assert all[1..] == part[1..] + [sep] + rest;
      assert part == [part[0]] + part[1..];
    }
  }

  /** Joining parts that lack the separator and splitting again gives the parts back. */
  lemma {:induction false} SplitJoinParts(parts: seq<string>, sep: char)
    requires parts != [] && forall i | 0 <= i < |parts| :: sep !in parts[i]
    ensures Split(Join(parts, sep), sep) == parts
  {
    assert sep !in parts[0];
    if |parts| == 1 {
      SplitPrefix(parts[0], sep, []);
    } else {
      SplitJoinParts(parts[1..], sep);
      SplitPrefix(parts[0], sep, Join(parts[1..], sep));
    }
  }

  // ---- Normalisation ----

  function NormalizeComponent(platform: Platform, component: string): string {
    if EqIgnoreAsciiCase(component, "primary") then PrimaryModifierName(platform) else component
  }

  function NormalizeComponents(platform: Platform, components: seq<string>): (r: seq<string>)
    ensures |r| == |components|
    ensures forall i | 0 <= i < |r| :: r[i] == NormalizeComponent(platform, components[i])
  {
    if components == [] then []
    else [NormalizeComponent(platform, components[0])] + NormalizeComponents(platform, components[1..])
  }

  function NormalizeKeystrokeForPlatform(platform: Platform, keystroke: string): string {
    Join(NormalizeComponents(platform, Split(keystroke, '-')), '-')
  }

  function NormalizeStrokes(platform: Platform, strokes: seq<string>): (r: seq<string>)
    ensures |r| == |strokes|
    ensures forall i | 0 <= i < |r| :: r[i] == NormalizeKeystrokeForPlatform(platform, strokes[i])
  {
    if strokes == [] then []
    else [NormalizeKeystrokeForPlatform(platform, strokes[0])] + NormalizeStrokes(platform, strokes[1..])
  }

  function NormalizeChordForPlatform(platform: Platform, chord: string): string {
    Join(NormalizeStrokes(platform, SplitWhitespace(chord)), ' ')
  }

  lemma NormalizeComponentTwice(platform: Platform, component: string)
    ensures NormalizeComponent(platform, NormalizeComponent(platform, component))
            == NormalizeComponent(platform, component)
    ensures '-' !in component ==> '-' !in NormalizeComponent(platform, component)
  {
  }

  lemma NormalizeComponentsTwice(platform: Platform, components: seq<string>)
    requires forall i | 0 <= i < |components| :: '-' !in components[i]
    ensures var r := NormalizeComponents(platform, components);
            && NormalizeComponents(platform, r) == r
            && forall i | 0 <= i < |r| :: '-' !in r[i]
  {
    var r := NormalizeComponents(platform, components);
    forall i | 0 <= i < |r| ensures NormalizeComponent(platform, r[i]) == r[i] && '-' !in r[i] {
      NormalizeComponentTwice(platform, components[i]);
    }
  }

  lemma NormalizeKeystrokeTwice(platform: Platform, keystroke: string)
    ensures var r := NormalizeKeystrokeForPlatform(platform, keystroke);
            NormalizeKeystrokeForPlatform(platform, r) == r
  {
    var components := Split(keystroke, '-');
    SplitPartsLackSeparator(keystroke, '-');
    NormalizeComponentsTwice(platform, components);
    SplitJoinParts(NormalizeComponents(platform, components), '-');
  }

  predicate NoSpace(s: string) {
    forall i | 0 <= i < |s| :: !IsWhitespace(s[i])
  }

  lemma {:induction false} SplitKeepsNoSpace(s: string, sep: char)
    requires NoSpace(s)
    ensures forall i | 0 <= i < |Split(s, sep)| :: NoSpace(Split(s, sep)[i])
    ensures s != [] ==> |Split(s, sep)| > 1 || Split(s, sep)[0] != []
  {
    if s != [] {
      SplitKeepsNoSpace(s[1..], sep);
      var rest := Split(s[1..], sep);
      assert NoSpace(rest[0]);
    }
  }

  lemma {:induction false} JoinKeepsNoSpace(parts: seq<string>, sep: char)
    requires !IsWhitespace(sep) && forall i | 0 <= i < |parts| :: NoSpace(parts[i])
    ensures NoSpace(Join(parts, sep))
    ensures |parts| > 1 ==> Join(parts, sep) != []
  {
    if |parts| > 1 {
      JoinKeepsNoSpace(parts[1..], sep);
      assert NoSpace(parts[0]);
    }
  }

  /** A word is rewritten to a word: normalising neither empties a stroke nor splits it. */
  lemma NormalizeKeepsWords(platform: Platform, word: string)
    requires IsWord(word)
    ensures IsWord(NormalizeKeystrokeForPlatform(platform, word))
  {
    var components := Split(word, '-');
    SplitKeepsNoSpace(word, '-');
    var r := NormalizeComponents(platform, components);
    forall i | 0 <= i < |r| ensures NoSpace(r[i]) {
      assert NoSpace(components[i]);
      PrimaryModifierIsWord(platform);
    }
    JoinKeepsNoSpace(r, '-');
    PrimaryModifierIsWord(platform);
  }

  lemma PrimaryModifierIsWord(platform: Platform)
    ensures IsWord(PrimaryModifierName(platform))
  {
  }

  /** What normalising does to one component. */
  ghost predicate ComponentNormalized(platform: Platform, before: string, after: string) {
    if EqIgnoreAsciiCase(before, "primary") then after == (if platform == MacOs then "cmd" else "super")
    else after == before
  }

  /** A keystroke's components are normalised one by one, none added, lost or moved. */
  lemma NormalizedComponents(platform: Platform, keystroke: string)
    ensures var before, after := Split(keystroke, '-'), Split(NormalizeKeystrokeForPlatform(platform, keystroke), '-');
            && |after| == |before|
            && forall i | 0 <= i < |before| :: ComponentNormalized(platform, before[i], after[i])
  {
    var components := Split(keystroke, '-');
    SplitPartsLackSeparator(keystroke, '-');
    NormalizeComponentsTwice(platform, components);
    SplitJoinParts(NormalizeComponents(platform, components), '-');
    forall i | 0 <= i < |components|
      ensures ComponentNormalized(platform, components[i], NormalizeComponents(platform, components)[i])
    {
      OneComponentNormalized(platform, components[i]);
    }
  }

  lemma OneComponentNormalized(platform: Platform, component: string)
    ensures ComponentNormalized(platform, component, NormalizeComponent(platform, component))
  {
  }

  /** The strokes of a normalised chord are the normalised strokes of the chord. */
  lemma NormalizedStrokes(platform: Platform, chord: string)
    ensures SplitWhitespace(NormalizeChordForPlatform(platform, chord))
            == NormalizeStrokes(platform, SplitWhitespace(chord))
  {
    var strokes := SplitWhitespace(chord);
    SplitWhitespaceGivesWords(chord);
    var r := NormalizeStrokes(platform, strokes);
    forall i | 0 <= i < |r| ensures IsWord(r[i]) {
      NormalizeKeepsWords(platform, strokes[i]);
    }
    SplitJoinWords(r);
  }

  /** Normalising a chord twice is normalising it once, for every string. */
  lemma NormalizeChordIsIdempotent(platform: Platform, chord: string)
    ensures var r := NormalizeChordForPlatform(platform, chord);
            NormalizeChordForPlatform(platform, r) == r
  {
    NormalizedStrokes(platform, chord);
    var strokes := SplitWhitespace(chord);
    var r := NormalizeStrokes(platform, strokes);
    forall i | 0 <= i < |r| ensures NormalizeKeystrokeForPlatform(platform, r[i]) == r[i] {
      NormalizeKeystrokeTwice(platform, strokes[i]);
    }
    assert NormalizeStrokes(platform, r) == r;
  }

  // ---- Validation ----

  function ToAsciiLowercase(s: string): string {
    seq(|s|, i requires 0 <= i < |s| => AsciiLower(s[i]))
  }

  predicate IsModifierComponent(component: string) {
    ToAsciiLowercase(component) in {"ctrl", "alt", "shift", "fn", "cmd", "super", "win", "secondary"}
  }

  /** Modifiers, then one key: every component but the last is a modifier, the last is not blank. */
  predicate IsKeystroke(keystroke: string) {
    var parts := Split(keystroke, '-');
    && (forall i | 0 <= i < |parts| - 1 :: IsModifierComponent(parts[i]))
    && Trim(parts[|parts| - 1]) != []
  }

  method ValidateKeystroke(keystroke: string) returns (valid: bool)
    ensures valid <==> IsKeystroke(keystroke)
  {
    var components := Split(keystroke, '-');
    var sawKey := false;
    var i := 0;
    while i < |components|
      invariant 0 <= i <= |components|
      invariant forall j | 0 <= j < i && j < |components| - 1 :: IsModifierComponent(components[j])
      invariant sawKey == (i == |components| && Trim(components[|components| - 1]) != [])
    {
      var component := components[i];
      i := i + 1;
      if component == [] {
        EmptyIsNeither();
        return false;
      }
      if i < |components| {
        if !IsModifierComponent(component) {
          return false;
        }
      } else {
        sawKey := Trim(component) != [];
      }
    }
    return sawKey;
  }

  lemma EmptyIsNeither()
    ensures !IsModifierComponent([]) && Trim([]) == []
  {
    assert ToAsciiLowercase([]) == [];
  }

  /** A chord is some strokes, each a keystroke once normalised. */
  predicate IsChord(platform: Platform, chord: string) {
    var strokes := SplitWhitespace(NormalizeChordForPlatform(platform, chord));
    strokes != [] && forall i | 0 <= i < |strokes| :: IsKeystroke(strokes[i])
  }

  method ValidateChordSyntax(platform: Platform, chord: string) returns (valid: bool)
    ensures valid <==> IsChord(platform, chord)
  {
    var strokes := SplitWhitespace(NormalizeChordForPlatform(platform, chord));
    if strokes == [] {
      return false;
    }
    for i := 0 to |strokes|
      invariant forall j | 0 <= j < i :: IsKeystroke(strokes[j])
    {
      var ok := ValidateKeystroke(strokes[i]);
      if !ok {
        return false;
      }
    }
    return true;
  }

  /** Normalising first does not change whether a chord is valid. */
  lemma NormalizingKeepsValidity(platform: Platform, chord: string)
    ensures IsChord(platform, NormalizeChordForPlatform(platform, chord)) <==> IsChord(platform, chord)
  {
    NormalizeChordIsIdempotent(platform, chord);
  }
}
