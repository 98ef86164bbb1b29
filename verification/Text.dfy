/** String operations of the Rust standard library that the modelled code relies on. */
module Text {

  datatype Option<+T> = None | Some(value: T)

  /** `char::is_whitespace`: the Unicode White_Space property. */
  predicate IsWhitespace(c: char) {
    || '\U{9}' <= c <= '\U{D}'
    || c == ' '
    || c == '\U{85}'
    || c == '\U{A0}'
    || c == '\U{1680}'
    || '\U{2000}' <= c <= '\U{200A}'
    || c == '\U{2028}'
    || c == '\U{2029}'
    || c == '\U{202F}'
    || c == '\U{205F}'
    || c == '\U{3000}'
  }

  /** `char::to_ascii_lowercase`. */
  function AsciiLower(c: char): char {
    if 'A' <= c <= 'Z' then c + 32 as char else c
  }

  /** `str::eq_ignore_ascii_case`. */
  predicate EqIgnoreAsciiCase(a: string, b: string) {
    |a| == |b| && forall i | 0 <= i < |a| :: AsciiLower(a[i]) == AsciiLower(b[i])
  }

  /** Only capital letters change, each to the small letter at the same place in the alphabet. */
  lemma AsciiLowerKeepsPlace(c: char)
    ensures if 'A' <= c <= 'Z' then 'a' <= AsciiLower(c) <= 'z'
            && AsciiLower(c) as int - 'a' as int == c as int - 'A' as int
            else AsciiLower(c) == c
  {
  }

  function TrimStart(s: string): string {
    if s != [] && IsWhitespace(s[0]) then TrimStart(s[1..]) else s
  }

  function TrimEnd(s: string): string {
    if s != [] && IsWhitespace(s[|s| - 1]) then TrimEnd(s[..|s| - 1]) else s
  }

  /** `str::trim`. */
  function Trim(s: string): string {
    TrimEnd(TrimStart(s))
  }

  /** A string that `trim` leaves alone. */
  predicate Trimmed(s: string) {
    s == [] || (!IsWhitespace(s[0]) && !IsWhitespace(s[|s| - 1]))
  }

  lemma {:induction false} TrimStartShape(s: string)
    ensures TrimStart(s) == [] || !IsWhitespace(TrimStart(s)[0])
    ensures TrimStart(s) == [] || TrimStart(s)[|TrimStart(s)| - 1] == s[|s| - 1]
  {
    if s != [] && IsWhitespace(s[0]) {
      TrimStartShape(s[1..]);
    }
  }

  lemma {:induction false} TrimEndShape(s: string)
    ensures TrimEnd(s) == [] || !IsWhitespace(TrimEnd(s)[|TrimEnd(s)| - 1])
    ensures TrimEnd(s) <= s
  {
    if s != [] && IsWhitespace(s[|s| - 1]) {
      TrimEndShape(s[..|s| - 1]);
    }
  }

  /** `trim` always gives a trimmed string, and is the identity exactly on trimmed strings. */
  lemma TrimIsTrimmed(s: string)
    ensures Trimmed(Trim(s))
    ensures Trim(s) == s <==> Trimmed(s)
  {
    TrimStartShape(s);
    TrimEndShape(TrimStart(s));
  }

  /** Lexicographic order on strings, by code point (the same as UTF-8 byte order). */
  predicate StrLess(a: string, b: string) {
    b != [] && (a == [] || a[0] < b[0] || (a[0] == b[0] && StrLess(a[1..], b[1..])))
  }

  lemma {:induction false} StrLessIrreflexive(a: string)
    ensures !StrLess(a, a)
  {
    if a != [] {
      StrLessIrreflexive(a[1..]);
    }
  }

  lemma {:induction false} StrLessTransitive(a: string, b: string, c: string)
    requires StrLess(a, b) && StrLess(b, c)
    ensures StrLess(a, c)
  {
    if a != [] && a[0] == b[0] == c[0] {
      StrLessTransitive(a[1..], b[1..], c[1..]);
    }
  }

  lemma {:induction false} StrLessTotal(a: string, b: string)
    ensures StrLess(a, b) || a == b || StrLess(b, a)
  {
    if a != [] && b != [] && a[0] == b[0] {
      StrLessTotal(a[1..], b[1..]);
      assert a == [a[0]] + a[1..] && b == [b[0]] + b[1..];
    }
  }

  /** The order on strings said directly: equal up to some place, where the first ends or has the smaller character. */
  ghost predicate TextBefore(a: string, b: string) {
    exists k: nat :: k <= |a| && k < |b| && a[..k] == b[..k] && (k == |a| || a[k] < b[k])
  }

  lemma {:induction false} StrLessIff(a: string, b: string)
    ensures StrLess(a, b) <==> TextBefore(a, b)
  {
    if a != [] && b != [] && a[0] == b[0] {
      StrLessIff(a[1..], b[1..]);
      if TextBefore(a[1..], b[1..]) {
        var k: nat :| k <= |a[1..]| && k < |b[1..]| && a[1..][..k] == b[1..][..k]
            && (k == |a[1..]| || a[1..][k] < b[1..][k]);
        assert a[..k + 1] == [a[0]] + a[1..][..k] && b[..k + 1] == [b[0]] + b[1..][..k];
        assert k + 1 == |a| || a[k + 1] < b[k + 1];
      }
      if TextBefore(a, b) {
        var k: nat :| k <= |a| && k < |b| && a[..k] == b[..k] && (k == |a| || a[k] < b[k]);
        assert k > 0;
        assert a[1..][..k - 1] == a[..k][1..] && b[1..][..k - 1] == b[..k][1..];
        assert k - 1 == |a[1..]| || a[1..][k - 1] < b[1..][k - 1];
      }
    } else {
      StrLessAtFirst(a, b);
    }
  }

  lemma FirstOfPrefix(s: string, k: nat)
    requires k <= |s|
    ensures k > 0 ==> s[..k][0] == s[0]
  {
  }

  lemma StrLessAtFirst(a: string, b: string)
    requires a == [] || b == [] || a[0] != b[0]
    ensures StrLess(a, b) <==> TextBefore(a, b)
  {
    if StrLess(a, b) {
      assert a[..0] == b[..0] && (0 == |a| || a[0] < b[0]);
    }
    if TextBefore(a, b) {
      var k: nat :| k <= |a| && k < |b| && a[..k] == b[..k] && (k == |a| || a[k] < b[k]);
      FirstOfPrefix(a, k);
      FirstOfPrefix(b, k);
    }
  }

  // ---- Trimming, said directly ----

  predicate Blank(s: string) {
    forall i | 0 <= i < |s| :: IsWhitespace(s[i])
  }

  predicate LiesBetween(s: string, t: string, i: nat, j: nat) {
    i <= j <= |s| && t == s[i..j] && Blank(s[..i]) && Blank(s[j..])
  }

  /** `t` is what is left of `s` between whitespace at its ends. */
  ghost predicate IsCore(s: string, t: string) {
    Trimmed(t) && exists i: nat, j: nat :: LiesBetween(s, t, i, j)
  }

  lemma {:induction false} TrimStartCuts(s: string) returns (i: nat)
    ensures i <= |s| && TrimStart(s) == s[i..] && Blank(s[..i])
  {
    i := 0;
    if s != [] && IsWhitespace(s[0]) {
      var k := TrimStartCuts(s[1..]);
      i := k + 1;
      assert s[..i] == [s[0]] + s[1..][..k];
    }
  }

  lemma {:induction false} TrimEndCuts(s: string) returns (j: nat)
    ensures j <= |s| && TrimEnd(s) == s[..j] && Blank(s[j..])
  {
    j := |s|;
    if s != [] && IsWhitespace(s[|s| - 1]) {
      var n := |s| - 1;
      j := TrimEndCuts(s[..n]);
      assert s[j..] == s[..n][j..] + [s[n]];
    }
  }

  /** `trim` cuts whitespace off both ends, and nothing else. */
  lemma TrimIsCore(s: string)
    ensures IsCore(s, Trim(s))
  {
    TrimIsTrimmed(s);
    var i := TrimStartCuts(s);
    var k := TrimEndCuts(TrimStart(s));
    var j := i + k;
    assert Trim(s) == s[i..j];
    assert s[j..] == TrimStart(s)[k..];
    assert LiesBetween(s, Trim(s), i, j);
  }

  lemma BlankIffTrimmedAway(s: string)
    ensures Trim(s) == [] <==> Blank(s)
  {
    TrimIsCore(s);
    var i: nat, j: nat :| LiesBetween(s, Trim(s), i, j);
    assert s == s[..i] + s[i..j] + s[j..];
    assert i < j ==> Trim(s)[0] == s[i];
  }

  /** A string has one core. */
  lemma CoreIsUnique(s: string, t: string, u: string)
    requires IsCore(s, t) && IsCore(s, u)
    ensures t == u
  {
    var i: nat, j: nat :| LiesBetween(s, t, i, j);
    var k: nat, l: nat :| LiesBetween(s, u, k, l);
    CoreInside(s, i, j, k, l);
    CoreInside(s, k, l, i, j);
  }

  lemma BlankEnds(s: string, k: nat, l: nat, i: nat)
    requires i < |s| && k <= |s| && l <= |s| && Blank(s[..k]) && Blank(s[l..])
    ensures i < k || l <= i ==> IsWhitespace(s[i])
  {
    if i < k {
      assert s[..k][i] == s[i];
    } else if l <= i {
      assert s[l..][i - l] == s[i];
    }
  }

  /** A core that is not empty lies inside every other. */
  lemma CoreInside(s: string, i: nat, j: nat, k: nat, l: nat)
    requires i <= j <= |s| && k <= l <= |s| && Trimmed(s[i..j]) && Blank(s[..k]) && Blank(s[l..])
    ensures i < j ==> k <= i && j <= l
  {
    if i < j {
      assert s[i..j][0] == s[i] && s[i..j][j - i - 1] == s[j - 1];
      BlankEnds(s, k, l, i);
      BlankEnds(s, k, l, j - 1);
    }
  }
}
