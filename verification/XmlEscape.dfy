/** The appcast writer's XML escaper: five whole-string replacement passes. */
module XmlEscape {

  /** `str::replace` with a one-character pattern. */
  function Replace(s: string, pattern: char, replacement: string): string {
    if s == [] then [] else
      (if s[0] == pattern then replacement else [s[0]]) + Replace(s[1..], pattern, replacement)
  }

  function EscapeXml(value: string): string {
    var s1 := Replace(value, '&', "&amp;");
    var s2 := Replace(s1, '<', "&lt;");
    var s3 := Replace(s2, '>', "&gt;");
    var s4 := Replace(s3, '"', "&quot;");
    Replace(s4, '\'', "&apos;")
  }

  /** The predefined entities (section 4.6 of XML 1.0); every other character stands for itself. */
  function Entity(c: char): string {
    match c
    case '&' => "&amp;"
    case '<' => "&lt;"
    case '>' => "&gt;"
    case '"' => "&quot;"
    case '\'' => "&apos;"
    case _ => [c]
  }

  /** Reference definition: one left-to-right pass. */
  function EscapeOnce(value: string): string {
    if value == [] then [] else Entity(value[0]) + EscapeOnce(value[1..])
  }

  /** What an XML processor reads: each predefined entity reference becomes its character. */
  function Unescape(s: string): string {
    if s == [] then []
    else if "&amp;" <= s then ['&'] + Unescape(s[5..])
    else if "&lt;" <= s then ['<'] + Unescape(s[4..])
    else if "&gt;" <= s then ['>'] + Unescape(s[4..])
    else if "&quot;" <= s then ['"'] + Unescape(s[6..])
    else if "&apos;" <= s then ['\''] + Unescape(s[6..])
    else [s[0]] + Unescape(s[1..])
  }

  lemma {:induction false} ReplaceAppend(a: string, b: string, pattern: char, replacement: string)
    ensures Replace(a + b, pattern, replacement)
         == Replace(a, pattern, replacement) + Replace(b, pattern, replacement)
  {
    if a == [] {
      assert a + b == b;
    } else {
      var head := if a[0] == pattern then replacement else [a[0]];
      var rest := Replace(a[1..], pattern, replacement);
      var more := Replace(b, pattern, replacement);
      ReplaceAppend(a[1..], b, pattern, replacement);
      assert (a + b)[0] == a[0] && (a + b)[1..] == a[1..] + b;
      assert head + (rest + more) == (head + rest) + more;
    }
  }

  /** A pass leaves alone a string that does not hold its pattern. */
  lemma {:induction false} ReplaceAbsent(s: string, pattern: char, replacement: string)
    requires pattern !in s
    ensures Replace(s, pattern, replacement) == s
  {
    if s != [] {
      ReplaceAbsent(s[1..], pattern, replacement);
    }
  }

  lemma ReplaceOne(c: char, pattern: char, replacement: string)
    ensures Replace([c], pattern, replacement) == if c == pattern then replacement else [c]
  {
    assert Replace([c][1..], pattern, replacement) == [];
  }

  lemma EscapeXmlAppend(a: string, b: string)
    ensures EscapeXml(a + b) == EscapeXml(a) + EscapeXml(b)
  {
    var a1, b1 := Replace(a, '&', "&amp;"), Replace(b, '&', "&amp;");
    var a2, b2 := Replace(a1, '<', "&lt;"), Replace(b1, '<', "&lt;");
    var a3, b3 := Replace(a2, '>', "&gt;"), Replace(b2, '>', "&gt;");
    var a4, b4 := Replace(a3, '"', "&quot;"), Replace(b3, '"', "&quot;");
    ReplaceAppend(a, b, '&', "&amp;");
    ReplaceAppend(a1, b1, '<', "&lt;");
    ReplaceAppend(a2, b2, '>', "&gt;");
    ReplaceAppend(a3, b3, '"', "&quot;");
    ReplaceAppend(a4, b4, '\'', "&apos;");
  }

  /** One pass over what the passes before it made of the character `c`. */
  lemma PassOne(s: string, c: char, pattern: char, replacement: string)
    requires s == [c] || (pattern !in s && c != pattern)
    ensures Replace(s, pattern, replacement) == if c == pattern then replacement else s
  {
    if s == [c] {
      ReplaceOne(c, pattern, replacement);
    } else {
      ReplaceAbsent(s, pattern, replacement);
    }
  }

  /** A replacement that holds none of the four later patterns. */
  predicate Settled(s: string) {
    forall c | c in s :: c != '<' && c != '>' && c != '"' && c != '\''
  }

  /** On one character the later passes never touch what an earlier pass produced. */
  lemma FivePassesOne(c: char, amp: string, lt: string, gt: string, quot: string, apos: string)
    requires Settled(amp) && Settled(lt) && Settled(gt) && Settled(quot) && Settled(apos)
    ensures Replace(Replace(Replace(Replace(Replace([c], '&', amp), '<', lt), '>', gt), '"', quot), '\'', apos)
         == if c == '&' then amp else if c == '<' then lt else if c == '>' then gt
            else if c == '"' then quot else if c == '\'' then apos else [c]
  {
    PassOne([c], c, '&', amp);
    var s1 := Replace([c], '&', amp);
    PassOne(s1, c, '<', lt);
    var s2 := Replace(s1, '<', lt);
    PassOne(s2, c, '>', gt);
    var s3 := Replace(s2, '>', gt);
    PassOne(s3, c, '"', quot);
    PassOne(Replace(s3, '"', quot), c, '\'', apos);
  }

  lemma EscapeXmlOne(c: char)
    ensures EscapeXml([c]) == Entity(c)
  {
    FivePassesOne(c, "&amp;", "&lt;", "&gt;", "&quot;", "&apos;");
  }

  /** The five passes compute the one-pass map on every string. */
  lemma {:induction false} EscapeXmlIsOnePass(value: string)
    ensures EscapeXml(value) == EscapeOnce(value)
  {
    if value == [] {
    } else {
      EscapeXmlIsOnePass(value[1..]);
      EscapeXmlAppend([value[0]], value[1..]);
      EscapeXmlOne(value[0]);
      assert value == [value[0]] + value[1..];
    }
  }

  /** The output holds no character that could open a tag or end an attribute value. */
  lemma {:induction false} EscapeXmlHasNoMarkup(value: string)
    ensures forall c | c in EscapeXml(value) :: c !in {'<', '>', '"', '\''}
  {
    EscapeXmlIsOnePass(value);
    EscapeOnceHasNoMarkup(value);
  }

  lemma {:induction false} EscapeOnceHasNoMarkup(value: string)
    ensures forall c | c in EscapeOnce(value) :: c !in {'<', '>', '"', '\''}
  {
    if value != [] {
      EscapeOnceHasNoMarkup(value[1..]);
    }
  }

  lemma UnescapeEntity(c: char, rest: string)
    ensures Unescape(Entity(c) + rest) == [c] + Unescape(rest)
  {
    var e := Entity(c);
    var s := e + rest;
    assert s[|e|..] == rest && s[0] == e[0];
    if e != [c] {
      assert s[1] == e[1] && s[2] == e[2] && e <= s;
    }
  }

  /** Decoding the predefined entities recovers the input: escaping loses nothing. */
  lemma {:induction false} EscapeXmlRoundTrip(value: string)
    ensures Unescape(EscapeXml(value)) == value
  {
    EscapeXmlIsOnePass(value);
    if value != [] {
      EscapeXmlIsOnePass(value[1..]);
      EscapeXmlRoundTrip(value[1..]);
      UnescapeEntity(value[0], EscapeOnce(value[1..]));
    }
  }

  lemma EscapeXmlInjective(a: string, b: string)
    requires EscapeXml(a) == EscapeXml(b)
    ensures a == b
  {
    EscapeXmlRoundTrip(a);
    EscapeXmlRoundTrip(b);
  }
}
