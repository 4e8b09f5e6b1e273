/**
  Python `str` operations the core relies on, over `seq<char>` (one char per code point):
  `\s` / `str.isspace`, `strip`, `split`, `join`, `in` (substring), `<=` (code-point
  order), `lower()` on Latin-1 and the modern Greek letters, `int()` of ASCII digits and the
  `%d` / `%0Nd` renderings.
*/
module Text {

  predicate IsDigit(c: char) {
    '0' <= c <= '9'
  }

  predicate AllDigits(s: string) {
    forall i :: 0 <= i < |s| ==> IsDigit(s[i])
  }

  /** `str.isspace()`; the same set is what `\s` matches in a str pattern. */
  predicate IsSpace(c: char) {
    ('\t' <= c <= '\r') || ('\U{1C}' <= c <= ' ') || c == '\U{85}' || c == '\U{A0}'
    || c == '\U{1680}' || ('\U{2000}' <= c <= '\U{200A}') || c == '\U{2028}'
    || c == '\U{2029}' || c == '\U{202F}' || c == '\U{205F}' || c == '\U{3000}'
  }

  // ---------- strip ----------

  function LStrip(s: string): (r: string)
    ensures |r| <= |s|
  {
    if s == [] || !IsSpace(s[0]) then s else LStrip(s[1..])
  }

  function RStrip(s: string): (r: string)
    ensures |r| <= |s|
  {
    if s == [] || !IsSpace(s[|s| - 1]) then s else RStrip(s[..|s| - 1])
  }

  /** `s.strip()` */
  function Strip(s: string): string {
    RStrip(LStrip(s))
  }

  /** lstrip keeps a suffix of s. */
  lemma {:induction false} LStripSuffix(s: string)
    ensures forall i :: 0 <= i < |LStrip(s)| ==> LStrip(s)[i] == s[|s| - |LStrip(s)| + i]
  {
    if s != [] && IsSpace(s[0]) {
      var t, r := s[1..], LStrip(s);
      LStripSuffix(t);
      assert r == LStrip(t);
      forall i | 0 <= i < |r|
        ensures r[i] == s[|s| - |r| + i]
      {
        assert r[i] == t[|t| - |r| + i];
      }
    }
  }

  /** rstrip keeps a prefix of s. */
  lemma {:induction false} RStripPrefix(s: string)
    ensures forall i :: 0 <= i < |RStrip(s)| ==> RStrip(s)[i] == s[i]
  {
    if s != [] && IsSpace(s[|s| - 1]) {
      var t, r := s[..|s| - 1], RStrip(s);
      RStripPrefix(t);
      assert r == RStrip(t);
      forall i | 0 <= i < |r|
        ensures r[i] == s[i]
      {
        assert r[i] == t[i];
      }
    }
  }

  /** lstrip drops exactly the leading whitespace. */
  lemma {:induction false} LStripSpec(s: string)
    ensures var r := LStrip(s);
      (r == [] || !IsSpace(r[0])) && forall i :: 0 <= i < |s| - |r| ==> IsSpace(s[i])
  {
    if s != [] && IsSpace(s[0]) {
      LStripSpec(s[1..]);
      LStripSuffix(s[1..]);
      assert forall i :: 1 <= i < |s| ==> s[i] == s[1..][i - 1];
    }
  }

  /** rstrip drops exactly the trailing whitespace. */
  lemma {:induction false} RStripSpec(s: string)
    ensures var r := RStrip(s);
      (r == [] || !IsSpace(r[|r| - 1])) && forall i :: |r| <= i < |s| ==> IsSpace(s[i])
  {
    if s != [] && IsSpace(s[|s| - 1]) {
      RStripSpec(s[..|s| - 1]);
      RStripPrefix(s[..|s| - 1]);
      assert forall i :: 0 <= i < |s| - 1 ==> s[i] == s[..|s| - 1][i];
    }
  }

  /** The stripped string is the slice of s that starts after the leading whitespace. */
  lemma StripSlice(s: string)
    ensures var r, k := Strip(s), |s| - |LStrip(s)|;
      k + |r| <= |s| && r == s[k..k + |r|]
  {
    var l := LStrip(s);
    var r := RStrip(l);
    var k := |s| - |l|;
    LStripSuffix(s);
    RStripPrefix(l);
    forall i | 0 <= i < |r|
      ensures r[i] == s[k + i]
    {
      assert r[i] == l[i];
    }
    assert r == s[k..k + |r|];
  }

  lemma StripTrailing(s: string)
    ensures var r, k := Strip(s), |s| - |LStrip(s)|;
      forall i :: k + |r| <= i < |s| ==> IsSpace(s[i])
  {
    var l := LStrip(s);
    LStripSuffix(s);
    RStripSpec(l);
    SpacesOfSuffix(s, l, |RStrip(l)|);
  }

  /** Whitespace at the end of a suffix of s is whitespace at the end of s. */
  lemma SpacesOfSuffix(s: string, l: string, m: nat)
    requires |l| <= |s| && m <= |l|
    requires forall i :: 0 <= i < |l| ==> l[i] == s[|s| - |l| + i]
    requires forall i :: m <= i < |l| ==> IsSpace(l[i])
    ensures forall i :: |s| - |l| + m <= i < |s| ==> IsSpace(s[i])
  {
    forall i | |s| - |l| + m <= i < |s|
      ensures IsSpace(s[i])
    {
      assert l[i - (|s| - |l|)] == s[i];
    }
  }

  /** `strip()` removes only whitespace, only at the two ends, and leaves none there. */
  lemma StripSpec(s: string)
    ensures var r, k := Strip(s), |s| - |LStrip(s)|;
      k + |r| <= |s| && r == s[k..k + |r|]
      && (forall i :: 0 <= i < k ==> IsSpace(s[i]))
      && (forall i :: k + |r| <= i < |s| ==> IsSpace(s[i]))
      && (r == [] || (!IsSpace(r[0]) && !IsSpace(r[|r| - 1])))
  {
    StripSlice(s);
    StripTrailing(s);
    LStripSpec(s);
    var l := LStrip(s);
    var r := RStrip(l);
    RStripSpec(l);
    RStripPrefix(l);
    if r != [] {
      assert r[0] == l[0];
    }
  }

  /** A string with no whitespace at either end is its own strip. */
  lemma StripClean(s: string)
    requires s == [] || (!IsSpace(s[0]) && !IsSpace(s[|s| - 1]))
    ensures Strip(s) == s
  {
  }

  /** One blank on either side of a clean text is stripped away. */
  lemma StripPadded(s: string)
    requires s != [] && !IsSpace(s[0]) && !IsSpace(s[|s| - 1])
    ensures Strip(s + " ") == s && Strip(" " + s) == s
  {
    assert (s + " ")[..|s|] == s;
    assert (" " + s)[1..] == s;
    assert LStrip(s + " ") == s + " " && LStrip(" " + s) == LStrip(s) == s;
    assert RStrip(s + " ") == RStrip(s) == s;
  }

  /** A string of digits has no whitespace to strip. */
  lemma DigitsStrip(s: string)
    requires AllDigits(s)
    ensures Strip(s) == s
  {
    if s != [] {
      assert IsDigit(s[0]) && IsDigit(s[|s| - 1]);
    }
    StripClean(s);
  }

  // ---------- split / join ----------

  function IndexOf(s: string, c: char): (i: int)
    ensures c in s ==> 0 <= i < |s| && s[i] == c && c !in s[..i]
    ensures c !in s ==> i == -1
  {
    if s == [] then -1
    else if s[0] == c then 0
    else var j := IndexOf(s[1..], c); if j < 0 then -1 else j + 1
  }

  function Join(parts: seq<string>, sep: string): string {
    if |parts| == 0 then ""
    else if |parts| == 1 then parts[0]
    else parts[0] + sep + Join(parts[1..], sep)
  }

  /** `s.split(c)`: one more piece than there are separators. */
  function Split(s: string, c: char): (parts: seq<string>)
    ensures |parts| >= 1
    ensures forall k :: 0 <= k < |parts| ==> c !in parts[k]
    ensures Join(parts, [c]) == s
    ensures |parts| == 1 <==> c !in s
    decreases |s|
  {
    if c !in s then [s]
    else
      var i := IndexOf(s, c);
      var rest := Split(s[i + 1..], c);
      assert s == s[..i] + [c] + s[i + 1..];
      [s[..i]] + rest
  }

  /** A piece free of c followed by c: the piece comes off as the first part. */
  lemma SplitConcat(a: string, c: char, t: string)
    requires c !in a
    ensures Split(a + [c] + t, c) == [a] + Split(t, c)
  {
    var s := a + [c] + t;
    assert s[|a|] == c;
    assert s[..|a|] == a && s[|a| + 1..] == t;
    SplitAt(s, c, |a|);
  }

  /** IndexOf finds the first occurrence. */
  lemma {:induction false} IndexOfFirst(s: string, c: char, i: int)
    requires 0 <= i < |s| && s[i] == c && c !in s[..i]
    ensures IndexOf(s, c) == i
  {
    if i > 0 {
      assert s[..i][0] == s[0];
      assert s[1..][i - 1] == c;
      assert s[1..][..i - 1] == s[..i][1..];
      IndexOfFirst(s[1..], c, i - 1);
    }
  }

  /** Splitting at the first occurrence of c: the piece before it, then the split of the rest. */
  lemma SplitAt(s: string, c: char, i: int)
    requires 0 <= i < |s| && s[i] == c && c !in s[..i]
    ensures Split(s, c) == [s[..i]] + Split(s[i + 1..], c)
  {
    IndexOfFirst(s, c, i);
    assert c in s;
  }

  // ---------- substring search ----------

  predicate IsPrefix(p: string, s: string) {
    |p| <= |s| && s[..|p|] == p
  }

  predicate OccursAt(s: string, t: string, i: int) {
    0 <= i && i + |t| <= |s| && s[i..i + |t|] == t
  }

  /** `t in s` for strings */
  predicate Contains(s: string, t: string)
    decreases |s|
  {
    IsPrefix(t, s) || (s != [] && Contains(s[1..], t))
  }

  /** `t in s` holds exactly when t occurs at some position of s. */
  lemma {:induction false} ContainsSpec(s: string, t: string)
    ensures Contains(s, t) <==> exists i :: OccursAt(s, t, i)
    decreases |s|
  {
    if IsPrefix(t, s) {
      assert OccursAt(s, t, 0);
    } else if s != [] {
      ContainsSpec(s[1..], t);
      if Contains(s[1..], t) {
        var i :| OccursAt(s[1..], t, i);
        assert s[1..][i..i + |t|] == s[i + 1..i + 1 + |t|];
        assert OccursAt(s, t, i + 1);
      }
      if exists i :: OccursAt(s, t, i) {
        var i :| OccursAt(s, t, i);
        assert i != 0;
        assert s[1..][i - 1..i - 1 + |t|] == s[i..i + |t|];
        assert OccursAt(s[1..], t, i - 1);
      }
    }
  }

  // ---------- code-point order ----------

  /** `a <= b` on Python strings: lexicographic by code point, a proper prefix first. */
  predicate StrLe(a: string, b: string)
    decreases |a|
  {
    a == [] || (b != [] && (a[0] < b[0] || (a[0] == b[0] && StrLe(a[1..], b[1..]))))
  }

  lemma {:induction false} StrLeTotal(a: string, b: string)
    ensures StrLe(a, b) || StrLe(b, a)
    decreases |a|
  {
    if a != [] && b != [] && a[0] == b[0] {
      StrLeTotal(a[1..], b[1..]);
    }
  }

  lemma {:induction false} StrLeAntisymmetric(a: string, b: string)
    requires StrLe(a, b) && StrLe(b, a)
    ensures a == b
    decreases |a|
  {
    if a != [] {
      StrLeAntisymmetric(a[1..], b[1..]);
      assert a == [a[0]] + a[1..] && b == [b[0]] + b[1..];
    }
  }

  lemma {:induction false} StrLeTransitive(a: string, b: string, c: string)
    requires StrLe(a, b) && StrLe(b, c)
    ensures StrLe(a, c)
    decreases |a|
  {
    if a != [] && a[0] == b[0] && b[0] == c[0] {
      StrLeTransitive(a[1..], b[1..], c[1..]);
    }
  }

  // ---------- lower() ----------

  predicate IsUpper(c: char) {
    ('A' <= c <= 'Z') || ('\U{C0}' <= c <= '\U{DE}' && c != '\U{D7}')
    || ('\U{391}' <= c <= '\U{3AB}' && c != '\U{3A2}')
    || c == '\U{386}' || ('\U{388}' <= c <= '\U{38A}') || c == '\U{38C}' || c == '\U{38E}' || c == '\U{38F}'
  }

  /** Letters with case (Unicode "Cased") in the modelled alphabet. */
  predicate IsCased(c: char) {
    IsUpper(c) || ('a' <= c <= 'z') || c == '\U{AA}' || c == '\U{B5}' || c == '\U{BA}'
    || ('\U{DF}' <= c <= '\U{FF}' && c != '\U{F7}')
    || c == '\U{390}' || ('\U{3AC}' <= c <= '\U{3CE}')
  }

  /** Characters lower() looks through when it decides on a final sigma (Unicode "Case_Ignorable"). */
  predicate IsCaseIgnorable(c: char) {
    c == '.' || c == '\'' || c == ':' || c == '^' || c == '`' || c == '\U{A8}' || c == '\U{AD}'
    || c == '\U{AF}' || c == '\U{B4}' || c == '\U{B7}' || c == '\U{B8}' || ('\U{300}' <= c <= '\U{36F}')
    || c == '\U{374}' || c == '\U{375}' || c == '\U{37A}' || c == '\U{384}' || c == '\U{385}' || c == '\U{387}'
  }

  /** The lower-case form of one character other than capital sigma. */
  function LowerChar(c: char): char {
    if 'A' <= c <= 'Z' || ('\U{C0}' <= c <= '\U{DE}' && c != '\U{D7}') then (c as int + 32) as char
    else if '\U{391}' <= c <= '\U{3AB}' && c != '\U{3A2}' then (c as int + 32) as char
    else if c == '\U{386}' then '\U{3AC}'
    else if '\U{388}' <= c <= '\U{38A}' then (c as int + 37) as char
    else if c == '\U{38C}' then '\U{3CC}'
    else if c == '\U{38E}' || c == '\U{38F}' then (c as int + 63) as char
    else c
  }

  /** Some cased character precedes position i, looking back through case-ignorable ones. */
  predicate CasedBefore(s: string, i: int)
    requires 0 <= i <= |s|
    decreases i
  {
    i > 0 && (IsCased(s[i - 1]) || (IsCaseIgnorable(s[i - 1]) && CasedBefore(s, i - 1)))
  }

  /** Some cased character follows from position i on, looking through case-ignorable ones. */
  predicate CasedFrom(s: string, i: int)
    requires 0 <= i <= |s|
    decreases |s| - i
  {
    i < |s| && (IsCased(s[i]) || (IsCaseIgnorable(s[i]) && CasedFrom(s, i + 1)))
  }

  /** Capital sigma at position i lowers to final sigma. */
  predicate FinalSigmaAt(s: string, i: int)
    requires 0 <= i < |s|
  {
    CasedBefore(s, i) && !CasedFrom(s, i + 1)
  }

  /**
    `s.lower()`, including the final-sigma rule, exact on strings whose characters lie in
    U+0000-U+00FF, U+0300-U+036F or U+0384-U+03CE; other letters (archaic and Coptic
    Greek, Greek Extended, other scripts) are left as they are and are not counted as cased.
  */
  function Lower(s: string): (r: string)
    ensures |r| == |s|
    ensures forall i :: 0 <= i < |s| && s[i] != '\U{3A3}' ==> r[i] == LowerChar(s[i])
    ensures forall i :: 0 <= i < |s| && s[i] == '\U{3A3}' ==> r[i] == (if FinalSigmaAt(s, i) then '\U{3C2}' else '\U{3C3}')
  {
    seq(|s|, i requires 0 <= i < |s| =>
      if s[i] == '\U{3A3}' then (if FinalSigmaAt(s, i) then '\U{3C2}' else '\U{3C3}') else LowerChar(s[i]))
  }

  // ---------- numbers ----------

  function DigitChar(n: int): char
    requires 0 <= n <= 9
  {
    ('0' as int + n) as char
  }

  /** `int(s)` for a string of ASCII digits */
  function DigitsValue(s: string): (n: nat)
    requires AllDigits(s)
  {
    if s == [] then 0 else DigitsValue(s[..|s| - 1]) * 10 + (s[|s| - 1] as int - '0' as int)
  }

  function Pow10(k: nat): nat {
    if k == 0 then 1 else 10 * Pow10(k - 1)
  }

  /**
    `f"{n:0{width}d}"` for a non-negative int: its decimal digits, with leading
    zeros up to `width` digits; a wider number keeps all its digits.
  */
  function ZeroPad(n: nat, width: nat): (s: string)
    ensures AllDigits(s) && |s| >= 1 && |s| >= width
    decreases n + width
  {
    if n < 10 && width <= 1 then [DigitChar(n)]
    else ZeroPad(n / 10, if width == 0 then 0 else width - 1) + [DigitChar(n % 10)]
  }

  /** `str(n)` for a non-negative int */
  function NatToString(n: nat): (s: string)
    ensures AllDigits(s) && |s| >= 1
  {
    ZeroPad(n, 1)
  }

  /** A number below 100 is padded to exactly two digits that read back as it. */
  lemma ZeroPadWidthTwo(n: nat)
    requires n < 100
    ensures |ZeroPad(n, 2)| == 2 && DigitsValue(ZeroPad(n, 2)) == n
  {
    assert Pow10(2) == 100 by {
      assert Pow10(1) == 10;
    }
    ZeroPadRoundTrip(n, 2);
  }

  /** `str(n)` */
  function IntToString(n: int): string {
    if n < 0 then "-" + NatToString(-n) else NatToString(n)
  }

  /** `int(f"{n:0{w}d}") == n`, and the rendering is exactly w digits when n < 10^w. */
  lemma {:induction false} ZeroPadRoundTrip(n: nat, width: nat)
    ensures DigitsValue(ZeroPad(n, width)) == n
    ensures 1 <= width && n < Pow10(width) ==> |ZeroPad(n, width)| == width
    decreases n + width
  {
    if !(n < 10 && width <= 1) {
      var w := if width == 0 then 0 else width - 1;
      ZeroPadRoundTrip(n / 10, w);
      var s := ZeroPad(n, width);
      assert s[..|s| - 1] == ZeroPad(n / 10, w);
      if 1 <= width && n < Pow10(width) {
        assert width >= 2 && n / 10 < Pow10(w);
      }
    }
  }

  /** `str(n)` starts with a minus sign exactly when n is negative. */
  lemma IntToStringSign(n: int)
    ensures |IntToString(n)| >= 1
    ensures IntToString(n)[0] == '-' <==> n < 0
  {
    if n >= 0 {
      assert IsDigit(NatToString(n)[0]);
    }
  }

  lemma NatToStringInjective(a: nat, b: nat)
    requires NatToString(a) == NatToString(b)
    ensures a == b
  {
    ZeroPadRoundTrip(a, 1);
    ZeroPadRoundTrip(b, 1);
  }

  /** `str(n)` tells integers apart. */
  lemma IntToStringInjective(a: int, b: int)
    requires IntToString(a) == IntToString(b)
    ensures a == b
  {
    IntToStringSign(a);
    IntToStringSign(b);
    if a < 0 {
      assert NatToString(-a) == IntToString(a)[1..];
      assert NatToString(-b) == IntToString(b)[1..];
      NatToStringInjective(-a, -b);
    } else {
      NatToStringInjective(a, b);
    }
  }
}
