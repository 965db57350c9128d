/** Python `str` operations the pipeline relies on: whitespace stripping,
    `split`/`join`, prefix and substring tests, `str.replace`, decimal
    rendering of integers and `int()` parsing. */
module PyStrings {

  datatype Option<+T> = None | Some(value: T)

  /** The characters `str.isspace()` accepts; the regular-expression class `\s`
      matches the same set. */
  predicate IsSpace(c: char) {
    var n := c as int;
    (9 <= n <= 13) || (28 <= n <= 32) || n == 0x85 || n == 0xA0 || n == 0x1680
    || (0x2000 <= n <= 0x200A) || n == 0x2028 || n == 0x2029 || n == 0x202F
    || n == 0x205F || n == 0x3000
  }

  /** The line boundaries of `str.splitlines()`. */
  predicate IsLineBreak(c: char) {
    var n := c as int;
    (10 <= n <= 13) || (28 <= n <= 30) || n == 0x85 || n == 0x2028 || n == 0x2029
  }

  predicate IsBlank(s: string) {
    forall i | 0 <= i < |s| :: IsSpace(s[i])
  }

  /** How many whitespace characters `s` starts with. */
  function LeadingSpaces(s: string): (k: nat)
    ensures k <= |s|
    ensures k < |s| ==> !IsSpace(s[k])
  {
    if s != [] && IsSpace(s[0]) then 1 + LeadingSpaces(s[1..]) else 0
  }

  /** How many whitespace characters `s` ends with. */
  function TrailingSpaces(s: string): (k: nat)
    ensures k <= |s|
    ensures k < |s| ==> !IsSpace(s[|s| - 1 - k])
  {
    if s != [] && IsSpace(s[|s| - 1]) then 1 + TrailingSpaces(s[..|s| - 1]) else 0
  }

  lemma {:induction false} LeadingSpacesAreSpaces(s: string)
    ensures forall i | 0 <= i < LeadingSpaces(s) :: IsSpace(s[i])
  {
    if s != [] && IsSpace(s[0]) {
      LeadingSpacesAreSpaces(s[1..]);
    }
  }

  lemma {:induction false} TrailingSpacesAreSpaces(s: string)
    ensures forall i | |s| - TrailingSpaces(s) <= i < |s| :: IsSpace(s[i])
  {
    if s != [] && IsSpace(s[|s| - 1]) {
      TrailingSpacesAreSpaces(s[..|s| - 1]);
    }
  }

  /** `s.lstrip()` */
  function LStrip(s: string): string {
    s[LeadingSpaces(s)..]
  }

  /** `s.rstrip()` */
  function RStrip(s: string): string {
    s[..|s| - TrailingSpaces(s)]
  }

  /** `s.strip()` */
  function Strip(s: string): (r: string)
    ensures r == [] || (!IsSpace(r[0]) && !IsSpace(r[|r| - 1]))
    ensures r == [] <==> IsBlank(s)
  {
    var l := LStrip(s);
    LeadingSpacesAreSpaces(s);
    TrailingSpacesAreSpaces(l);
    RStrip(l)
  }

  /** A string with no surrounding whitespace is its own strip. */
  lemma StripOfStripped(s: string)
    requires s == [] || (!IsSpace(s[0]) && !IsSpace(s[|s| - 1]))
    ensures Strip(s) == s
  {
  }

  /** Stripping twice strips no more than once. */
  lemma StripIdempotent(s: string)
    ensures Strip(Strip(s)) == Strip(s)
  {
    StripOfStripped(Strip(s));
  }

  predicate StartsWith(s: string, prefix: string) {
    |prefix| <= |s| && s[..|prefix|] == prefix
  }

  predicate EndsWith(s: string, suffix: string) {
    |suffix| <= |s| && s[|s| - |suffix|..] == suffix
  }

  /** `needle in s` for strings. */
  predicate Contains(s: string, needle: string)
    decreases |s|
  {
    StartsWith(s, needle) || (s != [] && Contains(s[1..], needle))
  }

  /** `s.split(sep)` for a one-character separator. */
  function Split(s: string, sep: char): (parts: seq<string>)
    ensures |parts| >= 1
    ensures forall k | 0 <= k < |parts| :: sep !in parts[k]
  {
    if s == [] then [""]
    else
      var rest := Split(s[1..], sep);
      if s[0] == sep then [""] + rest else [[s[0]] + rest[0]] + rest[1..]
  }

  /** The pieces of `s` between line boundaries (`str.splitlines()`, except that
      a `\r\n` pair and a final boundary yield an extra empty piece). */
  function SplitLines(s: string): (lines: seq<string>)
    ensures |lines| >= 1
    ensures forall k, i | 0 <= k < |lines| && 0 <= i < |lines[k]| :: !IsLineBreak(lines[k][i])
  {
    if s == [] then [""]
    else
      var rest := SplitLines(s[1..]);
      if IsLineBreak(s[0]) then [""] + rest else [[s[0]] + rest[0]] + rest[1..]
  }

  /** `sep.join(parts)` */
  function Join(sep: string, parts: seq<string>): string {
    if |parts| == 0 then ""
    else if |parts| == 1 then parts[0]
    else parts[0] + sep + Join(sep, parts[1..])
  }

  /** Joining one more piece appends the separator and the piece. */
  lemma {:induction false} JoinSnoc(sep: string, parts: seq<string>, p: string)
    requires |parts| >= 1
    ensures Join(sep, parts + [p]) == Join(sep, parts) + sep + p
  {
    if |parts| > 1 {
      JoinSnoc(sep, parts[1..], p);
      assert (parts + [p])[1..] == parts[1..] + [p];
    }
  }

  /** A join starts with its first piece. */
  lemma JoinStartsWith(sep: string, parts: seq<string>)
    requires |parts| >= 1
    ensures StartsWith(Join(sep, parts), parts[0])
  {
    if |parts| > 1 {
      assert (parts[0] + sep + Join(sep, parts[1..]))[..|parts[0]|] == parts[0];
    }
  }

  /** A join ends with its last piece. */
  lemma {:induction false} JoinEndsWith(sep: string, parts: seq<string>)
    requires |parts| >= 1
    ensures EndsWith(Join(sep, parts), parts[|parts| - 1])
  {
    if |parts| > 1 {
      JoinEndsWith(sep, parts[1..]);
      var tail := Join(sep, parts[1..]);
      var whole := parts[0] + sep + tail;
      var last := parts[|parts| - 1];
      assert whole[|whole| - |last|..] == tail[|tail| - |last|..];
    }
  }

  /** Joining the pieces of a split with the separator gives back the string. */
  lemma {:induction false} JoinSplit(s: string, sep: char)
    ensures Join([sep], Split(s, sep)) == s
  {
    if s != [] {
      var rest := Split(s[1..], sep);
      JoinSplit(s[1..], sep);
      if s[0] != sep {
        if |rest| > 1 {
          assert Join([sep], Split(s, sep)) == [s[0]] + rest[0] + [sep] + Join([sep], rest[1..]);
        }
      }
    }
  }

  /** Splitting a join of separator-free pieces gives back the pieces. */
  lemma {:induction false} SplitJoin(parts: seq<string>, sep: char)
    requires |parts| >= 1
    requires forall k | 0 <= k < |parts| :: sep !in parts[k]
    ensures Split(Join([sep], parts), sep) == parts
  {
    if |parts| == 1 {
      SplitNoSep(parts[0], sep);
    } else {
      SplitJoin(parts[1..], sep);
      SplitPieceThenSep(parts[0], Join([sep], parts[1..]), sep);
      assert Join([sep], parts) == parts[0] + ([sep] + Join([sep], parts[1..]));
      assert [parts[0]] + parts[1..] == parts;
    }
  }

  lemma {:induction false} SplitNoSep(p: string, sep: char)
    requires sep !in p
    ensures Split(p, sep) == [p]
  {
    if p != [] {
      SplitNoSep(p[1..], sep);
      assert [p[0]] + p[1..] == p;
    }
  }

  lemma {:induction false} SplitPieceThenSep(p: string, rest: string, sep: char)
    requires sep !in p
    ensures Split(p + [sep] + rest, sep) == [p] + Split(rest, sep)
  {
    if p == [] {
      assert p + [sep] + rest == [sep] + rest;
      assert ([sep] + rest)[1..] == rest;
    } else {
      SplitPieceThenSep(p[1..], rest, sep);
      assert (p + [sep] + rest)[1..] == p[1..] + [sep] + rest;
      assert [p[0]] + p[1..] == p;
    }
  }

  /** `s.replace(pat, rep)`: every non-overlapping occurrence, left to right. */
  function ReplaceAll(s: string, pat: string, rep: string): string
    decreases |s|, |pat|
  {
    if pat == [] then
      (if s == [] then rep else rep + [s[0]] + ReplaceAll(s[1..], pat, rep))
    else if StartsWith(s, pat) then rep + ReplaceAll(s[|pat|..], pat, rep)
    else if s == [] then []
    else [s[0]] + ReplaceAll(s[1..], pat, rep)
  }

  /** Removing a pattern that neither starts nor ends with whitespace from a
      string with a whitespace tail leaves that tail in place. */
  lemma {:induction false} ReplaceAllBlank(w: string, pat: string)
    requires IsBlank(w) && pat != [] && !IsSpace(pat[0])
    ensures ReplaceAll(w, pat, "") == w
    decreases |w|
  {
    if w != [] {
      ReplaceAllBlank(w[1..], pat);
      assert [w[0]] + w[1..] == w;
    }
  }

  lemma {:induction false} ReplaceAllBlankSuffix(t: string, w: string, pat: string)
    requires IsBlank(w) && pat != [] && !IsSpace(pat[0]) && !IsSpace(pat[|pat| - 1])
    ensures ReplaceAll(t + w, pat, "") == ReplaceAll(t, pat, "") + w
    decreases |t|
  {
    if t == [] {
      assert t + w == w;
      ReplaceAllBlank(w, pat);
    } else if StartsWith(t + w, pat) {
      if |t| < |pat| {
        assert false;
      }
      assert (t + w)[..|pat|] == t[..|pat|];
      assert (t + w)[|pat|..] == t[|pat|..] + w;
      ReplaceAllBlankSuffix(t[|pat|..], w, pat);
    } else {
      assert (t + w)[1..] == t[1..] + w;
      ReplaceAllBlankSuffix(t[1..], w, pat);
    }
  }

  lemma {:induction false} TrailingSpacesAppendBlank(x: string, w: string)
    requires IsBlank(w)
    ensures TrailingSpaces(x + w) == TrailingSpaces(x) + |w|
    decreases |w|
  {
    if w == [] {
      assert x + w == x;
    } else {
      assert (x + w)[..|x + w| - 1] == x + w[..|w| - 1];
      TrailingSpacesAppendBlank(x, w[..|w| - 1]);
    }
  }

  lemma {:induction false} LeadingSpacesAppend(x: string, w: string)
    requires !IsBlank(x)
    ensures LeadingSpaces(x + w) == LeadingSpaces(x)
    decreases |x|
  {
    if IsSpace(x[0]) {
      assert (x + w)[1..] == x[1..] + w;
      LeadingSpacesAppend(x[1..], w);
    }
  }

  /** Whitespace appended to a string does not survive `strip`. */
  lemma StripAppendBlank(x: string, w: string)
    requires IsBlank(w)
    ensures Strip(x + w) == Strip(x)
  {
    if IsBlank(x) {
      assert IsBlank(x + w);
    } else {
      LeadingSpacesAppend(x, w);
      var l := LeadingSpaces(x);
      assert (x + w)[l..] == x[l..] + w;
      TrailingSpacesAppendBlank(x[l..], w);
    }
  }

  /** A string opening with a non-space is its strip followed by whitespace,
      and every non-space of it lies inside the strip. */
  lemma StripUnpadded(p: string)
    requires p != [] && !IsSpace(p[0])
    ensures |Strip(p)| <= |p| && Strip(p) == p[..|Strip(p)|] && IsBlank(p[|Strip(p)|..])
    ensures forall k | 0 <= k < |p| && !IsSpace(p[k]) :: k < |Strip(p)|
  {
    TrailingSpacesAreSpaces(p);
    assert LStrip(p) == p;
  }

  /** Stripping a payload that opens with a pattern bounded by non-spaces
      keeps the pattern at the front and does not change what is left after
      removing the pattern and stripping. */
  lemma StripKeepsMarker(p: string, pat: string)
    requires pat != [] && !IsSpace(pat[0]) && !IsSpace(pat[|pat| - 1]) && StartsWith(p, pat)
    ensures StartsWith(Strip(p), pat)
    ensures Strip(ReplaceAll(Strip(p), pat, "")) == Strip(ReplaceAll(p, pat, ""))
  {
    assert p[0] == pat[0];
    StripUnpadded(p);
    assert p[|pat| - 1] == pat[|pat| - 1];
    var t := Strip(p);
    var w := p[|t|..];
    assert p == t + w;
    ReplaceAllBlankSuffix(t, w, pat);
    StripAppendBlank(ReplaceAll(t, pat, ""), w);
  }

  /** Every non-space character of a string survives `strip`. */
  lemma StripKeepsNonSpace(s: string, i: int)
    requires 0 <= i < |s| && !IsSpace(s[i])
    ensures s[i] in Strip(s)
  {
    LeadingSpacesAreSpaces(s);
    var l := LStrip(s);
    var a := LeadingSpaces(s);
    assert l[i - a] == s[i];
    TrailingSpacesAreSpaces(l);
    assert Strip(s)[i - a] == s[i];
  }

  /** Every character other than the separator lands in one of the pieces
      of `split`. */
  lemma {:induction false} SplitCovers(s: string, sep: char, i: int)
    requires 0 <= i < |s| && s[i] != sep
    ensures exists k | 0 <= k < |Split(s, sep)| :: s[i] in Split(s, sep)[k]
  {
    var parts := Split(s, sep);
    var rest := Split(s[1..], sep);
    if i == 0 {
      assert s[0] == parts[0][0];
    } else {
      SplitCovers(s[1..], sep, i - 1);
      var k :| 0 <= k < |rest| && s[1..][i - 1] in rest[k];
      if s[0] == sep {
        assert parts[k + 1] == rest[k];
      } else if k == 0 {
        assert parts[0] == [s[0]] + rest[0];
      } else {
        assert parts[k] == rest[k];
      }
    }
  }

  /** `s[:k]` for any integer `k`, negative ones counting from the end (strings
      and lists alike). */
  function PyPrefix<T>(s: seq<T>, k: int): (r: seq<T>)
    ensures |r| <= |s| && r == s[..|r|]
    ensures k >= 0 ==> |r| == if k <= |s| then k else |s|
  {
    if k >= 0 then (if k <= |s| then s[..k] else s)
    else if |s| + k >= 0 then s[..|s| + k] else []
  }

  predicate IsDigit(c: char) {
    '0' <= c <= '9'
  }

  predicate AllDigits(s: string) {
    forall i | 0 <= i < |s| :: IsDigit(s[i])
  }

  predicate IsAsciiLetter(c: char) {
    ('a' <= c <= 'z') || ('A' <= c <= 'Z')
  }

  /** `c.lower()` on an ASCII letter. */
  function LowerAscii(c: char): (r: char)
    requires IsAsciiLetter(c)
    ensures 'a' <= r <= 'z'
  {
    if 'A' <= c <= 'Z' then (c as int - 'A' as int + 'a' as int) as char else c
  }

  /** A character the class `[a-z]` matches under `re.IGNORECASE`: the 52
      ASCII letters and the four other letters whose case folding reaches one
      of them, U+0130 (capital I with dot above), U+0131 (dotless i), U+017F
      (long s) and U+212A (Kelvin sign). */
  predicate IsIgnoreCaseLetter(c: char) {
    IsAsciiLetter(c) || c == '\U{0130}' || c == '\U{0131}' || c == '\U{017F}' || c == '\U{212A}'
  }

  /** `c.lower()` on such a character, as code points: U+0130 lowers to `i`
      followed by U+0307 (combining dot above), the Kelvin sign to `k`, and
      U+0131 and U+017F are already lower case. */
  function LowerLetter(c: char): seq<int>
    requires IsIgnoreCaseLetter(c)
  {
    if IsAsciiLetter(c) then [LowerAscii(c) as int]
    else if c == '\U{0130}' then ['i' as int, 0x0307]
    else if c == '\U{212A}' then ['k' as int]
    else [c as int]
  }

  function DigitChar(d: nat): (c: char)
    requires d < 10
    ensures IsDigit(c)
  {
    ('0' as int + d) as char
  }

  /** `str(n)` for a natural number. */
  function NatToString(n: nat): (s: string)
    ensures |s| >= 1 && AllDigits(s)
  {
    if n < 10 then [DigitChar(n)] else NatToString(n / 10) + [DigitChar(n % 10)]
  }

  /** `str(i)` for any integer. */
  function IntToString(i: int): (s: string)
    ensures |s| >= 1
  {
    if i < 0 then "-" + NatToString(-i) else NatToString(i)
  }

  /** The value of a string of decimal digits. */
  function DigitsValue(s: string): nat
    requires AllDigits(s)
  {
    if s == [] then 0 else DigitsValue(s[..|s| - 1]) * 10 + (s[|s| - 1] as int - '0' as int)
  }

  /** `int(s)`: optional surrounding whitespace, an optional sign, then one or
      more decimal digits; anything else raises, modelled as `None`. */
  function ParseInt(s: string): (r: Option<int>)
  {
    var t := Strip(s);
    if t == [] then None
    else
      var negative := t[0] == '-';
      var digits := if t[0] == '-' || t[0] == '+' then t[1..] else t;
      if digits != [] && AllDigits(digits) then
        var magnitude: int := DigitsValue(digits);
        Some(if negative then -magnitude else magnitude)
      else None
  }

  /** `int` strips its argument itself, so stripping first changes nothing. */
  lemma ParseIntOfStripped(s: string)
    ensures ParseInt(Strip(s)) == ParseInt(s)
  {
    StripIdempotent(s);
  }

  lemma {:induction false} DigitsValueOfNatToString(n: nat)
    ensures DigitsValue(NatToString(n)) == n
  {
    if n >= 10 {
      DigitsValueOfNatToString(n / 10);
      var s := NatToString(n / 10) + [DigitChar(n % 10)];
      assert s[..|s| - 1] == NatToString(n / 10);
    }
  }

  /** `int(str(i)) == i`: rendering an integer and parsing it back is the identity. */
  lemma ParseIntOfIntToString(i: int)
    ensures ParseInt(IntToString(i)) == Some(i)
  {
    var s := IntToString(i);
    var d := NatToString(if i < 0 then -i else i);
    assert d[0] != '-' && d[0] != '+' && !IsSpace(d[0]);
    assert !IsSpace(s[|s| - 1]) by { assert s[|s| - 1] == d[|d| - 1]; }
    StripOfStripped(s);
    DigitsValueOfNatToString(if i < 0 then -i else i);
    if i < 0 {
      assert s[1..] == d;
    }
  }

  /** Different integers render differently. */
  lemma IntToStringInjective(i: int, j: int)
    requires i != j
    ensures IntToString(i) != IntToString(j)
  {
    ParseIntOfIntToString(i);
    ParseIntOfIntToString(j);
  }
}
