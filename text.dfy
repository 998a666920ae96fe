/** The parts of JavaScript's string library the charts rely on:
    `String.prototype.includes`, `trim`, `split(c)[0]`, `padStart`, and
    `Number.prototype.toString` on integers, together with a decimal reader
    used to state what the formatted text says. */
module Text {

  /** `s.includes(sub)`. */
  predicate Contains(s: string, sub: string) {
    exists i | 0 <= i <= |s| - |sub| :: OccursAt(s, sub, i)
  }

  /** `sub` appears in `s` starting at index `i`. */
  predicate OccursAt(s: string, sub: string, i: int) {
    0 <= i && i + |sub| <= |s| && s[i..i + |sub|] == sub
  }

  /** A text containing `u + v` contains `u`. */
  lemma ContainsPrefix(s: string, u: string, v: string)
    requires Contains(s, u + v)
    ensures Contains(s, u)
  {
    var i :| 0 <= i <= |s| - |u + v| && OccursAt(s, u + v, i);
    assert s[i..i + |u|] == (u + v)[..|u|] == u;
    assert OccursAt(s, u, i);
  }

  /** A text that lacks the first character of `sub` does not contain `sub`. */
  lemma FirstCharAbsent(s: string, sub: string)
    requires sub != [] && sub[0] !in s
    ensures !Contains(s, sub)
  {
    forall i | 0 <= i <= |s| - |sub| ensures !OccursAt(s, sub, i) {
      assert s[i] in s;
      assert s[i..i + |sub|][0] == s[i];
    }
  }

  /** A text that holds `sub` at index `i` contains it. */
  lemma OccursAtContains(s: string, sub: string, i: int)
    requires OccursAt(s, sub, i)
    ensures Contains(s, sub)
  {
  }

  /** The code points JavaScript's `trim` removes: WhiteSpace and LineTerminator
      of section 12.2 and 12.3 of ECMA-262. */
  predicate IsWhiteSpace(c: char) {
    || c == '\t' || c == '\n' || c == '\U{000B}' || c == '\U{000C}' || c == '\r'
    || c == ' ' || c == '\U{00A0}' || c == '\U{1680}'
    || ('\U{2000}' <= c <= '\U{200A}')
    || c == '\U{2028}' || c == '\U{2029}' || c == '\U{202F}' || c == '\U{205F}'
    || c == '\U{3000}' || c == '\U{FEFF}'
  }

  /** Every character of `s` is white space. */
  predicate AllWhiteSpace(s: string) {
    forall k | 0 <= k < |s| :: IsWhiteSpace(s[k])
  }

  /** Where the text of `s` starts, looking from `lo`: the first index at or
      after `lo` that does not hold white space, or `|s|`. */
  function TextStart(s: string, lo: nat): (n: nat)
    requires lo <= |s|
    ensures lo <= n <= |s|
    ensures forall k | lo <= k < n :: IsWhiteSpace(s[k])
    ensures n < |s| ==> !IsWhiteSpace(s[n])
    decreases |s| - lo
  {
    if lo < |s| && IsWhiteSpace(s[lo]) then TextStart(s, lo + 1) else lo
  }

  /** Where the text of `s[lo..hi]` ends: the index just past its last
      character that is not white space, or `lo`. */
  function TextEnd(s: string, lo: nat, hi: nat): (n: nat)
    requires lo <= hi <= |s|
    ensures lo <= n <= hi
    ensures forall k | n <= k < hi :: IsWhiteSpace(s[k])
    ensures n > lo ==> !IsWhiteSpace(s[n - 1])
    decreases hi
  {
    if hi > lo && IsWhiteSpace(s[hi - 1]) then TextEnd(s, lo, hi - 1) else hi
  }

  /** `s.trim()`: the slice of `s` left once white space is cut from both ends;
      it starts where the leading white space stops. */
  function Trim(s: string): (r: string)
    ensures var i := TextStart(s, 0);
            && OccursAt(s, r, i)
            && (forall k | 0 <= k < i :: IsWhiteSpace(s[k]))
            && (forall k | i + |r| <= k < |s| :: IsWhiteSpace(s[k]))
    ensures r == [] || (!IsWhiteSpace(r[0]) && !IsWhiteSpace(r[|r| - 1]))
  {
    var i := TextStart(s, 0);
    s[i..TextEnd(s, i, |s|)]
  }

  /** Trimming leaves nothing exactly when the text is all white space. */
  lemma TrimBlank(s: string)
    ensures Trim(s) == [] <==> AllWhiteSpace(s)
  {
    var r, i := Trim(s), TextStart(s, 0);
    assert r != [] ==> r[0] == s[i];
  }

  /** Trimming a prefix `p` of `s` picks out a stretch of `s` itself, with
      only white space around it within `p`. */
  lemma TrimOfPrefix(s: string, p: string)
    requires |p| <= |s| && p == s[..|p|]
    ensures var r, i := Trim(p), TextStart(p, 0);
            && OccursAt(s, r, i) && i + |r| <= |p|
            && (forall k | 0 <= k < i :: IsWhiteSpace(s[k]))
            && (forall k | i + |r| <= k < |p| :: IsWhiteSpace(s[k]))
  {
    var r, i := Trim(p), TextStart(p, 0);
    PrefixKeepsText(s, p, r, i);
    PrefixKeepsWhiteSpace(s, p, 0, i);
    PrefixKeepsWhiteSpace(s, p, i + |r|, |p|);
  }

  /** Text found in a prefix of `s` is found at the same place in `s`. */
  lemma PrefixKeepsText(s: string, p: string, sub: string, i: int)
    requires |p| <= |s| && p == s[..|p|] && OccursAt(p, sub, i)
    ensures OccursAt(s, sub, i) && i + |sub| <= |p|
  {
    assert s[i..i + |sub|] == p[i..i + |sub|];
  }

  /** White space in a stretch of a prefix of `s` is white space in `s`. */
  lemma PrefixKeepsWhiteSpace(s: string, p: string, lo: int, hi: int)
    requires |p| <= |s| && p == s[..|p|] && 0 <= lo && hi <= |p|
    requires forall k | lo <= k < hi :: IsWhiteSpace(p[k])
    ensures forall k | lo <= k < hi :: IsWhiteSpace(s[k])
  {
    assert forall k | lo <= k < hi :: s[k] == p[k];
  }

  /** `s.split(c)[0]`: the text before the first `c`, or all of `s`. */
  function BeforeFirst(s: string, c: char): (r: string)
    ensures |r| <= |s| && r == s[..|r|]
    ensures c !in r
    ensures |r| < |s| ==> s[|r|] == c
  {
    if s == [] || s[0] == c then [] else [s[0]] + BeforeFirst(s[1..], c)
  }

  predicate IsDigit(c: char) { '0' <= c <= '9' }

  predicate IsDigits(s: string) { forall k | 0 <= k < |s| :: IsDigit(s[k]) }

  /** The number a string of decimal digits denotes. */
  function DigitsValue(s: string): nat
    requires IsDigits(s)
  {
    if s == [] then 0
    else 10 * DigitsValue(s[..|s| - 1]) + (s[|s| - 1] as int - '0' as int)
  }

  /** `n.toString()` for a natural number: its shortest decimal numeral. */
  function NatToString(n: nat): (r: string)
    ensures 1 <= |r| && IsDigits(r) && DigitsValue(r) == n
    ensures n < 10 <==> |r| == 1
    ensures 10 <= n < 100 ==> |r| == 2
    ensures |r| > 1 ==> r[0] != '0'
  {
    var d := ['0' + (n % 10) as char];
    if n < 10 then
      assert DigitsValue(d) == 10 * DigitsValue([]) + n % 10;
      d
    else
      var r := NatToString(n / 10) + d;
      assert r[..|r| - 1] == NatToString(n / 10);
      r
  }

  /** `i.toString()` for an integer. */
  function IntToString(i: int): (r: string)
    ensures i >= 0 ==> r == NatToString(i)
    ensures i < 0 ==> r == "-" + NatToString(-i)
  {
    if i < 0 then "-" + NatToString(-i) else NatToString(i)
  }

  /** `s.padStart(width, fill)` for a one-character `fill`: as many copies of
      `fill` in front of `s` as it lacks to reach `width`. */
  function PadStart(s: string, width: nat, fill: char): (r: string)
    ensures |r| == if |s| < width then width else |s|
    ensures r[|r| - |s|..] == s
    ensures forall k | 0 <= k < |r| - |s| :: r[k] == fill
  {
    if |s| < width then seq(width - |s|, _ => fill) + s else s
  }

  /** `Math.trunc`-based remainder `a % b` of JavaScript for a positive divisor:
      its sign follows the dividend, unlike Dafny's `%`. */
  function JsRemainder(a: int, b: int): (r: int)
    requires b > 0
    ensures a >= 0 ==> r == a % b
    ensures a < 0 ==> -b < r <= 0
  {
    if a >= 0 then a % b else -((-a) % b)
  }

  /** The `m:ss` text: the minutes' numeral, a colon, and the seconds' numeral
      padded on the left with `0` to two characters. */
  function ClockText(minutes: int, seconds: int): string {
    IntToString(minutes) + ":" + PadStart(IntToString(seconds), 2, '0')
  }

  /** `r` reads as `m:ss`: a numeral for `minutes`, a colon, and exactly two
      digits denoting `seconds`. */
  predicate ReadsAsClock(r: string, minutes: int, seconds: int) {
    var n := |r|;
    && n >= 4 && r[n - 3] == ':'
    && IsDigits(r[..n - 3]) && DigitsValue(r[..n - 3]) == minutes
    && IsDigits(r[n - 2..]) && DigitsValue(r[n - 2..]) == seconds
  }

  /** For a non-negative minute count and a seconds value below 100, the text
      reads back as the minutes, a colon, and exactly two digits of seconds. */
  lemma ClockTextReadsBack(minutes: nat, seconds: nat)
    requires seconds < 100
    ensures ReadsAsClock(ClockText(minutes, seconds), minutes, seconds)
  {
    var m := NatToString(minutes);
    var sec := PadStart(NatToString(seconds), 2, '0');
    assert |sec| == 2 && IsDigits(sec) && DigitsValue(sec) == seconds by {
      TwoDigits(seconds);
    }
    assert ClockText(minutes, seconds) == m + ":" + sec by {
      assert IntToString(minutes) == m && IntToString(seconds) == NatToString(seconds);
    }
    ClockParts(ClockText(minutes, seconds), m, sec, minutes, seconds);
  }

  /** Numerals for the minutes and, in two digits, the seconds, joined by a
      colon, read back as both. */
  lemma ClockParts(r: string, m: string, sec: string, minutes: int, seconds: int)
    requires r == m + ":" + sec
    requires |m| >= 1 && IsDigits(m) && DigitsValue(m) == minutes
    requires |sec| == 2 && IsDigits(sec) && DigitsValue(sec) == seconds
    ensures ReadsAsClock(r, minutes, seconds)
  {
    assert r[..|m|] == m by {
      assert forall k | 0 <= k < |m| :: r[k] == m[k];
    }
    assert r[|m| + 1..] == sec;
  }

  /** A number below 100, padded to width two, is a two-digit numeral for it. */
  lemma TwoDigits(n: nat)
    requires n < 100
    ensures var p := PadStart(NatToString(n), 2, '0');
            |p| == 2 && IsDigits(p) && DigitsValue(p) == n
  {
    var s := NatToString(n);
    var p := PadStart(s, 2, '0');
    if n < 10 {
      assert p == ['0'] + s;
      assert p[..1] == ['0'];
      assert DigitsValue(p) == 10 * DigitsValue(['0']) + (s[0] as int - '0' as int);
      assert DigitsValue(['0']) == 10 * DigitsValue([]) + 0;
      assert DigitsValue(s) == 10 * DigitsValue([]) + (s[0] as int - '0' as int);
    }
  }
}
