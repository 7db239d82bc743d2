/**
 * The PHP string built-ins the core relies on: integer to decimal text
 * (string interpolation of an `int`), `trim`, `implode` and `strtok`.
 * A PHP string is a byte string; here it is a `string` whose characters
 * stand for its bytes.
 */
module Strings {
  import opened Wrappers

  predicate IsDigit(c: char) {
    '0' <= c <= '9'
  }

  function DigitChar(d: nat): (c: char)
    requires d < 10
    ensures IsDigit(c) && (c as int) - ('0' as int) == d
  {
    (('0' as int) + d) as char
  }

  /** The decimal rendering of a natural number, with no leading zero. */
  function NatToString(n: nat): (s: string)
    ensures |s| > 0 && (forall i | 0 <= i < |s| :: IsDigit(s[i]))
    ensures |s| > 1 ==> s[0] != '0'
    decreases n
  {
    if n < 10 then [DigitChar(n)] else NatToString(n / 10) + [DigitChar(n % 10)]
  }

  /**
   * PHP's conversion of an `int` to a string: a minus sign exactly for a negative number, then
   * its canonical decimal digits (no leading zero, see `IntToStringCanonical`).
   */
  function IntToString(n: int): (s: string)
    ensures |s| > 0 && IsDigit(s[|s| - 1])
    ensures n < 0 <==> s[0] == '-'
  {
    if n < 0 then "-" + NatToString(-n) else NatToString(n)
  }

  /** After the optional sign come the canonical digits: at least one, and no leading zero. */
  lemma IntToStringCanonical(n: int)
    ensures var s := IntToString(n);
      var digits := if n < 0 then s[1..] else s;
      && |digits| > 0
      && (forall i | 0 <= i < |digits| :: IsDigit(digits[i]))
      && (|digits| > 1 ==> digits[0] != '0')
  {
    if n < 0 {
      assert IntToString(n)[1..] == NatToString(-n);
    }
  }

  function DigitValue(c: char): nat
    requires IsDigit(c)
  {
    (c as int) - ('0' as int)
  }

  /** The value of a sequence of decimal digits. */
  function DigitsValue(s: string): nat
    requires forall i | 0 <= i < |s| :: IsDigit(s[i])
  {
    if s == [] then 0 else DigitsValue(s[..|s| - 1]) * 10 + DigitValue(s[|s| - 1])
  }

  /** Reads back an optionally signed, non-empty decimal numeral. */
  function ParseInt(s: string): Option<int> {
    if |s| > 1 && s[0] == '-' && (forall i | 1 <= i < |s| :: IsDigit(s[i])) then
      var v := DigitsValue(s[1..]) as int;
      Some(-v)
    else if |s| > 0 && (forall i | 0 <= i < |s| :: IsDigit(s[i])) then
      Some(DigitsValue(s))
    else
      None
  }

  lemma {:induction false} NatToStringRoundTrip(n: nat)
    ensures DigitsValue(NatToString(n)) == n
    decreases n
  {
    if n >= 10 {
      var s := NatToString(n);
      NatToStringRoundTrip(n / 10);
      assert s[..|s| - 1] == NatToString(n / 10);
    }
  }

  /** Reading back the decimal rendering of an integer gives the integer. */
  lemma {:induction false} IntToStringRoundTrip(n: int)
    ensures ParseInt(IntToString(n)) == Some(n)
  {
    var s := IntToString(n);
    if n < 0 {
      var t := NatToString(-n);
      assert s[1..] == t;
      assert forall i | 1 <= i < |s| :: IsDigit(s[i]) by {
        forall i | 1 <= i < |s| ensures IsDigit(s[i]) {
          assert s[i] == t[i - 1];
        }
      }
      NatToStringRoundTrip(-n);
    } else {
      assert IsDigit(s[0]);
      NatToStringRoundTrip(n);
    }
  }

  /** Two integers with the same rendering are equal. */
  lemma IntToStringInjective(m: int, n: int)
    ensures IntToString(m) == IntToString(n) <==> m == n
  {
    if IntToString(m) == IntToString(n) {
      IntToStringRoundTrip(m);
      IntToStringRoundTrip(n);
    }
  }

  /** The characters PHP's `trim` strips by default: " \t\n\r\0\x0B". */
  predicate IsTrimmed(c: char) {
    c == ' ' || c == '\t' || c == '\n' || c == '\r' || c == '\0' || c == '\U{0B}'
  }

  /** The index of the first character of `s` at or after `i` that is not a blank (or `|s|`). */
  function FirstKept(s: string, i: nat): (j: nat)
    requires i <= |s|
    ensures i <= j <= |s|
    ensures forall k | i <= k < j :: IsTrimmed(s[k])
    ensures j == |s| || !IsTrimmed(s[j])
    decreases |s| - i
  {
    if i < |s| && IsTrimmed(s[i]) then FirstKept(s, i + 1) else i
  }

  function TrimLeft(s: string): (r: string)
    ensures |r| <= |s| && r == s[|s| - |r|..]
    ensures r == [] || !IsTrimmed(r[0])
    ensures forall i | 0 <= i < |s| - |r| :: IsTrimmed(s[i])
  {
    s[FirstKept(s, 0)..]
  }

  function TrimRight(s: string): (r: string)
    ensures |r| <= |s| && r == s[..|r|]
    ensures r == [] || !IsTrimmed(r[|r| - 1])
    ensures forall i | |r| <= i < |s| :: IsTrimmed(s[i])
  {
    if s != [] && IsTrimmed(s[|s| - 1]) then TrimRight(s[..|s| - 1]) else s
  }

  /**
   * PHP's `trim` with its default character list: the result is the middle of `s` left once
   * the blanks at both ends are gone. Neither end of it is a blank, and it is empty exactly
   * when `s` is all blanks.
   */
  function Trim(s: string): (r: string)
    ensures |r| <= |s|
    ensures r == [] || (!IsTrimmed(r[0]) && !IsTrimmed(r[|r| - 1]))
    ensures r == [] <==> forall i | 0 <= i < |s| :: IsTrimmed(s[i])
    ensures var i := |s| - |TrimLeft(s)|;
      && i + |r| <= |s|
      && (forall k | 0 <= k < |r| :: r[k] == s[i + k])
      && (forall k | 0 <= k < i :: IsTrimmed(s[k]))
      && (forall k | i + |r| <= k < |s| :: IsTrimmed(s[k]))
  {
    TrimMiddle(s);
    TrimRight(TrimLeft(s))
  }

  /** Trimming the left, then the right end, leaves a run of `s` with only blanks around it. */
  lemma TrimMiddle(s: string)
    ensures var t := TrimLeft(s);
      var r := TrimRight(t);
      var i := |s| - |t|;
      && i + |r| <= |s|
      && (forall k | 0 <= k < |r| :: r[k] == s[i + k])
      && (forall k | i + |r| <= k < |s| :: IsTrimmed(s[k]))
  {
    var t := TrimLeft(s);
    PrefixOfSuffix(s, t, TrimRight(t));
  }

  /**
   * A prefix `r` of the suffix `t` of `s`, with only blanks after it in `t`, is the run of `s`
   * from `|s| - |t|` with only blanks after it in `s`.
   */
  lemma PrefixOfSuffix(s: string, t: string, r: string)
    requires |t| <= |s| && t == s[|s| - |t|..]
    requires |r| <= |t| && r == t[..|r|]
    requires forall k | |r| <= k < |t| :: IsTrimmed(t[k])
    ensures var i := |s| - |t|;
      && i + |r| <= |s|
      && (forall k | 0 <= k < |r| :: r[k] == s[i + k])
      && (forall k | i + |r| <= k < |s| :: IsTrimmed(s[k]))
  {
    var i := |s| - |t|;
    forall k | i + |r| <= k < |s|
      ensures IsTrimmed(s[k])
    {
      assert s[k] == t[k - i];
    }
  }

  /** Trimming the right end of a concatenation only reaches into `a` when `b` trims to nothing. */
  lemma {:induction false} TrimRightConcat(a: string, b: string)
    ensures TrimRight(a + b) == if TrimRight(b) == [] then TrimRight(a) else a + TrimRight(b)
    decreases |b|
  {
    if b == [] {
      assert a + b == a;
    } else if IsTrimmed(b[|b| - 1]) {
      assert (a + b)[..|a + b| - 1] == a + b[..|b| - 1];
      TrimRightConcat(a, b[..|b| - 1]);
    }
  }

  /** PHP's `implode(sep, parts)`. */
  function Implode(sep: string, parts: seq<string>): string {
    if parts == [] then ""
    else if |parts| == 1 then parts[0]
    else parts[0] + sep + Implode(sep, parts[1..])
  }

  /** The first index at or after `i` that does not hold the delimiter `d` (or `|s|`). */
  function SkipFrom(s: string, d: char, i: nat): (j: nat)
    requires i <= |s|
    ensures i <= j <= |s|
    ensures forall k | i <= k < j :: s[k] == d
    ensures j == |s| || s[j] != d
    decreases |s| - i
  {
    if i < |s| && s[i] == d then SkipFrom(s, d, i + 1) else i
  }

  /** The first index at or after `i` that holds the delimiter `d` (or `|s|`). */
  function RunEnd(s: string, d: char, i: nat): (j: nat)
    requires i <= |s|
    ensures i <= j <= |s|
    ensures forall k | i <= k < j :: s[k] != d
    ensures j == |s| || s[j] == d
    decreases |s| - i
  {
    if i < |s| && s[i] != d then RunEnd(s, d, i + 1) else i
  }

  /**
   * The first token of PHP's `strtok(s, d)`: leading delimiters are skipped, the token runs
   * up to the next delimiter; `false` (here `None`) when nothing but delimiters is left.
   * So it fails exactly on a string made only of delimiters; otherwise its token is non-empty
   * and delimiter-free, and it is the first delimiter-free run of `s`: it starts after the
   * leading delimiters and ends at the next delimiter or at the end. For a string not starting
   * with the delimiter that is the prefix before the first delimiter (the whole string when
   * there is none).
   */
  function StrTok(s: string, d: char): (r: Option<string>)
    ensures r.None? <==> forall i | 0 <= i < |s| :: s[i] == d
    ensures r.Some? ==> 0 < |r.value| <= |s| && d !in r.value
    ensures r.Some? ==>
      var i := SkipFrom(s, d, 0);
      && (forall k | 0 <= k < i :: s[k] == d)
      && i + |r.value| <= |s|
      && r.value == s[i..i + |r.value|]
      && (i + |r.value| == |s| || s[i + |r.value|] == d)
    ensures |s| > 0 && s[0] != d ==>
      r.Some? && r.value == s[..|r.value|] && (|r.value| == |s| || s[|r.value|] == d)
  {
    var i := SkipFrom(s, d, 0);
    if i == |s| then
      None
    else
      var t := s[i..RunEnd(s, d, i)];
      assert t[0] == s[i];
      Some(t)
  }

  /** `strtok` on `p` or on `p`, the delimiter and more, gives `p` when `p` is a non-empty delimiter-free string. */
  lemma StrTokPrefix(s: string, d: char, p: string, more: string)
    requires |p| > 0 && d !in p
    requires s == p || s == p + [d] + more
    ensures StrTok(s, d) == Some(p)
  {
    assert s[0] == p[0];
    assert s[..|p|] == p;
    forall k | 0 <= k < |p|
      ensures s[k] != d
    {
      assert s[k] == p[k];
    }
    assert |p| < |s| ==> s[|p|] == d;
  }
}
