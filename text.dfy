/**
  String helpers that the monitor's messages and its log mirror rely on:
  decimal rendering of numbers (Python's `str` of an int and `:.1f` of a
  value held in tenths) and `str.replace(pattern, "")`.
 */
module Text {

  /** The escape character that opens every ANSI colour code. */
  const Esc: char := '\U{1B}'

  predicate IsDigit(c: char) {
    '0' <= c <= '9'
  }

  function DigitChar(d: nat): (c: char)
    requires d < 10
    ensures IsDigit(c) && (c as int) - ('0' as int) == d
  {
    ('0' as int + d) as char
  }

  function DigitValue(c: char): nat
    requires IsDigit(c)
  {
    (c as int) - ('0' as int)
  }

  /** Decimal digits of `n`, most significant first, without leading zeros. */
  function NatToString(n: nat): (s: string)
    ensures 0 < |s|
    ensures forall k :: 0 <= k < |s| ==> IsDigit(s[k])
    ensures |s| > 1 ==> s[0] != '0'
    decreases n
  {
    if n < 10 then [DigitChar(n)] else NatToString(n / 10) + [DigitChar(n % 10)]
  }

  /** The number a string of decimal digits denotes. */
  function DecimalValue(s: string): nat
    requires forall k :: 0 <= k < |s| ==> IsDigit(s[k])
  {
    if s == [] then 0 else 10 * DecimalValue(s[..|s| - 1]) + DigitValue(s[|s| - 1])
  }

  /** Reading the rendered digits back gives the number: the rendering loses nothing. */
  lemma {:induction false} NatToStringRoundTrip(n: nat)
    ensures DecimalValue(NatToString(n)) == n
    decreases n
  {
    var s := NatToString(n);
    if n >= 10 {
      NatToStringRoundTrip(n / 10);
      assert s[..|s| - 1] == NatToString(n / 10);
    }
  }

  /**
    Python's `f"{x:.1f}"` of a non-negative reading held as `tenths`
    tenths: the whole part, a point, and the tenths digit.
   */
  function Tenths(tenths: nat): string {
    NatToString(tenths / 10) + "." + [DigitChar(tenths % 10)]
  }

  /**
    `Tenths` writes the whole part in decimal, a point, then one digit for
    the tenths, so reading the digits back gives the number again.
   */
  lemma TenthsFormat(tenths: nat)
    ensures var s := Tenths(tenths);
      && |s| >= 3 && s[|s| - 2] == '.'
      && (forall k :: 0 <= k < |s| - 2 ==> IsDigit(s[k]))
      && IsDigit(s[|s| - 1])
      && DecimalValue(s[..|s| - 2]) == tenths / 10
      && DigitValue(s[|s| - 1]) == tenths % 10
  {
    NatToStringRoundTrip(tenths / 10);
    var whole := NatToString(tenths / 10);
    var s := Tenths(tenths);
    assert s[..|s| - 2] == whole;
  }

  predicate NoEsc(s: string) {
    forall k :: 0 <= k < |s| ==> s[k] != Esc
  }

  lemma NatToStringNoEsc(n: nat)
    ensures NoEsc(NatToString(n))
  {
  }

  /** Joining two texts without escape characters gives one without. */
  lemma NoEscJoin(a: string, b: string)
    requires NoEsc(a) && NoEsc(b)
    ensures NoEsc(a + b)
  {
    forall k | 0 <= k < |a + b|
      ensures (a + b)[k] != Esc
    {
      if k < |a| {
        assert (a + b)[k] == a[k];
      } else {
        assert (a + b)[k] == b[k - |a|];
      }
    }
  }

  /** A formatted reading is digits and a point, with no escape character. */
  lemma TenthsNoEsc(tenths: nat)
    ensures NoEsc(Tenths(tenths))
  {
    TenthsFormat(tenths);
    var s := Tenths(tenths);
    forall k | 0 <= k < |s|
      ensures s[k] != Esc
    {
      if k < |s| - 2 {
        assert IsDigit(s[k]);
      } else if k == |s| - 2 {
        assert s[k] == '.';
      } else {
        assert IsDigit(s[k]);
      }
    }
  }

  /**
    `s.replace(pattern, "")`: scans `s` from the left and deletes each
    occurrence of `pattern`, resuming the scan after the deleted text, so
    occurrences never overlap and text joined by a deletion is not rescanned.
   */
  function RemoveAll(s: string, pattern: string): (r: string)
    requires |pattern| > 0
    ensures |r| <= |s|
    decreases |s|
  {
    if |s| < |pattern| then s
    else if s[..|pattern|] == pattern then RemoveAll(s[|pattern|..], pattern)
    else [s[0]] + RemoveAll(s[1..], pattern)
  }

  /** Text that cannot start an occurrence passes through unchanged. */
  lemma {:induction false} RemoveAllKeepsPlainPrefix(a: string, b: string, pattern: string)
    requires |pattern| > 0
    requires forall k :: 0 <= k < |a| ==> a[k] != pattern[0]
    ensures RemoveAll(a + b, pattern) == a + RemoveAll(b, pattern)
    decreases |a|
  {
    var s := a + b;
    if a == [] {
      assert s == b;
    } else if |s| < |pattern| {
      assert RemoveAll(b, pattern) == b;
    } else {
      assert s[..|pattern|] != pattern by {
        assert s[..|pattern|][0] == a[0];
      }
      RemoveAllSkipsOne(s, pattern);
      assert s[1..] == a[1..] + b;
      RemoveAllKeepsPlainPrefix(a[1..], b, pattern);
      var rest := RemoveAll(b, pattern);
      assert [s[0]] + (a[1..] + rest) == ([a[0]] + a[1..]) + rest;
      assert [a[0]] + a[1..] == a;
    }
  }

  /** A string without the pattern's first character is left as it is. */
  lemma RemoveAllNoOccurrence(s: string, pattern: string)
    requires |pattern| > 0
    requires forall k :: 0 <= k < |s| ==> s[k] != pattern[0]
    ensures RemoveAll(s, pattern) == s
  {
    RemoveAllKeepsPlainPrefix(s, [], pattern);
    assert s + [] == s;
  }

  /** An occurrence at the front is deleted and the scan resumes after it. */
  lemma RemoveAllDropsLeading(pattern: string, b: string)
    requires |pattern| > 0
    ensures RemoveAll(pattern + b, pattern) == RemoveAll(b, pattern)
  {
    assert (pattern + b)[..|pattern|] == pattern;
    assert (pattern + b)[|pattern|..] == b;
  }

  /** Where no occurrence starts, the first character is kept and the scan moves on. */
  lemma RemoveAllSkipsOne(s: string, pattern: string)
    requires |pattern| > 0 && |s| >= |pattern| && s[..|pattern|] != pattern
    ensures RemoveAll(s, pattern) == [s[0]] + RemoveAll(s[1..], pattern)
  {
  }

  /**
    A prefix `c` that differs from the pattern within their common length,
    and holds the pattern's first character only at its front, is kept.
   */
  lemma RemoveAllKeepsOtherLeading(c: string, b: string, pattern: string, at: nat)
    requires |pattern| > 0 && |c| > 0
    requires at < |c| && at < |pattern| && c[at] != pattern[at]
    requires forall k :: 1 <= k < |c| ==> c[k] != pattern[0]
    ensures RemoveAll(c + b, pattern) == c + RemoveAll(b, pattern)
  {
    var s := c + b;
    if |s| < |pattern| {
      assert RemoveAll(b, pattern) == b;
    } else {
      var tail := c[1..];
      assert s[..|pattern|] != pattern by {
        assert s[..|pattern|][at] == c[at];
      }
      RemoveAllSkipsOne(s, pattern);
      assert s[1..] == tail + b;
      RemoveAllKeepsPlainPrefix(tail, b, pattern);
      var rest := RemoveAll(b, pattern);
      assert [s[0]] + (tail + rest) == ([s[0]] + tail) + rest;
      assert [s[0]] + tail == c;
    }
  }
}
