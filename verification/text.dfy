/** Character and string facts the source gets from Rust's standard
    library: `char::is_ascii_digit`, the ordering of `String`,
    `u32::to_string` and `str::parse::<u32>`. */
module Text {
  import opened Basics

  /** `char::is_ascii_digit`: exactly '0' ..= '9'. */
  predicate IsAsciiDigit(c: char)
  {
    '0' <= c <= '9'
  }

  predicate AllDigits(s: string)
  {
    forall i :: 0 <= i < |s| ==> IsAsciiDigit(s[i])
  }

  // ---------------------------------------------------------------------
  // The ordering of `String` (`Ord for str`): lexicographic on the UTF-8
  // bytes, which is the same as lexicographic on code points.
  // ---------------------------------------------------------------------

  predicate StrLe(a: string, b: string)
    decreases |a|
  {
    |a| == 0 || (|b| > 0 && (a[0] < b[0] || (a[0] == b[0] && StrLe(a[1..], b[1..]))))
  }

  lemma {:induction false} StrLeReflexive(a: string)
    ensures StrLe(a, a)
    decreases |a|
  {
    if |a| > 0 {
      StrLeReflexive(a[1..]);
    }
  }

  lemma {:induction false} StrLeTotal(a: string, b: string)
    ensures StrLe(a, b) || StrLe(b, a)
    decreases |a|
  {
    if |a| > 0 && |b| > 0 && a[0] == b[0] {
      StrLeTotal(a[1..], b[1..]);
    }
  }

  lemma {:induction false} StrLeAntisymmetric(a: string, b: string)
    requires StrLe(a, b) && StrLe(b, a)
    ensures a == b
    decreases |a|
  {
    if |a| > 0 {
      StrLeAntisymmetric(a[1..], b[1..]);
      assert a == [a[0]] + a[1..];
      assert b == [b[0]] + b[1..];
    }
  }

  lemma {:induction false} StrLeTransitive(a: string, b: string, c: string)
    requires StrLe(a, b) && StrLe(b, c)
    ensures StrLe(a, c)
    decreases |a|
  {
    if |a| > 0 && a[0] == b[0] && b[0] == c[0] {
      StrLeTransitive(a[1..], b[1..], c[1..]);
    }
  }

  // ---------------------------------------------------------------------
  // Decimal text of an unsigned integer.
  // ---------------------------------------------------------------------

  function DigitValue(c: char): (d: nat)
    requires IsAsciiDigit(c)
    ensures d < 10
  {
    (c as int) - ('0' as int)
  }

  function DigitChar(d: nat): (c: char)
    requires d < 10
    ensures IsAsciiDigit(c) && DigitValue(c) == d
  {
    (('0' as int) + d) as char
  }

  /** The number a string of decimal digits denotes (most significant first). */
  function DecimalValue(s: string): nat
    requires AllDigits(s)
    decreases |s|
  {
    if s == [] then 0
    else 10 * DecimalValue(s[..|s| - 1]) + DigitValue(s[|s| - 1])
  }

  /** Every string of at most `k` digits denotes a number below 10^k. */
  lemma {:induction false} DecimalValueBound(s: string, k: nat)
    requires AllDigits(s) && |s| <= k
    ensures DecimalValue(s) < Pow10(k)
    decreases |s|
  {
    if s != [] {
      DecimalValueBound(s[..|s| - 1], k - 1);
      assert Pow10(k) == 10 * Pow10(k - 1);
    }
  }

  function Pow10(k: nat): (r: nat)
    ensures r >= 1
  {
    if k == 0 then 1 else 10 * Pow10(k - 1)
  }

  /** `u32::to_string`: shortest decimal text, no sign, no leading zero. */
  function ToDecimal(n: nat): (s: string)
    ensures |s| >= 1 && AllDigits(s)
    ensures |s| > 1 ==> s[0] != '0'
    decreases n
  {
    if n < 10 then [DigitChar(n)] else ToDecimal(n / 10) + [DigitChar(n % 10)]
  }

  lemma {:induction false} DecimalValueOfToDecimal(n: nat)
    ensures DecimalValue(ToDecimal(n)) == n
    decreases n
  {
    if n >= 10 {
      DecimalValueOfToDecimal(n / 10);
      var s := ToDecimal(n);
      assert s[..|s| - 1] == ToDecimal(n / 10);
    }
  }

  /** `str::parse::<u32>`: an optional leading '+', then at least one ASCII
      digit and nothing else; values that do not fit in 32 bits fail. */
  function ParseU32(s: string): (r: Option<u32>)
    ensures r.Some? ==> |s| >= 1
    ensures r.Some? && AllDigits(s) ==> r.value == DecimalValue(s)
    ensures r.None? && AllDigits(s) && |s| >= 1 ==> DecimalValue(s) >= 0x1_0000_0000
    ensures r.Some? ==> AllDigits(s) || (s[0] == '+' && AllDigits(s[1..]))
    ensures |s| >= 1 && s[0] == '+' && AllDigits(s[1..]) ==> r == ParseU32(s[1..])
  {
    var digits := if |s| > 0 && s[0] == '+' then s[1..] else s;
    if |digits| == 0 || !AllDigits(digits) then None
    else if DecimalValue(digits) < 0x1_0000_0000 then Some(DecimalValue(digits))
    else None
  }

  /** Rendering a pid with `to_string` and parsing it back gives the pid:
      the text the PID combo box shows is a valid PID input. */
  lemma ParseToDecimalRoundTrip(n: u32)
    ensures ParseU32(ToDecimal(n)) == Some(n)
  {
    DecimalValueOfToDecimal(n);
  }

  /** A non-empty digit string of at most six characters always parses. */
  lemma ParseShortDigits(s: string)
    requires AllDigits(s) && 1 <= |s| <= 6
    ensures ParseU32(s) == Some(DecimalValue(s))
    ensures DecimalValue(s) < 1_000_000
  {
    DecimalValueBound(s, 6);
    assert Pow10(6) == 1_000_000;
  }
}
