/**
 Reading an id from a text, as cast.ToUint64 does (mdb/curd.go, ValueIDUint64; mdb/gm2c.go,
 queryCacheSearch). The base of a number is taken from its prefix, so a leading zero means base
 eight. 0 stands for "no usable id".
 */
module Casts {
  import opened CacheKeys

  // Texts are parsed as signed 64-bit numbers.
  const PARSE_LIMIT := 0x8000_0000_0000_0000

  /** The value of a digit of any base, 36 for what is none. */
  function DigitOf(c: char): nat {
    if IsDigit(c) then c as int - '0' as int
    else if 'a' <= c <= 'z' then c as int - 'a' as int + 10
    else if 'A' <= c <= 'Z' then c as int - 'A' as int + 10
    else 36
  }

  /** Without a fraction of zeros: "12.00" is "12". */
  function TrimZeroDecimal(s: string): string {
    var t := WithoutTrailingZeros(s);
    if |t| < |s| && t != "" && t[|t| - 1] == '.' then t[..|t| - 1] else s
  }

  function WithoutTrailingZeros(s: string): (t: string)
    ensures t <= s
  {
    if s != "" && s[|s| - 1] == '0' then WithoutTrailingZeros(s[..|s| - 1]) else s
  }

  /** The base a number is written in, its digits, and whether there is a prefix before them. */
  function Prefixed(s: string): (nat, string, bool) {
    if s == "" || s[0] != '0' then (10, s, false)
    else if |s| >= 3 && s[1] in "bB" then (2, s[2..], true)
    else if |s| >= 3 && s[1] in "oO" then (8, s[2..], true)
    else if |s| >= 3 && s[1] in "xX" then (16, s[2..], true)
    else (8, s[1..], true)
  }

  /** Digits of the base; an underscore stands between two of them, or after the prefix. */
  predicate IsNumeral(s: string, base: nat, prefixed: bool) {
    && (s != "" || prefixed)
    && (forall i | 0 <= i < |s| :: s[i] == '_' || DigitOf(s[i]) < base)
    && (forall i | 0 <= i < |s| && s[i] == '_' :: (i > 0 || prefixed) && i + 1 < |s| && s[i + 1] != '_')
  }

  function NumeralValue(s: string, base: nat): nat {
    if s == "" then 0
    else
      var last, front := s[|s| - 1], NumeralValue(s[..|s| - 1], base);
      if last == '_' then front else front * base + DigitOf(last)
  }

  function ToUint64(s: string): nat {
    var t := TrimZeroDecimal(s);
    var (base, digits, prefixed) := Prefixed(if t != "" && t[0] == '+' then t[1..] else t);
    // A negative number is refused, and so is a text that is no number.
    if IsNumeral(digits, base, prefixed) && NumeralValue(digits, base) < PARSE_LIMIT then NumeralValue(digits, base) else 0
  }

  // ---------- Decimal texts ----------

  lemma {:induction false} NoFraction(s: string)
    requires AllDigits(s)
    ensures TrimZeroDecimal(s) == s
  {
    var t := WithoutTrailingZeros(s);
    assert t == "" || t[|t| - 1] == s[|t| - 1];
  }

  lemma {:induction false} DecimalNumeral(d: string)
    requires AllDigits(d)
    ensures NumeralValue(d, 10) == DecimalValue(d)
  {
    if d != "" {
      DecimalNumeral(d[..|d| - 1]);
    }
  }

  /** In base eight the same digits stand for less, unless there is only one that counts. */
  lemma {:induction false} OctalIsLess(d: string)
    requires AllDigits(d) && forall i | 0 <= i < |d| :: DigitOf(d[i]) < 8
    ensures if DecimalValue(d) < 8 then NumeralValue(d, 8) == DecimalValue(d) else NumeralValue(d, 8) < DecimalValue(d)
  {
    if d != "" {
      OctalIsLess(d[..|d| - 1]);
    }
  }

  /** Leading zeros count for nothing. */
  lemma {:induction false} WithoutFirstZero(d: string)
    requires AllDigits(d) && d != "" && d[0] == '0'
    ensures DecimalValue(d[1..]) == DecimalValue(d)
  {
    if |d| > 1 {
      WithoutFirstZero(d[..|d| - 1]);
      assert d[..|d| - 1][1..] == d[1..][..|d| - 2];
    }
  }

  lemma {:induction false} LargeDigit(d: string, i: nat)
    requires AllDigits(d) && i < |d| && DigitOf(d[i]) >= 8
    ensures DecimalValue(d) >= 8
  {
    if i < |d| - 1 {
      LargeDigit(d[..|d| - 1], i);
    }
  }

  lemma CanonicalIsRead(d: string)
    requires AllDigits(d) && Canonical(d) && DecimalValue(d) < PARSE_LIMIT
    ensures ToUint64(d) == DecimalValue(d)
  {
    NoFraction(d);
    if d[0] == '0' {
      assert d == "0" && DecimalValue(d[..0]) == 0;
    } else {
      DecimalNumeral(d);
    }
  }

  lemma ZeroMeansOctal(d: string)
    requires AllDigits(d) && d != "" && !Canonical(d) && DecimalValue(d) < PARSE_LIMIT
    ensures ToUint64(d) == DecimalValue(d) <==> DecimalValue(d) < 8
  {
    NoFraction(d);
    WithoutFirstZero(d);
    var digits := d[1..];
    if i: nat :| i < |digits| && DigitOf(digits[i]) >= 8 {
      LargeDigit(digits, i);
    } else {
      OctalIsLess(digits);
    }
  }

  /** An id written in decimal is read as what it says exactly if it has no leading zeros, or is below eight. */
  lemma WrittenIdReadIff(d: string)
    requires AllDigits(d) && d != "" && DecimalValue(d) < PARSE_LIMIT
    ensures ToUint64(d) == DecimalValue(d) <==> Canonical(d) || DecimalValue(d) < 8
  {
    if Canonical(d) {
      CanonicalIsRead(d);
    } else {
      ZeroMeansOctal(d);
    }
  }

  /** The text of a cached search entry identifies the row it was written for, or is unusable. */
  lemma ToUint64OfDecimal(n: nat)
    ensures ToUint64(Decimal(n)) == if n < PARSE_LIMIT then n else 0
  {
    DecimalRoundTrip(n);
    DecimalIsCanonical(n);
    if n < PARSE_LIMIT {
      CanonicalIsRead(Decimal(n));
    } else {
      NoFraction(Decimal(n));
      DecimalNumeral(Decimal(n));
    }
  }
}
