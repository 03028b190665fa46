/**
 The string keys of the query cache (mdb/gm2c.go).

 A primary key names one row of one table, a search key names one SQL text. Both are
 flat strings built with a separator, so that everything the cache promises rests on
 two facts proved here: no two of them collide, and a decimal id can be read back.
 */
module CacheKeys {

  const GLOBAL_PREFIX := "gm2c"
  const SEPARATOR := ":sep:"
  const NULL_VALUE := "null"

  predicate ColonFree(s: string) {
    ':' !in s
  }

  function PrimaryKeyPrefix(pre: string, table: string): string {
    GLOBAL_PREFIX + ":" + pre + ":p:" + table
  }

  function PrimaryCacheKey(pre: string, table: string, idText: string): string {
    PrimaryKeyPrefix(pre, table) + SEPARATOR + idText
  }

  function SearchKeyPrefix(pre: string, table: string): string {
    GLOBAL_PREFIX + ":" + pre + ":s:" + table
  }

  function SearchCacheKey(pre: string, table: string, sq: string): string {
    SearchKeyPrefix(pre, table) + SEPARATOR + "[" + sq + "]"
  }

  // ---------- Decimal ids ----------

  function Digit(d: nat): char
    requires d < 10
  {
    ('0' as int + d) as char
  }

  predicate IsDigit(c: char) {
    '0' <= c <= '9'
  }

  predicate AllDigits(s: string) {
    forall i | 0 <= i < |s| :: IsDigit(s[i])
  }

  function Decimal(n: nat): (s: string)
    ensures |s| > 0 && AllDigits(s)
  {
    if n < 10 then [Digit(n)] else Decimal(n / 10) + [Digit(n % 10)]
  }

  function DecimalValue(s: string): nat
    requires AllDigits(s)
  {
    if s == "" then 0
    else DecimalValue(s[..|s| - 1]) * 10 + (s[|s| - 1] as int - '0' as int)
  }

  /** A printed id reads back as itself. */
  lemma {:induction false} DecimalRoundTrip(n: nat)
    ensures DecimalValue(Decimal(n)) == n
  {
    if n >= 10 {
      DecimalRoundTrip(n / 10);
      assert Decimal(n)[..|Decimal(n)| - 1] == Decimal(n / 10);
    }
  }

  /** Written without leading zeros. */
  predicate Canonical(d: string) {
    |d| == 1 || (|d| > 1 && d[0] != '0')
  }

  lemma {:induction false} DecimalIsCanonical(n: nat)
    ensures Canonical(Decimal(n)) && (n > 0 ==> Decimal(n)[0] != '0')
  {
    if n >= 10 {
      DecimalIsCanonical(n / 10);
    }
  }

  lemma DecimalStep(n: nat, d: nat)
    requires n > 0 && d < 10
    ensures Decimal(n * 10 + d) == Decimal(n) + [Digit(d)]
  {
    var m := n * 10 + d;
    assert m / 10 == n && m % 10 == d;
  }

  lemma {:induction false} CanonicalIsPrinted(d: string)
    requires AllDigits(d) && Canonical(d)
    ensures Decimal(DecimalValue(d)) == d && (d[0] != '0' ==> DecimalValue(d) > 0)
  {
    var front, last := d[..|d| - 1], d[|d| - 1] as int - '0' as int;
    if front == "" {
      assert DecimalValue(d) == last && d == [d[0]];
    } else {
      CanonicalIsPrinted(front);
      DecimalStep(DecimalValue(front), last);
      assert d == front + [d[|d| - 1]];
    }
  }

  /** A text of digits is the printed form of its value exactly if it has no leading zeros. */
  lemma PrintedFormIff(d: string)
    requires d != "" && AllDigits(d)
    ensures Decimal(DecimalValue(d)) == d <==> Canonical(d)
    ensures Canonical(d) && d[0] != '0' ==> DecimalValue(d) > 0
  {
    DecimalIsCanonical(DecimalValue(d));
    if Canonical(d) {
      CanonicalIsPrinted(d);
    }
  }

  /** A printed id is never mistaken for the mark of an absent row. */
  lemma DecimalIsNotNull(n: nat)
    ensures Decimal(n) != NULL_VALUE
  {
    assert IsDigit(Decimal(n)[0]) && !IsDigit(NULL_VALUE[0]);
  }

  function IdText(name: string, id: nat): string {
    name + "=" + Decimal(id)
  }

  lemma IdTextInjective(name: string, a: nat, b: nat)
    requires IdText(name, a) == IdText(name, b)
    ensures a == b
  {
    assert Decimal(a) == IdText(name, a)[|name| + 1..];
    assert Decimal(b) == IdText(name, b)[|name| + 1..];
    DecimalRoundTrip(a);
    DecimalRoundTrip(b);
  }

  // ---------- Keys do not collide ----------

  lemma ShorterHeadDiffers(a: string, x: string, b: string, y: string)
    requires ColonFree(b) && |a| < |b|
    ensures a + SEPARATOR + x != b + SEPARATOR + y
  {
    assert (a + SEPARATOR + x)[|a|] == ':';
    assert (b + SEPARATOR + y)[|a|] == b[|a|];
  }

  /** A colon-free head is determined by what it starts, and so is the tail. */
  lemma ColonSplit(a: string, x: string, b: string, y: string)
    requires ColonFree(a) && ColonFree(b)
    requires a + SEPARATOR + x == b + SEPARATOR + y
    ensures a == b && x == y
  {
    var l, r := a + SEPARATOR + x, b + SEPARATOR + y;
    assert |a| == |b| by {
      if |a| < |b| { ShorterHeadDiffers(a, x, b, y); }
      if |b| < |a| { ShorterHeadDiffers(b, y, a, x); }
    }
    assert a == l[..|a|] && b == r[..|b|];
    assert x == l[|a| + |SEPARATOR|..] && y == r[|b| + |SEPARATOR|..];
  }

  /** Two primary keys are equal only for the same table and the same id text. */
  lemma PrimaryKeysDistinct(pre: string, t: string, x: string, u: string, y: string)
    requires ColonFree(t) && ColonFree(u)
    requires PrimaryCacheKey(pre, t, x) == PrimaryCacheKey(pre, u, y)
    ensures t == u && x == y
  {
    var head := GLOBAL_PREFIX + ":" + pre + ":p:";
    assert PrimaryCacheKey(pre, t, x) == head + (t + SEPARATOR + x);
    assert PrimaryCacheKey(pre, u, y) == head + (u + SEPARATOR + y);
    assert t + SEPARATOR + x == PrimaryCacheKey(pre, t, x)[|head|..];
    assert u + SEPARATOR + y == PrimaryCacheKey(pre, u, y)[|head|..];
    ColonSplit(t, x, u, y);
  }

  /** Two search keys are equal only for the same table and the same SQL text. */
  lemma SearchKeysDistinct(pre: string, t: string, x: string, u: string, y: string)
    requires ColonFree(t) && ColonFree(u)
    requires SearchCacheKey(pre, t, x) == SearchCacheKey(pre, u, y)
    ensures t == u && x == y
  {
    var head := GLOBAL_PREFIX + ":" + pre + ":s:";
    var x', y' := "[" + x + "]", "[" + y + "]";
    assert SearchCacheKey(pre, t, x) == head + (t + SEPARATOR + x');
    assert SearchCacheKey(pre, u, y) == head + (u + SEPARATOR + y');
    assert t + SEPARATOR + x' == SearchCacheKey(pre, t, x)[|head|..];
    assert u + SEPARATOR + y' == SearchCacheKey(pre, u, y)[|head|..];
    ColonSplit(t, x', u, y');
    assert x == x'[1..|x'| - 1] && y == y'[1..|y'| - 1];
  }

  /** A primary key is never a search key. */
  lemma KeyKindsDisjoint(pre: string, t: string, x: string, u: string, sq: string)
    ensures PrimaryCacheKey(pre, t, x) != SearchCacheKey(pre, u, sq)
  {
    var n := |GLOBAL_PREFIX| + 1 + |pre| + 1;
    assert PrimaryCacheKey(pre, t, x)[n] == 'p';
    assert SearchCacheKey(pre, u, sq)[n] == 's';
  }

  /** The keys of a table lie under the two prefixes that invalidation drops. */
  lemma KeysUnderPrefixes(pre: string, table: string, x: string)
    ensures PrimaryKeyPrefix(pre, table) <= PrimaryCacheKey(pre, table, x)
    ensures SearchKeyPrefix(pre, table) <= SearchCacheKey(pre, table, x)
  {
    assert PrimaryCacheKey(pre, table, x) == PrimaryKeyPrefix(pre, table) + (SEPARATOR + x);
    assert SearchCacheKey(pre, table, x) == SearchKeyPrefix(pre, table) + (SEPARATOR + "[" + x + "]");
  }
}
