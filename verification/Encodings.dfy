/**
 The text encodings of the envelope (crypto/aesCBC.go, hexEncode to base64Decode): upper-case
 base16 and unpadded URL-safe base64, sections 8 and 5 of RFC 4648.
 */
module Encodings {
  import opened Wrappers

  type Byte = x: nat | x < 256

  // ---------- Base16 ----------

  function HexDigit(n: nat): Byte
    requires n < 16
  {
    if n < 10 then '0' as int + n else 'A' as int + n - 10
  }

  /** Accepts both cases: the text is lowered before it is decoded. */
  function HexValue(c: Byte): (v: Option<nat>)
    ensures v.Some? ==> v.value < 16
  {
    if '0' as int <= c <= '9' as int then Some(c - '0' as int)
    else if 'a' as int <= c <= 'f' as int then Some(c - 'a' as int + 10)
    else if 'A' as int <= c <= 'F' as int then Some(c - 'A' as int + 10)
    else None
  }

  function HexEncode(src: seq<Byte>): seq<Byte> {
    if src == [] then [] else [HexDigit(src[0] / 16), HexDigit(src[0] % 16)] + HexEncode(src[1..])
  }

  function HexDecode(src: seq<Byte>): Result<seq<Byte>> {
    if src == [] then Ok([])
    else if |src| == 1 then Err("encoding/hex: odd length hex string")
    else
      var hi, lo, rest := HexValue(src[0]), HexValue(src[1]), HexDecode(src[2..]);
      if hi.None? || lo.None? then Err("encoding/hex: invalid byte")
      else if rest.Err? then rest
      else Ok([16 * hi.value + lo.value] + rest.value)
  }

  lemma HexDigitValue(n: nat)
    requires n < 16
    ensures HexValue(HexDigit(n)) == Some(n)
  {
  }

  lemma {:induction false} HexRoundTrip(src: seq<Byte>)
    ensures HexDecode(HexEncode(src)) == Ok(src)
  {
    if src != [] {
      var b, hi, lo := src[0], HexDigit(src[0] / 16), HexDigit(src[0] % 16);
      HexRoundTrip(src[1..]);
      HexDigitValue(b / 16);
      HexDigitValue(b % 16);
      var e := HexEncode(src);
      assert e == [hi, lo] + HexEncode(src[1..]) && e[2..] == HexEncode(src[1..]);
      assert 16 * (b / 16) + b % 16 == b;
      assert src == [b] + src[1..];
      assert HexDecode(e) == Ok([b] + src[1..]);
    }
  }

  // ---------- Base64 ----------

  function Symbol(n: nat): Byte
    requires n < 64
  {
    if n < 26 then 'A' as int + n
    else if n < 52 then 'a' as int + n - 26
    else if n < 62 then '0' as int + n - 52
    else if n == 62 then '-' as int
    else '_' as int
  }

  function SymbolValue(c: Byte): Option<nat> {
    if 'A' as int <= c <= 'Z' as int then Some(c - 'A' as int)
    else if 'a' as int <= c <= 'z' as int then Some(c - 'a' as int + 26)
    else if '0' as int <= c <= '9' as int then Some(c - '0' as int + 52)
    else if c == '-' as int then Some(62)
    else if c == '_' as int then Some(63)
    else None
  }

  lemma SymbolRoundTrip(n: nat)
    requires n < 64
    ensures SymbolValue(Symbol(n)) == Some(n) && !IsNewline(Symbol(n))
  {
  }

  predicate IsNewline(c: Byte) {
    c == 10 || c == 13
  }

  function Base64Encode(src: seq<Byte>): seq<Byte> {
    if src == [] then []
    else if |src| == 1 then [Symbol(src[0] / 4), Symbol(src[0] % 4 * 16)]
    else if |src| == 2 then [Symbol(src[0] / 4), Symbol(src[0] % 4 * 16 + src[1] / 16), Symbol(src[1] % 16 * 4)]
    else
      [Symbol(src[0] / 4), Symbol(src[0] % 4 * 16 + src[1] / 16), Symbol(src[1] % 16 * 4 + src[2] / 64), Symbol(src[2] % 64)]
      + Base64Encode(src[3..])
  }

  /** Line breaks are skipped wherever they are. */
  function WithoutNewlines(src: seq<Byte>): seq<Byte> {
    if src == [] then [] else (if IsNewline(src[0]) then [] else [src[0]]) + WithoutNewlines(src[1..])
  }

  /** The values of the symbols, or an error. */
  function Sextets(src: seq<Byte>): Result<seq<nat>> {
    if src == [] then Ok([])
    else
      var v, rest := SymbolValue(src[0]), Sextets(src[1..]);
      if v.None? then Err("illegal base64 data") else if rest.Err? then rest else Ok([v.value] + rest.value)
  }

  /** Groups of four make three bytes; a last group of two or three makes one or two, its spare bits are ignored. */
  function FromSextets(v: seq<nat>): Result<seq<Byte>> {
    if v == [] then Ok([])
    else if |v| == 1 then Err("illegal base64 data")
    else if |v| == 2 then Ok([First(v[0], v[1])])
    else if |v| == 3 then Ok([First(v[0], v[1]), Second(v[1], v[2])])
    else
      var rest := FromSextets(v[4..]);
      if rest.Err? then rest else Ok([First(v[0], v[1]), Second(v[1], v[2]), Third(v[2], v[3])] + rest.value)
  }

  function First(a: nat, b: nat): Byte {
    (a * 4 + b / 16) % 256
  }

  function Second(b: nat, c: nat): Byte {
    (b % 16 * 16 + c / 4) % 256
  }

  function Third(c: nat, d: nat): Byte {
    (c % 4 * 64 + d) % 256
  }

  function Base64Decode(src: seq<Byte>): Result<seq<Byte>> {
    var v := Sextets(WithoutNewlines(src));
    if v.Err? then Err(v.error) else FromSextets(v.value)
  }

  /** The symbol values an encoding consists of. */
  function ToSextets(src: seq<Byte>): (v: seq<nat>)
    ensures forall i | 0 <= i < |v| :: v[i] < 64
  {
    if src == [] then []
    else if |src| == 1 then [src[0] / 4, src[0] % 4 * 16]
    else if |src| == 2 then [src[0] / 4, src[0] % 4 * 16 + src[1] / 16, src[1] % 16 * 4]
    else [src[0] / 4, src[0] % 4 * 16 + src[1] / 16, src[1] % 16 * 4 + src[2] / 64, src[2] % 64] + ToSextets(src[3..])
  }

  function Symbols(v: seq<nat>): seq<Byte>
    requires forall i | 0 <= i < |v| :: v[i] < 64
  {
    seq(|v|, i requires 0 <= i < |v| => Symbol(v[i]))
  }

  lemma {:induction false} EncodingIsSymbols(src: seq<Byte>)
    ensures Base64Encode(src) == Symbols(ToSextets(src))
  {
    if |src| > 2 {
      EncodingIsSymbols(src[3..]);
    }
  }

  lemma {:induction false} SymbolsDecode(v: seq<nat>)
    requires forall i | 0 <= i < |v| :: v[i] < 64
    ensures WithoutNewlines(Symbols(v)) == Symbols(v) && Sextets(Symbols(v)) == Ok(v)
  {
    if v != [] {
      SymbolRoundTrip(v[0]);
      SymbolsDecode(v[1..]);
      assert Symbols(v)[1..] == Symbols(v[1..]);
      assert [v[0]] + v[1..] == v && [Symbol(v[0])] + Symbols(v[1..]) == Symbols(v);
    }
  }

  lemma FirstBack(x: Byte, t: nat)
    requires t < 16
    ensures First(x / 4, x % 4 * 16 + t) == x
  {
    var q, r := x / 4, x % 4;
    assert (r * 16 + t) / 16 == r;
    assert q * 4 + r == x;
  }

  lemma SecondBack(a: nat, y: Byte, t: nat)
    requires a < 4 && t < 4
    ensures Second(a * 16 + y / 16, y % 16 * 4 + t) == y
  {
    var q, r := y / 16, y % 16;
    assert (a * 16 + q) % 16 == q && (r * 4 + t) / 4 == r;
    assert q * 16 + r == y;
  }

  lemma ThirdBack(a: nat, z: Byte)
    requires a < 16
    ensures Third(a * 4 + z / 64, z % 64) == z
  {
    var q, r := z / 64, z % 64;
    assert (a * 4 + q) % 4 == q;
    assert q * 64 + r == z;
  }

  lemma DecodeGroup(a: nat, b: nat, c: nat, d: nat, v: seq<nat>, rest: seq<Byte>)
    requires FromSextets(v) == Ok(rest)
    ensures FromSextets([a, b, c, d] + v) == Ok([First(a, b), Second(b, c), Third(c, d)] + rest)
  {
    assert ([a, b, c, d] + v)[4..] == v;
  }

  lemma EncodeGroup(x: Byte, y: Byte, z: Byte, rest: seq<Byte>)
    ensures ToSextets([x, y, z] + rest) == [x / 4, x % 4 * 16 + y / 16, y % 16 * 4 + z / 64, z % 64] + ToSextets(rest)
  {
    assert ([x, y, z] + rest)[3..] == rest;
  }

  lemma LastOne(x: Byte)
    ensures FromSextets(ToSextets([x])) == Ok([x])
  {
    FirstBack(x, 0);
    DecodeLast(x / 4, x % 4 * 16 + 0, 0);
    assert ToSextets([x]) == [x / 4, x % 4 * 16 + 0];
  }

  lemma LastTwo(x: Byte, y: Byte)
    ensures FromSextets(ToSextets([x, y])) == Ok([x, y])
  {
    FirstBack(x, y / 16);
    SecondBack(x % 4, y, 0);
    DecodeLast(x / 4, x % 4 * 16 + y / 16, y % 16 * 4 + 0);
    assert ToSextets([x, y]) == [x / 4, x % 4 * 16 + y / 16, y % 16 * 4 + 0];
  }

  lemma DecodeLast(a: nat, b: nat, c: nat)
    ensures FromSextets([a, b]) == Ok([First(a, b)])
    ensures FromSextets([a, b, c]) == Ok([First(a, b), Second(b, c)])
  {
  }

  lemma {:induction false} SextetsRoundTrip(src: seq<Byte>)
    ensures FromSextets(ToSextets(src)) == Ok(src)
  {
    if |src| == 1 {
      LastOne(src[0]);
      assert src == [src[0]];
    } else if |src| == 2 {
      LastTwo(src[0], src[1]);
      assert src == [src[0], src[1]];
    } else if |src| > 2 {
      var x, y, z, rest := src[0], src[1], src[2], src[3..];
      assert src == [x, y, z] + rest;
      SextetsRoundTrip(rest);
      calc {
        FromSextets(ToSextets(src));
        { EncodeGroup(x, y, z, rest); }
        FromSextets([x / 4, x % 4 * 16 + y / 16, y % 16 * 4 + z / 64, z % 64] + ToSextets(rest));
        { GroupRoundTrip(x, y, z, rest, ToSextets(rest)); }
        Ok([x, y, z] + rest);
      }
    }
  }

  lemma GroupRoundTrip(x: Byte, y: Byte, z: Byte, rest: seq<Byte>, v: seq<nat>)
    requires FromSextets(v) == Ok(rest)
    ensures FromSextets([x / 4, x % 4 * 16 + y / 16, y % 16 * 4 + z / 64, z % 64] + v) == Ok([x, y, z] + rest)
  {
    FirstBack(x, y / 16);
    SecondBack(x % 4, y, z / 64);
    ThirdBack(y % 16, z);
    var b, c, d := x % 4 * 16 + y / 16, y % 16 * 4 + z / 64, z % 64;
    DecodeGroup(x / 4, b, c, d, v, rest);
  }

  lemma Base64RoundTrip(src: seq<Byte>)
    ensures Base64Decode(Base64Encode(src)) == Ok(src)
  {
    EncodingIsSymbols(src);
    SymbolsDecode(ToSextets(src));
    SextetsRoundTrip(src);
  }

  // ---------- The choice between them ----------

  /** The first of the optional flags. */
  function OneBool(b: seq<bool>): bool {
    |b| > 0 && b[0]
  }

  function Encode(src: seq<Byte>, useBase64: seq<bool>): seq<Byte> {
    if OneBool(useBase64) then Base64Encode(src) else HexEncode(src)
  }

  function Decode(src: seq<Byte>, useBase64: seq<bool>): Result<seq<Byte>> {
    if OneBool(useBase64) then Base64Decode(src) else HexDecode(src)
  }

  /** What was encoded is decoded, in the same choice of encoding. */
  lemma EncodingRoundTrip(src: seq<Byte>, useBase64: seq<bool>)
    ensures Decode(Encode(src, useBase64), useBase64) == Ok(src)
  {
    if OneBool(useBase64) {
      Base64RoundTrip(src);
    } else {
      HexRoundTrip(src);
    }
  }
}
