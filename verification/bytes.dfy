/** Fixed-width unsigned integers as bytes, in both orders, and the UTF-8 form of
    a string. */
module Bytes {
  import opened Base

  function Pow256(n: nat): (p: nat)
    ensures p > 0
  {
    if n == 0 then 1 else 256 * Pow256(n - 1)
  }

  /** `to_be_bytes` of an `n`-byte unsigned integer. */
  function ToBe(v: nat, n: nat): (s: seq<byte>)
    requires v < Pow256(n)
    ensures |s| == n
  {
    if n == 0 then [] else ToBe(v / 256, n - 1) + [v % 256]
  }

  /** `from_be_bytes`. */
  function FromBe(s: seq<byte>): (v: nat)
    ensures v < Pow256(|s|)
  {
    if |s| == 0 then 0 else FromBe(s[..|s| - 1]) * 256 + s[|s| - 1]
  }

  lemma {:induction false} FromToBe(v: nat, n: nat)
    requires v < Pow256(n)
    ensures FromBe(ToBe(v, n)) == v
  {
    if n > 0 {
      FromToBe(v / 256, n - 1);
      assert ToBe(v, n)[..n - 1] == ToBe(v / 256, n - 1);
    }
  }

  lemma {:induction false} ToFromBe(s: seq<byte>)
    ensures ToBe(FromBe(s), |s|) == s
  {
    if |s| > 0 {
      ToFromBe(s[..|s| - 1]);
      assert s == s[..|s| - 1] + [s[|s| - 1]];
    }
  }

  lemma Widths()
    ensures Pow256(4) == U32_MAX + 1 && Pow256(8) == U64_MAX + 1
  {
    assert Pow256(2) == 65536;
    assert Pow256(4) == 256 * (256 * Pow256(2));
    assert Pow256(6) == 256 * (256 * Pow256(4));
    assert Pow256(8) == 256 * (256 * Pow256(6));
  }

  /** `to_le_bytes`. */
  function ToLe(v: nat, n: nat): (s: seq<byte>)
    requires v < Pow256(n)
    ensures |s| == n
  {
    if n == 0 then [] else [v % 256] + ToLe(v / 256, n - 1)
  }

  /** `from_le_bytes`. */
  function FromLe(s: seq<byte>): (v: nat)
    ensures v < Pow256(|s|)
  {
    if |s| == 0 then 0 else s[0] + 256 * FromLe(s[1..])
  }

  lemma {:induction false} FromToLe(v: nat, n: nat)
    requires v < Pow256(n)
    ensures FromLe(ToLe(v, n)) == v
  {
    if n > 0 {
      FromToLe(v / 256, n - 1);
      assert ToLe(v, n)[1..] == ToLe(v / 256, n - 1);
    }
  }

  /** The last byte of the one order and the first byte of the other is the least. */
  lemma LeastByte(s: seq<byte>, b: byte)
    ensures FromBe(s + [b]) == 256 * FromBe(s) + b && FromLe([b] + s) == b + 256 * FromLe(s)
  {
    assert (s + [b])[..|s|] == s && ([b] + s)[1..] == s;
  }

  /** A block behind its four-byte big-endian length. */
  function Framed(block: seq<byte>): (r: seq<byte>)
    requires |block| <= U32_MAX
    ensures |r| == 4 + |block|
  {
    Widths();
    ToBe(|block|, 4) + block
  }

  function Zeros(n: nat): (r: seq<byte>)
    ensures |r| == n
  {
    seq(n, _ => 0)
  }

  // ----- UTF-8 -----

  function Utf8Char(c: char): (s: seq<byte>)
    ensures 1 <= |s| <= 4
  {
    var v := c as int;
    if v < 0x80 then [v]
    else if v < 0x800 then [0xC0 + v / 64, 0x80 + v % 64]
    else if v < 0x1_0000 then [0xE0 + v / 4096, 0x80 + v / 64 % 64, 0x80 + v % 64]
    else [0xF0 + v / 0x4_0000, 0x80 + v / 4096 % 64, 0x80 + v / 64 % 64, 0x80 + v % 64]
  }

  /** `str::as_bytes`. */
  function Utf8(s: Str): seq<byte>
  {
    if s == [] then [] else Utf8Char(s[0]) + Utf8(s[1..])
  }

  /** The code point that a lead byte and its continuation bytes carry. */
  function CharValue(s: seq<int>): int
    requires 1 <= |s| <= 4
  {
    if |s| == 1 then s[0]
    else if |s| == 2 then (s[0] - 0xC0) * 64 + (s[1] - 0x80)
    else if |s| == 3 then (s[0] - 0xE0) * 4096 + (s[1] - 0x80) * 64 + (s[2] - 0x80)
    else (s[0] - 0xF0) * 0x4_0000 + (s[1] - 0x80) * 4096 + (s[2] - 0x80) * 64 + (s[3] - 0x80)
  }

  /** The six-bit digits of a code point. */
  lemma Sextets(v: nat)
    ensures v == v / 64 * 64 + v % 64
    ensures v == v / 4096 * 4096 + v / 64 % 64 * 64 + v % 64
    ensures v == v / 0x4_0000 * 0x4_0000 + v / 4096 % 64 * 4096 + v / 64 % 64 * 64 + v % 64
  {
    var q := v / 64;
    var r := q / 64;
    assert v / 4096 == r && q == r * 64 + q % 64;
    assert v / 0x4_0000 == r / 64 && r == r / 64 * 64 + r % 64;
  }

  lemma CharValueOf(c: char)
    ensures CharValue(Utf8Char(c)) == c as int
  {
    Sextets(c as int);
  }

  /** The lead byte fixes how many bytes follow it. */
  function CharLength(lead: byte): nat
  {
    if lead < 0x80 then 1 else if lead < 0xE0 then 2 else if lead < 0xF0 then 3 else 4
  }

  lemma CharLengthOf(c: char)
    ensures CharLength(Utf8Char(c)[0]) == |Utf8Char(c)|
  {
  }

  /** Distinct strings have distinct UTF-8 forms. */
  lemma {:induction false} Utf8Injective(a: Str, b: Str)
    requires Utf8(a) == Utf8(b)
    ensures a == b
  {
    if a != [] && b != [] {
      var n := |Utf8Char(a[0])|;
      assert Utf8(a)[0] == Utf8Char(a[0])[0] && Utf8(b)[0] == Utf8Char(b[0])[0];
      CharLengthOf(a[0]);
      CharLengthOf(b[0]);
      assert Utf8(a)[..n] == Utf8Char(a[0]) && Utf8(b)[..n] == Utf8Char(b[0]);
      CharValueOf(a[0]);
      CharValueOf(b[0]);
      assert Utf8(a)[n..] == Utf8(a[1..]) && Utf8(b)[n..] == Utf8(b[1..]);
      Utf8Injective(a[1..], b[1..]);
      assert a == [a[0]] + a[1..] && b == [b[0]] + b[1..];
    }
  }
}
