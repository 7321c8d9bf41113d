/**
  Octets, 32-byte public keys and little-endian unsigned integers: the
  primitives of the Borsh-style layout the market program uses.
 */
module Bytes {

  /** One octet of an account buffer or an instruction payload. */
  type Byte = b: nat | b < 256

  /** A public key, kept as its 32 raw bytes and compared byte by byte. */
  type Key = k: seq<Byte> | |k| == 32 witness seq(32, _ => 0)

  /** An unsigned 64-bit amount (pool balances, share totals, timestamps as read). */
  type U64 = n: nat | n < 0x1_0000_0000_0000_0000

  /** 256 to the power `n`: one more than the largest value `n` bytes hold. */
  function Pow256(n: nat): (p: nat)
    ensures p > 0
  {
    if n == 0 then 1 else 256 * Pow256(n - 1)
  }

  lemma Pow256Facts()
    ensures Pow256(4) == 0x1_0000_0000
    ensures Pow256(8) == 0x1_0000_0000_0000_0000
  {
    assert Pow256(2) == 0x1_0000;
    assert Pow256(4) == 0x1_0000_0000;
    assert Pow256(6) == 0x1_0000_0000_0000;
  }

  /** The value of a little-endian byte string: first byte least significant. */
  function LeValue(s: seq<Byte>): nat
  {
    if s == [] then 0 else s[0] + 256 * LeValue(s[1..])
  }

  /**
    The same value written as the positional sum of s[i] * 256^i, built from
    the most significant end, as an independent reference for `LeValue`.
   */
  function PositionalSum(s: seq<Byte>): nat
  {
    if s == [] then 0 else PositionalSum(s[..|s| - 1]) + s[|s| - 1] * Pow256(|s| - 1)
  }

  /** Writes `n` as exactly `width` little-endian bytes. */
  function LeBytes(n: nat, width: nat): (r: seq<Byte>)
    requires n < Pow256(width)
    ensures |r| == width
    ensures LeValue(r) == n
  {
    if width == 0 then []
    else
      DivBound(n, Pow256(width - 1));
      [n % 256] + LeBytes(n / 256, width - 1)
  }

  lemma DivBound(n: nat, p: nat)
    requires n < 256 * p
    ensures n / 256 < p
  {
  }

  /** A string of `k` bytes never reads as a value of `k` bytes' range or more. */
  lemma {:induction false} LeValueBound(s: seq<Byte>)
    ensures LeValue(s) < Pow256(|s|)
  {
    if s != [] {
      LeValueBound(s[1..]);
      assert LeValue(s) <= 255 + 256 * (Pow256(|s| - 1) - 1);
    }
  }

  /** Writing the value a byte string reads as gives back that byte string. */
  lemma {:induction false} LeBytesOfValue(s: seq<Byte>)
    ensures LeValue(s) < Pow256(|s|)
    ensures LeBytes(LeValue(s), |s|) == s
  {
    LeValueBound(s);
    if s != [] {
      LeBytesOfValue(s[1..]);
      var v := LeValue(s);
      assert v % 256 == s[0] && v / 256 == LeValue(s[1..]);
    }
  }

  /** Equal little-endian readings of equal width are equal byte strings. */
  lemma SameReading(a: seq<Byte>, b: seq<Byte>)
    requires |a| == |b| && LeValue(a) == LeValue(b)
    ensures a == b
  {
    LeBytesOfValue(a);
    LeBytesOfValue(b);
  }

  /** Appending a most significant byte adds it at weight 256^|s|. */
  lemma {:induction false} LeValueSnoc(s: seq<Byte>, b: Byte)
    ensures LeValue(s + [b]) == LeValue(s) + b * Pow256(|s|)
  {
    if s == [] {
      assert [b][1..] == [];
    } else {
      assert (s + [b])[1..] == s[1..] + [b];
      LeValueSnoc(s[1..], b);
    }
  }

  /** The little-endian reading is the positional sum of s[i] * 256^i. */
  lemma {:induction false} LeValueIsPositionalSum(s: seq<Byte>)
    ensures LeValue(s) == PositionalSum(s)
  {
    if s != [] {
      var init := s[..|s| - 1];
      LeValueIsPositionalSum(init);
      assert s == init + [s[|s| - 1]];
      LeValueSnoc(init, s[|s| - 1]);
    }
  }

  /** Reading 8 bytes always yields an unsigned 64-bit value. */
  function U64Of(s: seq<Byte>): (r: U64)
    requires |s| == 8
    ensures r == LeValue(s)
  {
    LeValueBound(s);
    Pow256Facts();
    LeValue(s)
  }
}
