/** Fixed-width and variable-length integers, and length-prefixed slices (util/coding.h, util/coding.cc). */
module Coding {
  import opened Wrappers

  type Byte = b: nat | b < 256
  type Bytes = seq<Byte>

  const U32: nat := 0x1_0000_0000
  const U64: nat := 0x1_0000_0000_0000_0000

  function Pow128(n: nat): (p: nat)
    ensures p > 0
  {
    if n == 0 then 1 else 128 * Pow128(n - 1)
  }

  function Pow256(n: nat): (p: nat)
    ensures p > 0
  {
    if n == 0 then 1 else 256 * Pow256(n - 1)
  }

  lemma Widths()
    ensures Pow256(1) == 0x100 && Pow256(2) == 0x1_0000 && Pow256(4) == U32 && Pow256(8) == U64
  {
    assert Pow256(4) == 256 * 256 * Pow256(2);
    assert Pow256(6) == 256 * 256 * Pow256(4);
    assert Pow256(8) == 256 * 256 * Pow256(6);
  }

  /** The low `n` bytes of `v`, least significant first: EncodeFixed32 for n = 4, EncodeFixed64 for n = 8. */
  function Fixed(v: nat, n: nat): (r: seq<Byte>)
    ensures |r| == n
  {
    if n == 0 then [] else [v % 256] + Fixed(v / 256, n - 1)
  }

  function DecodeFixed(bytes: seq<Byte>): (v: nat)
    ensures v < Pow256(|bytes|)
  {
    if bytes == [] then 0 else bytes[0] + 256 * DecodeFixed(bytes[1..])
  }

  lemma {:induction false} FixedRoundTrip(v: nat, n: nat)
    requires v < Pow256(n)
    ensures DecodeFixed(Fixed(v, n)) == v
  {
    if n > 0 {
      FixedRoundTrip(v / 256, n - 1);
      assert Fixed(v, n)[1..] == Fixed(v / 256, n - 1);
    }
  }

  lemma LowAndHigh(low: Byte, high: nat)
    ensures (low + 256 * high) % 256 == low && (low + 256 * high) / 256 == high
  {
  }

  lemma {:induction false} FixedBack(bytes: seq<Byte>)
    ensures Fixed(DecodeFixed(bytes), |bytes|) == bytes
  {
    if bytes != [] {
      FixedBack(bytes[1..]);
      var low, high := bytes[0], DecodeFixed(bytes[1..]);
      LowAndHigh(low, high);
      assert bytes == [low] + bytes[1..];
    }
  }

  /** The base-128 varint of `v`: seven bits a byte, low bits first, all but the last byte marked. */
  function Varint(v: nat): (r: seq<Byte>)
    ensures r != []
  {
    if v < 128 then [v] else [v % 128 + 128] + Varint(v / 128)
  }

  /** The value and length of the varint that `s` starts with. */
  function DecodeVarint(s: seq<Byte>): (r: Option<(nat, nat)>)
    ensures r.Some? ==> 0 < r.value.1 <= |s|
  {
    if s == [] then None
    else if s[0] < 128 then Some((s[0], 1))
    else
      var rest := DecodeVarint(s[1..]);
      if rest.None? then None else Some((s[0] - 128 + 128 * rest.value.0, 1 + rest.value.1))
  }

  lemma {:induction false} VarintRoundTrip(v: nat, rest: seq<Byte>)
    ensures DecodeVarint(Varint(v) + rest) == Some((v, |Varint(v)|))
  {
    var s := Varint(v) + rest;
    if v >= 128 {
      VarintRoundTrip(v / 128, rest);
      assert s[1..] == Varint(v / 128) + rest;
    }
  }

  /** A varint cut short is no varint. */
  lemma {:induction false} VarintCut(v: nat, n: nat)
    requires n < |Varint(v)|
    ensures DecodeVarint(Varint(v)[..n]) == None
  {
    if n > 0 {
      VarintCut(v / 128, n - 1);
      assert Varint(v)[..n][1..] == Varint(v / 128)[..n - 1];
    }
  }

  lemma {:induction false} VarintLengthBound(v: nat, n: nat)
    requires 0 < n && v < Pow128(n)
    ensures |Varint(v)| <= n
  {
    if v >= 128 {
      VarintLengthBound(v / 128, n - 1);
    }
  }

  lemma VarintLengths(v: nat)
    ensures v < 0x1_0000_0000 ==> |Varint(v)| <= 5
    ensures v < 0x1_0000_0000_0000_0000 ==> |Varint(v)| <= 10
  {
    assert Pow128(5) == 0x8_0000_0000;
    assert Pow128(10) == Pow128(5) * Pow128(5) by {
      assert Pow128(10) == 128 * 128 * 128 * 128 * 128 * Pow128(5);
    }
    if v < 0x1_0000_0000 {
      VarintLengthBound(v, 5);
    }
    if v < 0x1_0000_0000_0000_0000 {
      VarintLengthBound(v, 10);
    }
  }

  /** EncodeVarint32: one branch per length. */
  method EncodeVarint32(v: nat) returns (dst: seq<Byte>)
    requires v < 0x1_0000_0000
    ensures dst == Varint(v)
  {
    if v < 0x80 {
      dst := [v];
    } else if v < 0x4000 {
      dst := [v % 128 + 128, v / 0x80];
    } else if v < 0x20_0000 {
      dst := [v % 128 + 128, v / 0x80 % 128 + 128, v / 0x4000];
    } else if v < 0x1000_0000 {
      dst := [v % 128 + 128, v / 0x80 % 128 + 128, v / 0x4000 % 128 + 128, v / 0x20_0000];
    } else {
      dst := [v % 128 + 128, v / 0x80 % 128 + 128, v / 0x4000 % 128 + 128, v / 0x20_0000 % 128 + 128, v / 0x1000_0000];
    }
    var a, b, c, d := v / 128, v / 128 / 128, v / 128 / 128 / 128, v / 128 / 128 / 128 / 128;
    assert b == v / 0x4000 && c == v / 0x20_0000 && d == v / 0x1000_0000;
    assert Varint(v) == if v < 128 then [v] else [v % 128 + 128] + Varint(a);
    assert Varint(a) == if a < 128 then [a] else [a % 128 + 128] + Varint(b);
    assert Varint(b) == if b < 128 then [b] else [b % 128 + 128] + Varint(c);
    assert Varint(c) == if c < 128 then [c] else [c % 128 + 128] + Varint(d);
    assert d < 128 ==> Varint(d) == [d];
  }

  method EncodeVarint64(value: nat) returns (dst: seq<Byte>)
    requires value < 0x1_0000_0000_0000_0000
    ensures dst == Varint(value)
  {
    var v := value;
    dst := [];
    while v >= 128
      invariant dst + Varint(v) == Varint(value)
    {
      assert dst + Varint(v) == dst + [v % 128 + 128] + Varint(v / 128);
      dst := dst + [v % 128 + 128];
      v := v / 128;
    }
    dst := dst + [v];
  }

  /** What GetVarint32 (at most 5 bytes) and GetVarint64 (at most 10) return: the value and what follows. */
  function GetVarint(s: seq<Byte>, maxBytes: nat, modulus: nat): Option<(nat, nat)>
    requires modulus > 0
  {
    var r := DecodeVarint(s);
    if r.Some? && r.value.1 <= maxBytes then Some((r.value.0 % modulus, r.value.1)) else None
  }

  lemma GetVarintRoundTrip(v: nat, rest: seq<Byte>)
    ensures v < 0x1_0000_0000 ==> GetVarint(Varint(v) + rest, 5, 0x1_0000_0000) == Some((v, |Varint(v)|))
    ensures v < 0x1_0000_0000_0000_0000 ==> GetVarint(Varint(v) + rest, 10, 0x1_0000_0000_0000_0000) == Some((v, |Varint(v)|))
  {
    VarintRoundTrip(v, rest);
    VarintLengths(v);
  }

  // Reading from the front of a slice

  /** PutLengthPrefixedSlice. */
  function Prefixed(s: Bytes): Bytes {
    Varint(|s|) + s
  }

  datatype Parse<T> = Got(value: T, rest: Bytes) | Unread

  function GetVarint32(s: Bytes): (r: Parse<nat>)
    ensures r.Got? ==> |r.rest| < |s|
  {
    var v := GetVarint(s, 5, U32);
    if v.Some? then Got(v.value.0, s[v.value.1..]) else Unread
  }

  function GetVarint64(s: Bytes): (r: Parse<nat>)
    ensures r.Got? ==> |r.rest| < |s|
  {
    var v := GetVarint(s, 10, U64);
    if v.Some? then Got(v.value.0, s[v.value.1..]) else Unread
  }

  function GetLengthPrefixedSlice(s: Bytes): (r: Parse<Bytes>)
    ensures r.Got? ==> |r.rest| < |s|
  {
    var n := GetVarint32(s);
    if n.Got? && |n.rest| >= n.value then Got(n.rest[..n.value], n.rest[n.value..]) else Unread
  }

  lemma Varint32Back(v: nat, rest: Bytes)
    requires v < U32
    ensures GetVarint32(Varint(v) + rest) == Got(v, rest)
  {
    hide Varint, GetVarint;
    GetVarintRoundTrip(v, rest);
    assert (Varint(v) + rest)[|Varint(v)|..] == rest;
  }

  lemma Varint64Back(v: nat, rest: Bytes)
    requires v < U64
    ensures GetVarint64(Varint(v) + rest) == Got(v, rest)
  {
    hide Varint, GetVarint;
    GetVarintRoundTrip(v, rest);
    assert (Varint(v) + rest)[|Varint(v)|..] == rest;
  }

  lemma PrefixedBack(b: Bytes, rest: Bytes)
    requires |b| < U32
    ensures GetLengthPrefixedSlice(Prefixed(b) + rest) == Got(b, rest)
  {
    hide Varint, GetVarint32;
    Varint32Back(|b|, b + rest);
    assert Prefixed(b) + rest == Varint(|b|) + (b + rest);
    assert (b + rest)[..|b|] == b && (b + rest)[|b|..] == rest;
  }
}
