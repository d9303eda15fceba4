/** The built-in Bloom filter (util/bloom.cc): a key that was put in always matches. */
module Bloom {
  import opened Coding

  /** `1 << i`. */
  function Mask(i: nat): bv8
    requires i < 8
  {
    if i == 0 then 1 else if i == 1 then 2 else if i == 2 then 4 else if i == 3 then 8
    else if i == 4 then 16 else if i == 5 then 32 else if i == 6 then 64 else 128
  }

  predicate HasBit(b: Byte, i: nat)
    requires i < 8
  {
    (b as bv8) & Mask(i) != 0
  }

  /** `b |= 1 << i`. */
  function SetBit(b: Byte, i: nat): (r: Byte)
    requires i < 8
  {
    OrBits(b as bv8, Mask(i)) as nat
  }

  function OrBits(a: bv8, b: bv8): bv8 {
    a | b
  }

  lemma OrKeeps(a: bv8, m: bv8, n: bv8)
    ensures a & n != 0 ==> OrBits(a, m) & n != 0
    ensures m != 0 ==> OrBits(a, m) & m != 0
  {
  }

  lemma MaskSet(i: nat)
    requires i < 8
    ensures Mask(i) != 0
  {
  }

  lemma BackToBits(r: bv8)
    ensures (r as nat) < 256 && (r as nat) as bv8 == r
  {
  }

  lemma SetBitSets(b: Byte, i: nat, j: nat)
    requires i < 8 && j < 8
    ensures HasBit(SetBit(b, i), i)
    ensures HasBit(b, j) ==> HasBit(SetBit(b, i), j)
  {
    MaskSet(i);
    hide Mask, OrBits;
    BackToBits(OrBits(b as bv8, Mask(i)));
    OrKeeps(b as bv8, Mask(i), Mask(j));
    OrKeeps(b as bv8, Mask(i), Mask(i));
  }

  /** Whether a bit of a filter array is set. */
  predicate Probe(filter: Bytes, bitpos: nat)
    requires bitpos / 8 < |filter|
  {
    HasBit(filter[bitpos / 8], bitpos % 8)
  }

  /** Rotate right 17 bits. */
  function Delta(h: nat): (d: nat)
    requires h < U32
    ensures d < U32
  {
    h / 0x2_0000 + h % 0x2_0000 * 0x8000
  }

  /** The `j`th hash value of double hashing. */
  function HashAt(h: nat, delta: nat, j: nat): (r: nat)
    requires h < U32
    ensures r < U32
  {
    if j == 0 then h else (HashAt(h, delta, j - 1) + delta) % U32
  }

  function Position(h: nat, bits: nat): (p: nat)
    requires 0 < bits
    ensures p < bits
  {
    h % bits
  }

  /** All `k` probes of a hash find their bits set. */
  ghost predicate AllSet(filter: Bytes, bits: nat, h: nat, k: nat)
    requires h < U32 && 0 < bits <= 8 * |filter|
  {
    forall j :: 0 <= j < k ==> Probe(filter, Position(HashAt(h, Delta(h), j), bits))
  }

  ghost predicate Grows(a: Bytes, b: Bytes) {
    |a| == |b| && forall i :: 0 <= i < 8 * |a| && Probe(a, i) ==> Probe(b, i)
  }

  /** What CreateFilter appends: the bit array and the number of probes. */
  ghost predicate IsFilter(filter: Bytes, keys: seq<Bytes>, hash: Bytes -> nat, k: nat)
    requires forall key :: hash(key) < U32
  {
    && |filter| >= 9 && filter[|filter| - 1] == k
    && forall i :: 0 <= i < |keys| ==> AllSet(filter[..|filter| - 1], 8 * (|filter| - 1), hash(keys[i]), k)
  }

  method AddHash(bitArray: array<Byte>, bits: nat, hash: nat, k: nat)
    requires 0 < bits == 8 * bitArray.Length && hash < U32
    modifies bitArray
    ensures AllSet(bitArray[..], bits, hash, k) && Grows(old(bitArray[..]), bitArray[..])
  {
    hide HasBit, SetBit, Position, Delta, Probe, Grows, AllSet;
    AllSetStart(bitArray[..], bits, hash);
    GrowsSelf(bitArray[..]);
    var h := hash;
    var delta := Delta(hash);
    for j := 0 to k
      invariant h == HashAt(hash, delta, j) && AllSet(bitArray[..], bits, hash, j) && Grows(old(bitArray[..]), bitArray[..])
    {
      var bitpos := Position(h, bits);
      ghost var before := bitArray[..];
      bitArray[bitpos / 8] := SetBit(bitArray[bitpos / 8], bitpos % 8);
      SetGrows(before, bitArray[..], bitpos);
      GrowsOn(old(bitArray[..]), before, bitArray[..]);
      AllSetGrows(before, bitArray[..], bits, hash, j);
      AllSetStep(bitArray[..], bits, hash, j);
      h := (h + delta) % U32;
    }
  }

  lemma SetGrows(a: Bytes, b: Bytes, bitpos: nat)
    requires bitpos / 8 < |a| && b == a[bitpos / 8 := SetBit(a[bitpos / 8], bitpos % 8)]
    ensures Grows(a, b) && Probe(b, bitpos)
  {
    hide HasBit, SetBit;
    SetBitSets(a[bitpos / 8], bitpos % 8, bitpos % 8);
    forall i | 0 <= i < 8 * |a| && Probe(a, i)
      ensures Probe(b, i)
    {
      SetBitSets(a[bitpos / 8], bitpos % 8, i % 8);
    }
  }

  lemma AllSetStart(f: Bytes, bits: nat, h: nat)
    requires h < U32 && 0 < bits <= 8 * |f|
    ensures AllSet(f, bits, h, 0)
  {
  }

  lemma AllSetStep(f: Bytes, bits: nat, h: nat, j: nat)
    requires h < U32 && 0 < bits <= 8 * |f|
    requires AllSet(f, bits, h, j) && Probe(f, Position(HashAt(h, Delta(h), j), bits))
    ensures AllSet(f, bits, h, j + 1)
  {
    hide Probe, Position, HashAt;
  }

  lemma NotAllSet(f: Bytes, bits: nat, h: nat, j: nat, k: nat)
    requires h < U32 && 0 < bits <= 8 * |f| && j < k
    requires !Probe(f, Position(HashAt(h, Delta(h), j), bits))
    ensures !AllSet(f, bits, h, k)
  {
    hide Probe, Position, HashAt;
  }

  lemma GrowsSelf(a: Bytes)
    ensures Grows(a, a)
  {
  }

  lemma GrowsOn(a: Bytes, b: Bytes, c: Bytes)
    requires Grows(a, b) && Grows(b, c)
    ensures Grows(a, c)
  {
    hide HasBit;
  }

  /** A filter sets all the bits of a key that was put in. */
  lemma FilterSets(filter: Bytes, key: Bytes, hash: Bytes -> nat)
    requires forall key :: hash(key) < U32
    ensures forall keys, k :: IsFilter(filter, keys, hash, k) && key in keys ==>
              |filter| >= 9 && filter[|filter| - 1] == k && AllSet(filter[..|filter| - 1], 8 * (|filter| - 1), hash(key), k)
  {
    hide AllSet;
    forall keys, k | IsFilter(filter, keys, hash, k) && key in keys
      ensures |filter| >= 9 && filter[|filter| - 1] == k && AllSet(filter[..|filter| - 1], 8 * (|filter| - 1), hash(key), k)
    {
      var i :| 0 <= i < |keys| && keys[i] == key;
    }
  }

  lemma AllSetGrows(a: Bytes, b: Bytes, bits: nat, h: nat, k: nat)
    requires h < U32 && 0 < bits <= 8 * |a| && Grows(a, b) && AllSet(a, bits, h, k)
    ensures AllSet(b, bits, h, k)
  {
  }

  /** The bytes of a filter: its bits, at least 64, and the number of probes. */
  function FilterSize(keys: nat, bitsPerKey: nat): nat {
    ((if keys * bitsPerKey < 64 then 64 else keys * bitsPerKey) + 7) / 8 + 1
  }

  /** CreateFilter: `k` is the number of probes of the policy. */
  method CreateFilter(keys: seq<Bytes>, bitsPerKey: nat, k: nat, hash: Bytes -> nat) returns (filter: Bytes)
    requires 1 <= k <= 30 && forall key :: hash(key) < U32
    ensures IsFilter(filter, keys, hash, k) && |filter| == FilterSize(|keys|, bitsPerKey)
  {
    hide HasBit, Probe;
    var bits := |keys| * bitsPerKey;
    // Enforce a minimum bloom filter length.
    if bits < 64 {
      bits := 64;
    }
    var bytes := (bits + 7) / 8;
    bits := bytes * 8;
    var bitArray := new Byte[bytes](_ => 0);
    for i := 0 to |keys|
      invariant forall j :: 0 <= j < i ==> AllSet(bitArray[..], bits, hash(keys[j]), k)
    {
      ghost var before := bitArray[..];
      AddHash(bitArray, bits, hash(keys[i]), k);
      forall j | 0 <= j < i
        ensures AllSet(bitArray[..], bits, hash(keys[j]), k)
      {
        AllSetGrows(before, bitArray[..], bits, hash(keys[j]), k);
      }
    }
    filter := bitArray[..] + [k];
    assert filter[..|filter| - 1] == bitArray[..];
  }

  method KeyMayMatch(key: Bytes, filter: Bytes, hash: Bytes -> nat) returns (may: bool)
    requires forall key :: hash(key) < U32
    // no false negatives
    ensures forall keys, k :: k <= 30 && IsFilter(filter, keys, hash, k) && key in keys ==> may
    // an answer of "no" is given only for too short filters, or on a bit that is not set
    ensures !may ==> |filter| < 2 || !AllSet(filter[..|filter| - 1], 8 * (|filter| - 1), hash(key), filter[|filter| - 1])
  {
    hide HasBit, Position, Delta, IsFilter, AllSet, Probe;
    FilterSets(filter, key, hash);
    if |filter| < 2 {
      return false;
    }
    var bitArray := filter[..|filter| - 1];
    var bits := (|filter| - 1) * 8;
    var k := filter[|filter| - 1];
    if k > 30 {
      // Reserved for potentially new encodings; consider it a match.
      return true;
    }
    AllSetStart(bitArray, bits, hash(key));
    var h := hash(key);
    var delta := Delta(h);
    for j := 0 to k
      invariant h == HashAt(hash(key), delta, j)
      invariant AllSet(bitArray, bits, hash(key), j)
    {
      var bitpos := Position(h, bits);
      if !Probe(bitArray, bitpos) {
        NotAllSet(bitArray, bits, hash(key), j, k);
        return false;
      }
      AllSetStep(bitArray, bits, hash(key), j);
      h := (h + delta) % U32;
    }
    return true;
  }
}
