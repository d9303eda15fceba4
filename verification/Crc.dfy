/** CRC-32C (util/crc32c.h, util/crc32c.cc): the strided form computes the byte-at-a-time one. */
module Crc {

  datatype Word = Word(bits: bv32)

  /** The generator of CRC-32C (section 12.1 of RFC 3720), least significant bit first. */
  const POLYNOMIAL: bv32 := 0x82f6_3b78
  const ALL_ONES := Word(0xffff_ffff)

  function XorBits(a: bv32, b: bv32): bv32 {
    a ^ b
  }

  function Xor(a: Word, b: Word): Word {
    Word(XorBits(a.bits, b.bits))
  }

  /** Feeding one zero bit: the remainder of the word times the polynomial's indeterminate. */
  function ZeroBit(l: Word): Word {
    Word(ShiftOut(l.bits))
  }

  function ShiftOut(l: bv32): bv32 {
    (l >> 1) ^ Carry(l)
  }

  function Carry(l: bv32): bv32 {
    if l & 1 == 1 then POLYNOMIAL else 0
  }

  function ZeroByte(l: Word): Word {
    ZeroBit(ZeroBit(ZeroBit(ZeroBit(ZeroBit(ZeroBit(ZeroBit(ZeroBit(l))))))))
  }

  function ZeroBytes(l: Word, n: nat): Word {
    if n == 0 then l else ZeroByte(ZeroBytes(l, n - 1))
  }

  function XorByte(a: bv8, b: bv8): bv8 {
    a ^ b
  }

  function Place(b: bv8, k: nat): bv32
    requires k < 4
  {
    var w := b as bv32;
    if k == 0 then w else if k == 1 then w << 8 else if k == 2 then w << 16 else w << 24
  }

  function Extract(l: bv32, k: nat): bv8
    requires k < 4
  {
    (if k == 0 then l & 0xff else if k == 1 then (l >> 8) & 0xff else if k == 2 then (l >> 16) & 0xff else l >> 24) as bv8
  }

  function HighBits(l: bv32): bv32 {
    l & 0xffff_ff00
  }

  function DropByte(l: bv32): bv32 {
    l >> 8
  }

  /** A byte of a word, moved to position `k` (0 is the low end). */
  function At(b: bv8, k: nat): Word
    requires k < 4
  {
    Word(Place(b, k))
  }

  function ByteOf(l: Word, k: nat): bv8
    requires k < 4
  {
    Extract(l.bits, k)
  }

  /** kByteExtensionTable: the remainder of a byte shifted out. */
  function ByteTable(c: bv8): Word {
    ZeroByte(At(c, 0))
  }

  /** kStrideExtensionTable3, 2, 1 and 0 for k = 0, 1, 2, 3: byte `k` of a word advanced by 16 bytes. */
  function StrideTable(k: nat, c: bv8): Word
    requires k < 4
  {
    ZeroBytes(At(c, k), 16)
  }

  /** STEP1. */
  function Step(l: Word, b: bv8): Word {
    Xor(ByteTable(XorByte(ByteOf(l, 0), b)), Word(DropByte(l.bits)))
  }

  function Bytewise(l: Word, data: seq<bv8>): Word {
    if data == [] then l else Step(Bytewise(l, data[..|data| - 1]), data[|data| - 1])
  }

  /** The checksum of some string, extended by `data`. */
  function Extend(crc: Word, data: seq<bv8>): Word {
    Xor(Bytewise(Xor(crc, ALL_ONES), data), ALL_ONES)
  }

  function Value(data: seq<bv8>): Word {
    Extend(Word(0), data)
  }

  // Exclusive or, with words as black boxes

  lemma BitUnits(a: bv32, b: bv32)
    ensures XorBits(a, b) == XorBits(b, a)
    ensures XorBits(0, a) == a && XorBits(a, a) == 0 && XorBits(a, 0) == a
  {
  }

  lemma BitAssociates(a: bv32, b: bv32, c: bv32)
    ensures XorBits(XorBits(a, b), c) == XorBits(a, XorBits(b, c))
  {
  }

  lemma XorLaws(a: Word, b: Word, c: Word)
    ensures Xor(a, b) == Xor(b, a)
    ensures Xor(Xor(a, b), c) == Xor(a, Xor(b, c))
    ensures Xor(Word(0), a) == a && Xor(a, a) == Word(0) && Xor(a, Word(0)) == a
  {
    hide XorBits;
    BitUnits(a.bits, b.bits);
    BitAssociates(a.bits, b.bits, c.bits);
  }

  lemma ShiftXor(x: bv32, y: bv32)
    ensures (x ^ y) >> 1 == (x >> 1) ^ (y >> 1)
    ensures (x ^ y) & 1 == (x & 1) ^ (y & 1)
    ensures (x & 1 == 0 || x & 1 == 1) && (y & 1 == 0 || y & 1 == 1)
  {
  }

  lemma CarryLinear(x: bv32, y: bv32)
    ensures Carry(x ^ y) == Carry(x) ^ Carry(y)
  {
    ShiftXor(x, y);
  }

  lemma Shuffle(a: bv32, b: bv32, c: bv32, d: bv32)
    ensures (a ^ b) ^ (c ^ d) == (a ^ c) ^ (b ^ d)
  {
  }

  lemma BitLinear(x: bv32, y: bv32)
    ensures ShiftOut(XorBits(x, y)) == XorBits(ShiftOut(x), ShiftOut(y))
  {
    hide Carry;
    ShiftXor(x, y);
    CarryLinear(x, y);
    Shuffle(x >> 1, y >> 1, Carry(x), Carry(y));
  }

  lemma ZeroBitLinear(x: Word, y: Word)
    ensures ZeroBit(Xor(x, y)) == Xor(ZeroBit(x), ZeroBit(y))
  {
    hide ShiftOut, XorBits;
    BitLinear(x.bits, y.bits);
  }

  lemma ZeroByteLinear(x: Word, y: Word)
    ensures ZeroByte(Xor(x, y)) == Xor(ZeroByte(x), ZeroByte(y))
  {
    hide Xor, ZeroBit;
    ZeroBitLinear(x, y);
    var x1, y1 := ZeroBit(x), ZeroBit(y);
    ZeroBitLinear(x1, y1);
    var x2, y2 := ZeroBit(x1), ZeroBit(y1);
    ZeroBitLinear(x2, y2);
    var x3, y3 := ZeroBit(x2), ZeroBit(y2);
    ZeroBitLinear(x3, y3);
    var x4, y4 := ZeroBit(x3), ZeroBit(y3);
    ZeroBitLinear(x4, y4);
    var x5, y5 := ZeroBit(x4), ZeroBit(y4);
    ZeroBitLinear(x5, y5);
    var x6, y6 := ZeroBit(x5), ZeroBit(y5);
    ZeroBitLinear(x6, y6);
    var x7, y7 := ZeroBit(x6), ZeroBit(y6);
    ZeroBitLinear(x7, y7);
  }

  lemma {:induction false} ZeroBytesLinear(x: Word, y: Word, n: nat)
    ensures ZeroBytes(Xor(x, y), n) == Xor(ZeroBytes(x, n), ZeroBytes(y, n))
  {
    hide Xor, ZeroByte;
    if n > 0 {
      ZeroBytesLinear(x, y, n - 1);
      ZeroByteLinear(ZeroBytes(x, n - 1), ZeroBytes(y, n - 1));
    }
  }

  lemma {:induction false} ZeroBytesAdd(x: Word, m: nat, n: nat)
    ensures ZeroBytes(ZeroBytes(x, m), n) == ZeroBytes(x, m + n)
  {
    hide ZeroByte;
    if n > 0 {
      ZeroBytesAdd(x, m, n - 1);
    }
  }

  lemma ByteClear(x: bv32)
    requires x & 0xff == 0
    ensures x & 1 == 0 && (x >> 1) & 1 == 0 && ((x >> 1) >> 1) & 1 == 0 && (((x >> 1) >> 1) >> 1) & 1 == 0
    ensures ((((x >> 1) >> 1) >> 1) >> 1) & 1 == 0 && (((((x >> 1) >> 1) >> 1) >> 1) >> 1) & 1 == 0
    ensures ((((((x >> 1) >> 1) >> 1) >> 1) >> 1) >> 1) & 1 == 0 && (((((((x >> 1) >> 1) >> 1) >> 1) >> 1) >> 1) >> 1) & 1 == 0
    ensures (((((((x >> 1) >> 1) >> 1) >> 1) >> 1) >> 1) >> 1) >> 1 == x >> 8
  {
  }

  /** A word whose low byte is zero is only shifted. */
  lemma ZeroByteShift(l: Word)
    requires l.bits & 0xff == 0
    ensures ZeroByte(l) == Word(DropByte(l.bits))
  {
    ByteClear(l.bits);
  }

  lemma SplitLow(l: bv32, b: bv8)
    ensures XorBits(Place(XorByte(Extract(l, 0), b), 0), HighBits(l)) == XorBits(l, Place(b, 0))
    ensures HighBits(l) & 0xff == 0 && DropByte(HighBits(l)) == DropByte(l)
  {
  }

  /** STEP1 feeds the byte into the low end and shifts out eight bits. */
  lemma StepIsZeroByte(l: Word, b: bv8)
    ensures Step(l, b) == ZeroByte(Xor(l, At(b, 0)))
  {
    hide ZeroByte, XorBits, XorByte, Place, Extract, HighBits, DropByte;
    var low, high := At(XorByte(ByteOf(l, 0), b), 0), Word(HighBits(l.bits));
    SplitLow(l.bits, b);
    ZeroByteLinear(low, high);
    ZeroByteShift(high);
  }

  lemma MoveByte(b: bv8, k: nat)
    requires 0 < k < 4
    ensures Place(b, k) & 0xff == 0 && DropByte(Place(b, k)) == Place(b, k - 1)
  {
    MoveBits(b as bv32) by { ByteIsLow(b); }
  }

  lemma MoveBits(b: bv32)
    requires b & 0xffff_ff00 == 0
    ensures (b << 8) & 0xff == 0 && (b << 8) >> 8 == b
    ensures (b << 16) & 0xff == 0 && (b << 16) >> 8 == b << 8
    ensures (b << 24) & 0xff == 0 && (b << 24) >> 8 == b << 16
  {
  }

  lemma ByteIsLow(b: bv8)
    ensures (b as bv32) & 0xffff_ff00 == 0
  {
  }

  /** A byte `k` places up reaches the low end after `k` zero bytes. */
  lemma ByteComesDown(b: bv8, k: nat)
    requires k < 4
    ensures ZeroBytes(At(b, k), k) == At(b, 0)
  {
    hide ZeroByte, Place, DropByte;
    if k > 0 {
      MoveByte(b, k);
      ZeroByteShift(At(b, k));
      ZeroBytesAdd(At(b, k), 1, k - 1);
      assert ZeroBytes(At(b, k), 1) == ZeroByte(ZeroBytes(At(b, k), 0));
      ByteComesDown(b, k - 1);
    }
  }

  /** Feeding a byte after `k` others is feeding it `k` places up before them. */
  lemma Absorb(x: Word, b: bv8, k: nat)
    requires k < 4
    ensures Step(ZeroBytes(x, k), b) == ZeroBytes(Xor(x, At(b, k)), k + 1)
  {
    hide ZeroByte, Xor, Step, At;
    StepIsZeroByte(ZeroBytes(x, k), b);
    ByteComesDown(b, k);
    ZeroBytesLinear(x, At(b, k), k);
  }

  /** ReadUint32LE. */
  function Load(data: seq<bv8>, p: nat): Word
    requires p + 4 <= |data|
  {
    Xor(Xor(Xor(At(data[p], 0), At(data[p + 1], 1)), At(data[p + 2], 2)), At(data[p + 3], 3))
  }

  /** Four bytes at once: the word goes in first, then four zero bytes. */
  lemma FourBytes(l: Word, data: seq<bv8>, p: nat)
    requires p + 4 <= |data|
    ensures Bytewise(l, data[..p + 4]) == ZeroBytes(Xor(Bytewise(l, data[..p]), Load(data, p)), 4)
  {
    hide ZeroByte, Xor, Step, At;
    var x := Bytewise(l, data[..p]);
    BytewiseStep(l, data, p);
    BytewiseStep(l, data, p + 1);
    BytewiseStep(l, data, p + 2);
    BytewiseStep(l, data, p + 3);
    assert ZeroBytes(x, 0) == x;
    var x0 := Xor(x, At(data[p], 0));
    var x1 := Xor(x0, At(data[p + 1], 1));
    var x2 := Xor(x1, At(data[p + 2], 2));
    Absorb(x, data[p], 0);
    Absorb(x0, data[p + 1], 1);
    Absorb(x1, data[p + 2], 2);
    Absorb(x2, data[p + 3], 3);
    var a, b, c, d := At(data[p], 0), At(data[p + 1], 1), At(data[p + 2], 2), At(data[p + 3], 3);
    XorLaws(x, a, b);
    XorLaws(x, Xor(a, b), c);
    XorLaws(x, Xor(Xor(a, b), c), d);
  }

  lemma BytewiseStep(l: Word, data: seq<bv8>, p: nat)
    requires p < |data|
    ensures Bytewise(l, data[..p + 1]) == Step(Bytewise(l, data[..p]), data[p])
  {
    hide Step;
    assert data[..p + 1][..p] == data[..p];
  }

  /** One stride of a word through the four tables. */
  function Stride(c: Word): Word {
    Xor(Xor(Xor(StrideTable(0, ByteOf(c, 0)), StrideTable(1, ByteOf(c, 1))), StrideTable(2, ByteOf(c, 2))), StrideTable(3, ByteOf(c, 3)))
  }

  lemma Bytes(c: bv32)
    ensures c == XorBits(XorBits(XorBits(Place(Extract(c, 0), 0), Place(Extract(c, 1), 1)), Place(Extract(c, 2), 2)), Place(Extract(c, 3), 3))
  {
  }

  /** The four tables together advance a word by sixteen bytes. */
  lemma StrideAdvances(c: Word)
    ensures Stride(c) == ZeroBytes(c, 16)
  {
    hide ZeroBytes, XorBits, Place, Extract;
    var a, b, d, e := At(ByteOf(c, 0), 0), At(ByteOf(c, 1), 1), At(ByteOf(c, 2), 2), At(ByteOf(c, 3), 3);
    Bytes(c.bits);
    assert c == Xor(Xor(Xor(a, b), d), e);
    ZeroBytesLinear(Xor(Xor(a, b), d), e, 16);
    ZeroBytesLinear(Xor(a, b), d, 16);
    ZeroBytesLinear(a, b, 16);
  }

  /** The checksum that the four partial results stand for. */
  function Combine(c0: Word, c1: Word, c2: Word, c3: Word): Word {
    ZeroBytes(Xor(c3, ZeroBytes(Xor(c2, ZeroBytes(Xor(c1, ZeroBytes(c0, 4)), 4)), 4)), 4)
  }

  /** Feeding a word into the oldest partial result, which becomes the newest, feeds four bytes. */
  lemma CombineRotates(c0: Word, c1: Word, c2: Word, c3: Word, w: Word)
    ensures Combine(c1, c2, c3, Xor(w, ZeroBytes(c0, 16))) == ZeroBytes(Xor(Combine(c0, c1, c2, c3), w), 4)
  {
    hide ZeroBytes, Xor;
    var p1, q1 := ZeroBytes(c1, 4), ZeroBytes(ZeroBytes(c0, 4), 4);
    PullOut(c1, ZeroBytes(c0, 4), c2);
    var p2, q2 := ZeroBytes(Xor(c2, p1), 4), ZeroBytes(q1, 4);
    PullOut(Xor(c2, p1), q1, c3);
    var p3, q3 := ZeroBytes(Xor(c3, p2), 4), ZeroBytes(q2, 4);
    ZeroBytesLinear(Xor(c3, p2), q2, 4);
    ZeroBytesAdd(c0, 4, 4);
    ZeroBytesAdd(c0, 8, 4);
    ZeroBytesAdd(c0, 12, 4);
    XorLaws(p3, q3, w);
    XorLaws(w, q3, p3);
    XorLaws(p3, Xor(w, q3), w);
  }

  lemma PullOut(a: Word, b: Word, c: Word)
    ensures Xor(c, ZeroBytes(Xor(a, b), 4)) == Xor(Xor(c, ZeroBytes(a, 4)), ZeroBytes(b, 4))
  {
    hide ZeroBytes, Xor;
    ZeroBytesLinear(a, b, 4);
    XorLaws(c, ZeroBytes(a, 4), ZeroBytes(b, 4));
  }

  /** The first swath, loaded into the partial results. */
  lemma FirstSwath(l0: Word, data: seq<bv8>, p: nat)
    requires p + 16 <= |data|
    ensures Combine(Xor(Load(data, p), Bytewise(l0, data[..p])), Load(data, p + 4), Load(data, p + 8), Load(data, p + 12)) ==
            Bytewise(l0, data[..p + 16])
  {
    hide ZeroBytes, Xor, Load, Bytewise;
    FourBytes(l0, data, p);
    FourBytes(l0, data, p + 4);
    FourBytes(l0, data, p + 8);
    FourBytes(l0, data, p + 12);
    XorLaws(Bytewise(l0, data[..p]), Load(data, p), Word(0));
    XorLaws(Bytewise(l0, data[..p + 4]), Load(data, p + 4), Word(0));
    XorLaws(Bytewise(l0, data[..p + 8]), Load(data, p + 8), Word(0));
    XorLaws(Bytewise(l0, data[..p + 12]), Load(data, p + 12), Word(0));
  }

  /** One stride of the oldest partial result. */
  lemma NextWord(l0: Word, data: seq<bv8>, p: nat, c0: Word, c1: Word, c2: Word, c3: Word)
    requires p + 4 <= |data| && Combine(c0, c1, c2, c3) == Bytewise(l0, data[..p])
    ensures Combine(c1, c2, c3, Xor(Load(data, p), Stride(c0))) == Bytewise(l0, data[..p + 4])
  {
    hide ZeroBytes, Xor, Load, Bytewise, Stride, Combine;
    StrideAdvances(c0);
    CombineRotates(c0, c1, c2, c3, Load(data, p));
    FourBytes(l0, data, p);
  }

  /** STEP4W: a partial result goes in, then four zero bytes through the byte table. */
  method FoldWord(c: Word, l: Word) returns (w: Word)
    ensures w == ZeroBytes(Xor(c, l), 4)
  {
    hide Xor, ZeroByte;
    w := Xor(c, l);
    for i := 0 to 4
      invariant w == ZeroBytes(Xor(c, l), i)
    {
      StepIsZeroByte(w, 0);
      ZeroStep(w);
      w := Xor(Word(DropByte(w.bits)), ByteTable(ByteOf(w, 0)));
    }
  }

  lemma ZeroStep(w: Word)
    ensures Xor(Word(DropByte(w.bits)), ByteTable(ByteOf(w, 0))) == ZeroByte(w)
  {
    hide Xor, ZeroByte, XorByte, Place, DropByte, Extract;
    StepIsZeroByte(w, 0);
    XorLaws(ByteTable(ByteOf(w, 0)), Word(DropByte(w.bits)), w);
    XorLaws(w, w, w);
    ZeroLaws(ByteOf(w, 0));
  }

  lemma ZeroLaws(b: bv8)
    ensures XorByte(b, 0) == b && Place(0, 0) == 0
  {
  }

  /** Extend, when the first aligned byte is `aligned` bytes into the data. */
  method ExtendStrided(crc: Word, data: seq<bv8>, aligned: nat) returns (r: Word)
    ensures r == Extend(crc, data)
  {
    hide Xor, ZeroBytes, Load, Bytewise, Stride, Combine, Step;
    var l := Xor(crc, ALL_ONES);
    ghost var l0 := l;
    var p, e := 0, |data|;
    assert Bytewise(l0, data[..0]) == l0 by { NoBytes(l0, data); }
    if aligned <= e {
      // Process bytes until p is 4-byte aligned.
      while p != aligned
        invariant 0 <= p <= aligned && l == Bytewise(l0, data[..p])
      {
        BytewiseStep(l0, data, p);
        l := Step(l, data[p]);
        p := p + 1;
      }
    }
    if e - p >= 16 {
      // Load a 16-byte swath into the stride partial results.
      var c0, c1, c2, c3 := Xor(Load(data, p), l), Load(data, p + 4), Load(data, p + 8), Load(data, p + 12);
      FirstSwath(l0, data, p);
      p := p + 16;
      // Process one 16-byte swath at a time.
      while e - p >= 16
        invariant 0 <= p <= e && Combine(c0, c1, c2, c3) == Bytewise(l0, data[..p])
      {
        var d0 := Xor(Load(data, p), Stride(c0));
        var d1 := Xor(Load(data, p + 4), Stride(c1));
        var d2 := Xor(Load(data, p + 8), Stride(c2));
        var d3 := Xor(Load(data, p + 12), Stride(c3));
        NextWord(l0, data, p, c0, c1, c2, c3);
        NextWord(l0, data, p + 4, c1, c2, c3, d0);
        NextWord(l0, data, p + 8, c2, c3, d0, d1);
        NextWord(l0, data, p + 12, c3, d0, d1, d2);
        c0, c1, c2, c3 := d0, d1, d2, d3;
        p := p + 16;
      }
      // Advance one word at a time as far as possible.
      while e - p >= 4
        invariant 0 <= p <= e && Combine(c0, c1, c2, c3) == Bytewise(l0, data[..p])
      {
        NextWord(l0, data, p, c0, c1, c2, c3);
        c0, c1, c2, c3 := c1, c2, c3, Xor(Load(data, p), Stride(c0));
        p := p + 4;
      }
      // Combine the 4 partial stride results.
      l := CombineWords(c0, c1, c2, c3);
    }
    // Process the last few bytes.
    while p != e
      invariant 0 <= p <= e && l == Bytewise(l0, data[..p])
    {
      BytewiseStep(l0, data, p);
      l := Step(l, data[p]);
      p := p + 1;
    }
    assert data[..e] == data;
    return Xor(l, ALL_ONES);
  }

  method CombineWords(c0: Word, c1: Word, c2: Word, c3: Word) returns (l: Word)
    ensures l == Combine(c0, c1, c2, c3)
  {
    hide Xor, ZeroBytes;
    XorLaws(c0, c0, c0);
    l := FoldWord(c0, Word(0));
    l := FoldWord(c1, l);
    l := FoldWord(c2, l);
    l := FoldWord(c3, l);
  }

  lemma NoBytes(l: Word, data: seq<bv8>)
    ensures Bytewise(l, data[..0]) == l
  {
  }

  lemma {:induction false} BytewiseAppend(l: Word, a: seq<bv8>, b: seq<bv8>)
    ensures Bytewise(l, a + b) == Bytewise(Bytewise(l, a), b)
  {
    hide Step;
    if b == [] {
      assert a + b == a;
    } else {
      BytewiseAppend(l, a, b[..|b| - 1]);
      assert (a + b)[..|a + b| - 1] == a + b[..|b| - 1];
    }
  }

  /** Extending over two strings in turn is extending over both at once. */
  lemma ExtendAppend(crc: Word, a: seq<bv8>, b: seq<bv8>)
    ensures Extend(Extend(crc, a), b) == Extend(crc, a + b)
  {
    hide Xor, Bytewise;
    var l := Bytewise(Xor(crc, ALL_ONES), a);
    XorLaws(l, ALL_ONES, ALL_ONES);
    XorLaws(l, l, l);
    XorLaws(ALL_ONES, ALL_ONES, ALL_ONES);
    BytewiseAppend(Xor(crc, ALL_ONES), a, b);
  }

  const MASK_DELTA: bv32 := 0xa282_ead8

  function RotateRight(x: bv32): bv32 {
    (x >> 15) | (x << 17)
  }

  function RotateLeft(x: bv32): bv32 {
    (x >> 17) | (x << 15)
  }

  /** Rotate right by 15 bits and add a constant. */
  function MaskBits(crc: bv32): bv32 {
    RotateRight(crc) + MASK_DELTA
  }

  function UnmaskBits(masked: bv32): bv32 {
    RotateLeft(masked - MASK_DELTA)
  }

  function Mask(crc: Word): Word {
    Word(MaskBits(crc.bits))
  }

  function Unmask(masked: Word): Word {
    Word(UnmaskBits(masked.bits))
  }

  lemma MaskRoundTrip(crc: Word)
    ensures Unmask(Mask(crc)) == crc
  {
    hide MaskBits, UnmaskBits;
    RotateBack(crc.bits);
  }

  lemma UnmaskRoundTrip(masked: Word)
    ensures Mask(Unmask(masked)) == masked
  {
    hide MaskBits, UnmaskBits;
    RotateForth(masked.bits);
  }

  lemma RotateBack(x: bv32)
    ensures UnmaskBits(MaskBits(x)) == x
  {
    hide RotateRight, RotateLeft;
    RotatedBack(x);
    DeltaTaken(RotateRight(x));
  }

  lemma RotatedBack(x: bv32)
    ensures RotateLeft(RotateRight(x)) == x && RotateRight(RotateLeft(x)) == x
  {
  }

  lemma DeltaTaken(x: bv32)
    ensures x + MASK_DELTA - MASK_DELTA == x && x - MASK_DELTA + MASK_DELTA == x
  {
  }

  lemma RotateForth(x: bv32)
    ensures MaskBits(UnmaskBits(x)) == x
  {
    hide RotateRight, RotateLeft;
    RotatedBack(x - MASK_DELTA);
    DeltaTaken(x);
  }
}
