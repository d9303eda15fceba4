/**
 * Decoding what was encoded. A decoded message has the values of the fields that were present, and
 * defaults elsewhere; it comes back unless a string fills its buffer and leaves no room for a terminator.
 */
module PbRoundTrip {
  import opened Wrappers
  import opened Coding
  import opened PbCommon
  import opened PbEncode
  import opened PbDecode

  // Variable-length integers

  lemma Shifts()
    ensures ShiftLeft(1, 7) == 0x80 && ShiftLeft(1, 14) == 0x4000 && ShiftLeft(1, 21) == 0x20_0000 && ShiftLeft(1, 28) == 0x1000_0000
  {
    ShiftsBy7(0);
    ShiftsBy7(7);
    ShiftsBy7(14);
    ShiftsBy7(21);
  }

  lemma ShiftsBy7(n: nat)
    ensures ShiftLeft(1, n + 7) == 128 * ShiftLeft(1, n)
  {
    assert ShiftLeft(1, n + 4) == 16 * ShiftLeft(1, n) by {
      assert ShiftLeft(1, n + 2) == 4 * ShiftLeft(1, n);
    }
    assert ShiftLeft(1, n + 6) == 4 * ShiftLeft(1, n + 4);
  }

  /** One more group of seven bits. */
  lemma OrGroup(result: nat, group: nat, bitpos: nat, unit: nat)
    requires unit == ShiftLeft(1, bitpos) && result < unit
    ensures Or(result, ShiftLeft(group, bitpos)) == result + group * unit
  {
    OrAdds(result, group, bitpos);
    ShiftScales(group, bitpos);
  }

  /** The first byte of a varint and what follows it. */
  lemma VarintParts(v: nat, rest: seq<Byte>)
    ensures var s := Varint(v) + rest; s[0] % 128 == v % 128 && (s[0] >= 128 <==> v >= 128)
    ensures var s := Varint(v) + rest; s[1..] == if v < 128 then rest else Varint(v / 128) + rest
    ensures var s := Varint(v) + rest; v < 16 ==> s[0] / 16 % 8 == 0
    ensures var s := Varint(v) + rest; v < 128 ==> s[0] == v && v % 128 == v
  {
    FirstGroup(v);
    VarintOpens(v);
    hide Varint;
    assert (Varint(v) + rest)[1..] == Varint(v)[1..] + rest;
  }

  lemma FirstGroup(v: nat)
    ensures (v % 128 + 128) % 128 == v % 128 && (v < 128 ==> v % 128 == v) && (v < 16 ==> v / 16 % 8 == 0)
  {
  }

  lemma VarintOpens(v: nat)
    ensures var s := Varint(v); s[0] == (if v < 128 then v else v % 128 + 128) && s[1..] == if v < 128 then [] else Varint(v / 128)
  {
  }

  lemma Distributes(a: nat, b: nat, c: nat)
    ensures (a + b) * c == a * c + b * c
  {
  }

  lemma Reassociates(a: nat, b: nat)
    ensures (128 * a) * b == a * (128 * b)
  {
  }

  lemma ProductsGrow(a: nat, b: nat, c: nat)
    requires a <= b
    ensures a * c <= b * c
  {
    Distributes(a, b - a, c);
  }

  lemma SplitProduct(v: nat, group: nat, more: nat, unit: nat)
    requires v == group + 128 * more && group <= 127
    ensures v * unit == group * unit + more * (128 * unit)
    ensures group * unit <= 127 * unit && group * unit <= v * unit
  {
    Distributes(group, 128 * more, unit);
    Reassociates(more, unit);
    ProductsGrow(group, 127, unit);
    ProductsGrow(group, v, unit);
  }

  lemma Below16(v: nat)
    requires v * 0x1000_0000 < U32
    ensures v < 16
  {
  }

  lemma MoreStep(s: seq<Byte>, bitpos: nat, result: nat, result': nat)
    requires s != [] && bitpos in {7, 14, 21, 28} && result' == Or(result, ShiftLeft(s[0] % 128, bitpos)) % U32
    ensures Varint32More(s, bitpos, result) ==
      if s[0] >= 128 then Varint32More(s[1..], bitpos + 7, result')
      else if bitpos == 28 && s[0] / 16 % 8 != 0 then None
      else Some((result', s[1..]))
  {
    hide Or, ShiftLeft;
  }

  lemma {:induction false} Varint32MoreReads(v: nat, rest: seq<Byte>, bitpos: nat, unit: nat, result: nat)
    requires bitpos in {7, 14, 21, 28} && unit == ShiftLeft(1, bitpos) && result < unit
    requires result + v * unit < U32
    ensures Varint32More(Varint(v) + rest, bitpos, result) == Some((result + v * unit, rest))
    decreases v
  {
    hide Or, ShiftLeft, Varint, Varint32More;
    Shifts();
    var s := Varint(v) + rest;
    VarintParts(v, rest);
    SplitProduct(v, v % 128, v / 128, unit);
    OrGroup(result, v % 128, bitpos, unit);
    var result' := result + (v % 128) * unit;
    MoreStep(s, bitpos, result, result');
    if bitpos == 28 {
      Below16(v);
    } else if v >= 128 {
      Varint32MoreReads(v / 128, rest, bitpos + 7, 128 * unit, result');
    }
  }

  lemma Varint32Reads(v: nat, rest: seq<Byte>)
    requires v < U32
    ensures Varint32(Varint(v) + rest) == Some((v, rest))
  {
    hide Varint32More, Varint, ShiftLeft;
    Shifts();
    VarintParts(v, rest);
    if v >= 128 {
      Varint32MoreReads(v / 128, rest, 7, 128, v % 128);
    }
  }

  lemma Varint64Reads(v: nat, rest: seq<Byte>)
    requires v < U64
    ensures Varint64(Varint(v) + rest) == Some((v, rest))
  {
    GetVarintRoundTrip(v, rest);
    assert (Varint(v) + rest)[|Varint(v)|..] == rest;
  }

  // Values

  /** The two's complement of `n`, cast back. */
  lemma CastBack(n: int, v: int, size: nat)
    requires size in {1, 2, 4, 8} && InSigned(n, size) && v == if n < 0 then n + U64 else n
    ensures Signed(v, size) == n
  {
    hide Pow256;
    Widths();
    if size == 1 {
      assert v % 0x100 == if n < 0 then n + 0x100 else n;
    } else if size == 2 {
      assert v % 0x1_0000 == if n < 0 then n + 0x1_0000 else n;
    } else if size == 4 {
      assert v % U32 == if n < 0 then n + U32 else n;
    }
  }

  lemma CastSame(n: int, size: nat)
    requires InSigned(n, size)
    ensures Signed(n, size) == n
  {
    hide Pow256;
    ModBelow(n, Pow256(size));
  }

  /** The remainder of a number not far from 0. */
  lemma ModBelow(n: int, p: nat)
    requires 0 <= n + p && n < p
    ensures n % p == if n < 0 then n + p else n
  {
    var q, r := n / p, n % p;
    assert n == q * p + r;
    Negates(q, p);
    if q > 0 {
      ProductsGrow(1, q, p);
    } else if q < -1 {
      ProductsGrow(2, -q, p);
    }
  }

  lemma Negates(a: int, b: int)
    ensures -a * b == -(a * b)
  {
  }

  lemma InWord(n: int, size: nat)
    requires size in {1, 2, 4, 8} && InSigned(n, size)
    ensures InSigned(n, 8) && (size != 8 ==> InSigned(n, 4))
  {
    hide Pow256;
    Widths();
  }

  lemma VarintComesBack(f: Field, n: int)
    requires f.ltype.VarintType? && f.dataSize in {1, 2, 4, 8} && InSigned(n, f.dataSize)
    ensures n % U64 < U64 && Clamp(f, n % U64) == Some(n)
  {
    hide Signed, InSigned;
    InWord(n, f.dataSize);
    InSignedMod(n);
    CastBack(n, n % U64, if f.dataSize == 8 then 8 else 4);
    CastSame(n, f.dataSize);
  }

  lemma InSignedMod(n: int)
    requires InSigned(n, 8)
    ensures n % U64 == if n < 0 then n + U64 else n
  {
    hide Pow256;
    Widths();
  }

  lemma SVarintComesBack(f: Field, n: int)
    requires f.ltype.SVarintType? && f.dataSize in {1, 2, 4, 8} && InSigned(n, f.dataSize)
    ensures ZigZag(n) < U64 && Clamp(f, ZigZag(n)) == Some(n)
  {
    InWord(n, f.dataSize);
    UnZigZags(n);
    CastSame(n, f.dataSize);
    hide Signed, InSigned, ZigZag, UnZigZag;
  }

  lemma UnZigZags(n: int)
    requires InSigned(n, 8)
    ensures ZigZag(n) < U64 && UnZigZag(ZigZag(n)) == n
  {
    hide Signed, InSigned;
    ZigZagInterleaves(n);
    if n < 0 {
      assert (-2 * n - 1) % 2 == 1 && (-2 * n - 1) / 2 == -n - 1;
      CastBack(n, n + U64, 8);
    } else {
      CastBack(n, n, 8);
    }
  }

  lemma UVarintComesBack(f: Field, n: nat)
    requires f.ltype.UVarintType? && f.dataSize in {1, 2, 4, 8} && n < Pow256(f.dataSize)
    ensures n < U64 && Clamp(f, n) == Some(n)
  {
    hide Pow256;
    Widths();
  }

  lemma {:induction false} CStringWhole(bytes: seq<Byte>)
    requires 0 !in bytes
    ensures CString(bytes) == bytes
  {
    if bytes != [] {
      CStringWhole(bytes[1..]);
      assert [bytes[0]] + bytes[1..] == bytes;
    }
  }

  lemma UndelimitReads(payload: seq<Byte>, rest: seq<Byte>)
    requires |payload| < U32
    ensures Undelimit(Delimited(payload) + rest) == Some((payload, rest))
  {
    hide Varint32, Varint;
    Varint32Reads(|payload|, payload + rest);
    assert Delimited(payload) + rest == Varint(|payload|) + (payload + rest);
    assert (payload + rest)[..|payload|] == payload && (payload + rest)[|payload|..] == rest;
  }

  lemma FixedReads(n: nat, width: nat, rest: seq<Byte>)
    requires width > 0 && n < Pow256(width)
    ensures ReadFixed(Fixed(n, width) + rest, width) == Some((Num(n), rest))
  {
    FixedRoundTrip(n, width);
    assert (Fixed(n, width) + rest)[..width] == Fixed(n, width) && (Fixed(n, width) + rest)[width..] == rest;
  }

  /** A string shorter than its buffer, so that the decoder can terminate it; and so in every present field. */
  predicate TerminatedValue(f: Field, v: Value)
    requires TypedValue(f, v)
    decreases f, 0
  {
    && (f.ltype.StringType? ==> |v.bytes| < f.dataSize)
    && (f.ltype.SubmessageType? ==> Terminated(f.sub, v.slots))
  }

  predicate TerminatedItems(f: Field, items: seq<Value>)
    requires forall k :: 0 <= k < |items| ==> TypedValue(f, items[k])
    decreases f, 1
  {
    forall k :: 0 <= k < |items| ==> TerminatedValue(f, items[k])
  }

  predicate TerminatedSlot(f: Field, slot: Slot)
    requires TypedSlot(f, slot)
    decreases f, 2
  {
    if f.rule.Repeated? then TerminatedItems(f, slot.items)
    else Present(f, slot) ==> TerminatedValue(f, slot.value)
  }

  predicate TerminatedFrom(fields: seq<Field>, m: seq<Slot>, i: nat)
    requires TypedMessage(fields, m)
    decreases fields, 0
  {
    forall j :: i <= j < |fields| ==> TerminatedSlot(fields[j], m[SlotAt(fields, j)])
  }

  predicate Terminated(fields: seq<Field>, m: seq<Slot>)
    requires TypedMessage(fields, m)
    decreases fields, 1
  {
    TerminatedFrom(fields, m, 0)
  }

  lemma NumberDecodes(f: Field, v: Value, rest: seq<Byte>)
    requires ValidField(f) && TypedValue(f, v) && Packable(f.ltype)
    ensures EncodeValue(f, v).Some? && DecodeValue(f, EncodeValue(f, v).value + rest) == Some((v, rest))
  {
    hide Varint32, Varint64, ReadFixed, Clamp, Varint, Fixed, ZigZag, Pow256;
    Widths();
    match f.ltype
    case BoolType => Varint32Reads(v.n, rest);
    case VarintType =>
      VarintComesBack(f, v.n);
      Varint64Reads(v.n % U64, rest);
    case SVarintType =>
      SVarintComesBack(f, v.n);
      Varint64Reads(ZigZag(v.n), rest);
    case UVarintType =>
      UVarintComesBack(f, v.n);
      Varint64Reads(v.n, rest);
    case Fixed32Type => FixedReads(v.n, 4, rest);
    case Fixed64Type => FixedReads(v.n, 8, rest);
  }

  lemma TextDecodes(f: Field, v: Value, rest: seq<Byte>)
    requires TypedValue(f, v) && f.ltype in {BytesType, StringType, FixedBytesType}
    requires EncodeValue(f, v).Some? && |EncodeValue(f, v).value| < U32
    ensures DecodeValue(f, EncodeValue(f, v).value + rest) == if TerminatedValue(f, v) then Some((v, rest)) else None
  {
    hide Undelimit, Varint;
    UndelimitReads(v.bytes, rest);
    if f.ltype.StringType? {
      CStringWhole(v.bytes);
    }
  }

  lemma {:induction false} PackedDecodes(f: Field, items: seq<Value>, done: seq<Value>)
    requires ValidField(f) && Packable(f.ltype) && (forall k :: 0 <= k < |items| ==> TypedValue(f, items[k]))
    requires |done| + |items| <= f.arraySize
    ensures EncodePacked(f, items).Some?
    ensures DecodePacked(f, EncodePacked(f, items).value, done) == Some(done + items)
    decreases |items|
  {
    hide EncodeValue, DecodeValue, ValidField, TypedValue;
    if items == [] {
      assert done + items == done;
    } else {
      PackedDecodes(f, items[1..], done + [items[0]]);
      NumberDecodes(f, items[0], EncodePacked(f, items[1..]).value);
      NumberNotEmpty(f, items[0]);
      assert done + [items[0]] + items[1..] == done + items;
    }
  }

  lemma NumberNotEmpty(f: Field, v: Value)
    requires ValidField(f) && TypedValue(f, v) && Packable(f.ltype)
    ensures EncodeValue(f, v).Some? && EncodeValue(f, v).value != []
  {
    NumberDecodes(f, v, []);
  }

  // The message that comes back

  /** A value with the absent fields of every submessage at their defaults. */
  function ExpectedValue(f: Field, v: Value): (r: Value)
    requires TypedValue(f, v)
    ensures ShapedValue(f, r)
    decreases f, 0
  {
    if f.ltype.SubmessageType? then Message(Expected(f.sub, v.slots)) else v
  }

  function ExpectedItems(f: Field, items: seq<Value>): (r: seq<Value>)
    requires forall k :: 0 <= k < |items| ==> TypedValue(f, items[k])
    ensures |r| == |items| && forall k :: 0 <= k < |items| ==> r[k] == ExpectedValue(f, items[k])
    decreases f, 1, |items|
  {
    if items == [] then [] else ExpectedItems(f, items[..|items| - 1]) + [ExpectedValue(f, items[|items| - 1])]
  }

  function ExpectedSlot(f: Field, slot: Slot): (r: Slot)
    requires TypedSlot(f, slot) && Present(f, slot)
    ensures ShapedSlot(f, r)
    decreases f, 2
  {
    match f.rule
    case Required => Single(ExpectedValue(f, slot.value))
    case Optional(hasFlag) => if hasFlag then Maybe(true, ExpectedValue(f, slot.value)) else Single(ExpectedValue(f, slot.value))
    case Repeated(_) => Many(ExpectedItems(f, slot.items))
    case OneOf(_) => Union(f.tag, ExpectedValue(f, slot.value))
  }

  /** The defaults, with the present ones of the first `n` fields put in. */
  function ExpectedUpTo(fields: seq<Field>, m: seq<Slot>, n: nat): (r: seq<Slot>)
    requires TypedMessage(fields, m) && n <= |fields|
    ensures Shaped(fields, r)
    decreases fields, n
  {
    if n == 0 then
      DefaultsShaped(fields);
      Defaults(fields)
    else
      WithPresent(fields, m, n - 1, ExpectedUpTo(fields, m, n - 1))
  }

  /** Field `i` put in if it is present. */
  function WithPresent(fields: seq<Field>, m: seq<Slot>, i: nat, before: seq<Slot>): (r: seq<Slot>)
    requires TypedMessage(fields, m) && i < |fields| && Shaped(fields, before)
    ensures Shaped(fields, r)
    decreases fields, 0
  {
    var f, slot := fields[i], m[SlotAt(fields, i)];
    if !Present(f, slot) then before
    else
      SetShaped(fields, before, i, ExpectedSlot(f, slot));
      before[SlotAt(fields, i) := ExpectedSlot(f, slot)]
  }

  function Expected(fields: seq<Field>, m: seq<Slot>): (r: seq<Slot>)
    requires TypedMessage(fields, m)
    ensures Shaped(fields, r)
    decreases fields, |fields| + 1
  {
    ExpectedUpTo(fields, m, |fields|)
  }

  lemma ExpectedStep(fields: seq<Field>, m: seq<Slot>, n: nat)
    requires TypedMessage(fields, m) && n < |fields|
    ensures SlotAt(fields, n) < |m| && TypedSlot(fields[n], m[SlotAt(fields, n)])
    ensures |ExpectedUpTo(fields, m, n)| == |m|
    ensures ExpectedUpTo(fields, m, n + 1) ==
      if Present(fields[n], m[SlotAt(fields, n)])
      then ExpectedUpTo(fields, m, n)[SlotAt(fields, n) := ExpectedSlot(fields[n], m[SlotAt(fields, n)])]
      else ExpectedUpTo(fields, m, n)
  {
    hide ShapedSlot, ExpectedSlot, Present, TypedSlot;
  }

  lemma DifferentTags(fields: seq<Field>, i: nat, j: nat)
    requires ValidFields(fields) && i < j < |fields|
    ensures fields[i].tag != fields[j].tag
  {
  }

  lemma OneTag(f: Field, g: Field, slot: Slot)
    requires f.rule.OneOf? && g.rule.OneOf? && f.tag != g.tag && TypedSlot(f, slot) && TypedSlot(g, slot)
    ensures !Present(f, slot) || !Present(g, slot)
  {
    hide TypedValue;
  }

  lemma ExpectedStart(fields: seq<Field>, m: seq<Slot>, i: nat)
    requires TypedMessage(fields, m) && i < |fields|
    ensures SlotAt(fields, i) < |m| && ExpectedUpTo(fields, m, 0)[SlotAt(fields, i)] == DefaultSlot(fields[i])
  {
    hide TypedSlot, ShapedSlot, DefaultSlot;
    DefaultAt(fields, i);
  }

  /** Of the fields in one slot only one is present. */
  lemma OnePresent(fields: seq<Field>, m: seq<Slot>, i: nat, j: nat)
    requires ValidFields(fields) && TypedMessage(fields, m) && i < j < |fields| && SlotAt(fields, i) == SlotAt(fields, j)
    ensures SlotAt(fields, i) < |m| && TypedSlot(fields[i], m[SlotAt(fields, i)]) && TypedSlot(fields[j], m[SlotAt(fields, i)])
    ensures !Present(fields[i], m[SlotAt(fields, i)]) || !Present(fields[j], m[SlotAt(fields, i)])
  {
    SlotsAscend(fields, i, j);
    ExpectedStep(fields, m, i);
    ExpectedStep(fields, m, j);
    DifferentTags(fields, i, j);
    hide *;
    OneTag(fields[i], fields[j], m[SlotAt(fields, i)]);
  }

  /** What was put in stays. */
  lemma {:induction false} KeptAt(fields: seq<Field>, m: seq<Slot>, j: nat, n: nat)
    requires ValidFields(fields) && TypedMessage(fields, m) && j < n <= |fields|
    requires Present(fields[j], m[SlotAt(fields, j)])
    ensures ExpectedUpTo(fields, m, n)[SlotAt(fields, j)] == ExpectedSlot(fields[j], m[SlotAt(fields, j)])
    decreases n
  {
    hide *;
    ExpectedStep(fields, m, j);
    ExpectedStep(fields, m, n - 1);
    if j < n - 1 {
      KeptAt(fields, m, j, n - 1);
      if SlotAt(fields, j) == SlotAt(fields, n - 1) {
        OnePresent(fields, m, j, n - 1);
      }
    }
  }

  /** A slot that no field stored in it was present for is still at its default. */
  lemma {:induction false} DefaultStays(fields: seq<Field>, m: seq<Slot>, i: nat, n: nat)
    requires TypedMessage(fields, m) && n <= |fields| && i < |fields|
    requires forall j :: 0 <= j < n && SlotAt(fields, j) == SlotAt(fields, i) ==> !Present(fields[j], m[SlotAt(fields, j)])
    ensures ExpectedUpTo(fields, m, n)[SlotAt(fields, i)] == DefaultSlot(fields[i])
    decreases n
  {
    hide *;
    ExpectedStart(fields, m, i);
    if n > 0 {
      ExpectedStep(fields, m, n - 1);
      DefaultStays(fields, m, i, n - 1);
    }
  }

  /**
   * Field by field: a present field comes back with its value, and where no field of a slot was present
   * there is the default.
   */
  lemma ExpectedAt(fields: seq<Field>, m: seq<Slot>, i: nat)
    requires ValidFields(fields) && TypedMessage(fields, m) && i < |fields|
    ensures
      var slot, r := m[SlotAt(fields, i)], Expected(fields, m)[SlotAt(fields, i)];
      && (Present(fields[i], slot) ==> r == ExpectedSlot(fields[i], slot))
      && ((forall j :: 0 <= j < |fields| && SlotAt(fields, j) == SlotAt(fields, i) ==> !Present(fields[j], slot)) ==> r == DefaultSlot(fields[i]))
  {
    hide TypedValue, ExpectedSlot, DefaultSlot, Present;
    var slot := m[SlotAt(fields, i)];
    if Present(fields[i], slot) {
      KeptAt(fields, m, i, |fields|);
    }
    if forall j :: 0 <= j < |fields| && SlotAt(fields, j) == SlotAt(fields, i) ==> !Present(fields[j], slot) {
      DefaultStays(fields, m, i, |fields|);
    }
  }

  // The loop of the decoder over the records of the encoder

  function SeenUpTo(fields: seq<Field>, n: nat): set<nat>
    requires n <= |fields|
  {
    if n == 0 then {} else MarkSeen(fields, SeenUpTo(fields, n - 1), n - 1)
  }

  lemma {:induction false} SeesRequired(fields: seq<Field>, n: nat)
    requires n <= |fields|
    ensures forall r: nat :: r < RequiredBefore(fields, n) && r < MAX_REQUIRED_FIELDS ==> r in SeenUpTo(fields, n)
  {
    if n > 0 {
      SeesRequired(fields, n - 1);
    }
  }

  /** Field `i` is a fixed-count array that has items. */
  predicate FixedAt(fields: seq<Field>, i: nat)
    requires i < |fields|
  {
    fields[i].rule == Repeated(false) && fields[i].arraySize > 0
  }

  function RunUpTo(fields: seq<Field>, n: nat): (r: Option<nat>)
    requires n <= |fields|
    ensures r.Some? ==> r.value < n && fields[r.value].rule == Repeated(false) && fields[r.value].arraySize > 0
  {
    if n == 0 then None else if FixedAt(fields, n - 1) then Some(n - 1) else RunUpTo(fields, n - 1)
  }

  /** The decoder once it has read the records of the first `n` fields. */
  function StateAt(fields: seq<Field>, m: seq<Slot>, n: nat): (st: Progress)
    requires TypedMessage(fields, m) && n <= |fields|
    ensures ProgressOk(fields, st)
  {
    Progress(ExpectedUpTo(fields, m, n), SeenUpTo(fields, n), RunUpTo(fields, n))
  }

  /** Every fixed-count array turned to so far got all its items. */
  lemma StateComplete(fields: seq<Field>, m: seq<Slot>, n: nat)
    requires ValidFields(fields) && TypedMessage(fields, m) && n <= |fields|
    ensures RunComplete(fields, StateAt(fields, m, n))
  {
    var run := RunUpTo(fields, n);
    if run.Some? {
      ExpectedStep(fields, m, run.value);
      hide TypedValue, ShapedSlot, ValidField, ExpectedUpTo, TypedMessage;
      KeptAt(fields, m, run.value, n);
    }
  }

  /** A key, and the record that it introduces. */
  lemma KeyReads(fields: seq<Field>, st: Progress, wireType: nat, number: nat, rest: seq<Byte>)
    requires ProgressOk(fields, st) && wireType < 8 && 0 < number < 0x2000_0000
    ensures DecodeLoop(fields, st, Tag(wireType, number) + rest) ==
      match DecodeRecord(fields, st, number, wireType, rest)
      case None => None
      case Some((st', rest')) => DecodeLoop(fields, st', rest')
  {
    hide DecodeRecord, ProgressOk, Varint, Varint32;
    var key := 8 * number + wireType;
    Varint32Reads(key, rest);
    assert key / 8 == number && key % 8 == wireType;
  }

  /** The state after a record of field `i`. */
  function Stored(fields: seq<Field>, st: Progress, i: nat, slot: Slot): (r: Progress)
    requires ProgressOk(fields, st) && i < |fields| && ShapedSlot(fields[i], slot)
    ensures ProgressOk(fields, r)
  {
    SetShaped(fields, st.m, i, slot);
    Progress(st.m[SlotAt(fields, i) := slot], MarkSeen(fields, st.seen, i), st.run)
  }

  /** A record of field `i`, when the decoder need not turn to it or can. */
  lemma RecordReads(fields: seq<Field>, st: Progress, st1: Progress, i: nat, wireType: nat, rest: seq<Byte>)
    requires ValidFields(fields) && ProgressOk(fields, st) && wireType < 8 && i < |fields| && TurnTo(fields, st, i) == Some(st1)
    ensures ShapedSlot(fields[i], st1.m[SlotAt(fields, i)])
    ensures DecodeLoop(fields, st, Tag(wireType, fields[i].tag) + rest) ==
      match DecodeSlot(fields[i], wireType, st1.m[SlotAt(fields, i)], rest)
      case None => None
      case Some((slot, rest')) => DecodeLoop(fields, Stored(fields, st1, i, slot), rest')
  {
    hide DecodeSlot, DecodeLoop, TurnTo, ShapedSlot, Tag, Varint32, SkipField;
    FieldFound(fields, i);
    KeyReads(fields, st, wireType, fields[i].tag, rest);
  }

  lemma FieldFound(fields: seq<Field>, i: nat)
    requires ValidFields(fields) && i < |fields|
    ensures IndexOf(fields, fields[i].tag) == Some(i) && 0 < fields[i].tag < 0x2000_0000
  {
    hide IndexOf;
    assert ValidField(fields[i]);
    var k := IndexOf(fields, fields[i].tag);
    assert k.Some? && fields[k.value].tag == fields[i].tag;
  }

  /** The decoder fills field `i`: a fixed-count array becomes the one being filled. */
  function Turned(fields: seq<Field>, st: Progress, i: nat): (r: Progress)
    requires ProgressOk(fields, st) && i < |fields|
    ensures ProgressOk(fields, r)
  {
    if fields[i].rule == Repeated(false) then st.(run := Some(i)) else st
  }

  lemma StateStep(fields: seq<Field>, m: seq<Slot>, i: nat)
    requires TypedMessage(fields, m) && i < |fields|
    ensures SlotAt(fields, i) < |m| && TypedSlot(fields[i], m[SlotAt(fields, i)])
    ensures StateAt(fields, m, i + 1) ==
      if Present(fields[i], m[SlotAt(fields, i)])
      then Stored(fields, Turned(fields, StateAt(fields, m, i), i), i, ExpectedSlot(fields[i], m[SlotAt(fields, i)]))
      else StateAt(fields, m, i)
  {
    hide TypedValue, ShapedSlot, TypedMessage, ExpectedUpTo, ExpectedSlot, IsDefault, Shaped, SlotAt;
    ExpectedStep(fields, m, i);
  }

  /** Before its own record a field that shares its slot with no other is at its default. */
  lemma SlotUntouched(fields: seq<Field>, m: seq<Slot>, i: nat)
    requires TypedMessage(fields, m) && i < |fields| && !fields[i].rule.OneOf?
    ensures ExpectedUpTo(fields, m, i)[SlotAt(fields, i)] == DefaultSlot(fields[i])
  {
    hide TypedValue, ShapedSlot, TypedMessage, ExpectedUpTo, Present, DefaultSlot;
    forall j | 0 <= j < i
      ensures SlotAt(fields, j) != SlotAt(fields, i)
    {
      SlotsAscend(fields, j, i);
    }
    DefaultStays(fields, m, i, i);
  }

  /** A value over the default of its field. */
  lemma {:induction false} ValueDecodes(f: Field, v: Value, rest: seq<Byte>)
    requires ValidField(f) && TypedValue(f, v) && ShapedValue(f, DefaultValue(f))
    requires EncodeValue(f, v).Some? && |EncodeValue(f, v).value| < U32
    ensures DecodeInto(f, DefaultValue(f), EncodeValue(f, v).value + rest) ==
      if TerminatedValue(f, v) then Some((ExpectedValue(f, v), rest)) else None
    decreases f, 0
  {
    if f.ltype.SubmessageType? {
      hide Undelimit, DecodeNoInit, EncodeMessage, Varint, Shaped, TypedMessage;
      var payload := EncodeMessage(f.sub, v.slots).value;
      UndelimitReads(payload, rest);
      MessageDecodes(f.sub, v.slots);
    } else if Packable(f.ltype) {
      hide DecodeValue, EncodeValue;
      NumberDecodes(f, v, rest);
    } else {
      hide DecodeValue, EncodeValue;
      TextDecodes(f, v, rest);
    }
  }

  /** A record of a field that is not repeated. */
  lemma SlotDecodes(f: Field, before: Slot, slot: Slot, rest: seq<Byte>)
    requires ValidField(f) && TypedSlot(f, slot) && Present(f, slot) && ShapedSlot(f, before)
    requires !f.rule.Repeated? && (f.rule.OneOf? || before == DefaultSlot(f))
    requires EncodeValue(f, slot.value).Some? && |EncodeValue(f, slot.value).value| < U32
    ensures DecodeSlot(f, WireTypeOf(f.ltype), before, EncodeValue(f, slot.value).value + rest) ==
      if TerminatedSlot(f, slot) then Some((ExpectedSlot(f, slot), rest)) else None
    decreases f, 1
  {
    hide TypedValue, ValidField, IsDefault, DecodeInto, EncodeValue, ExpectedValue, TerminatedValue, Shaped, DefaultValue;
    DefaultShaped(f);
    ValueDecodes(f, slot.value, rest);
  }

  lemma DefaultShaped(f: Field)
    ensures ShapedValue(f, DefaultValue(f))
  {
    hide Shaped;
    DefaultsShaped(f.sub);
  }

  /** The record of a packed array. */
  lemma PackedSlotDecodes(f: Field, items: seq<Value>, rest: seq<Byte>)
    requires ValidField(f) && f.rule.Repeated? && Packable(f.ltype) && (forall k :: 0 <= k < |items| ==> TypedValue(f, items[k]))
    requires |items| <= f.arraySize && EncodePacked(f, items).Some? && |EncodePacked(f, items).value| < U32
    ensures DecodeSlot(f, WT_STRING, Many([]), Delimited(EncodePacked(f, items).value) + rest) == Some((Many(ExpectedItems(f, items)), rest))
    ensures TerminatedItems(f, items)
  {
    hide ValidField, EncodePacked, DecodePacked, Undelimit, Delimited, TypedValue, ExpectedItems, TerminatedItems;
    PackedDecodes(f, items, []);
    UndelimitReads(EncodePacked(f, items).value, rest);
    assert [] + items == items;
    NumbersKept(f, items);
  }

  lemma NumbersKept(f: Field, items: seq<Value>)
    requires Packable(f.ltype) && forall k :: 0 <= k < |items| ==> TypedValue(f, items[k])
    ensures ExpectedItems(f, items) == items && TerminatedItems(f, items)
  {
    hide TypedValue;
  }

  lemma ItemsHead(f: Field, items: seq<Value>)
    requires forall k :: 0 <= k < |items| ==> TypedValue(f, items[k])
    ensures items == [] ==> TerminatedItems(f, items) && ExpectedItems(f, items) == []
    ensures items != [] ==>
              && (TerminatedItems(f, items) <==> TerminatedValue(f, items[0]) && TerminatedItems(f, items[1..]))
              && ExpectedItems(f, items) == [ExpectedValue(f, items[0])] + ExpectedItems(f, items[1..])
  {
    hide TypedValue, ExpectedValue, TerminatedValue;
    if items != [] {
      assert forall k :: 0 < k < |items| ==> items[k] == items[1..][k - 1];
    }
  }

  /** The records of an array that is not packed, one for each item. */
  lemma {:induction false} ItemsDecode(fields: seq<Field>, st: Progress, i: nat, done: seq<Value>, items: seq<Value>, rest: seq<Byte>)
    requires ValidFields(fields) && ProgressOk(fields, st) && i < |fields| && fields[i].rule.Repeated? && !Packable(fields[i].ltype)
    requires forall k :: 0 <= k < |items| ==> TypedValue(fields[i], items[k])
    requires EncodeTagged(fields[i], items).Some? && |EncodeTagged(fields[i], items).value| < U32
    requires |done| + |items| <= fields[i].arraySize && st.m[SlotAt(fields, i)] == Many(done)
    requires st == Turned(fields, st, i) || (done == [] && RunComplete(fields, st))
    ensures DecodeLoop(fields, st, EncodeTagged(fields[i], items).value + rest) ==
      if !TerminatedItems(fields[i], items) then None
      else if items == [] then DecodeLoop(fields, st, rest)
      else DecodeLoop(fields, Stored(fields, Turned(fields, st, i), i, Many(done + ExpectedItems(fields[i], items))), rest)
    decreases fields[i], 2, |items| + 1
  {
    hide DecodeLoop, EncodeRecord, RunComplete, ProgressOk, TypedValue, ValidFields, SlotAt, ExpectedValue, TerminatedValue, Turned, Shaped,
         ExpectedItems, TerminatedItems;
    var f := fields[i];
    ItemsHead(f, items);
    if items == [] {
      assert EncodeTagged(f, items).value + rest == rest;
    } else {
      var more := EncodeTagged(f, items[1..]).value + rest;
      var done' := done + [ExpectedValue(f, items[0])];
      ItemReads(fields, st, i, done, items[0], more);
      assert EncodeTagged(f, items).value + rest == EncodeRecord(f, items[0]).value + more;
      if TerminatedValue(f, items[0]) {
        var st1 := Stored(fields, Turned(fields, st, i), i, Many(done'));
        StoredTwice(fields, st, i, done', done' + ExpectedItems(f, items[1..]));
        ItemsDecode(fields, st1, i, done', items[1..], rest);
        assert done' + ExpectedItems(f, items[1..]) == done + ExpectedItems(f, items);
        assert items[1..] == [] ==> done' + ExpectedItems(f, items[1..]) == done';
      }
    }
  }

  lemma StoredTwice(fields: seq<Field>, st: Progress, i: nat, done: seq<Value>, items: seq<Value>)
    requires ProgressOk(fields, st) && i < |fields| && fields[i].rule.Repeated?
    ensures SlotAt(fields, i) < |st.m|
    ensures
      var st1 := Stored(fields, Turned(fields, st, i), i, Many(done));
      && st1.m[SlotAt(fields, i)] == Many(done) && Turned(fields, st1, i) == st1
      && Stored(fields, st1, i, Many(items)) == Stored(fields, Turned(fields, st, i), i, Many(items))
  {
  }

  /** One of them. */
  lemma ItemReads(fields: seq<Field>, st: Progress, i: nat, done: seq<Value>, v: Value, rest: seq<Byte>)
    requires ValidFields(fields) && ProgressOk(fields, st) && i < |fields| && fields[i].rule.Repeated? && !Packable(fields[i].ltype)
    requires TypedValue(fields[i], v) && EncodeRecord(fields[i], v).Some? && |EncodeRecord(fields[i], v).value| < U32
    requires |done| < fields[i].arraySize && st.m[SlotAt(fields, i)] == Many(done)
    requires st == Turned(fields, st, i) || (done == [] && RunComplete(fields, st))
    ensures DecodeLoop(fields, st, EncodeRecord(fields[i], v).value + rest) ==
      if !TerminatedValue(fields[i], v) then None
      else DecodeLoop(fields, Stored(fields, Turned(fields, st, i), i, Many(done + [ExpectedValue(fields[i], v)])), rest)
    decreases fields[i], 2, 0
  {
    hide DecodeLoop, DecodeSlot, RunComplete, ProgressOk, ShapedSlot, TypedValue, ValidField, ValidFields, SlotAt, ExpectedValue, TerminatedValue, TurnTo, EncodeValue, Tag;
    var f := fields[i];
    var st1 := Turned(fields, st, i);
    SlotExists(fields, st, i);
    TurnsTo(fields, st, i, done);
    FieldValid(fields, i);
    var payload := EncodeValue(f, v).value;
    RecordReads(fields, st, st1, i, WireTypeOf(f.ltype), payload + rest);
    assert EncodeRecord(f, v).value + rest == TagFor(f) + (payload + rest);
    ItemDecodes(f, v, done, rest);
  }

  lemma SlotExists(fields: seq<Field>, st: Progress, i: nat)
    requires ProgressOk(fields, st) && i < |fields|
    ensures SlotAt(fields, i) < |st.m|
  {
  }

  lemma TurnsTo(fields: seq<Field>, st: Progress, i: nat, done: seq<Value>)
    requires ProgressOk(fields, st) && i < |fields| && fields[i].rule.Repeated?
    requires SlotAt(fields, i) < |st.m| && st.m[SlotAt(fields, i)] == Many(done)
    requires st == Turned(fields, st, i) || (done == [] && RunComplete(fields, st))
    ensures TurnTo(fields, st, i) == Some(Turned(fields, st, i)) && Turned(fields, st, i).m == st.m
  {
    hide Shaped, SlotAt, RunComplete;
    assert st.m[SlotAt(fields, i) := Many(done)] == st.m;
  }

  lemma ItemDecodes(f: Field, v: Value, done: seq<Value>, rest: seq<Byte>)
    requires ValidField(f) && TypedValue(f, v) && f.rule.Repeated? && !Packable(f.ltype) && |done| < f.arraySize
    requires EncodeValue(f, v).Some? && |EncodeValue(f, v).value| < U32
    ensures DecodeSlot(f, WireTypeOf(f.ltype), Many(done), EncodeValue(f, v).value + rest) ==
      if TerminatedValue(f, v) then Some((Many(done + [ExpectedValue(f, v)]), rest)) else None
    decreases f, 1
  {
    hide TypedValue, ValidField, DecodeInto, EncodeValue, ExpectedValue, TerminatedValue, Shaped, DefaultValue;
    DefaultShaped(f);
    ValueDecodes(f, v, rest);
  }

  /** The records of field `i`, none or many, take the decoder to the next field's state. */
  lemma FieldDecodes(fields: seq<Field>, m: seq<Slot>, i: nat, rest: seq<Byte>)
    requires ValidFields(fields) && TypedMessage(fields, m) && i < |fields|
    requires SlotAt(fields, i) < |m| && TypedSlot(fields[i], m[SlotAt(fields, i)])
    requires
      var bytes := EncodeField(fields[i], m[SlotAt(fields, i)]);
      bytes.Some? && |bytes.value| < U32
    ensures DecodeLoop(fields, StateAt(fields, m, i), EncodeField(fields[i], m[SlotAt(fields, i)]).value + rest) ==
      if TerminatedSlot(fields[i], m[SlotAt(fields, i)]) then DecodeLoop(fields, StateAt(fields, m, i + 1), rest) else None
    decreases fields, 0
  {
    hide DecodeLoop, StateAt, EncodeRecord, EncodeArray, TypedMessage, ValidFields, TerminatedValue, ExpectedSlot, Stored, SlotAt;
    hide TypedValue, IsDefault;
    var f, slot := fields[i], m[SlotAt(fields, i)];
    if !Present(f, slot) {
      StateStep(fields, m, i);
      NothingSent(f, slot);
      assert [] + rest == rest;
    } else if f.rule.Repeated? {
      ArrayDecodes(fields, m, i, rest);
    } else {
      SingleFieldDecodes(fields, m, i, rest);
    }
  }

  lemma NothingSent(f: Field, slot: Slot)
    requires TypedSlot(f, slot) && !Present(f, slot)
    ensures EncodeField(f, slot) == Some([]) && TerminatedSlot(f, slot)
  {
    hide TypedValue, IsDefault, EncodeValue;
  }

  lemma ArrayDecodes(fields: seq<Field>, m: seq<Slot>, i: nat, rest: seq<Byte>)
    requires ValidFields(fields) && TypedMessage(fields, m) && i < |fields|
    requires SlotAt(fields, i) < |m| && TypedSlot(fields[i], m[SlotAt(fields, i)])
    requires fields[i].rule.Repeated? && m[SlotAt(fields, i)].items != []
    requires
      var bytes := EncodeArray(fields[i], m[SlotAt(fields, i)].items);
      bytes.Some? && |bytes.value| < U32
    ensures DecodeLoop(fields, StateAt(fields, m, i), EncodeArray(fields[i], m[SlotAt(fields, i)].items).value + rest) ==
      if TerminatedItems(fields[i], m[SlotAt(fields, i)].items) then DecodeLoop(fields, StateAt(fields, m, i + 1), rest) else None
    decreases fields[i], 4
  {
    hide DecodeLoop, DecodeSlot, EncodePacked, EncodeTagged, TypedMessage, TypedValue, ValidField, ValidFields, ExpectedUpTo, Shaped, SlotAt, TerminatedItems;
    var f, items, st := fields[i], m[SlotAt(fields, i)].items, StateAt(fields, m, i);
    StateStep(fields, m, i);
    SlotUntouched(fields, m, i);
    StateComplete(fields, m, i);
    FieldValid(fields, i);
    if Packable(f.ltype) {
      var bytes := Delimited(EncodePacked(f, items).value);
      SlotExists(fields, st, i);
      TurnsTo(fields, st, i, []);
      RecordReads(fields, st, Turned(fields, st, i), i, WT_STRING, bytes + rest);
      PackedSlotDecodes(f, items, rest);
      assert EncodeArray(f, items).value + rest == Tag(WT_STRING, f.tag) + (bytes + rest);
    } else {
      ItemsDecode(fields, st, i, [], items, rest);
      assert [] + ExpectedItems(f, items) == ExpectedItems(f, items);
    }
  }

  lemma FieldValid(fields: seq<Field>, i: nat)
    requires ValidFields(fields) && i < |fields|
    ensures ValidField(fields[i])
  {
  }

  lemma SingleFieldDecodes(fields: seq<Field>, m: seq<Slot>, i: nat, rest: seq<Byte>)
    requires ValidFields(fields) && TypedMessage(fields, m) && i < |fields|
    requires SlotAt(fields, i) < |m| && TypedSlot(fields[i], m[SlotAt(fields, i)])
    requires !fields[i].rule.Repeated? && Present(fields[i], m[SlotAt(fields, i)])
    requires
      var bytes := EncodeRecord(fields[i], m[SlotAt(fields, i)].value);
      bytes.Some? && |bytes.value| < U32
    ensures DecodeLoop(fields, StateAt(fields, m, i), EncodeRecord(fields[i], m[SlotAt(fields, i)].value).value + rest) ==
      if TerminatedSlot(fields[i], m[SlotAt(fields, i)]) then DecodeLoop(fields, StateAt(fields, m, i + 1), rest) else None
    decreases fields[i], 2
  {
    hide DecodeLoop, DecodeSlot, ShapedSlot, EncodeValue, TypedMessage, TypedValue, ValidField, ValidFields, ExpectedUpTo, ExpectedSlot;
    hide IsDefault, RunComplete, Shaped, SlotAt, DefaultSlot, TerminatedSlot, Stored, Tag;
    var f, slot, st := fields[i], m[SlotAt(fields, i)], StateAt(fields, m, i);
    StateStep(fields, m, i);
    FieldValid(fields, i);
    var payload := EncodeValue(f, slot.value).value;
    assert EncodeRecord(f, slot.value).value + rest == TagFor(f) + (payload + rest);
    RecordReads(fields, st, st, i, WireTypeOf(f.ltype), payload + rest);
    SlotExists(fields, st, i);
    if !f.rule.OneOf? {
      SlotUntouched(fields, m, i);
    }
    SlotDecodes(f, st.m[SlotAt(fields, i)], slot, rest);
  }

  lemma TerminatedStep(fields: seq<Field>, m: seq<Slot>, i: nat)
    requires TypedMessage(fields, m) && i < |fields|
    ensures SlotAt(fields, i) < |m| && TypedSlot(fields[i], m[SlotAt(fields, i)])
    ensures TerminatedFrom(fields, m, i) <==> TerminatedSlot(fields[i], m[SlotAt(fields, i)]) && TerminatedFrom(fields, m, i + 1)
  {
    hide TypedSlot, TerminatedSlot;
  }

  lemma LoopEnds(fields: seq<Field>, m: seq<Slot>)
    requires TypedMessage(fields, m)
    ensures DecodeLoop(fields, StateAt(fields, m, |fields|), []) == Some((StateAt(fields, m, |fields|), []))
    ensures EncodeFrom(fields, m, |fields|) == Some([]) && TerminatedFrom(fields, m, |fields|)
  {
    hide StateAt;
  }

  /** From field `i` on. */
  lemma {:induction false} FieldsDecode(fields: seq<Field>, m: seq<Slot>, i: nat)
    requires ValidFields(fields) && TypedMessage(fields, m) && i <= |fields|
    requires EncodeFrom(fields, m, i).Some? && |EncodeFrom(fields, m, i).value| < U32
    ensures DecodeLoop(fields, StateAt(fields, m, i), EncodeFrom(fields, m, i).value) ==
      if TerminatedFrom(fields, m, i) then Some((StateAt(fields, m, |fields|), [])) else None
    decreases fields, 1, |fields| - i
  {
    hide DecodeLoop, StateAt, EncodeField, EncodeFrom, TypedMessage, TypedSlot, ValidFields, TerminatedFrom, TerminatedSlot, SlotAt, ProgressOk;
    if i == |fields| {
      LoopEnds(fields, m);
    } else {
      PbEncode.FieldsFrom(fields, m, i);
      TerminatedStep(fields, m, i);
      FieldDecodes(fields, m, i, EncodeFrom(fields, m, i + 1).value);
      FieldsDecode(fields, m, i + 1);
    }
  }

  /** pb_decode_noinit over the defaults. */
  lemma MessageDecodes(fields: seq<Field>, m: seq<Slot>)
    requires ValidFields(fields) && TypedMessage(fields, m) && Shaped(fields, Defaults(fields))
    requires EncodeMessage(fields, m).Some? && |EncodeMessage(fields, m).value| < U32
    ensures DecodeNoInit(fields, Defaults(fields), EncodeMessage(fields, m).value) ==
      if Terminated(fields, m) then Some((Expected(fields, m), [])) else None
    decreases fields, 2
  {
    FieldsDecode(fields, m, 0);
    StateComplete(fields, m, |fields|);
    SeesRequired(fields, |fields|);
  }

  /**
   * A message of any table, nested to any depth, that the encoder accepts and that is under 4 GiB on the
   * wire: the decoder accepts it if and only if every string in it is shorter than its buffer, and then
   * gives back every field that was present.
   */
  lemma RoundTrip(fields: seq<Field>, m: seq<Slot>)
    requires ValidFields(fields) && TypedMessage(fields, m)
    requires EncodeMessage(fields, m).Some? && |EncodeMessage(fields, m).value| < U32
    ensures DecodeMessage(fields, EncodeMessage(fields, m).value) ==
      if Terminated(fields, m) then Some((Expected(fields, m), [])) else None
  {
    hide DecodeNoInit, EncodeMessage, Terminated, Expected;
    DefaultsShaped(fields);
    MessageDecodes(fields, m);
  }

  /** The string "AB" in a buffer of two chars: encoding needs no terminator, decoding does. */
  lemma FullBufferIsRefused()
    ensures var fields, m := [Field(1, StringType, Required, 2, 0, [], None)], [Single(Text([65, 66]))];
            && ValidFields(fields) && TypedMessage(fields, m)
            && EncodeMessage(fields, m) == Some([10, 2, 65, 66])
            && DecodeMessage(fields, [10, 2, 65, 66]) == None
  {
    hide DecodeNoInit, DecodeMessage;
    var f := Field(1, StringType, Required, 2, 0, [], None);
    var fields, m := [f], [Single(Text([65, 66]))];
    assert TypedValue(f, m[0].value) && TypedSlot(f, m[0]) && Present(f, m[0]);
    assert TypedMessage(fields, m);
    var bytes: seq<Byte> := [10, 2, 65, 66];
    assert TagFor(f) == [10] && Delimited([65, 66]) == [2, 65, 66];
    assert [10] + [2, 65, 66] == bytes;
    assert EncodeRecord(f, m[0].value) == Some(bytes);
    JoinNothing(Some(bytes));
    assert EncodeMessage(fields, m) == Some(bytes) by {
      assert EncodeField(f, m[0]) == Some(bytes);
      assert EncodeFrom(fields, m, 1) == Some([]);
    }
    assert !Terminated(fields, m) by {
      assert !TerminatedSlot(fields[0], m[SlotAt(fields, 0)]);
    }
    RoundTrip(fields, m);
  }

  // Messages that come back whole

  /** Absent fields are at their defaults: a has_ that is false over a default value, a which_ of 0. */
  predicate CanonicalValue(f: Field, v: Value)
    requires TypedValue(f, v)
    decreases f, 0
  {
    f.ltype.SubmessageType? ==> Canonical(f.sub, v.slots)
  }

  predicate CanonicalSlot(f: Field, slot: Slot)
    requires TypedSlot(f, slot)
    decreases f, 1
  {
    match f.rule
    case Required => CanonicalValue(f, slot.value)
    case Optional(hasFlag) => if hasFlag && !slot.has then slot.value == DefaultValue(f) else CanonicalValue(f, slot.value)
    case Repeated(_) => forall k :: 0 <= k < |slot.items| ==> CanonicalValue(f, slot.items[k])
    case OneOf(_) => slot.which == f.tag ==> CanonicalValue(f, slot.value)
  }

  predicate Canonical(fields: seq<Field>, m: seq<Slot>)
    requires TypedMessage(fields, m)
    decreases fields
  {
    && (forall i :: 0 <= i < |fields| ==> CanonicalSlot(fields[i], m[SlotAt(fields, i)]))
    && (forall i :: 0 <= i < |fields| && fields[i].rule.OneOf? ==> ChoiceMade(fields, m, i))
  }

  /** The union of field `i` holds one of its alternatives, or none. */
  predicate ChoiceMade(fields: seq<Field>, m: seq<Slot>, i: nat)
    requires i < |fields| && SlotAt(fields, i) < |m|
  {
    var slot := m[SlotAt(fields, i)];
    slot == Union(0, Num(0)) || (slot.Union? && exists j :: 0 <= j < |fields| && SlotAt(fields, j) == SlotAt(fields, i) && fields[j].tag == slot.which)
  }

  /** A proto3 field left off the wire had its default value. */
  lemma {:induction false} ZeroIsDefault(f: Field, v: Value)
    requires ValidField(f) && TypedValue(f, v) && IsZero(f, v) && f.preset.None?
    ensures ExpectedValue(f, v) == DefaultValue(f)
  {
    if f.ltype.SubmessageType? {
      AllAbsent(f.sub, v.slots, |f.sub|);
    }
  }

  lemma {:induction false} AllAbsent(fields: seq<Field>, m: seq<Slot>, n: nat)
    requires ValidFields(fields) && TypedMessage(fields, m) && AllDefault(fields, m) && n <= |fields|
    ensures ExpectedUpTo(fields, m, n) == Defaults(fields)
    decreases n
  {
    hide *;
    NothingPut(fields, m);
    if n > 0 {
      AllAbsent(fields, m, n - 1);
      ExpectedStep(fields, m, n - 1);
      DefaultAbsent(fields, m, n - 1);
    }
  }

  lemma NothingPut(fields: seq<Field>, m: seq<Slot>)
    requires TypedMessage(fields, m)
    ensures ExpectedUpTo(fields, m, 0) == Defaults(fields)
  {
    hide Defaults, TypedSlot, ShapedSlot;
  }

  lemma DefaultAbsent(fields: seq<Field>, m: seq<Slot>, i: nat)
    requires ValidFields(fields) && TypedMessage(fields, m) && AllDefault(fields, m) && i < |fields|
    ensures !Present(fields[i], m[SlotAt(fields, i)])
  {
    hide TypedValue, IsZero;
    FieldValid(fields, i);
    assert IsDefault(fields[i], m[SlotAt(fields, i)]);
  }

  /** A canonical value is what the decoder makes of it. */
  lemma {:induction false} CanonicalKept(f: Field, v: Value)
    requires ValidField(f) && TypedValue(f, v) && CanonicalValue(f, v)
    ensures ExpectedValue(f, v) == v
    decreases f, 0
  {
    if f.ltype.SubmessageType? {
      CanonicalComesBack(f.sub, v.slots);
    }
  }

  lemma CanonicalSlotKept(f: Field, slot: Slot)
    requires ValidField(f) && TypedSlot(f, slot) && CanonicalSlot(f, slot)
    ensures Present(f, slot) ==> ExpectedSlot(f, slot) == slot
    ensures !Present(f, slot) && !f.rule.OneOf? ==> slot == DefaultSlot(f)
    decreases f, 1
  {
    hide ValidFields, TypedValue, IsZero, CanonicalValue, DefaultValue;
    if f.rule.Repeated? {
      forall k | 0 <= k < |slot.items|
        ensures ExpectedValue(f, slot.items[k]) == slot.items[k]
      {
        CanonicalKept(f, slot.items[k]);
      }
    } else if Present(f, slot) {
      CanonicalKept(f, slot.value);
    } else if f.rule == Optional(false) {
      ZeroIsDefault(f, slot.value);
      CanonicalKept(f, slot.value);
    }
  }

  /** A message with its absent fields at their defaults comes back whole. */
  lemma {:induction false} CanonicalComesBack(fields: seq<Field>, m: seq<Slot>)
    requires ValidFields(fields) && TypedMessage(fields, m) && Canonical(fields, m)
    ensures Expected(fields, m) == m
    decreases fields
  {
    var r := Expected(fields, m);
    forall k | 0 <= k < |m|
      ensures |r| == |m| && r[k] == m[k]
    {
      var i := SlotTaken(fields, k);
      CanonicalAt(fields, m, i);
    }
  }

  lemma CanonicalAt(fields: seq<Field>, m: seq<Slot>, i: nat)
    requires ValidFields(fields) && TypedMessage(fields, m) && Canonical(fields, m) && i < |fields|
    ensures SlotAt(fields, i) < |m| == |Expected(fields, m)| && Expected(fields, m)[SlotAt(fields, i)] == m[SlotAt(fields, i)]
    decreases fields, 0
  {
    hide ValidField, TypedSlot, CanonicalSlot, ExpectedSlot, DefaultSlot, Expected, SlotAt, Present;
    var slot := m[SlotAt(fields, i)];
    if j: nat :| j < |fields| && SlotAt(fields, j) == SlotAt(fields, i) && Present(fields[j], slot) {
      ExpectedAt(fields, m, j);
      CanonicalSlotKept(fields[j], slot);
    } else {
      ExpectedAt(fields, m, i);
      CanonicalSlotKept(fields[i], slot);
      if fields[i].rule.OneOf? {
        ChosenIsPresent(fields, m, i);
      }
    }
  }

  /** A union that is not empty has an alternative that is present. */
  lemma ChosenIsPresent(fields: seq<Field>, m: seq<Slot>, i: nat)
    requires TypedMessage(fields, m) && i < |fields| && fields[i].rule.OneOf? && SlotAt(fields, i) < |m| && ChoiceMade(fields, m, i)
    ensures m[SlotAt(fields, i)] == DefaultSlot(fields[i]) ||
      exists j: nat :: j < |fields| && SlotAt(fields, j) == SlotAt(fields, i) && TypedSlot(fields[j], m[SlotAt(fields, i)]) && Present(fields[j], m[SlotAt(fields, i)])
  {
    hide TypedValue, SlotAt;
    var slot := m[SlotAt(fields, i)];
    if slot != Union(0, Num(0)) {
      var j :| 0 <= j < |fields| && SlotAt(fields, j) == SlotAt(fields, i) && fields[j].tag == slot.which;
      assert TypedSlot(fields[j], slot) && Present(fields[j], slot);
    }
  }

  lemma WholeRoundTrip(fields: seq<Field>, m: seq<Slot>)
    requires ValidFields(fields) && TypedMessage(fields, m) && Canonical(fields, m) && Terminated(fields, m)
    requires EncodeMessage(fields, m).Some? && |EncodeMessage(fields, m).value| < U32
    ensures DecodeMessage(fields, EncodeMessage(fields, m).value) == Some((m, []))
  {
    hide *;
    RoundTrip(fields, m);
    CanonicalComesBack(fields, m);
  }
}
