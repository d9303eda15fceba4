/** The encoder (nanopb pb_encode.c): what it emits, and its sizing and writing passes over a stream. */
module PbEncode {
  import opened Wrappers
  import opened Coding
  import opened PbCommon

  /** pb_encode_svarint: shift left in 64 bits, and complement the negative. */
  function ZigZag(n: int): nat {
    if n < 0 then U64 - 1 - 2 * n % U64 else 2 * n % U64
  }

  lemma ZigZagInterleaves(n: int)
    requires InSigned(n, 8)
    ensures ZigZag(n) == if n < 0 then -2 * n - 1 else 2 * n
  {
    assert Pow256(8) == U64;
    if -0x8000_0000_0000_0000 < n < 0 {
      assert 2 * n % U64 == 2 * n + U64;
    }
  }

  const WT_VARINT := 0
  const WT_64BIT := 1
  const WT_STRING := 2
  const WT_32BIT := 5

  /** pb_encode_tag. */
  function Tag(wireType: nat, number: nat): seq<Byte> {
    Varint(8 * number + wireType)
  }

  function WireTypeOf(t: LType): (w: nat)
    ensures w < 8
  {
    match t
    case Fixed32Type => WT_32BIT
    case Fixed64Type => WT_64BIT
    case BytesType => WT_STRING
    case StringType => WT_STRING
    case SubmessageType => WT_STRING
    case FixedBytesType => WT_STRING
    case _ => WT_VARINT
  }

  function TagFor(f: Field): seq<Byte> {
    Tag(WireTypeOf(f.ltype), f.tag)
  }

  /** pb_encode_string: the length, then the bytes. */
  function Delimited(payload: seq<Byte>): seq<Byte> {
    Varint(|payload|) + payload
  }

  function Delimit(payload: Option<seq<Byte>>): Option<seq<Byte>> {
    if payload.Some? then Some(Delimited(payload.value)) else None
  }

  function Join(a: Option<seq<Byte>>, b: Option<seq<Byte>>): Option<seq<Byte>> {
    if a.Some? && b.Some? then Some(a.value + b.value) else None
  }

  lemma JoinNothing(a: Option<seq<Byte>>)
    ensures Join(Some([]), a) == a && Join(a, Some([])) == a
  {
    if a.Some? {
      assert [] + a.value == a.value && a.value + [] == a.value;
    }
  }

  lemma JoinAssociates(a: Option<seq<Byte>>, b: Option<seq<Byte>>, c: Option<seq<Byte>>)
    ensures Join(a, Join(b, c)) == Join(Join(a, b), c)
  {
    if a.Some? && b.Some? && c.Some? {
      assert a.value + (b.value + c.value) == a.value + b.value + c.value;
    }
  }

  /** pb_check_proto3_default_value: what a proto3 field leaves off the wire. */
  predicate IsDefault(f: Field, slot: Slot)
    requires TypedSlot(f, slot)
    decreases f, 1
  {
    match f.rule
    case Required => false
    case Repeated(counted) => counted && slot.items == []
    case OneOf(_) => slot.which == 0
    case Optional(hasFlag) => if hasFlag then !slot.has else IsZero(f, slot.value)
  }

  predicate IsZero(f: Field, v: Value)
    requires TypedValue(f, v)
    decreases f, 0
  {
    match f.ltype
    case BytesType => v.bytes == []
    case StringType => v.bytes == []
    case FixedBytesType => f.dataSize == 0
    case SubmessageType => AllDefault(f.sub, v.slots)
    case _ => v.n == 0
  }

  predicate AllDefault(fields: seq<Field>, m: seq<Slot>)
    requires TypedMessage(fields, m)
    decreases fields
  {
    forall i :: 0 <= i < |fields| ==> IsDefault(fields[i], m[SlotAt(fields, i)])
  }

  /** What the encoder of the field's type emits after the tag; None for a value it refuses. */
  function EncodeValue(f: Field, v: Value): Option<seq<Byte>>
    requires TypedValue(f, v)
    decreases f, 0
  {
    match f.ltype
    case BoolType => Some(Varint(v.n))
    case VarintType => if f.dataSize in {1, 2, 4, 8} then Some(Varint(v.n % U64)) else None
    case UVarintType => if f.dataSize in {1, 2, 4, 8} then Some(Varint(v.n)) else None
    case SVarintType => if f.dataSize in {1, 2, 4, 8} then Some(Varint(ZigZag(v.n))) else None
    case Fixed32Type => Some(Fixed(v.n, 4))
    case Fixed64Type => Some(Fixed(v.n, 8))
    case BytesType => if |v.bytes| + BYTES_HEADER > f.dataSize then None else Some(Delimited(v.bytes))
    case StringType => Some(Delimited(v.bytes))
    case FixedBytesType => Some(Delimited(v.bytes))
    case SubmessageType => Delimit(EncodeMessage(f.sub, v.slots))
  }

  /** The values one after the other, as a packed array holds them. */
  function EncodePacked(f: Field, items: seq<Value>): Option<seq<Byte>>
    requires forall k :: 0 <= k < |items| ==> TypedValue(f, items[k])
    decreases f, 2, |items|
  {
    if items == [] then Some([])
    else Join(EncodeValue(f, items[0]), EncodePacked(f, items[1..]))
  }

  /** A value with its tag. */
  function EncodeRecord(f: Field, v: Value): Option<seq<Byte>>
    requires TypedValue(f, v)
    decreases f, 1
  {
    Join(Some(TagFor(f)), EncodeValue(f, v))
  }

  /** The values one after the other, each with its tag. */
  function EncodeTagged(f: Field, items: seq<Value>): Option<seq<Byte>>
    requires forall k :: 0 <= k < |items| ==> TypedValue(f, items[k])
    decreases f, 2, |items|
  {
    if items == [] then Some([])
    else Join(EncodeRecord(f, items[0]), EncodeTagged(f, items[1..]))
  }

  /** encode_array. */
  function EncodeArray(f: Field, items: seq<Value>): Option<seq<Byte>>
    requires forall k :: 0 <= k < |items| ==> TypedValue(f, items[k])
    decreases f, 3
  {
    if items == [] then Some([])
    else if |items| > f.arraySize then None
    else if Packable(f.ltype) then Join(Some(Tag(WT_STRING, f.tag)), Delimit(EncodePacked(f, items)))
    else EncodeTagged(f, items)
  }

  /** The field goes on the wire. */
  predicate Present(f: Field, slot: Slot)
    requires TypedSlot(f, slot)
  {
    match f.rule
    case Required => true
    case Optional(hasFlag) => if hasFlag then slot.has else !IsDefault(f, slot)
    case Repeated(_) => slot.items != []
    case OneOf(_) => slot.which == f.tag
  }

  /** encode_basic_field. */
  function EncodeField(f: Field, slot: Slot): Option<seq<Byte>>
    requires TypedSlot(f, slot)
    decreases f, 4
  {
    if f.rule.Repeated? then EncodeArray(f, slot.items)
    else if Present(f, slot) then EncodeRecord(f, slot.value)
    else Some([])
  }

  /** pb_encode, from field `i` on. */
  function EncodeFrom(fields: seq<Field>, m: seq<Slot>, i: nat): Option<seq<Byte>>
    requires TypedMessage(fields, m) && i <= |fields|
    decreases fields, |fields| - i
  {
    if i == |fields| then Some([])
    else Join(EncodeField(fields[i], m[SlotAt(fields, i)]), EncodeFrom(fields, m, i + 1))
  }

  function EncodeMessage(fields: seq<Field>, m: seq<Slot>): Option<seq<Byte>>
    requires TypedMessage(fields, m)
    decreases fields, |fields| + 1
  {
    EncodeFrom(fields, m, 0)
  }

  function MarkedByte(v: nat): Byte {
    v % 128 + 128
  }

  function Shifted(v: nat): nat {
    v / 128
  }

  predicate EndMarked(bytes: seq<Byte>) {
    bytes != [] && bytes[|bytes| - 1] >= 128
  }

  /** The top bit of the last byte is unset. */
  function Unmarked(bytes: seq<Byte>): seq<Byte>
    requires EndMarked(bytes)
  {
    bytes[..|bytes| - 1] + [bytes[|bytes| - 1] - 128]
  }

  lemma NextByte(v: nat, bytes: seq<Byte>)
    requires v > 0
    ensures Shifted(v) < v
    ensures Shifted(v) > 0 ==> bytes + [MarkedByte(v)] + Varint(Shifted(v)) == bytes + Varint(v)
    ensures EndMarked(bytes + [MarkedByte(v)])
    ensures Shifted(v) == 0 ==> Unmarked(bytes + [MarkedByte(v)]) == bytes + Varint(v)
  {
    if v < 128 {
      assert MarkedByte(v) == v + 128 && Varint(v) == [v];
    } else {
      assert bytes + [MarkedByte(v)] + Varint(Shifted(v)) == bytes + ([MarkedByte(v)] + Varint(Shifted(v)));
    }
  }

  /** The loop of pb_encode_varint: every byte is marked, until the top bit of the last is unset. */
  method VarintBytes(value: nat) returns (bytes: seq<Byte>)
    ensures bytes == Varint(value)
    ensures value < U64 ==> |bytes| <= 10
  {
    VarintLengths(value);
    if value <= 0x7F {
      return [value];
    }
    hide MarkedByte, Shifted, EndMarked, Unmarked, Varint;
    var v := value;
    bytes := [];
    assert bytes + Varint(v) == Varint(v);
    while v != 0
      invariant v > 0 ==> bytes + Varint(v) == Varint(value)
      invariant v == 0 ==> EndMarked(bytes) && Unmarked(bytes) == Varint(value)
      decreases v
    {
      NextByte(v, bytes);
      bytes := bytes + [MarkedByte(v)];
      v := Shifted(v);
    }
    bytes := Unmarked(bytes);
  }

  /** A stream as its user sees it: the bytes counted, the room left unless it only counts, and the bytes written. */
  datatype Output = Output(count: nat, room: Option<nat>, written: seq<Byte>)

  predicate Fits(a: Output, bytes: seq<Byte>) {
    a.room.Some? ==> |bytes| <= a.room.value
  }

  function After(a: Output, bytes: seq<Byte>): Output
    requires Fits(a, bytes)
  {
    if a.room.None? then Output(a.count + |bytes|, None, a.written)
    else Output(a.count + |bytes|, Some(a.room.value - |bytes|), a.written + bytes)
  }

  /** Success exactly if there is something to write and room for it, and then it was written, or counted. */
  predicate Emits(a: Output, bytes: Option<seq<Byte>>, ok: bool, b: Output) {
    && (ok <==> bytes.Some? && Fits(a, bytes.value))
    && (ok ==> b == After(a, bytes.value))
  }

  lemma EmitsNothing(a: Output)
    ensures Emits(a, Some([]), true, a)
  {
    assert a.written + [] == a.written;
  }

  lemma EmitsBoth(a: Output, x: Option<seq<Byte>>, b: Output, y: Option<seq<Byte>>, ok: bool, c: Output)
    requires Emits(a, x, true, b) && Emits(b, y, ok, c)
    ensures Emits(a, Join(x, y), ok, c)
  {
    if y.Some? {
      assert a.written + x.value + y.value == a.written + (x.value + y.value);
    }
  }

  /** What was emitted so far, the next piece, and the pieces still to come. */
  lemma EmitsNext(a: Output, done: Option<seq<Byte>>, b: Output, next: Option<seq<Byte>>, ok: bool, c: Output, rest: Option<seq<Byte>>)
    requires Emits(a, done, true, b) && Emits(b, next, ok, c)
    ensures Join(Join(done, next), rest) == Join(done, Join(next, rest))
    ensures ok ==> Emits(a, Join(done, next), true, c)
    ensures !ok ==> Emits(a, Join(done, Join(next, rest)), false, c)
  {
    hide Emits;
    JoinAssociates(done, next, rest);
    EmitsBoth(a, done, b, next, ok, c);
    if !ok {
      EmitsNeither(a, Join(done, next), c, rest);
    }
  }

  lemma EmitsNeither(a: Output, x: Option<seq<Byte>>, b: Output, y: Option<seq<Byte>>)
    requires Emits(a, x, false, b)
    ensures Emits(a, Join(x, y), false, b)
  {
  }

  /** pb_ostream_t over a memory buffer, or, without one, PB_OSTREAM_SIZING. */
  class OStream {
    const buffer: array?<Byte>
    const maxSize: nat
    var state: nat
    var bytesWritten: nat

    ghost predicate Valid()
      reads this
    {
      buffer != null ==> bytesWritten <= maxSize && state + maxSize - bytesWritten <= buffer.Length
    }

    ghost function Out(): Output
      requires Valid()
      reads this, buffer
    {
      if buffer == null then Output(bytesWritten, None, [])
      else Output(bytesWritten, Some(maxSize - bytesWritten), buffer[..state])
    }

    /** PB_OSTREAM_SIZING. */
    constructor Sizing()
      ensures Valid() && buffer == null && Out() == Output(0, None, [])
    {
      buffer := null;
      maxSize := 0;
      state := 0;
      bytesWritten := 0;
    }

    /** pb_ostream_from_buffer, and the substream of pb_encode_submessage. */
    constructor FromBuffer(buffer: array<Byte>, state: nat, maxSize: nat)
      requires state + maxSize <= buffer.Length
      ensures Valid() && this.buffer == buffer && this.maxSize == maxSize && this.state == state && bytesWritten == 0
    {
      this.buffer := buffer;
      this.maxSize := maxSize;
      this.state := state;
      bytesWritten := 0;
    }

    /** buf_write. */
    method BufWrite(buf: seq<Byte>)
      requires Valid() && buffer != null && bytesWritten + |buf| <= maxSize
      modifies this`state, buffer
      ensures state == old(state) + |buf| && buffer[..state] == old(buffer[..state]) + buf
    {
      var dest := state;
      state := dest + |buf|;
      var i := 0;
      while i < |buf|
        invariant i <= |buf| && state == dest + |buf|
        invariant buffer[..dest] == old(buffer[..state])
        invariant buffer[dest..dest + i] == buf[..i]
      {
        buffer[dest + i] := buf[i];
        i := i + 1;
        assert buf[..i] == buf[..i - 1] + [buf[i - 1]];
      }
      assert buffer[..state] == buffer[..dest] + buffer[dest..dest + i];
    }

    /** pb_write. */
    method Write(buf: seq<Byte>) returns (ok: bool)
      requires Valid()
      modifies this, buffer
      ensures Valid() && Emits(old(Out()), Some(buf), ok, Out())
    {
      EmitsNothing(Out());
      if |buf| > 0 && buffer != null {
        if bytesWritten + |buf| > maxSize {
          return false;
        }
        BufWrite(buf);
      }
      bytesWritten := bytesWritten + |buf|;
      return true;
    }

    /** pb_write of no data, in the sizing pass: only the count grows. */
    method Count(size: nat)
      requires buffer == null
      modifies this
      ensures Out() == old(Out()).(count := old(bytesWritten) + size)
    {
      bytesWritten := bytesWritten + size;
    }

    /** pb_encode_varint. */
    method EncodeVarint(value: nat) returns (ok: bool)
      requires Valid()
      modifies this, buffer
      ensures Valid() && Emits(old(Out()), Some(Varint(value)), ok, Out())
    {
      var bytes := VarintBytes(value);
      ok := Write(bytes);
    }

    /** pb_encode_svarint. */
    method EncodeSVarint(value: int) returns (ok: bool)
      requires Valid()
      modifies this, buffer
      ensures Valid() && Emits(old(Out()), Some(Varint(ZigZag(value))), ok, Out())
    {
      ok := EncodeVarint(ZigZag(value));
    }

    /** pb_encode_tag. */
    method EncodeTag(wireType: nat, number: nat) returns (ok: bool)
      requires Valid()
      modifies this, buffer
      ensures Valid() && Emits(old(Out()), Some(Tag(wireType, number)), ok, Out())
    {
      ok := EncodeVarint(8 * number + wireType);
    }

    /** pb_encode_string. */
    method EncodeString(bytes: seq<Byte>) returns (ok: bool)
      requires Valid()
      modifies this, buffer
      ensures Valid() && Emits(old(Out()), Some(Delimited(bytes)), ok, Out())
    {
      hide Emits;
      ghost var out := Out();
      ok := EncodeVarint(|bytes|);
      if !ok {
        EmitsNeither(out, Some(Varint(|bytes|)), Out(), Some(bytes));
        return;
      }
      ghost var length := Out();
      ok := Write(bytes);
      EmitsBoth(out, Some(Varint(|bytes|)), length, Some(bytes), ok, Out());
    }
  }

  lemma {:induction false} FixedPackedSize(f: Field, items: seq<Value>)
    requires forall k :: 0 <= k < |items| ==> TypedValue(f, items[k])
    requires f.ltype in {Fixed32Type, Fixed64Type}
    ensures EncodePacked(f, items).Some?
    ensures |EncodePacked(f, items).value| == (if f.ltype.Fixed32Type? then 4 else 8) * |items|
    decreases |items|
  {
    if items != [] {
      FixedPackedSize(f, items[1..]);
    }
  }

  lemma PackedFrom(f: Field, items: seq<Value>, k: nat)
    requires (forall k :: 0 <= k < |items| ==> TypedValue(f, items[k])) && k < |items|
    ensures EncodePacked(f, items[k..]) == Join(EncodeValue(f, items[k]), EncodePacked(f, items[k + 1..]))
    ensures EncodeTagged(f, items[k..]) == Join(EncodeRecord(f, items[k]), EncodeTagged(f, items[k + 1..]))
  {
    assert items[k..][1..] == items[k + 1..];
  }

  lemma NothingFrom(f: Field, items: seq<Value>)
    requires forall k :: 0 <= k < |items| ==> TypedValue(f, items[k])
    ensures items[0..] == items
    ensures EncodePacked(f, items[|items|..]) == EncodeTagged(f, items[|items|..]) == Some([])
  {
  }

  /** PB_ENCODERS, indexed by the field's type. */
  method EncodeValueTo(stream: OStream, f: Field, v: Value) returns (ok: bool)
    requires stream.Valid() && TypedValue(f, v) && ValidField(f)
    modifies stream, stream.buffer
    ensures stream.Valid() && Emits(old(stream.Out()), EncodeValue(f, v), ok, stream.Out())
    decreases f, 0
  {
    match f.ltype
    case BoolType => ok := stream.EncodeVarint(v.n);
    case VarintType => ok := stream.EncodeVarint(v.n % U64);
    case UVarintType => ok := stream.EncodeVarint(v.n);
    case SVarintType => ok := stream.EncodeSVarint(v.n);
    case Fixed32Type => ok := stream.Write(Fixed(v.n, 4));
    case Fixed64Type => ok := stream.Write(Fixed(v.n, 8));
    case BytesType =>
      if |v.bytes| + BYTES_HEADER > f.dataSize {
        return false;
      }
      ok := stream.EncodeString(v.bytes);
    case StringType => ok := stream.EncodeString(v.bytes);
    case FixedBytesType => ok := stream.EncodeString(v.bytes);
    case SubmessageType => ok := EncodeSubmessage(stream, f.sub, v.slots);
  }

  /** The tag of the field, then a value. */
  method EncodeRecordTo(stream: OStream, f: Field, v: Value) returns (ok: bool)
    requires stream.Valid() && TypedValue(f, v) && ValidField(f)
    modifies stream, stream.buffer
    ensures stream.Valid() && Emits(old(stream.Out()), EncodeRecord(f, v), ok, stream.Out())
    decreases f, 1
  {
    hide Emits, EncodeValue, TypedValue, ValidField;
    ghost var out := stream.Out();
    ok := stream.EncodeTag(WireTypeOf(f.ltype), f.tag);
    if !ok {
      EmitsNeither(out, Some(TagFor(f)), stream.Out(), EncodeValue(f, v));
      return;
    }
    ghost var tagged := stream.Out();
    ok := EncodeValueTo(stream, f, v);
    EmitsBoth(out, Some(TagFor(f)), tagged, EncodeValue(f, v), ok, stream.Out());
  }

  /** A size known beforehand, then what comes to that size; in the sizing pass it is only counted. */
  lemma EmitsSized(a: Output, b: Output, c: Output, payload: seq<Byte>)
    requires a.room.None? && Emits(a, Some(Varint(|payload|)), true, b)
    requires c == b.(count := b.count + |payload|)
    ensures Emits(a, Some(Delimited(payload)), true, c)
  {
  }

  /**
   * pb_encode_submessage: a sizing pass, the size, and a writing pass over a substream with room for
   * exactly that size. The second pass neither outgrows the first nor falls short of it.
   */
  method EncodeSubmessage(stream: OStream, fields: seq<Field>, m: seq<Slot>) returns (ok: bool)
    requires stream.Valid() && TypedMessage(fields, m) && ValidFields(fields)
    modifies stream, stream.buffer
    ensures stream.Valid() && Emits(old(stream.Out()), Delimit(EncodeMessage(fields, m)), ok, stream.Out())
    decreases fields, |fields| + 3
  {
    hide EncodeMessage, TypedMessage, ValidFields, Varint;
    var sizing := new OStream.Sizing();
    ok := Encode(sizing, fields, m);
    if !ok {
      return false;
    }
    ghost var payload := EncodeMessage(fields, m).value;
    ghost var out := stream.Out();
    var size := sizing.bytesWritten;
    ok := stream.EncodeVarint(size);
    if !ok {
      return false;
    }
    ghost var sized := stream.Out();
    if stream.buffer == null {
      stream.Count(size);
      EmitsSized(out, sized, stream.Out(), payload);
      return true;
    }
    ok := WriteSubmessage(stream, fields, m, size);
    EmitsBoth(out, Some(Varint(size)), sized, Some(payload), ok, stream.Out());
  }

  /** The writing pass. */
  method WriteSubmessage(stream: OStream, fields: seq<Field>, m: seq<Slot>, size: nat) returns (ok: bool)
    requires stream.Valid() && TypedMessage(fields, m) && ValidFields(fields) && stream.buffer != null
    requires EncodeMessage(fields, m).Some? && size == |EncodeMessage(fields, m).value|
    modifies stream, stream.buffer
    ensures stream.Valid() && Emits(old(stream.Out()), EncodeMessage(fields, m), ok, stream.Out())
    decreases fields, |fields| + 2
  {
    hide EncodeMessage, TypedMessage, ValidFields;
    if stream.bytesWritten + size > stream.maxSize {
      return false;
    }
    var substream := new OStream.FromBuffer(stream.buffer, stream.state, size);
    var status := Encode(substream, fields, m);
    assert |substream.Out().written| == substream.state;
    assert |old(stream.Out().written)| == old(stream.state);
    stream.bytesWritten := stream.bytesWritten + substream.bytesWritten;
    stream.state := substream.state;
    if substream.bytesWritten != size {
      return false;
    }
    return status;
  }

  /** encode_array. */
  method EncodeArrayTo(stream: OStream, f: Field, items: seq<Value>) returns (ok: bool)
    requires stream.Valid() && ValidField(f) && forall k :: 0 <= k < |items| ==> TypedValue(f, items[k])
    modifies stream, stream.buffer
    ensures stream.Valid() && Emits(old(stream.Out()), EncodeArray(f, items), ok, stream.Out())
    decreases f, 4
  {
    hide EncodePacked, EncodeTagged, TypedValue, ValidField;
    if |items| == 0 {
      EmitsNothing(stream.Out());
      return true;
    }
    if |items| > f.arraySize {
      return false;
    }
    if Packable(f.ltype) {
      hide Emits;
      ghost var out := stream.Out();
      ok := stream.EncodeTag(WT_STRING, f.tag);
      if !ok {
        EmitsNeither(out, Some(Tag(WT_STRING, f.tag)), stream.Out(), Delimit(EncodePacked(f, items)));
        return;
      }
      ghost var tagged := stream.Out();
      ok := EncodePackedTo(stream, f, items);
      EmitsBoth(out, Some(Tag(WT_STRING, f.tag)), tagged, Delimit(EncodePacked(f, items)), ok, stream.Out());
    } else {
      ok := EncodeTaggedTo(stream, f, items);
    }
  }

  /** The size of a packed array, known from its type or by a sizing pass, and its items. */
  method EncodePackedTo(stream: OStream, f: Field, items: seq<Value>) returns (ok: bool)
    requires stream.Valid() && ValidField(f) && forall k :: 0 <= k < |items| ==> TypedValue(f, items[k])
    modifies stream, stream.buffer
    ensures stream.Valid() && Emits(old(stream.Out()), Delimit(EncodePacked(f, items)), ok, stream.Out())
    decreases f, 3
  {
    hide EncodePacked, TypedValue, ValidField, Varint;
    var size: nat;
    if f.ltype.Fixed32Type? {
      FixedPackedSize(f, items);
      size := 4 * |items|;
    } else if f.ltype.Fixed64Type? {
      FixedPackedSize(f, items);
      size := 8 * |items|;
    } else {
      var sizing := new OStream.Sizing();
      ok := EncodeItemsTo(sizing, f, items);
      if !ok {
        return false;
      }
      size := sizing.bytesWritten;
    }
    ghost var payload := EncodePacked(f, items).value;
    ghost var out := stream.Out();
    ok := stream.EncodeVarint(size);
    if !ok {
      return false;
    }
    ghost var sized := stream.Out();
    if stream.buffer == null {
      stream.Count(size);
      EmitsSized(out, sized, stream.Out(), payload);
      return true;
    }
    ok := EncodeItemsTo(stream, f, items);
    EmitsBoth(out, Some(Varint(size)), sized, Some(payload), ok, stream.Out());
  }

  /** The loop over the items of a packed array, in either pass. */
  method EncodeItemsTo(stream: OStream, f: Field, items: seq<Value>) returns (ok: bool)
    requires stream.Valid() && ValidField(f) && forall k :: 0 <= k < |items| ==> TypedValue(f, items[k])
    modifies stream, stream.buffer
    ensures stream.Valid() && Emits(old(stream.Out()), EncodePacked(f, items), ok, stream.Out())
    decreases f, 2
  {
    hide Emits, Join, EncodeValue, EncodePacked, EncodeTagged, TypedValue, ValidField;
    ghost var out, done := stream.Out(), Some([]);
    EmitsNothing(out);
    NothingFrom(f, items);
    JoinNothing(EncodePacked(f, items));
    var i := 0;
    while i < |items|
      invariant i <= |items| && stream.Valid()
      invariant Join(done, EncodePacked(f, items[i..])) == EncodePacked(f, items)
      invariant Emits(out, done, true, stream.Out())
    {
      ghost var before, next, rest := stream.Out(), EncodeValue(f, items[i]), EncodePacked(f, items[i + 1..]);
      PackedFrom(f, items, i);
      ok := EncodeValueTo(stream, f, items[i]);
      EmitsNext(out, done, before, next, ok, stream.Out(), rest);
      if !ok {
        return false;
      }
      done := Join(done, next);
      i := i + 1;
    }
    JoinNothing(done);
    return true;
  }

  /** The loop over the items of an array that is not packed. */
  method EncodeTaggedTo(stream: OStream, f: Field, items: seq<Value>) returns (ok: bool)
    requires stream.Valid() && ValidField(f) && forall k :: 0 <= k < |items| ==> TypedValue(f, items[k])
    modifies stream, stream.buffer
    ensures stream.Valid() && Emits(old(stream.Out()), EncodeTagged(f, items), ok, stream.Out())
    decreases f, 2
  {
    hide Emits, Join, EncodeRecord, EncodePacked, EncodeTagged, TypedValue, ValidField;
    ghost var out, done := stream.Out(), Some([]);
    EmitsNothing(out);
    NothingFrom(f, items);
    JoinNothing(EncodeTagged(f, items));
    var i := 0;
    while i < |items|
      invariant i <= |items| && stream.Valid()
      invariant Join(done, EncodeTagged(f, items[i..])) == EncodeTagged(f, items)
      invariant Emits(out, done, true, stream.Out())
    {
      ghost var before, next, rest := stream.Out(), EncodeRecord(f, items[i]), EncodeTagged(f, items[i + 1..]);
      PackedFrom(f, items, i);
      ok := EncodeRecordTo(stream, f, items[i]);
      EmitsNext(out, done, before, next, ok, stream.Out(), rest);
      if !ok {
        return false;
      }
      done := Join(done, next);
      i := i + 1;
    }
    JoinNothing(done);
    return true;
  }

  /** encode_basic_field. */
  method EncodeFieldTo(stream: OStream, f: Field, slot: Slot) returns (ok: bool)
    requires stream.Valid() && TypedSlot(f, slot) && ValidField(f)
    modifies stream, stream.buffer
    ensures stream.Valid() && Emits(old(stream.Out()), EncodeField(f, slot), ok, stream.Out())
    decreases f, 5
  {
    hide Emits, EncodeRecord, EncodeArray, TypedValue, ValidField;
    if f.rule.Repeated? {
      ok := EncodeArrayTo(stream, f, slot.items);
    } else if Present(f, slot) {
      ok := EncodeRecordTo(stream, f, slot.value);
    } else {
      EmitsNothing(stream.Out());
      ok := true;
    }
  }

  lemma FieldsFrom(fields: seq<Field>, m: seq<Slot>, i: nat)
    requires TypedMessage(fields, m) && ValidFields(fields) && i < |fields|
    ensures SlotAt(fields, i) < |m| && TypedSlot(fields[i], m[SlotAt(fields, i)]) && ValidField(fields[i])
    ensures EncodeFrom(fields, m, i) == Join(EncodeField(fields[i], m[SlotAt(fields, i)]), EncodeFrom(fields, m, i + 1))
  {
  }

  lemma NoFieldsFrom(fields: seq<Field>, m: seq<Slot>)
    requires TypedMessage(fields, m)
    ensures EncodeMessage(fields, m) == EncodeFrom(fields, m, 0)
    ensures EncodeFrom(fields, m, |fields|) == Some([])
  {
  }

  /** pb_encode. */
  method Encode(stream: OStream, fields: seq<Field>, m: seq<Slot>) returns (ok: bool)
    requires stream.Valid() && TypedMessage(fields, m) && ValidFields(fields)
    modifies stream, stream.buffer
    ensures stream.Valid() && Emits(old(stream.Out()), EncodeMessage(fields, m), ok, stream.Out())
    decreases fields, |fields| + 1
  {
    hide Emits, Join, EncodeFrom, EncodeField, TypedMessage, TypedSlot, ValidFields, ValidField, SlotAt, RequiredBefore, OStream.Out;
    ghost var out, done := stream.Out(), Some([]);
    EmitsNothing(out);
    NoFieldsFrom(fields, m);
    if fields == [] {
      return true;
    }
    JoinNothing(EncodeMessage(fields, m));
    var iter := new FieldIter(fields);
    var more := true;
    while more
      invariant iter.Valid() && iter.fields == fields && fresh(iter) && stream.Valid()
      invariant more ==> iter.pos < |fields|
      invariant Join(done, EncodeFrom(fields, m, if more then iter.pos else |fields|)) == EncodeMessage(fields, m)
      invariant Emits(out, done, true, stream.Out())
      decreases more, |fields| - iter.pos
    {
      FieldsFrom(fields, m, iter.pos);
      ghost var before, next, rest := stream.Out(), EncodeField(fields[iter.pos], m[iter.slot]), EncodeFrom(fields, m, iter.pos + 1);
      ok := EncodeFieldTo(stream, fields[iter.pos], m[iter.slot]);
      EmitsNext(out, done, before, next, ok, stream.Out(), rest);
      if !ok {
        return false;
      }
      done := Join(done, next);
      more := iter.Next();
    }
    JoinNothing(done);
    return true;
  }

  /** pb_get_encoded_size. */
  method GetEncodedSize(fields: seq<Field>, m: seq<Slot>) returns (size: Option<nat>)
    requires TypedMessage(fields, m) && ValidFields(fields)
    ensures size == match EncodeMessage(fields, m) case Some(bytes) => Some(|bytes|) case None => None
  {
    hide EncodeMessage, TypedMessage, ValidFields;
    var stream := new OStream.Sizing();
    var ok := Encode(stream, fields, m);
    return if ok then Some(stream.bytesWritten) else None;
  }
}
