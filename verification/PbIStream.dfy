/** The decoder's loops over an input stream (nanopb pb_decode.c). */
module PbIStream {
  import opened Wrappers
  import opened Coding
  import opened PbCommon
  import opened PbEncode
  import opened PbDecode
  import opened PbRoundTrip

  // pb_decode_varint

  /** What is still to be read of a 64-bit varint, after `k` bytes that made `result`. */
  function Ahead(s: seq<Byte>, k: nat, result: nat): Option<(nat, seq<Byte>)> {
    DecodedLength(s);
    var r := DecodeVarint(s);
    if r.Some? && r.value.1 + k <= 10 then Some(((result + r.value.0 * ShiftLeft(1, 7 * k)) % U64, s[r.value.1..])) else None
  }

  lemma {:induction false} ShiftBound(k: nat)
    requires k <= 9
    ensures 0 < ShiftLeft(1, 7 * k) <= 0x8000_0000_0000_0000
    ensures k <= 8 ==> ShiftLeft(1, 7 * k) <= 0x100_0000_0000_0000
    ensures k <= 7 ==> ShiftLeft(1, 7 * k) <= 0x2_0000_0000_0000
    decreases 9 - k
  {
    ShiftsBy7(7 * k);
    assert 7 * (k + 1) == 7 * k + 7;
    if k < 9 {
      ShiftBound(k + 1);
    } else {
      TenGroups();
    }
    ShiftPositive(7 * k);
  }

  lemma {:induction false} ShiftPositive(n: nat)
    ensures ShiftLeft(1, n) > 0
  {
    if n > 0 {
      ShiftPositive(n - 1);
    }
  }

  lemma TenGroups()
    ensures ShiftLeft(1, 63) == 0x8000_0000_0000_0000
  {
    hide ShiftLeft;
    Shifts();
    ShiftsBy7(28);
    ShiftsBy7(35);
    ShiftsBy7(42);
    ShiftsBy7(49);
    ShiftsBy7(56);
  }

  lemma AheadStarts(s: seq<Byte>)
    ensures Varint64(s) == Ahead(s, 0, 0)
  {
    DecodedLength(s);
  }

  /** The group of a byte, shifted in. */
  function WithGroup(byte: Byte, bitpos: nat, result: nat): nat {
    Or(result, ShiftLeft(byte % 128, bitpos)) % U64
  }

  lemma VarintHead(s: seq<Byte>)
    requires s != []
    ensures s[0] < 128 ==> DecodeVarint(s) == Some((s[0] as nat, 1)) && s[0] % 128 == s[0]
    ensures s[0] >= 128 ==> s[0] % 128 == s[0] - 128
    ensures s[0] >= 128 && DecodeVarint(s[1..]).None? ==> DecodeVarint(s).None?
    ensures s[0] >= 128 && DecodeVarint(s[1..]).Some? ==>
      DecodeVarint(s) == Some((s[0] - 128 + 128 * DecodeVarint(s[1..]).value.0, 1 + DecodeVarint(s[1..]).value.1))
  {
  }

  lemma AheadNothing(k: nat, result: nat)
    ensures Ahead([], k, result) == None
  {
  }

  lemma GroupAdded(byte: Byte, k: nat, result: nat, unit: nat)
    requires k <= 9 && unit == ShiftLeft(1, 7 * k) && result < unit
    ensures WithGroup(byte, 7 * k, result) == (result + byte % 128 * unit) % U64
    ensures k < 9 ==> WithGroup(byte, 7 * k, result) == result + byte % 128 * unit < 128 * unit == ShiftLeft(1, 7 * (k + 1))
  {
    hide Or, ShiftLeft;
    OrGroup(result, byte % 128, 7 * k, unit);
    ShiftBound(k);
    ProductsGrow(byte % 128, 127, unit);
    ShiftsBy7(7 * k);
    assert 7 * k + 7 == 7 * (k + 1);
  }

  lemma AheadStep(s: seq<Byte>, k: nat, result: nat, result': nat)
    requires s != [] && k <= 9 && result < ShiftLeft(1, 7 * k) && result' == WithGroup(s[0], 7 * k, result)
    ensures s[0] < 128 ==> Ahead(s, k, result) == Some((result', s[1..]))
    ensures s[0] >= 128 && k < 9 ==> result' < ShiftLeft(1, 7 * (k + 1)) && Ahead(s, k, result) == Ahead(s[1..], k + 1, result')
    ensures s[0] >= 128 && k == 9 ==> Ahead(s, k, result) == None
  {
    hide ShiftLeft, DecodeVarint, WithGroup;
    VarintHead(s);
    var unit := ShiftLeft(1, 7 * k);
    GroupAdded(s[0], k, result, unit);
    if s[0] >= 128 {
      DecodedLength(s[1..]);
      var more := DecodeVarint(s[1..]);
      if more.Some? && k < 9 {
        SumsAgree(s[0], more.value.0, result, result', unit);
        assert s[1..][more.value.1..] == s[1 + more.value.1..];
      }
    }
  }

  lemma SumsAgree(byte: Byte, more: nat, result: nat, result': nat, unit: nat)
    requires byte >= 128 && result' == result + byte % 128 * unit
    ensures result + (byte - 128 + 128 * more) * unit == result' + more * (128 * unit)
  {
    SplitProduct(byte - 128 + 128 * more, byte - 128, more, unit);
  }

  /** pb_istream_t over a memory buffer: the read position and the bytes left to it. */
  class IStream {
    const data: seq<Byte>
    var state: nat
    var bytesLeft: nat

    ghost predicate Valid()
      reads this
    {
      state + bytesLeft <= |data|
    }

    ghost function Rest(): (s: seq<Byte>)
      requires Valid()
      reads this
      ensures |s| == bytesLeft
    {
      data[state..state + bytesLeft]
    }

    /** Where the stream ends. */
    function End(): nat
      reads this
    {
      state + bytesLeft
    }

    /** pb_istream_from_buffer, and the substream of pb_make_string_substream. */
    constructor (data: seq<Byte>, state: nat, bytesLeft: nat)
      requires state + bytesLeft <= |data|
      ensures Valid() && this.data == data && this.state == state && this.bytesLeft == bytesLeft
    {
      this.data := data;
      this.state := state;
      this.bytesLeft := bytesLeft;
    }

    /** pb_readbyte. */
    method ReadByte() returns (ok: bool, byte: Byte)
      requires Valid()
      modifies this
      ensures Valid() && (ok <==> old(Rest()) != [])
      ensures ok ==> byte == old(Rest())[0] && Rest() == old(Rest())[1..] && End() == old(End())
      ensures !ok ==> Rest() == []
    {
      if bytesLeft == 0 {
        return false, 0;
      }
      byte := data[state];
      state := state + 1;
      bytesLeft := bytesLeft - 1;
      return true, byte;
    }

    /** pb_read. */
    method Read(count: nat) returns (ok: bool, buf: seq<Byte>)
      requires Valid()
      modifies this
      ensures Valid() && (ok <==> count <= |old(Rest())|)
      ensures ok ==> buf == old(Rest())[..count] && Rest() == old(Rest())[count..] && End() == old(End())
    {
      if count == 0 {
        return true, [];
      }
      if bytesLeft < count {
        return false, [];
      }
      buf := data[state..state + count];
      state := state + count;
      bytesLeft := bytesLeft - count;
      return true, buf;
    }

    /** pb_decode_varint32_eof. */
    method DecodeVarint32() returns (ok: bool, dest: nat, eof: bool)
      requires Valid()
      modifies this
      ensures Valid() && (eof <==> old(Rest()) == [])
      ensures ok <==> Varint32(old(Rest())).Some?
      ensures ok ==> Varint32(old(Rest())) == Some((dest, Rest())) && End() == old(End())
    {
      hide Or, ShiftLeft;
      ghost var s := Rest();
      var byte;
      ok, byte := ReadByte();
      if !ok {
        return false, 0, true;
      }
      eof := false;
      if byte < 128 {
        return true, byte, false;
      }
      var bitpos: nat := 7;
      var result: nat := byte % 128;
      while byte >= 128
        invariant Valid() && bytesLeft < |s| && End() == old(End()) && bitpos < 256
        invariant byte >= 128 ==> Varint32(s) == Varint32More(Rest(), bitpos, result)
        invariant byte < 128 ==> Varint32(s) == if bitpos == 35 && byte / 16 % 8 != 0 then None else Some((result, Rest()))
        decreases byte >= 128, bytesLeft
      {
        ok, byte := ReadByte();
        if !ok {
          return false, 0, false;
        }
        if bitpos >= 32 {
          var signExtension := if bitpos < 63 then 0xFF else 0x01;
          if byte % 128 != 0 && (result < 0x8000_0000 || byte != signExtension) {
            return false, 0, false;
          }
        } else {
          result := Or(result, ShiftLeft(byte % 128, bitpos)) % U32;
        }
        bitpos := (bitpos + 7) % 256;
      }
      if bitpos == 35 && byte / 16 % 8 != 0 {
        return false, 0, false;
      }
      return true, result, false;
    }

    /** pb_decode_varint. */
    method DecodeVarint() returns (ok: bool, dest: nat)
      requires Valid()
      modifies this
      ensures Valid() && (ok <==> Varint64(old(Rest())).Some?)
      ensures ok ==> Varint64(old(Rest())) == Some((dest, Rest())) && End() == old(End())
    {
      hide WithGroup, Ahead, ShiftLeft, Varint64;
      ghost var s := Rest();
      AheadStarts(s);
      ShiftPositive(0);
      var bitpos: nat, byte: Byte := 0, 128;
      dest := 0;
      while byte >= 128
        invariant Valid() && End() == old(End()) && bitpos % 7 == 0 && bitpos <= 70
        invariant byte >= 128 && bitpos < 70 ==> Varint64(s) == Ahead(Rest(), bitpos / 7, dest) && dest < ShiftLeft(1, bitpos)
        invariant byte >= 128 && bitpos == 70 ==> Varint64(s) == None
        invariant byte < 128 ==> Varint64(s) == Some((dest, Rest()))
        decreases byte >= 128, 70 - bitpos
      {
        if bitpos >= 64 {
          return false, 0;
        }
        ghost var before := Rest();
        ok, byte := ReadByte();
        if !ok {
          AheadNothing(bitpos / 7, dest);
          return false, 0;
        }
        AheadStep(before, bitpos / 7, dest, WithGroup(byte, bitpos, dest));
        dest := WithGroup(byte, bitpos, dest);
        bitpos := bitpos + 7;
      }
      return true, dest;
    }

    /** pb_skip_varint. */
    method SkipVarint() returns (ok: bool)
      requires Valid()
      modifies this
      ensures Valid() && (ok <==> PbDecode.SkipVarint(old(Rest())).Some?)
      ensures ok ==> PbDecode.SkipVarint(old(Rest())) == Some(Rest()) && End() == old(End())
    {
      ghost var s := Rest();
      while true
        invariant Valid() && End() == old(End()) && PbDecode.SkipVarint(s) == PbDecode.SkipVarint(Rest())
        decreases bytesLeft
      {
        var byte;
        ok, byte := ReadByte();
        if !ok || byte < 128 {
          return;
        }
      }
    }

    /** pb_skip_field, with pb_skip_string in it. */
    method SkipField(wireType: nat) returns (ok: bool)
      requires Valid()
      modifies this
      ensures Valid() && (ok <==> PbDecode.SkipField(old(Rest()), wireType).Some?)
      ensures ok ==> PbDecode.SkipField(old(Rest()), wireType) == Some(Rest()) && End() == old(End())
    {
      hide Varint32;
      var skipped;
      if wireType == WT_VARINT {
        ok := SkipVarint();
      } else if wireType == WT_64BIT {
        ok, skipped := Read(8);
      } else if wireType == WT_STRING {
        var length, eof;
        ok, length, eof := DecodeVarint32();
        if ok {
          ok, skipped := Read(length);
        }
      } else if wireType == WT_32BIT {
        ok, skipped := Read(4);
      } else {
        ok := false;
      }
    }

    /** `rest` is what this stream keeps when `sub` is closed. */
    ghost predicate Keeps(sub: IStream, rest: seq<Byte>)
      reads this, sub
    {
      && sub != this && sub.data == data && sub.Valid()
      && sub.End() + bytesLeft <= |data|
      && data[sub.End()..sub.End() + bytesLeft] == rest
    }

    /** pb_make_string_substream. */
    method MakeStringSubstream() returns (ok: bool, sub: IStream)
      requires Valid()
      modifies this
      ensures Valid() && (ok <==> Undelimit(old(Rest())).Some?)
      ensures ok ==> fresh(sub) && sub.Valid() && Keeps(sub, Undelimit(old(Rest())).value.1)
      ensures ok ==> sub.Rest() == Undelimit(old(Rest())).value.0 && sub.End() + bytesLeft == old(End())
    {
      hide Varint32;
      var size, eof;
      ok, size, eof := DecodeVarint32();
      if !ok || bytesLeft < size {
        return false, this;
      }
      ghost var rest := Rest();
      sub := new IStream(data, state, size);
      bytesLeft := bytesLeft - size;
      assert rest[..size] == sub.Rest();
      assert rest[size..] == data[sub.End()..sub.End() + bytesLeft];
    }

    /** pb_close_string_substream: what the substream did not read is skipped. */
    method CloseStringSubstream(sub: IStream, ghost rest: seq<Byte>)
      requires Keeps(sub, rest)
      modifies this, sub
      ensures Valid() && Rest() == rest && End() == old(sub.End() + bytesLeft)
    {
      if sub.bytesLeft > 0 {
        var ok, skipped := sub.Read(sub.bytesLeft);
      }
      state := sub.state;
    }

    /** pb_decode_tag. */
    method DecodeTag() returns (ok: bool, wireType: nat, tag: nat, eof: bool)
      requires Valid() && Rest() != []
      modifies this
      ensures Valid()
      ensures ok <==> Varint32(old(Rest())).Some? && Varint32(old(Rest())).value.0 != 0
      ensures eof <==> Varint32(old(Rest())).Some? && Varint32(old(Rest())).value.0 == 0
      ensures ok || eof ==> Rest() == Varint32(old(Rest())).value.1 && End() == old(End())
      ensures ok ==> tag == Varint32(old(Rest())).value.0 / 8 && wireType == Varint32(old(Rest())).value.0 % 8
    {
      hide Varint32;
      var key;
      ok, key, eof := DecodeVarint32();
      if !ok {
        return false, 0, 0, eof;
      }
      if key == 0 {
        return false, 0, 0, true;
      }
      return true, key % 8, key / 8, false;
    }
  }

  /** The first `n` fields are at their defaults. */
  ghost predicate Initialised(fields: seq<Field>, m: seq<Slot>, n: nat) {
    && |m| == SlotCount(fields) && n <= |fields|
    && forall j :: 0 <= j < n ==> SlotAt(fields, j) < |m| && m[SlotAt(fields, j)] == DefaultSlot(fields[j])
  }

  lemma InitialisedStep(fields: seq<Field>, m: seq<Slot>, n: nat)
    requires Initialised(fields, m, n) && n < |fields|
    ensures SlotAt(fields, n) < |m| && Initialised(fields, m[SlotAt(fields, n) := DefaultSlot(fields[n])], n + 1)
  {
    hide DefaultSlot, SlotAt;
    SlotsAscend(fields, n, n);
    var m' := m[SlotAt(fields, n) := DefaultSlot(fields[n])];
    forall j | 0 <= j < n + 1
      ensures SlotAt(fields, j) < |m'| && m'[SlotAt(fields, j)] == DefaultSlot(fields[j])
    {
      SharedDefault(fields, j, n);
    }
  }

  lemma SharedDefault(fields: seq<Field>, j: nat, n: nat)
    requires j <= n < |fields|
    ensures SlotAt(fields, j) == SlotAt(fields, n) ==> DefaultSlot(fields[j]) == DefaultSlot(fields[n])
  {
    hide DefaultValue;
    SlotsAscend(fields, j, n);
  }

  lemma InitialisedAll(fields: seq<Field>, m: seq<Slot>)
    requires Initialised(fields, m, |fields|)
    ensures m == Defaults(fields)
  {
    hide DefaultSlot, Defaults, SlotAt;
    DefaultsLength(fields);
    forall k | 0 <= k < |m|
      ensures k < |Defaults(fields)| && m[k] == Defaults(fields)[k]
    {
      var i := SlotTaken(fields, k);
      DefaultAt(fields, i);
    }
  }

  lemma DefaultsLength(fields: seq<Field>)
    ensures |Defaults(fields)| == SlotCount(fields)
  {
  }

  /** pb_message_set_to_defaults. */
  method SetToDefaults(fields: seq<Field>) returns (m: seq<Slot>)
    ensures m == Defaults(fields)
    decreases fields
  {
    hide Defaults, DefaultSlot, Initialised;
    m := seq(SlotCount(fields), _ => Union(0, Num(0)));
    InitialisedNone(fields, m);
    var iter := new FieldIter(fields);
    if fields != [] {
      var more := true;
      while more
        invariant iter.Valid() && iter.fields == fields && fresh(iter)
        invariant more ==> iter.pos < |fields|
        invariant Initialised(fields, m, if more then iter.pos else |fields|)
        decreases more, |fields| - iter.pos
      {
        InitialisedStep(fields, m, iter.pos);
        var slot := SetFieldToDefault(fields[iter.pos]);
        m := m[iter.slot := slot];
        more := iter.Next();
      }
    }
    InitialisedAll(fields, m);
  }

  lemma InitialisedNone(fields: seq<Field>, m: seq<Slot>)
    requires |m| == SlotCount(fields)
    ensures Initialised(fields, m, 0)
  {
  }

  /** pb_field_set_to_default. */
  method SetFieldToDefault(f: Field) returns (slot: Slot)
    ensures slot == DefaultSlot(f)
    decreases f
  {
    match f.rule
    case Repeated(_) => return Many([]);
    case OneOf(_) => return Union(0, Num(0));
    case _ =>
      var v;
      if f.ltype.SubmessageType? {
        var m := SetToDefaults(f.sub);
        v := Message(m);
      } else {
        v := DefaultValue(f);
      }
      slot := if f.rule == Optional(true) then Maybe(false, v) else Single(v);
  }

  // Fields and messages

  /** What a value is decoded over: a new array item is initialised first. */
  function Target(f: Field, before: Value): Value {
    if f.rule.Repeated? then DefaultValue(f) else before
  }

  /** PB_DECODERS, indexed by the field's type; `before` is what the submessage at the destination holds. */
  method DecodeValueFrom(stream: IStream, f: Field, before: Value) returns (ok: bool, v: Value)
    requires stream.Valid() && ValidField(f) && ShapedValue(f, Target(f, before))
    modifies stream
    ensures stream.Valid() && (ok <==> DecodeInto(f, Target(f, before), old(stream.Rest())).Some?)
    ensures ok ==> DecodeInto(f, Target(f, before), old(stream.Rest())) == Some((v, stream.Rest())) && stream.End() == old(stream.End())
    decreases stream.bytesLeft, 1
  {
    v := Num(0);
    match f.ltype
    case BoolType =>
      var value, eof;
      ok, value, eof := stream.DecodeVarint32();
      v := Num(if value != 0 then 1 else 0);
    case Fixed32Type =>
      ok, v := DecodeFixedFrom(stream, 4);
    case Fixed64Type =>
      ok, v := DecodeFixedFrom(stream, 8);
    case BytesType =>
      ok, v := DecodeTextFrom(stream, f);
    case StringType =>
      ok, v := DecodeTextFrom(stream, f);
    case FixedBytesType =>
      ok, v := DecodeTextFrom(stream, f);
    case SubmessageType =>
      ok, v := DecodeSubmessage(stream, f, before);
    case _ =>
      var value;
      ok, value := stream.DecodeVarint();
      if ok {
        var n := Clamp(f, value);
        ok := n.Some?;
        v := Num(if n.Some? then n.value else 0);
      }
  }

  /** pb_decode_fixed32 and pb_decode_fixed64. */
  method DecodeFixedFrom(stream: IStream, width: nat) returns (ok: bool, v: Value)
    requires stream.Valid() && width > 0
    modifies stream
    ensures stream.Valid() && (ok <==> ReadFixed(old(stream.Rest()), width).Some?)
    ensures ok ==> ReadFixed(old(stream.Rest()), width) == Some((v, stream.Rest())) && stream.End() == old(stream.End())
  {
    var bytes;
    ok, bytes := stream.Read(width);
    v := Num(DecodeFixed(bytes));
  }

  /** pb_dec_bytes, pb_dec_string and pb_dec_fixed_length_bytes. */
  method DecodeTextFrom(stream: IStream, f: Field) returns (ok: bool, v: Value)
    requires stream.Valid() && f.ltype in {BytesType, StringType, FixedBytesType}
    modifies stream
    ensures stream.Valid() && (ok <==> DecodeValue(f, old(stream.Rest())).Some?)
    ensures ok ==> DecodeValue(f, old(stream.Rest())) == Some((v, stream.Rest())) && stream.End() == old(stream.End())
  {
    hide Varint32;
    var size, eof;
    ok, size, eof := stream.DecodeVarint32();
    v := Text([]);
    if !ok {
      return;
    }
    if f.ltype.FixedBytesType? {
      if size == 0 {
        return true, Text(Zeros(f.dataSize));
      }
      if size != f.dataSize {
        return false, v;
      }
    } else if size + (if f.ltype.StringType? then 1 else BYTES_HEADER) > f.dataSize {
      return false, v;
    }
    var bytes;
    ok, bytes := stream.Read(size);
    v := Text(if f.ltype.StringType? then CString(bytes) else bytes);
  }

  /** pb_dec_submessage. */
  method DecodeSubmessage(stream: IStream, f: Field, before: Value) returns (ok: bool, v: Value)
    requires stream.Valid() && ValidField(f) && ShapedValue(f, Target(f, before)) && f.ltype.SubmessageType?
    modifies stream
    ensures stream.Valid() && (ok <==> DecodeInto(f, Target(f, before), old(stream.Rest())).Some?)
    ensures ok ==> DecodeInto(f, Target(f, before), old(stream.Rest())) == Some((v, stream.Rest())) && stream.End() == old(stream.End())
    decreases stream.bytesLeft, 0
  {
    hide Undelimit, DecodeNoInit, Shaped, ValidFields;
    ghost var s := stream.Rest();
    v := before;
    var sub;
    ok, sub := stream.MakeStringSubstream();
    if !ok {
      return;
    }
    var m;
    if f.rule.Repeated? {
      m := SetToDefaults(f.sub);
    } else {
      m := before.slots;
    }
    ok, m := DecodeNoInitFrom(sub, f.sub, m);
    v := Message(m);
    if ok {
      stream.CloseStringSubstream(sub, Undelimit(s).value.1);
    }
  }

  /** decode_static_field. */
  method DecodeStaticField(stream: IStream, f: Field, wireType: nat, slot: Slot) returns (ok: bool, r: Slot)
    requires stream.Valid() && ValidField(f) && ShapedSlot(f, slot)
    modifies stream
    ensures stream.Valid() && (ok <==> DecodeSlot(f, wireType, slot, old(stream.Rest())).Some?)
    ensures ok ==> DecodeSlot(f, wireType, slot, old(stream.Rest())) == Some((r, stream.Rest())) && stream.End() == old(stream.End())
    decreases stream.bytesLeft, 2
  {
    hide DecodeInto, ValidField, ShapedValue, DefaultValue;
    r := slot;
    var v;
    match f.rule
    case Required =>
      ok, v := DecodeValueFrom(stream, f, slot.value);
      r := Single(v);
    case Optional(hasFlag) =>
      ok, v := DecodeValueFrom(stream, f, slot.value);
      r := if hasFlag then Maybe(true, v) else Single(v);
    case Repeated(_) =>
      if wireType == WT_STRING && Packable(f.ltype) {
        var items;
        ok, items := DecodePackedFrom(stream, f, slot.items);
        r := Many(items);
      } else {
        if |slot.items| >= f.arraySize {
          return false, r;
        }
        DefaultShaped(f);
        ok, v := DecodeValueFrom(stream, f, Num(0));
        r := Many(slot.items + [v]);
      }
    case OneOf(_) =>
      DefaultShaped(f);
      var before := Num(0);
      if f.ltype.SubmessageType? {
        var m := SetToDefaults(f.sub);
        before := Message(m);
      }
      SubmessageDefault(f);
      NothingKept(f, before, stream.Rest());
      ok, v := DecodeValueFrom(stream, f, before);
      r := Union(f.tag, v);
  }

  lemma SubmessageDefault(f: Field)
    ensures f.ltype.SubmessageType? ==> DefaultValue(f) == Message(Defaults(f.sub))
  {
  }

  /** Only a submessage looks at what is stored already. */
  lemma NothingKept(f: Field, before: Value, s: seq<Byte>)
    requires f.ltype.SubmessageType? ==> before == DefaultValue(f)
    ensures ShapedValue(f, before) && DecodeFresh(f, s) == DecodeInto(f, before, s)
  {
    DefaultShaped(f);
  }

  /** A packed array: items while there are bytes and room, and then nothing may be left. */
  method DecodePackedFrom(stream: IStream, f: Field, before: seq<Value>) returns (ok: bool, items: seq<Value>)
    requires stream.Valid() && ValidField(f) && Packable(f.ltype)
    modifies stream
    ensures stream.Valid()
    ensures
      match Undelimit(old(stream.Rest()))
      case None => !ok
      case Some((payload, rest)) =>
        && (ok <==> DecodePacked(f, payload, before).Some?)
        && (ok ==> DecodePacked(f, payload, before) == Some(items) && stream.Rest() == rest && stream.End() == old(stream.End()))
    decreases stream.bytesLeft, 0
  {
    hide Undelimit, ValidField, DecodeValue;
    ghost var s := stream.Rest();
    items := before;
    var sub;
    ok, sub := stream.MakeStringSubstream();
    if !ok {
      return;
    }
    ghost var payload, rest := sub.Rest(), Undelimit(s).value.1;
    var status := true;
    while sub.bytesLeft > 0 && |items| < f.arraySize
      invariant fresh(sub) && stream.Valid() && stream.Keeps(sub, rest) && sub.End() + stream.bytesLeft == old(stream.End()) && sub.bytesLeft < |s|
      invariant DecodePacked(f, payload, before) == DecodePacked(f, sub.Rest(), items)
      decreases sub.bytesLeft
    {
      var v;
      ok, v := DecodeValueFrom(sub, f, Num(0));
      if !ok {
        status := false;
        break;
      }
      items := items + [v];
    }
    if !status || sub.bytesLeft != 0 {
      return false, items;
    }
    stream.CloseStringSubstream(sub, rest);
    return true, items;
  }

  // The bitmap of required fields

  const ALL_BITS: seq<bool> := LowBits(32)

  /** The 32 bits of `allbits >> (32 - n)`, lowest first. */
  function LowBits(n: nat): (w: seq<bool>)
    ensures |w| == 32 && forall k :: 0 <= k < 32 ==> (w[k] <==> k < n)
  {
    seq(32, k => k < n)
  }

  /** The set that two words of 32 bits stand for. */
  ghost predicate IsBitmap(words: seq<seq<bool>>, seen: set<nat>) {
    && |words| == 2 && |words[0]| == |words[1]| == 32
    && (forall k: nat :: k < 64 ==> (words[k / 32][k % 32] <==> k in seen))
  }

  lemma WordBits(words: seq<seq<bool>>, seen: set<nat>, i: nat)
    requires IsBitmap(words, seen) && i < 2
    ensures forall k: nat :: k < 32 ==> (words[i][k] <==> 32 * i + k in seen)
  {
    forall k: nat | k < 32
      ensures words[i][k] <==> 32 * i + k in seen
    {
      assert (32 * i + k) / 32 == i && (32 * i + k) % 32 == k;
    }
  }

  /** A word whose low `n` bits are set and no others. */
  lemma WordIs(words: seq<seq<bool>>, seen: set<nat>, i: nat, n: nat)
    requires IsBitmap(words, seen) && i < 2 && n <= 32
    requires n == 32 || forall k: nat :: k in seen ==> k < 32 * i + n
    ensures words[i] == LowBits(n) <==> forall k: nat :: 32 * i <= k < 32 * i + n ==> k in seen
  {
    WordBits(words, seen, i);
    if forall k: nat :: 32 * i <= k < 32 * i + n ==> k in seen {
      forall k: nat | k < 32
        ensures words[i][k] <==> k < n
      {
        assert k < n ==> 32 * i + k in seen;
      }
    } else {
      var k: nat :| 32 * i <= k < 32 * i + n && k !in seen;
      assert !words[i][k - 32 * i] && LowBits(n)[k - 32 * i];
    }
  }

  /** The check for missing required fields: whole words, then the bits of the last. */
  method CheckRequired(words: seq<seq<bool>>, ghost seen: set<nat>, count: nat) returns (ok: bool)
    requires IsBitmap(words, seen) && forall k: nat :: k in seen ==> k < count
    ensures ok <==> forall k: nat :: k < count && k < MAX_REQUIRED_FIELDS ==> k in seen
  {
    hide IsBitmap, LowBits;
    var n := if count > MAX_REQUIRED_FIELDS then MAX_REQUIRED_FIELDS else count;
    BitmapShape(words, seen);
    var i := 0;
    while i < n / 32
      invariant i <= n / 32
      invariant forall k: nat :: k < 32 * i ==> k in seen
    {
      WordIs(words, seen, i, 32);
      if words[i] != ALL_BITS {
        return false;
      }
      i := i + 1;
    }
    if n % 32 != 0 {
      WordIs(words, seen, n / 32, n % 32);
      if words[n / 32] != LowBits(n % 32) {
        return false;
      }
    }
    return true;
  }

  lemma BitmapShape(words: seq<seq<bool>>, seen: set<nat>)
    requires IsBitmap(words, seen)
    ensures |words| == 2 && |words[0]| == |words[1]| == 32
  {
  }

  /** Setting the bit of a required field. */
  method SetBit(words: seq<seq<bool>>, ghost seen: set<nat>, k: nat) returns (r: seq<seq<bool>>)
    requires IsBitmap(words, seen) && k < MAX_REQUIRED_FIELDS
    ensures IsBitmap(r, seen + {k})
  {
    r := words[k / 32 := words[k / 32][k % 32 := true]];
    forall j: nat | j < 64
      ensures r[j / 32][j % 32] <==> j in seen + {k}
    {
      assert j / 32 == k / 32 && j % 32 == k % 32 ==> j == k;
    }
  }

  /** One round of the loop: the record that follows a key. */
  method DecodeRecordFrom(stream: IStream, iter: FieldIter, tag: nat, wireType: nat, words: seq<seq<bool>>, m: seq<Slot>, run: Option<nat>, ghost st: Progress)
    returns (ok: bool, words': seq<seq<bool>>, m': seq<Slot>, run': Option<nat>, ghost st': Progress)
    requires stream.Valid() && iter.Valid() && ValidFields(iter.fields)
    requires ProgressOk(iter.fields, st) && st.m == m && st.run == run && IsBitmap(words, st.seen)
    modifies stream, iter
    ensures stream.Valid() && iter.Valid()
    ensures ok <==> DecodeRecord(iter.fields, st, tag, wireType, old(stream.Rest())).Some?
    ensures ok ==> DecodeRecord(iter.fields, st, tag, wireType, old(stream.Rest())) == Some((st', stream.Rest()))
    ensures ok ==> stream.End() == old(stream.End()) && st'.m == m' && st'.run == run' && IsBitmap(words', st'.seen)
    decreases stream.bytesLeft, 3
  {
    hide DecodeSlot, IsBitmap, Shaped, ShapedSlot, ValidField, Varint32, PbDecode.SkipField, SlotAt, RequiredBefore;
    ghost var fields, s := iter.fields, stream.Rest();
    words', m', run', st' := words, m, run, st;
    var found := iter.Find(tag);
    if !found {
      ok := stream.SkipField(wireType);
      return;
    }
    if iter.pos == |iter.fields| {
      var value, eof;
      ok, value, eof := stream.DecodeVarint32();
      return;
    }
    var i := iter.pos;
    var f := iter.fields[i];
    FieldFound(fields, i);
    FieldValid(fields, i);
    SlotExists(fields, st, i);
    if f.rule == Repeated(false) && run != Some(i) {
      if run.Some? {
        var j := run.value;
        SlotExists(fields, st, j);
        RunSlot(fields, st, j);
        if |m[SlotAt(iter.fields, j)].items| != iter.fields[j].arraySize {
          ok := false;
          return;
        }
      }
      run' := Some(i);
      m' := m[iter.slot := Many([])];
    }
    ghost var st1 := st.(m := m', run := run');
    assert TurnTo(fields, st, i) == Some(st1);
    if f.rule.Required? && iter.requiredFieldIndex < MAX_REQUIRED_FIELDS {
      words' := SetBit(words, st.seen, iter.requiredFieldIndex);
    }
    SlotExists(fields, st1, i);
    SlotFits(fields, st1, i);
    var slot;
    ok, slot := DecodeStaticField(stream, f, wireType, m'[iter.slot]);
    if ok {
      m' := m'[iter.slot := slot];
      st' := Progress(m', MarkSeen(fields, st1.seen, i), run');
    }
  }

  lemma RunSlot(fields: seq<Field>, st: Progress, j: nat)
    requires ProgressOk(fields, st) && st.run == Some(j)
    ensures SlotAt(fields, j) < |st.m| && st.m[SlotAt(fields, j)].Many?
  {
    hide SlotAt;
    assert ShapedSlot(fields[j], st.m[SlotAt(fields, j)]);
  }

  lemma SlotFits(fields: seq<Field>, st: Progress, i: nat)
    requires ProgressOk(fields, st) && i < |fields|
    ensures SlotAt(fields, i) < |st.m| && ShapedSlot(fields[i], st.m[SlotAt(fields, i)])
  {
    hide ShapedSlot, SlotAt;
  }

  ghost predicate SeenBound(fields: seq<Field>, seen: set<nat>) {
    forall k: nat :: k in seen ==> k < RequiredBefore(fields, |fields|)
  }

  lemma {:induction false} RequiredGrows(fields: seq<Field>, i: nat, n: nat)
    requires i < n <= |fields| && fields[i].rule.Required?
    ensures RequiredBefore(fields, i) < RequiredBefore(fields, n)
    decreases n
  {
    if i < n - 1 {
      RequiredGrows(fields, i, n - 1);
    }
  }

  lemma MarkBound(fields: seq<Field>, seen: set<nat>, i: nat)
    requires i < |fields| && SeenBound(fields, seen)
    ensures SeenBound(fields, MarkSeen(fields, seen, i))
  {
    hide RequiredBefore;
    if fields[i].rule.Required? {
      RequiredGrows(fields, i, |fields|);
    }
  }

  lemma LoopStep(fields: seq<Field>, st: Progress, s: seq<Byte>)
    requires ProgressOk(fields, st) && s != []
    ensures
      match Varint32(s)
      case None => DecodeLoop(fields, st, s) == None
      case Some((key, rest)) =>
        if key == 0 then DecodeLoop(fields, st, s) == Some((st, rest))
        else match DecodeRecord(fields, st, key / 8, key % 8, rest)
          case None => DecodeLoop(fields, st, s) == None
          case Some((st', rest')) => DecodeLoop(fields, st, s) == DecodeLoop(fields, st', rest')
  {
    hide Varint32, DecodeRecord, ProgressOk;
  }

  /** pb_decode_noinit. */
  method DecodeNoInitFrom(stream: IStream, fields: seq<Field>, dest: seq<Slot>) returns (ok: bool, m: seq<Slot>)
    requires stream.Valid() && ValidFields(fields) && Shaped(fields, dest)
    modifies stream
    ensures stream.Valid() && (ok <==> DecodeNoInit(fields, dest, old(stream.Rest())).Some?)
    ensures ok ==> DecodeNoInit(fields, dest, old(stream.Rest())) == Some((m, stream.Rest())) && stream.End() == old(stream.End())
    decreases stream.bytesLeft, 5
  {
    hide DecodeLoop, ValidFields, Shaped, RequiredBefore, SlotAt;
    m := dest;
    ghost var st;
    var words, run;
    var iter := new FieldIter(fields);
    ok, words, m, run, st := DecodeRecords(stream, iter, dest);
    if !ok {
      return;
    }
    if run.Some? {
      SlotExists(fields, st, run.value);
      RunSlot(fields, st, run.value);
      if |m[SlotAt(fields, run.value)].items| != fields[run.value].arraySize {
        return false, m;
      }
    }
    assert RunComplete(fields, st);
    var count := CountRequired(iter);
    ok := CheckRequired(words, st.seen, count);
  }

  /** The loop of pb_decode_noinit. */
  method DecodeRecords(stream: IStream, iter: FieldIter, dest: seq<Slot>)
    returns (ok: bool, words: seq<seq<bool>>, m: seq<Slot>, run: Option<nat>, ghost st: Progress)
    requires stream.Valid() && iter.Valid() && ValidFields(iter.fields) && Shaped(iter.fields, dest)
    modifies stream, iter
    ensures stream.Valid() && iter.Valid()
    ensures ok <==> DecodeLoop(iter.fields, Progress(dest, {}, None), old(stream.Rest())).Some?
    ensures ok ==> DecodeLoop(iter.fields, Progress(dest, {}, None), old(stream.Rest())) == Some((st, stream.Rest()))
    ensures ok ==> stream.End() == old(stream.End()) && st.m == m && st.run == run
    ensures ok ==> IsBitmap(words, st.seen) && SeenBound(iter.fields, st.seen)
    decreases stream.bytesLeft, 4
  {
    hide DecodeLoop, DecodeRecord, ValidFields, Shaped, IsBitmap, SeenBound, Varint32;
    ghost var fields, s := iter.fields, stream.Rest();
    st := Progress(dest, {}, None);
    m, run, words := dest, None, [LowBits(0), LowBits(0)];
    NoneSeen(fields, words);
    var more := true;
    while more && stream.bytesLeft > 0
      invariant stream.Valid() && iter.Valid() && iter.fields == fields && stream.End() == old(stream.End())
      invariant ProgressOk(fields, st) && st.m == m && st.run == run
      invariant IsBitmap(words, st.seen) && SeenBound(fields, st.seen)
      invariant more ==> stream.bytesLeft <= |s| && DecodeLoop(fields, Progress(dest, {}, None), s) == DecodeLoop(fields, st, stream.Rest())
      invariant !more ==> DecodeLoop(fields, Progress(dest, {}, None), s) == Some((st, stream.Rest()))
      decreases more, stream.bytesLeft
    {
      LoopStep(fields, st, stream.Rest());
      var wireType, tag, eof;
      ok, wireType, tag, eof := stream.DecodeTag();
      if eof {
        more := false;
      } else {
        if !ok {
          return;
        }
        RecordBound(fields, st, tag, wireType, stream.Rest());
        ok, words, m, run, st := DecodeRecordFrom(stream, iter, tag, wireType, words, m, run, st);
        if !ok {
          return;
        }
      }
    }
    ok := true;
    if more {
      LoopDone(fields, st);
    }
  }

  lemma NoneSeen(fields: seq<Field>, words: seq<seq<bool>>)
    requires words == [LowBits(0), LowBits(0)]
    ensures IsBitmap(words, {}) && SeenBound(fields, {})
  {
  }

  lemma LoopDone(fields: seq<Field>, st: Progress)
    requires ProgressOk(fields, st)
    ensures DecodeLoop(fields, st, []) == Some((st, []))
  {
  }

  lemma RecordBound(fields: seq<Field>, st: Progress, tag: nat, wireType: nat, s: seq<Byte>)
    requires ProgressOk(fields, st) && SeenBound(fields, st.seen)
    ensures DecodeRecord(fields, st, tag, wireType, s).Some? ==> SeenBound(fields, DecodeRecord(fields, st, tag, wireType, s).value.0.seen)
  {
    hide DecodeSlot, Shaped, ShapedSlot, SeenBound, MarkSeen, RunComplete, Varint32, PbDecode.SkipField;
    var i := IndexOf(fields, tag);
    if i.Some? {
      MarkBound(fields, st.seen, i.value);
    }
  }

  /** Seeking to the end of the table, from wherever the search for the last field left the iterator. */
  method CountRequired(iter: FieldIter) returns (count: nat)
    requires iter.Valid()
    modifies iter
    ensures iter.Valid() && count == RequiredBefore(iter.fields, |iter.fields|)
  {
    count := 0;
    var lastRequired := false;
    var more := true;
    while more
      invariant iter.Valid()
      invariant !more ==> iter.pos == 0 && (iter.fields == [] ==> count == 0)
      invariant !more && iter.fields != [] ==>
        && count == RequiredBefore(iter.fields, |iter.fields| - 1)
        && lastRequired == iter.fields[|iter.fields| - 1].rule.Required?
      decreases more, |iter.fields| - iter.pos
    {
      count := iter.requiredFieldIndex;
      lastRequired := iter.pos == |iter.fields| || iter.fields[iter.pos].rule.Required?;
      more := iter.Next();
    }
    if lastRequired && iter.pos < |iter.fields| {
      count := count + 1;
    }
  }

  /** pb_decode: the defaults, and then what the stream holds. */
  method Decode(stream: IStream, fields: seq<Field>) returns (ok: bool, m: seq<Slot>)
    requires stream.Valid() && ValidFields(fields)
    modifies stream
    ensures stream.Valid() && (ok <==> DecodeMessage(fields, old(stream.Rest())).Some?)
    ensures ok ==> DecodeMessage(fields, old(stream.Rest())) == Some((m, stream.Rest()))
  {
    hide DecodeNoInit, ValidFields, Shaped;
    DefaultsShaped(fields);
    m := SetToDefaults(fields);
    ok, m := DecodeNoInitFrom(stream, fields, m);
  }
}
