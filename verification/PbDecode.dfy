/**
 * The decoder (nanopb pb_decode.c), over the bytes of a stream. Each function gives None where the code
 * reports an error, and otherwise the value and the bytes that follow.
 */
module PbDecode {
  import opened Wrappers
  import opened Coding
  import opened PbCommon
  import opened PbEncode

  /** `x << n`, of unlimited width. */
  function ShiftLeft(x: nat, n: nat): nat {
    if n == 0 then x else 2 * ShiftLeft(x, n - 1)
  }

  /** Bitwise or. */
  function Or(a: nat, b: nat): nat
    decreases a + b
  {
    if a == 0 then b else if b == 0 then a
    else (if a % 2 == 1 || b % 2 == 1 then 1 else 0) + 2 * Or(a / 2, b / 2)
  }

  /** Below the bits that were shifted in, or is sum. */
  lemma {:induction false} OrAdds(a: nat, x: nat, n: nat)
    requires a < ShiftLeft(1, n)
    ensures Or(a, ShiftLeft(x, n)) == a + ShiftLeft(x, n)
    decreases n
  {
    if a > 0 && ShiftLeft(x, n) > 0 {
      OrAdds(a / 2, x, n - 1);
    }
  }

  lemma {:induction false} ShiftScales(x: nat, n: nat)
    ensures ShiftLeft(x, n) == x * ShiftLeft(1, n)
  {
    if n > 0 {
      ShiftScales(x, n - 1);
    }
  }

  // Variable-length integers

  /** The multibyte loop of pb_decode_varint32_eof: the shift is an 8-bit number. */
  function Varint32More(s: seq<Byte>, bitpos: nat, result: nat): (r: Option<(nat, seq<Byte>)>)
    ensures r.Some? ==> |r.value.1| < |s|
  {
    if s == [] then None
    else
      var byte := s[0];
      var signExtension := if bitpos < 63 then 0xFF else 0x01;
      if bitpos >= 32 && byte % 128 != 0 && (result < 0x8000_0000 || byte != signExtension) then None
      else
        var result' := if bitpos >= 32 then result else Or(result, ShiftLeft(byte % 128, bitpos)) % U32;
        var bitpos' := (bitpos + 7) % 256;
        if byte >= 128 then Varint32More(s[1..], bitpos', result')
        else if bitpos' == 35 && byte / 16 % 8 != 0 then None
        else Some((result', s[1..]))
  }

  /** pb_decode_varint32. */
  function Varint32(s: seq<Byte>): (r: Option<(nat, seq<Byte>)>)
    ensures r.Some? ==> |r.value.1| < |s|
  {
    if s == [] then None
    else if s[0] < 128 then Some((s[0], s[1..]))
    else Varint32More(s[1..], 7, s[0] % 128)
  }

  /** pb_decode_varint: at most ten bytes, and the bits past the 64th dropped. */
  function Varint64(s: seq<Byte>): (r: Option<(nat, seq<Byte>)>)
    ensures r.Some? ==> |r.value.1| < |s| && r.value.0 < U64
  {
    var r := GetVarint(s, 10, U64);
    if r.None? then None else
      DecodedLength(s);
      Some((r.value.0, s[r.value.1..]))
  }

  lemma {:induction false} DecodedLength(s: seq<Byte>)
    ensures DecodeVarint(s).Some? ==> 0 < DecodeVarint(s).value.1 <= |s|
  {
  }

  // Values

  /** The low bytes of `v` as a signed number: a C cast. */
  function Signed(v: int, size: nat): int {
    var u := v % Pow256(size);
    if 2 * u < Pow256(size) then u else u - Pow256(size)
  }

  /** pb_decode_svarint. */
  function UnZigZag(v: nat): int {
    if v % 2 == 1 then Signed(U64 - 1 - v / 2, 8) else Signed(v / 2, 8)
  }

  /** pb_make_string_substream: a length, and as many bytes. */
  function Undelimit(s: seq<Byte>): (r: Option<(seq<Byte>, seq<Byte>)>)
    ensures r.Some? ==> |r.value.0| < |s| && |r.value.1| < |s|
  {
    match Varint32(s)
    case None => None
    case Some((size, rest)) => if |rest| < size then None else Some((rest[..size], rest[size..]))
  }

  /** A character buffer holds a string up to the first zero. */
  function CString(bytes: seq<Byte>): seq<Byte> {
    if bytes == [] || bytes[0] == 0 then [] else [bytes[0]] + CString(bytes[1..])
  }

  function ReadFixed(s: seq<Byte>, n: nat): (r: Option<(Value, seq<Byte>)>)
    requires n > 0
    ensures r.Some? ==> |r.value.1| < |s|
  {
    if |s| < n then None else Some((Num(DecodeFixed(s[..n])), s[n..]))
  }

  /** The number read from a varint, if the member can hold it. */
  function Clamp(f: Field, v: nat): Option<int> {
    if f.dataSize !in {1, 2, 4, 8} then None
    else
      match f.ltype
      case VarintType =>
        var svalue := if f.dataSize == 8 then Signed(v, 8) else Signed(v, 4);
        if Signed(svalue, f.dataSize) == svalue then Some(svalue) else None
      case SVarintType =>
        var value := UnZigZag(v);
        if Signed(value, f.dataSize) == value then Some(value) else None
      case _ => if v % Pow256(f.dataSize) == v then Some(v) else None
  }

  /** PB_DECODERS, but for submessages. */
  function DecodeValue(f: Field, s: seq<Byte>): (r: Option<(Value, seq<Byte>)>)
    requires !f.ltype.SubmessageType?
    ensures r.Some? ==> |r.value.1| < |s|
  {
    match f.ltype
    case BoolType =>
      (match Varint32(s)
       case None => None
       case Some((v, rest)) => Some((Num(if v != 0 then 1 else 0), rest)))
    case Fixed32Type => ReadFixed(s, 4)
    case Fixed64Type => ReadFixed(s, 8)
    case BytesType =>
      (match Undelimit(s)
       case None => None
       case Some((bytes, rest)) => if |bytes| + BYTES_HEADER > f.dataSize then None else Some((Text(bytes), rest)))
    case StringType =>
      (match Undelimit(s)
       case None => None
       case Some((bytes, rest)) => if |bytes| + 1 > f.dataSize then None else Some((Text(CString(bytes)), rest)))
    case FixedBytesType =>
      (match Undelimit(s)
       case None => None
       case Some((bytes, rest)) =>
         if |bytes| == 0 then Some((Text(Zeros(f.dataSize)), rest))
         else if |bytes| != f.dataSize then None
         else Some((Text(bytes), rest)))
    case SubmessageType => assert false; None
    case _ =>
      match Varint64(s)
      case None => None
      case Some((v, rest)) =>
        var n := Clamp(f, v);
        if n.None? then None else Some((Num(n.value), rest))
  }

  /** pb_skip_field. */
  function SkipField(s: seq<Byte>, wireType: nat): (r: Option<seq<Byte>>)
    ensures r.Some? ==> |r.value| <= |s|
  {
    if wireType == WT_VARINT then SkipVarint(s)
    else if wireType == WT_64BIT then if |s| < 8 then None else Some(s[8..])
    else if wireType == WT_STRING then var r := Undelimit(s); if r.None? then None else Some(r.value.1)
    else if wireType == WT_32BIT then if |s| < 4 then None else Some(s[4..])
    else None
  }

  function SkipVarint(s: seq<Byte>): (r: Option<seq<Byte>>)
    ensures r.Some? ==> |r.value| <= |s|
  {
    if s == [] then None else if s[0] < 128 then Some(s[1..]) else SkipVarint(s[1..])
  }

  // Messages

  /** The struct has the members of the table, whatever their values. */
  predicate Shaped(fields: seq<Field>, m: seq<Slot>)
    decreases fields
  {
    |m| == SlotCount(fields) && forall i :: 0 <= i < |fields| ==> SlotAt(fields, i) < |m| && ShapedSlot(fields[i], m[SlotAt(fields, i)])
  }

  predicate ShapedSlot(f: Field, slot: Slot)
    decreases f, 1
  {
    match f.rule
    case Required => slot.Single? && ShapedValue(f, slot.value)
    case Optional(hasFlag) => (if hasFlag then slot.Maybe? else slot.Single?) && ShapedValue(f, slot.value)
    case Repeated(_) => slot.Many?
    case OneOf(_) => slot.Union?
  }

  predicate ShapedValue(f: Field, v: Value)
    decreases f, 0
  {
    f.ltype.SubmessageType? ==> v.Message? && Shaped(f.sub, v.slots)
  }

  lemma {:induction false} DefaultsShaped(fields: seq<Field>)
    ensures Shaped(fields, Defaults(fields))
    decreases fields
  {
    forall i | 0 <= i < |fields|
      ensures SlotAt(fields, i) < |Defaults(fields)| && ShapedSlot(fields[i], Defaults(fields)[SlotAt(fields, i)])
    {
      DefaultAt(fields, i);
      DefaultsShaped(fields[i].sub);
    }
  }

  function IndexOf(fields: seq<Field>, tag: nat): (r: Option<nat>)
    ensures r.Some? ==> r.value < |fields| && fields[r.value].tag == tag
    ensures r.None? ==> forall i :: 0 <= i < |fields| ==> fields[i].tag != tag
    decreases |fields|
  {
    if fields == [] then None
    else if fields[|fields| - 1].tag == tag then Some(|fields| - 1)
    else IndexOf(fields[..|fields| - 1], tag)
  }

  /**
   * The state of pb_decode_noinit's loop: the struct, the required fields seen, and the fixed-count array
   * that is being filled. The items of a fixed-count array are those received since it was turned to.
   */
  datatype Progress = Progress(m: seq<Slot>, seen: set<nat>, run: Option<nat>)

  predicate ProgressOk(fields: seq<Field>, st: Progress) {
    Shaped(fields, st.m) && (st.run.Some? ==> st.run.value < |fields| && fields[st.run.value].rule.Repeated?)
  }

  /** The fixed-count array being filled has all its items. */
  predicate RunComplete(fields: seq<Field>, st: Progress)
    requires ProgressOk(fields, st)
  {
    st.run.Some? ==>
      var i := st.run.value;
      assert ShapedSlot(fields[i], st.m[SlotAt(fields, i)]);
      |st.m[SlotAt(fields, i)].items| == fields[i].arraySize
  }

  /** Turning to another fixed-count array. */
  function TurnTo(fields: seq<Field>, st: Progress, i: nat): (r: Option<Progress>)
    requires ProgressOk(fields, st) && i < |fields|
    ensures r.Some? ==> ProgressOk(fields, r.value)
  {
    if fields[i].rule != Repeated(false) || st.run == Some(i) then Some(st)
    else if !RunComplete(fields, st) then None
    else
      SetShaped(fields, st.m, i, Many([]));
      Some(st.(m := st.m[SlotAt(fields, i) := Many([])], run := Some(i)))
  }

  lemma UnionShaped(f: Field, g: Field, slot: Slot)
    requires f.rule.OneOf? && g.rule.OneOf? && ShapedSlot(f, slot)
    ensures ShapedSlot(g, slot)
  {
  }

  lemma SetShaped(fields: seq<Field>, m: seq<Slot>, i: nat, slot: Slot)
    requires Shaped(fields, m) && i < |fields| && ShapedSlot(fields[i], slot)
    ensures Shaped(fields, m[SlotAt(fields, i) := slot])
  {
    hide ShapedSlot, SlotAt;
    var m' := m[SlotAt(fields, i) := slot];
    forall j | 0 <= j < |fields|
      ensures SlotAt(fields, j) < |m'| && ShapedSlot(fields[j], m'[SlotAt(fields, j)])
    {
      if j != i && SlotAt(fields, j) == SlotAt(fields, i) {
        if i < j {
          SlotsAscend(fields, i, j);
        } else {
          SlotsAscend(fields, j, i);
        }
        UnionShaped(fields[i], fields[j], slot);
      }
    }
  }

  function MarkSeen(fields: seq<Field>, seen: set<nat>, i: nat): set<nat>
    requires i < |fields|
  {
    if fields[i].rule.Required? && RequiredBefore(fields, i) < MAX_REQUIRED_FIELDS then seen + {RequiredBefore(fields, i)} else seen
  }

  /** A packed array: as many items as the payload holds, and no more than fit. */
  function DecodePacked(f: Field, s: seq<Byte>, items: seq<Value>): Option<seq<Value>>
    requires !f.ltype.SubmessageType?
    decreases |s|
  {
    if s == [] then Some(items)
    else if |items| >= f.arraySize then None
    else
      match DecodeValue(f, s)
      case None => None
      case Some((v, rest)) => DecodePacked(f, rest, items + [v])
  }

  /** A value stored over `before`: a submessage is merged into what is there. */
  function DecodeInto(f: Field, before: Value, s: seq<Byte>): (r: Option<(Value, seq<Byte>)>)
    requires ShapedValue(f, before)
    ensures r.Some? ==> |r.value.1| < |s| && ShapedValue(f, r.value.0)
    decreases |s|, 0
  {
    if !f.ltype.SubmessageType? then DecodeValue(f, s)
    else
      match Undelimit(s)
      case None => None
      case Some((payload, rest)) =>
        match DecodeNoInit(f.sub, before.slots, payload)
        case None => None
        case Some((m, _)) => Some((Message(m), rest))
  }

  /** A value stored where nothing is kept of what was there. */
  function DecodeFresh(f: Field, s: seq<Byte>): (r: Option<(Value, seq<Byte>)>)
    ensures r.Some? ==> |r.value.1| < |s| && ShapedValue(f, r.value.0)
    decreases |s|, 1
  {
    DefaultsShaped(f.sub);
    DecodeInto(f, DefaultValue(f), s)
  }

  /** decode_static_field. */
  function DecodeSlot(f: Field, wireType: nat, slot: Slot, s: seq<Byte>): (r: Option<(Slot, seq<Byte>)>)
    requires ShapedSlot(f, slot)
    ensures r.Some? ==> |r.value.1| < |s| && ShapedSlot(f, r.value.0)
    decreases |s|, 2
  {
    match f.rule
    case Required =>
      (match DecodeInto(f, slot.value, s)
       case None => None
       case Some((v, rest)) => Some((Single(v), rest)))
    case Optional(hasFlag) =>
      (match DecodeInto(f, slot.value, s)
       case None => None
       case Some((v, rest)) => Some((if hasFlag then Maybe(true, v) else Single(v), rest)))
    case Repeated(_) =>
      if wireType == WT_STRING && Packable(f.ltype) then
        match Undelimit(s)
        case None => None
        case Some((payload, rest)) =>
          var items := DecodePacked(f, payload, slot.items);
          if items.None? then None else Some((Many(items.value), rest))
      else if |slot.items| >= f.arraySize then None
      else
        (match DecodeFresh(f, s)
         case None => None
         case Some((v, rest)) => Some((Many(slot.items + [v]), rest)))
    case OneOf(_) =>
      match DecodeFresh(f, s)
      case None => None
      case Some((v, rest)) => Some((Union(f.tag, v), rest))
  }

  /**
   * What follows a key. An unknown field is skipped. In an empty table the terminator itself answers to
   * field number 0: a bool is read, and stored in no member.
   */
  function DecodeRecord(fields: seq<Field>, st: Progress, tag: nat, wireType: nat, s: seq<Byte>): (r: Option<(Progress, seq<Byte>)>)
    requires ProgressOk(fields, st)
    ensures r.Some? ==> |r.value.1| <= |s| && ProgressOk(fields, r.value.0)
    decreases |s|, 3
  {
    match IndexOf(fields, tag)
    case None =>
      if fields == [] && tag == 0 then
        var r := Varint32(s);
        if r.None? then None else Some((st, r.value.1))
      else
        var r := SkipField(s, wireType);
        if r.None? then None else Some((st, r.value))
    case Some(i) =>
      match TurnTo(fields, st, i)
      case None => None
      case Some(st1) =>
        match DecodeSlot(fields[i], wireType, st1.m[SlotAt(fields, i)], s)
        case None => None
        case Some((slot, rest)) =>
          SetShaped(fields, st1.m, i, slot);
          Some((Progress(st1.m[SlotAt(fields, i) := slot], MarkSeen(fields, st1.seen, i), st1.run), rest))
  }

  /** The loop of pb_decode_noinit, to the end of the stream or a key of 0. */
  function DecodeLoop(fields: seq<Field>, st: Progress, s: seq<Byte>): (r: Option<(Progress, seq<Byte>)>)
    requires ProgressOk(fields, st)
    ensures r.Some? ==> |r.value.1| <= |s| && ProgressOk(fields, r.value.0)
    decreases |s|, 0
  {
    if s == [] then Some((st, []))
    else
      match Varint32(s)
      case None => None
      case Some((key, rest)) =>
        if key == 0 then Some((st, rest))
        else
          match DecodeRecord(fields, st, key / 8, key % 8, rest)
          case None => None
          case Some((st', rest')) => DecodeLoop(fields, st', rest')
  }

  /** The first 64 required fields were all seen. */
  predicate RequiredSeen(fields: seq<Field>, seen: set<nat>) {
    forall r: nat :: r < RequiredBefore(fields, |fields|) && r < MAX_REQUIRED_FIELDS ==> r in seen
  }

  /** pb_decode_noinit. */
  function DecodeNoInit(fields: seq<Field>, m: seq<Slot>, s: seq<Byte>): (r: Option<(seq<Slot>, seq<Byte>)>)
    requires Shaped(fields, m)
    ensures r.Some? ==> |r.value.1| <= |s| && Shaped(fields, r.value.0)
    decreases |s|, 1
  {
    match DecodeLoop(fields, Progress(m, {}, None), s)
    case None => None
    case Some((st, rest)) => if RunComplete(fields, st) && RequiredSeen(fields, st.seen) then Some((st.m, rest)) else None
  }

  /** pb_decode. */
  function DecodeMessage(fields: seq<Field>, s: seq<Byte>): Option<(seq<Slot>, seq<Byte>)> {
    DefaultsShaped(fields);
    DecodeNoInit(fields, Defaults(fields), s)
  }
}
