/**
 * Descriptor tables, the messages they describe and the field iterator (nanopb pb.h and pb_common.c),
 * for static fields of a build with 32-bit field sizes.
 */
module PbCommon {
  import opened Wrappers
  import opened Coding

  datatype LType =
    | BoolType | VarintType | UVarintType | SVarintType | Fixed32Type | Fixed64Type
    | BytesType | StringType | SubmessageType | FixedBytesType

  /**
   * How often a field occurs. An Optional without a has_ flag is a proto3 field, a Repeated without a
   * count is a fixed-count array, a OneOf that joins lies in the union of the field before it.
   */
  datatype Rule = Required | Optional(hasFlag: bool) | Repeated(counted: bool) | OneOf(joins: bool)

  /** A pb_field_t. Its `ptr` is `sub` for a submessage and `preset`, the default value, otherwise. */
  datatype Field = Field(tag: nat, ltype: LType, rule: Rule, dataSize: nat, arraySize: nat, sub: seq<Field>, preset: Option<Value>)

  /** The data of a field: a number, the bytes of a byte or C string, or the members of a submessage. */
  datatype Value = Num(n: int) | Text(bytes: seq<Byte>) | Message(slots: seq<Slot>)

  /** A member of a message struct, with its has_, _count or which_ companion. */
  datatype Slot = Single(value: Value) | Maybe(has: bool, value: Value) | Many(items: seq<Value>) | Union(which: nat, value: Value)

  const MAX_REQUIRED_FIELDS := 64
  const BYTES_HEADER := 4

  /** LTYPE at most PB_LTYPE_LAST_PACKABLE. */
  predicate Packable(t: LType) {
    t in {BoolType, VarintType, UVarintType, SVarintType, Fixed32Type, Fixed64Type}
  }

  /** Field `i` lies in the same union as the field before it. */
  predicate Joins(fields: seq<Field>, i: nat)
    requires i < |fields|
  {
    0 < i && fields[i - 1].rule.OneOf? && fields[i].rule.OneOf? && fields[i].rule.joins
  }

  /** The struct member that field `i` is stored in. */
  function SlotAt(fields: seq<Field>, i: nat): (k: nat)
    requires i < |fields|
    ensures k <= i
  {
    if i == 0 then 0 else SlotAt(fields, i - 1) + if Joins(fields, i) then 0 else 1
  }

  function SlotCount(fields: seq<Field>): nat {
    if fields == [] then 0 else SlotAt(fields, |fields| - 1) + 1
  }

  lemma {:induction false} SlotsAscend(fields: seq<Field>, i: nat, j: nat)
    requires i <= j < |fields|
    ensures SlotAt(fields, i) <= SlotAt(fields, j) < SlotCount(fields)
    ensures i < j && !fields[j].rule.OneOf? ==> SlotAt(fields, i) < SlotAt(fields, j)
    ensures i < j && !fields[i].rule.OneOf? ==> SlotAt(fields, i) < SlotAt(fields, j)
    decreases |fields| - i, j - i
  {
    if i < j {
      SlotsAscend(fields, i, j - 1);
    } else if j + 1 < |fields| {
      SlotsAscend(fields, i + 1, |fields| - 1);
      assert SlotAt(fields, i) <= SlotAt(fields, i + 1);
    }
    if i < j && j + 1 < |fields| {
      SlotsAscend(fields, j, |fields| - 1);
    }
    if i < j && !fields[i].rule.OneOf? {
      SlotsAscend(fields, i + 1, j);
    }
  }

  lemma {:induction false} SlotTaken(fields: seq<Field>, k: nat) returns (i: nat)
    requires k < SlotCount(fields)
    ensures i < |fields| && SlotAt(fields, i) == k
  {
    i := |fields| - 1;
    while SlotAt(fields, i) != k
      invariant i < |fields| && k <= SlotAt(fields, i)
      decreases i
    {
      i := i - 1;
    }
  }

  /** The number of required fields before field `i`. */
  function RequiredBefore(fields: seq<Field>, i: nat): (n: nat)
    requires i <= |fields|
    ensures n <= i
  {
    if i == 0 then 0 else RequiredBefore(fields, i - 1) + if fields[i - 1].rule.Required? then 1 else 0
  }

  function Zeros(n: nat): (s: seq<Byte>)
    ensures |s| == n
  {
    if n == 0 then [] else [0] + Zeros(n - 1)
  }

  // What a C compiler guarantees of the struct, and the generator of the table.

  predicate InSigned(n: int, size: nat) {
    0 <= 2 * n + Pow256(size) < 2 * Pow256(size)
  }

  predicate TypedValue(f: Field, v: Value)
    decreases f, 0
  {
    match f.ltype
    case BoolType => v.Num? && 0 <= v.n <= 1
    case VarintType => v.Num? && InSigned(v.n, f.dataSize)
    case SVarintType => v.Num? && InSigned(v.n, f.dataSize)
    case UVarintType => v.Num? && 0 <= v.n < Pow256(f.dataSize)
    case Fixed32Type => v.Num? && 0 <= v.n < Pow256(4)
    case Fixed64Type => v.Num? && 0 <= v.n < Pow256(8)
    case BytesType => v.Text?
    case StringType => v.Text? && 0 !in v.bytes && |v.bytes| <= f.dataSize
    case FixedBytesType => v.Text? && |v.bytes| == f.dataSize
    case SubmessageType => v.Message? && TypedMessage(f.sub, v.slots)
  }

  predicate TypedSlot(f: Field, slot: Slot)
    decreases f, 1
  {
    match f.rule
    case Required => slot.Single? && TypedValue(f, slot.value)
    case Optional(hasFlag) =>
      if hasFlag then slot.Maybe? && (slot.has ==> TypedValue(f, slot.value))
      else slot.Single? && TypedValue(f, slot.value)
    case Repeated(counted) =>
      && slot.Many?
      && (forall k :: 0 <= k < |slot.items| ==> TypedValue(f, slot.items[k]))
      && (!counted ==> |slot.items| == f.arraySize)
    case OneOf(_) => slot.Union? && (slot.which == f.tag ==> TypedValue(f, slot.value))
  }

  predicate TypedMessage(fields: seq<Field>, m: seq<Slot>)
    decreases fields
  {
    |m| == SlotCount(fields) && forall i :: 0 <= i < |fields| ==> SlotAt(fields, i) < |m| && TypedSlot(fields[i], m[SlotAt(fields, i)])
  }

  predicate ValidField(f: Field)
    decreases f, 0
  {
    && 0 < f.tag < 0x2000_0000
    && (f.ltype in {VarintType, UVarintType, SVarintType} ==> f.dataSize in {1, 2, 4, 8})
    && (f.ltype.SubmessageType? ==> ValidFields(f.sub))
    && (f.rule == Optional(false) ==> f.preset.None?)
  }

  predicate ValidFields(fields: seq<Field>)
    decreases fields
  {
    && (forall i :: 0 <= i < |fields| ==> ValidField(fields[i]))
    && (forall i, j :: 0 <= i < j < |fields| ==> fields[i].tag != fields[j].tag)
  }

  // The values a message is initialised with.

  function DefaultValue(f: Field): (v: Value)
    decreases f, 0
  {
    if f.ltype.SubmessageType? then Message(Defaults(f.sub))
    else if f.preset.Some? then f.preset.value
    else if f.ltype.FixedBytesType? then Text(Zeros(f.dataSize))
    else if f.ltype.BytesType? || f.ltype.StringType? then Text([])
    else Num(0)
  }

  function DefaultSlot(f: Field): (slot: Slot)
    decreases f, 1
  {
    match f.rule
    case Required => Single(DefaultValue(f))
    case Optional(hasFlag) => if hasFlag then Maybe(false, DefaultValue(f)) else Single(DefaultValue(f))
    case Repeated(_) => Many([])
    case OneOf(_) => Union(0, Num(0))
  }

  function Defaults(fields: seq<Field>): seq<Slot>
    decreases fields, |fields| + 1
  {
    DefaultsUpTo(fields, |fields|)
  }

  function DefaultsUpTo(fields: seq<Field>, n: nat): (m: seq<Slot>)
    requires n <= |fields|
    ensures |m| == if n == 0 then 0 else SlotAt(fields, n - 1) + 1
    decreases fields, n
  {
    if n == 0 then []
    else
      var before := DefaultsUpTo(fields, n - 1);
      if Joins(fields, n - 1) then before else before + [DefaultSlot(fields[n - 1])]
  }

  lemma {:induction false} DefaultAtUpTo(fields: seq<Field>, n: nat, i: nat)
    requires i < n <= |fields|
    ensures SlotAt(fields, i) <= SlotAt(fields, n - 1)
    ensures DefaultsUpTo(fields, n)[SlotAt(fields, i)] == DefaultSlot(fields[i])
  {
    hide DefaultsUpTo, SlotAt, Joins, DefaultSlot;
    SlotsAscend(fields, i, n - 1);
    DefaultsStep(fields, n);
    if i < n - 1 {
      SlotsAscend(fields, i, n - 2);
      DefaultAtUpTo(fields, n - 1, i);
    } else if Joins(fields, i) {
      JoinedSlot(fields, i);
      DefaultAtUpTo(fields, n - 1, i - 1);
    }
  }

  lemma DefaultsStep(fields: seq<Field>, n: nat)
    requires 0 < n <= |fields|
    ensures DefaultsUpTo(fields, n - 1) <= DefaultsUpTo(fields, n)
    ensures !Joins(fields, n - 1) ==> DefaultsUpTo(fields, n)[SlotAt(fields, n - 1)] == DefaultSlot(fields[n - 1])
  {
    hide DefaultSlot;
  }

  lemma JoinedSlot(fields: seq<Field>, i: nat)
    requires i < |fields| && Joins(fields, i)
    ensures 0 < i && SlotAt(fields, i) == SlotAt(fields, i - 1) && DefaultSlot(fields[i]) == DefaultSlot(fields[i - 1])
  {
  }

  /** Every field, the alternatives of a union included, starts at its own default. */
  lemma DefaultAt(fields: seq<Field>, i: nat)
    requires i < |fields|
    ensures SlotAt(fields, i) < |Defaults(fields)| == SlotCount(fields)
    ensures Defaults(fields)[SlotAt(fields, i)] == DefaultSlot(fields[i])
  {
    SlotsAscend(fields, i, i);
    DefaultAtUpTo(fields, |fields|, i);
  }

  /** pb_field_iter_t: the field under it, and what goes with that field. */
  class FieldIter {
    const fields: seq<Field>
    var pos: nat
    var requiredFieldIndex: nat
    var slot: nat

    /** On the terminator, of tag 0, only in an empty table. */
    ghost predicate Valid()
      reads this
    {
      && pos <= |fields|
      && (pos == |fields| ==> fields == [])
      && requiredFieldIndex == RequiredBefore(fields, pos)
      && slot == if pos < |fields| then SlotAt(fields, pos) else 0
    }

    /** pb_field_iter_begin. */
    constructor (fields: seq<Field>)
      ensures Valid() && this.fields == fields && pos == 0
    {
      this.fields := fields;
      pos := 0;
      requiredFieldIndex := 0;
      slot := 0;
    }

    /** pb_field_iter_next: the next field, or back to the first and false. */
    method Next() returns (more: bool)
      requires Valid()
      modifies this
      ensures Valid()
      ensures more <==> old(pos) + 1 < |fields|
      ensures pos == if more then old(pos) + 1 else 0
    {
      if pos == |fields| {
        return false;
      }
      var prev := fields[pos];
      pos := pos + 1;
      if pos == |fields| {
        pos := 0;
        requiredFieldIndex := 0;
        slot := 0;
        return false;
      }
      if prev.rule.OneOf? && fields[pos].rule.OneOf? && fields[pos].rule.joins {
        return true;
      }
      if prev.rule.Required? {
        requiredFieldIndex := requiredFieldIndex + 1;
      }
      slot := slot + 1;
      return true;
    }

    /** pb_field_iter_find: a cyclic search from where the iterator stands. */
    method Find(tag: nat) returns (found: bool)
      requires Valid()
      modifies this
      ensures Valid()
      ensures found <==> (exists i :: 0 <= i < |fields| && fields[i].tag == tag) || (fields == [] && tag == 0)
      ensures found ==> pos == |fields| || fields[pos].tag == tag
      ensures !found ==> pos == old(pos)
    {
      var start := pos;
      ghost var wrapped := false;
      while true
        invariant Valid()
        invariant !wrapped ==> start <= pos && forall i :: start <= i < pos ==> fields[i].tag != tag
        invariant wrapped ==> pos < start && forall i :: 0 <= i < pos || start <= i < |fields| ==> fields[i].tag != tag
        decreases if wrapped then start - pos else |fields| - pos + start + 1
      {
        if (if pos < |fields| then fields[pos].tag else 0) == tag {
          return true;
        }
        var more := Next();
        if !more {
          wrapped := true;
        }
        if pos == start {
          return false;
        }
      }
      return false;
    }
  }
}
