/** Encoding and decoding version edits (db/version_edit.cc). Keys are encoded internal keys. */
module VersionEdit {
  import opened Wrappers
  import opened Coding

  const NUM_LEVELS: nat := 7

  // Tag numbers for a serialized edit; 8 was used for large value refs
  const COMPARATOR: nat := 1
  const LOG_NUMBER: nat := 2
  const NEXT_FILE_NUMBER: nat := 3
  const LAST_SEQUENCE: nat := 4
  const COMPACT_POINTER: nat := 5
  const DELETED_FILE: nat := 6
  const NEW_FILE: nat := 7
  const PREV_LOG_NUMBER: nat := 9

  datatype FileMeta = FileMeta(number: nat, size: nat, smallest: Bytes, largest: Bytes)

  datatype VersionEdit = VersionEdit(
    comparator: Option<Bytes>, logNumber: Option<nat>, prevLogNumber: Option<nat>,
    nextFile: Option<nat>, lastSequence: Option<nat>,
    compactPointers: seq<(nat, Bytes)>, deleted: seq<(nat, nat)>, added: seq<(nat, FileMeta)>)

  const EMPTY := VersionEdit(None, None, None, None, None, [], [], [])

  /** One tagged entry of an encoded edit. */
  datatype Field =
    | Comparator(name: Bytes)
    | LogNumber(n: nat)
    | PrevLogNumber(n: nat)
    | NextFileNumber(n: nat)
    | LastSequence(n: nat)
    | CompactPointer(level: nat, key: Bytes)
    | DeletedFile(level: nat, n: nat)
    | NewFile(level: nat, f: FileMeta)

  function EncodeField(field: Field): Bytes {
    match field
    case Comparator(name) => Varint(COMPARATOR) + Prefixed(name)
    case LogNumber(n) => Varint(LOG_NUMBER) + Varint(n)
    case PrevLogNumber(n) => Varint(PREV_LOG_NUMBER) + Varint(n)
    case NextFileNumber(n) => Varint(NEXT_FILE_NUMBER) + Varint(n)
    case LastSequence(n) => Varint(LAST_SEQUENCE) + Varint(n)
    case CompactPointer(level, key) => Varint(COMPACT_POINTER) + Varint(level) + Prefixed(key)
    case DeletedFile(level, n) => Varint(DELETED_FILE) + Varint(level) + Varint(n)
    case NewFile(level, f) =>
      Varint(NEW_FILE) + Varint(level) + Varint(f.number) + Varint(f.size) + Prefixed(f.smallest) + Prefixed(f.largest)
  }

  function EncodeFields(fields: seq<Field>): Bytes {
    if fields == [] then [] else EncodeField(fields[0]) + EncodeFields(fields[1..])
  }

  function ComparatorField(e: VersionEdit): seq<Field> {
    if e.comparator.Some? then [Comparator(e.comparator.value)] else []
  }

  function LogField(e: VersionEdit): seq<Field> {
    if e.logNumber.Some? then [LogNumber(e.logNumber.value)] else []
  }

  function PrevLogField(e: VersionEdit): seq<Field> {
    if e.prevLogNumber.Some? then [PrevLogNumber(e.prevLogNumber.value)] else []
  }

  function NextFileField(e: VersionEdit): seq<Field> {
    if e.nextFile.Some? then [NextFileNumber(e.nextFile.value)] else []
  }

  function SequenceField(e: VersionEdit): seq<Field> {
    if e.lastSequence.Some? then [LastSequence(e.lastSequence.value)] else []
  }

  function ScalarFields(e: VersionEdit): seq<Field> {
    ComparatorField(e) + LogField(e) + PrevLogField(e) + NextFileField(e) + SequenceField(e)
  }

  /** The entries of an edit in the order in which EncodeTo writes them. */
  function Fields(e: VersionEdit): seq<Field> {
    ScalarFields(e) + PointerFields(e.compactPointers) + DeletedFields(e.deleted) + AddedFields(e.added)
  }

  function PointerFields(pointers: seq<(nat, Bytes)>): (r: seq<Field>)
    ensures |r| == |pointers| && forall i :: 0 <= i < |r| ==> r[i] == CompactPointer(pointers[i].0, pointers[i].1)
  {
    seq(|pointers|, i requires 0 <= i < |pointers| => CompactPointer(pointers[i].0, pointers[i].1))
  }

  function DeletedFields(deleted: seq<(nat, nat)>): (r: seq<Field>)
    ensures |r| == |deleted| && forall i :: 0 <= i < |r| ==> r[i] == DeletedFile(deleted[i].0, deleted[i].1)
  {
    seq(|deleted|, i requires 0 <= i < |deleted| => DeletedFile(deleted[i].0, deleted[i].1))
  }

  function AddedFields(added: seq<(nat, FileMeta)>): (r: seq<Field>)
    ensures |r| == |added| && forall i :: 0 <= i < |r| ==> r[i] == NewFile(added[i].0, added[i].1)
  {
    seq(|added|, i requires 0 <= i < |added| => NewFile(added[i].0, added[i].1))
  }

  lemma {:induction false} EncodeSnoc(fields: seq<Field>, f: Field)
    ensures EncodeFields(fields + [f]) == EncodeFields(fields) + EncodeField(f)
  {
    hide EncodeField;
    if fields == [] {
      assert [f][1..] == [];
    } else {
      EncodeSnoc(fields[1..], f);
      assert (fields + [f])[1..] == fields[1..] + [f];
    }
  }

  /** EncodeTo: the entries that are set, then the three lists. */
  method EncodeTo(e: VersionEdit) returns (dst: Bytes)
    ensures dst == EncodeFields(Fields(e))
  {
    hide EncodeField, EncodeFields, ComparatorField, LogField, PrevLogField, NextFileField, SequenceField;
    ghost var done: seq<Field>;
    NoFields();
    dst, done := EncodeList([], [], ComparatorField(e));
    dst, done := EncodeList(dst, done, LogField(e));
    dst, done := EncodeList(dst, done, PrevLogField(e));
    dst, done := EncodeList(dst, done, NextFileField(e));
    dst, done := EncodeList(dst, done, SequenceField(e));
    dst, done := EncodeList(dst, done, PointerFields(e.compactPointers));
    dst, done := EncodeList(dst, done, DeletedFields(e.deleted));
    dst, done := EncodeList(dst, done, AddedFields(e.added));
    assert done == Fields(e);
  }

  lemma NoFields()
    ensures EncodeFields([]) == []
  {
  }

  method EncodeList(dst: Bytes, ghost done: seq<Field>, more: seq<Field>) returns (dst': Bytes, ghost done': seq<Field>)
    requires dst == EncodeFields(done)
    ensures done' == done + more && dst' == EncodeFields(done')
  {
    hide EncodeField, EncodeFields;
    dst', done' := dst, done;
    for i := 0 to |more|
      invariant done' == done + more[..i] && dst' == EncodeFields(done')
    {
      EncodeSnoc(done', more[i]);
      dst' := dst' + EncodeField(more[i]);
      done' := done' + [more[i]];
    }
  }

  function GetLevel(s: Bytes): (r: Parse<nat>)
    ensures r.Got? ==> |r.rest| < |s| && r.value < NUM_LEVELS
  {
    var v := GetVarint32(s);
    if v.Got? && v.value < NUM_LEVELS then v else Unread
  }

  datatype FieldResult = NoTag | Wrong(msg: string) | Tagged(field: Field, rest: Bytes)

  function DecodeNewFile(s: Bytes): (r: FieldResult)
    ensures r.Tagged? ==> |r.rest| < |s|
  {
    var level := GetLevel(s);
    if level.Unread? then Wrong("new-file entry") else
      var number := GetVarint64(level.rest);
      if number.Unread? then Wrong("new-file entry") else
        var size := GetVarint64(number.rest);
        if size.Unread? then Wrong("new-file entry") else
          var smallest := GetLengthPrefixedSlice(size.rest);
          if smallest.Unread? then Wrong("new-file entry") else
            var largest := GetLengthPrefixedSlice(smallest.rest);
            if largest.Unread? then Wrong("new-file entry")
            else Tagged(NewFile(level.value, FileMeta(number.value, size.value, smallest.value, largest.value)), largest.rest)
  }

  /** One round of DecodeFrom's loop. */
  function DecodeField(s: Bytes): (r: FieldResult)
    ensures r.Tagged? ==> |r.rest| < |s|
  {
    var tag := GetVarint32(s);
    if tag.Unread? then NoTag
    else if tag.value == COMPARATOR then
      var name := GetLengthPrefixedSlice(tag.rest);
      if name.Got? then Tagged(Comparator(name.value), name.rest) else Wrong("comparator name")
    else if tag.value == LOG_NUMBER then
      var n := GetVarint64(tag.rest);
      if n.Got? then Tagged(LogNumber(n.value), n.rest) else Wrong("log number")
    else if tag.value == PREV_LOG_NUMBER then
      var n := GetVarint64(tag.rest);
      if n.Got? then Tagged(PrevLogNumber(n.value), n.rest) else Wrong("previous log number")
    else if tag.value == NEXT_FILE_NUMBER then
      var n := GetVarint64(tag.rest);
      if n.Got? then Tagged(NextFileNumber(n.value), n.rest) else Wrong("next file number")
    else if tag.value == LAST_SEQUENCE then
      var n := GetVarint64(tag.rest);
      if n.Got? then Tagged(LastSequence(n.value), n.rest) else Wrong("last sequence number")
    else if tag.value == COMPACT_POINTER then
      var level := GetLevel(tag.rest);
      var key := if level.Got? then GetLengthPrefixedSlice(level.rest) else Unread;
      if key.Got? then Tagged(CompactPointer(level.value, key.value), key.rest) else Wrong("compaction pointer")
    else if tag.value == DELETED_FILE then
      var level := GetLevel(tag.rest);
      var number := if level.Got? then GetVarint64(level.rest) else Unread;
      if number.Got? then Tagged(DeletedFile(level.value, number.value), number.rest) else Wrong("deleted file")
    else if tag.value == NEW_FILE then DecodeNewFile(tag.rest)
    else Wrong("unknown tag")
  }

  /** std::set<pair<int, uint64_t>>::insert. */
  predicate PairLess(a: (nat, nat), b: (nat, nat)) {
    a.0 < b.0 || (a.0 == b.0 && a.1 < b.1)
  }

  function InsertPair(pairs: seq<(nat, nat)>, p: (nat, nat)): seq<(nat, nat)> {
    if pairs == [] then [p]
    else if PairLess(p, pairs[0]) then [p] + pairs
    else if p == pairs[0] then pairs
    else [pairs[0]] + InsertPair(pairs[1..], p)
  }

  function SetField(e: VersionEdit, field: Field): VersionEdit {
    match field
    case Comparator(name) => e.(comparator := Some(name))
    case LogNumber(n) => e.(logNumber := Some(n))
    case PrevLogNumber(n) => e.(prevLogNumber := Some(n))
    case NextFileNumber(n) => e.(nextFile := Some(n))
    case LastSequence(n) => e.(lastSequence := Some(n))
    case CompactPointer(level, key) => e.(compactPointers := e.compactPointers + [(level, key)])
    case DeletedFile(level, n) => e.(deleted := InsertPair(e.deleted, (level, n)))
    case NewFile(level, f) => e.(added := e.added + [(level, f)])
  }

  datatype DecodeResult = Ok(e: VersionEdit) | Corruption(msg: string)

  /** What DecodeFrom makes of the rest of its input. */
  function Decode(s: Bytes, e: VersionEdit): DecodeResult
    decreases |s|
  {
    match DecodeField(s)
    case NoTag => if s == [] then Ok(e) else Corruption("invalid tag")
    case Wrong(msg) => Corruption(msg)
    case Tagged(field, rest) => Decode(rest, SetField(e, field))
  }

  method DecodeFrom(src: Bytes) returns (result: DecodeResult)
    ensures result == Decode(src, EMPTY)
  {
    hide DecodeField, SetField;
    var e, input := EMPTY, src;
    while true
      invariant Decode(input, e) == Decode(src, EMPTY)
      decreases |input|
    {
      match DecodeField(input) {
        case NoTag =>
          return if input == [] then Ok(e) else Corruption("invalid tag");
        case Wrong(msg) =>
          return Corruption(msg);
        case Tagged(field, rest) =>
          e := SetField(e, field);
          input := rest;
      }
    }
  }

  /** What fits the fields' widths. */
  predicate FieldOk(field: Field) {
    match field
    case Comparator(name) => |name| < U32
    case LogNumber(n) => n < U64
    case PrevLogNumber(n) => n < U64
    case NextFileNumber(n) => n < U64
    case LastSequence(n) => n < U64
    case CompactPointer(level, key) => level < NUM_LEVELS && |key| < U32
    case DeletedFile(level, n) => level < NUM_LEVELS && n < U64
    case NewFile(level, f) => level < NUM_LEVELS && f.number < U64 && f.size < U64 && |f.smallest| < U32 && |f.largest| < U32
  }

  lemma LevelBack(v: nat, rest: Bytes)
    requires v < NUM_LEVELS
    ensures GetLevel(Varint(v) + rest) == Got(v, rest)
  {
    hide Varint, GetVarint32;
    Varint32Back(v, rest);
  }

  /** One entry is read back, whatever follows it. */
  lemma FieldRoundTrip(field: Field, rest: Bytes)
    requires FieldOk(field)
    ensures DecodeField(EncodeField(field) + rest) == Tagged(field, rest)
  {
    hide Varint, GetVarint32, GetVarint64, GetLengthPrefixedSlice, GetLevel, Prefixed, DecodeNewFile;
    match field
    case Comparator(name) =>
      TagBack(COMPARATOR, Prefixed(name), rest);
      PrefixedBack(name, rest);
    case LogNumber(n) =>
      TagBack(LOG_NUMBER, Varint(n), rest);
      Varint64Back(n, rest);
    case PrevLogNumber(n) =>
      TagBack(PREV_LOG_NUMBER, Varint(n), rest);
      Varint64Back(n, rest);
    case NextFileNumber(n) =>
      TagBack(NEXT_FILE_NUMBER, Varint(n), rest);
      Varint64Back(n, rest);
    case LastSequence(n) =>
      TagBack(LAST_SEQUENCE, Varint(n), rest);
      Varint64Back(n, rest);
    case CompactPointer(level, key) =>
      TagBack(COMPACT_POINTER, Varint(level) + Prefixed(key), rest);
      assert Varint(COMPACT_POINTER) + Varint(level) + Prefixed(key) == Varint(COMPACT_POINTER) + (Varint(level) + Prefixed(key));
      assert Varint(level) + Prefixed(key) + rest == Varint(level) + (Prefixed(key) + rest);
      LevelBack(level, Prefixed(key) + rest);
      PrefixedBack(key, rest);
    case DeletedFile(level, n) =>
      TagBack(DELETED_FILE, Varint(level) + Varint(n), rest);
      assert Varint(DELETED_FILE) + Varint(level) + Varint(n) == Varint(DELETED_FILE) + (Varint(level) + Varint(n));
      assert Varint(level) + Varint(n) + rest == Varint(level) + (Varint(n) + rest);
      LevelBack(level, Varint(n) + rest);
      Varint64Back(n, rest);
    case NewFile(level, f) =>
      NewFileRoundTrip(level, f, rest);
  }

  lemma TagBack(tag: nat, body: Bytes, rest: Bytes)
    requires tag < U32
    ensures GetVarint32(Varint(tag) + body + rest) == Got(tag, body + rest)
  {
    hide Varint, GetVarint32;
    Varint32Back(tag, body + rest);
    assert Varint(tag) + body + rest == Varint(tag) + (body + rest);
  }

  lemma NewFileRoundTrip(level: nat, f: FileMeta, rest: Bytes)
    requires FieldOk(NewFile(level, f))
    ensures DecodeField(EncodeField(NewFile(level, f)) + rest) == Tagged(NewFile(level, f), rest)
  {
    hide Varint, GetVarint32, GetVarint64, GetLengthPrefixedSlice, GetLevel, Prefixed;
    var s4 := Prefixed(f.largest) + rest;
    var s3 := Prefixed(f.smallest) + s4;
    var s2 := Varint(f.size) + s3;
    var s1 := Varint(f.number) + s2;
    var s0 := Varint(level) + s1;
    assert EncodeField(NewFile(level, f)) + rest == Varint(NEW_FILE) + s0;
    Varint32Back(NEW_FILE, s0);
    LevelBack(level, s1);
    Varint64Back(f.number, s2);
    Varint64Back(f.size, s3);
    PrefixedBack(f.smallest, s4);
    PrefixedBack(f.largest, rest);
  }

  function SetAll(e: VersionEdit, fields: seq<Field>): VersionEdit
    decreases |fields|
  {
    if fields == [] then e else SetAll(SetField(e, fields[0]), fields[1..])
  }

  lemma {:induction false} FieldsRoundTrip(fields: seq<Field>, e: VersionEdit)
    requires forall i :: 0 <= i < |fields| ==> FieldOk(fields[i])
    ensures Decode(EncodeFields(fields), e) == Ok(SetAll(e, fields))
    decreases |fields|
  {
    hide FieldOk, EncodeField, SetField, DecodeField;
    if fields == [] {
      NothingLeft();
    } else {
      FieldRoundTrip(fields[0], EncodeFields(fields[1..]));
      FieldsRoundTrip(fields[1..], SetField(e, fields[0]));
    }
  }

  lemma NothingLeft()
    ensures DecodeField([]) == NoTag
  {
  }

  lemma {:induction false} SetAllAppend(e: VersionEdit, a: seq<Field>, b: seq<Field>)
    ensures SetAll(e, a + b) == SetAll(SetAll(e, a), b)
    decreases |a|
  {
    hide SetField;
    if a == [] {
      assert a + b == b;
    } else {
      SetAllAppend(SetField(e, a[0]), a[1..], b);
      assert (a + b)[1..] == a[1..] + b;
    }
  }

  predicate Ascending(pairs: seq<(nat, nat)>) {
    forall i, j :: 0 <= i < j < |pairs| ==> PairLess(pairs[i], pairs[j])
  }

  lemma {:induction false} InsertLast(pairs: seq<(nat, nat)>, p: (nat, nat))
    requires forall i :: 0 <= i < |pairs| ==> PairLess(pairs[i], p)
    ensures InsertPair(pairs, p) == pairs + [p]
  {
    if pairs != [] {
      InsertLast(pairs[1..], p);
      assert pairs == [pairs[0]] + pairs[1..];
    }
  }

  lemma {:induction false} SetPointers(e: VersionEdit, pointers: seq<(nat, Bytes)>)
    ensures SetAll(e, PointerFields(pointers)) == e.(compactPointers := e.compactPointers + pointers)
    decreases |pointers|
  {
    if pointers == [] {
      assert e.compactPointers + pointers == e.compactPointers;
    } else {
      var e' := SetField(e, CompactPointer(pointers[0].0, pointers[0].1));
      SetPointers(e', pointers[1..]);
      assert PointerFields(pointers)[1..] == PointerFields(pointers[1..]);
      assert e.compactPointers + [pointers[0]] + pointers[1..] == e.compactPointers + pointers;
    }
  }

  lemma {:induction false} SetDeleted(e: VersionEdit, deleted: seq<(nat, nat)>)
    requires Ascending(e.deleted + deleted)
    ensures SetAll(e, DeletedFields(deleted)) == e.(deleted := e.deleted + deleted)
    decreases |deleted|
  {
    if deleted == [] {
      assert e.deleted + deleted == e.deleted;
    } else {
      forall i | 0 <= i < |e.deleted|
        ensures PairLess(e.deleted[i], deleted[0])
      {
        assert (e.deleted + deleted)[i] == e.deleted[i] && (e.deleted + deleted)[|e.deleted|] == deleted[0];
      }
      InsertLast(e.deleted, deleted[0]);
      assert e.deleted + [deleted[0]] + deleted[1..] == e.deleted + deleted;
      var e' := SetField(e, DeletedFile(deleted[0].0, deleted[0].1));
      SetDeleted(e', deleted[1..]);
      assert DeletedFields(deleted)[1..] == DeletedFields(deleted[1..]);
    }
  }

  lemma {:induction false} SetAdded(e: VersionEdit, added: seq<(nat, FileMeta)>)
    ensures SetAll(e, AddedFields(added)) == e.(added := e.added + added)
    decreases |added|
  {
    if added == [] {
      assert e.added + added == e.added;
    } else {
      var e' := SetField(e, NewFile(added[0].0, added[0].1));
      SetAdded(e', added[1..]);
      assert AddedFields(added)[1..] == AddedFields(added[1..]);
      assert e.added + [added[0]] + added[1..] == e.added + added;
    }
  }

  predicate NumberFits(n: Option<nat>) {
    n.Some? ==> n.value < U64
  }

  predicate MetaFits(f: FileMeta) {
    f.number < U64 && f.size < U64 && |f.smallest| < U32 && |f.largest| < U32
  }

  /** What an edit must satisfy to be written: its entries fit, and the set of deleted files is in order. */
  ghost predicate EditFits(e: VersionEdit)
    ensures EditFits(e) ==> Ascending(e.deleted)
  {
    && (e.comparator.Some? ==> |e.comparator.value| < U32)
    && NumberFits(e.logNumber) && NumberFits(e.prevLogNumber) && NumberFits(e.nextFile) && NumberFits(e.lastSequence)
    && (forall i :: 0 <= i < |e.compactPointers| ==> e.compactPointers[i].0 < NUM_LEVELS && |e.compactPointers[i].1| < U32)
    && Ascending(e.deleted) && (forall i :: 0 <= i < |e.deleted| ==> e.deleted[i].0 < NUM_LEVELS && e.deleted[i].1 < U64)
    && (forall i :: 0 <= i < |e.added| ==> e.added[i].0 < NUM_LEVELS && MetaFits(e.added[i].1))
  }

  lemma FieldsFit(e: VersionEdit)
    requires EditFits(e)
    ensures forall i :: 0 <= i < |Fields(e)| ==> FieldOk(Fields(e)[i])
  {
    hide Ascending;
    forall f | f in Fields(e)
      ensures FieldOk(f)
    {
      FieldFits(e, f);
    }
    assert forall i :: 0 <= i < |Fields(e)| ==> Fields(e)[i] in Fields(e);
  }

  lemma FieldFits(e: VersionEdit, f: Field)
    requires EditFits(e) && f in Fields(e)
    ensures FieldOk(f)
  {
    hide Ascending, ScalarFields;
    if f in ScalarFields(e) {
      ScalarFits(e, f);
    } else if f in PointerFields(e.compactPointers) {
    } else if f in DeletedFields(e.deleted) {
    } else {
      assert f in AddedFields(e.added);
    }
  }

  lemma ScalarFits(e: VersionEdit, f: Field)
    requires EditFits(e) && f in ScalarFields(e)
    ensures FieldOk(f)
  {
    assert f in ComparatorField(e) || f in LogField(e) || f in PrevLogField(e) || f in NextFileField(e) || f in SequenceField(e);
  }

  /** At most one entry: it is set, or nothing changes. */
  lemma SetOne(e: VersionEdit, fields: seq<Field>, one: seq<Field>)
    requires |one| <= 1
    ensures SetAll(e, fields + one) == if one == [] then SetAll(e, fields) else SetField(SetAll(e, fields), one[0])
  {
    hide SetField;
    SetAllAppend(e, fields, one);
    if one != [] {
      assert one[1..] == [];
    }
  }

  lemma SetScalars(e: VersionEdit)
    ensures SetAll(EMPTY, ScalarFields(e)) == e.(compactPointers := [], deleted := [], added := [])
  {
    hide SetAll;
    var a, b, c, d := ComparatorField(e), LogField(e), PrevLogField(e), NextFileField(e);
    SetNone(EMPTY);
    SetOne(EMPTY, [], a);
    assert [] + a == a;
    SetOne(EMPTY, a, b);
    SetOne(EMPTY, a + b, c);
    SetOne(EMPTY, a + b + c, d);
    SetOne(EMPTY, a + b + c + d, SequenceField(e));
  }

  lemma SetNone(e: VersionEdit)
    ensures SetAll(e, []) == e
  {
  }

  /** Decoding the encoding of an edit gives it back. */
  lemma EditRoundTrip(e: VersionEdit)
    requires EditFits(e)
    ensures Decode(EncodeFields(Fields(e)), EMPTY) == Ok(e)
  {
    hide EditFits, Ascending, EncodeFields, Decode, FieldOk, SetAll, SetField;
    hide ScalarFields, PointerFields, DeletedFields, AddedFields;
    var scalars := ScalarFields(e);
    var pointers, deleted, added := PointerFields(e.compactPointers), DeletedFields(e.deleted), AddedFields(e.added);
    FieldsFit(e);
    FieldsRoundTrip(Fields(e), EMPTY);
    SetAllAppend(EMPTY, scalars + pointers + deleted, added);
    SetAllAppend(EMPTY, scalars + pointers, deleted);
    SetAllAppend(EMPTY, scalars, pointers);
    SetScalars(e);
    var e0 := e.(compactPointers := [], deleted := [], added := []);
    SetPointers(e0, e.compactPointers);
    var e1 := e0.(compactPointers := e0.compactPointers + e.compactPointers);
    assert e1.deleted + e.deleted == e.deleted;
    SetDeleted(e1, e.deleted);
    SetAdded(e1.(deleted := e1.deleted + e.deleted), e.added);
    assert e0.compactPointers + e.compactPointers == e.compactPointers && e0.added + e.added == e.added;
  }
}
