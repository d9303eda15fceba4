/** The log format (db/log_format.h, db/log_writer.cc, db/log_reader.cc): records cut into fragments that
    never cross a block, and what a reader makes of a file that was cut off anywhere. */
module Log {
  import opened Wrappers
  import opened Coding
  import Crc

  const BLOCK_SIZE: nat := 32768
  const HEADER_SIZE: nat := 7

  const ZERO_TYPE: nat := 0
  const FULL_TYPE: nat := 1
  const FIRST_TYPE: nat := 2
  const MIDDLE_TYPE: nat := 3
  const LAST_TYPE: nat := 4
  // Special values of the reader
  const EOF: nat := 5
  const BAD_RECORD: nat := 6

  function AsBits(s: Bytes): (r: seq<bv8>)
    ensures |r| == |s|
  {
    seq(|s|, i requires 0 <= i < |s| => s[i] as bv8)
  }

  lemma AsBitsAppend(a: Bytes, b: Bytes)
    ensures AsBits(a + b) == AsBits(a) + AsBits(b)
  {
  }

  /** The checksum of `data` as files keep it: masked. */
  function StoredCrc(data: Bytes): (c: nat)
    ensures c < 0x1_0000_0000
  {
    Crc.Mask(Crc.Value(AsBits(data))).bits as nat
  }

  function CrcOf(stored: nat): Crc.Word
    requires stored < 0x1_0000_0000
  {
    Crc.Unmask(Crc.Word(stored as bv32))
  }

  /** A stored number unmasks to the checksum of `data` exactly when it is what is stored for `data`. */
  lemma StoredCrcReadsBack(data: Bytes, stored: nat)
    requires stored < 0x1_0000_0000
    ensures CrcOf(stored) == Crc.Value(AsBits(data)) <==> stored == StoredCrc(data)
  {
    hide Crc.Mask, Crc.Unmask, Crc.Value, AsBits;
    Crc.MaskRoundTrip(Crc.Value(AsBits(data)));
    Crc.UnmaskRoundTrip(Crc.Word(stored as bv32));
    NumberBack(stored);
  }

  lemma NumberBack(n: nat)
    requires n < 0x1_0000_0000
    ensures (n as bv32) as nat == n
  {
    assert n % 0x1_0000_0000 == n;
  }

  /** A fragment on disk: checksum of type and payload, length, type, payload. */
  function Physical(t: Byte, payload: Bytes): (r: Bytes)
    requires |payload| < 0x1_0000
    ensures |r| == HEADER_SIZE + |payload|
  {
    Fixed(StoredCrc([t] + payload), 4) + [|payload| % 256, |payload| / 256, t] + payload
  }

  function Zeros(n: nat): (r: Bytes)
    ensures |r| == n
  {
    seq(n, _ => 0)
  }

  function FragmentType(begin: bool, end: bool): Byte {
    if begin && end then FULL_TYPE else if begin then FIRST_TYPE else if end then LAST_TYPE else MIDDLE_TYPE
  }

  /** How many zero bytes fill the block before the next fragment. */
  function Trailer(off: nat): nat
    requires off < BLOCK_SIZE
  {
    if BLOCK_SIZE - off < HEADER_SIZE then BLOCK_SIZE - off else 0
  }

  /** Where in its block the next fragment starts, and how much payload it can take. */
  function Start(off: nat): (s: nat)
    requires off < BLOCK_SIZE
    ensures s + HEADER_SIZE <= BLOCK_SIZE
  {
    if BLOCK_SIZE - off < HEADER_SIZE then 0 else off
  }

  function Taken(off: nat, left: nat): (n: nat)
    requires off < BLOCK_SIZE
    ensures n <= left && Start(off) + HEADER_SIZE + n <= BLOCK_SIZE
  {
    var avail := BLOCK_SIZE - Start(off) - HEADER_SIZE;
    if left < avail then left else avail
  }

  /** The bytes that a record (or what is left of it) becomes, written at offset `off` of a block. */
  function Emit(off: nat, data: Bytes, begin: bool): Bytes
    requires off < BLOCK_SIZE
    decreases |data|, if Start(off) + HEADER_SIZE == BLOCK_SIZE then 1 else 0
  {
    var n := Taken(off, |data|);
    var end := n == |data|;
    Zeros(Trailer(off)) + Physical(FragmentType(begin, end), data[..n]) +
    if end then [] else Emit((Start(off) + HEADER_SIZE + n) % BLOCK_SIZE, data[n..], false)
  }

  /** The file after a list of records was written, by one writer or by several that took over. */
  function Written(records: seq<Bytes>): Bytes {
    if records == [] then [] else
      var front := Written(records[..|records| - 1]);
      front + Emit(|front| % BLOCK_SIZE, records[|records| - 1], true)
  }

  lemma EmitUnfold(off: nat, data: Bytes, begin: bool)
    requires off < BLOCK_SIZE
    ensures var n := Taken(off, |data|);
            var next := if n == |data| then [] else Emit((Start(off) + HEADER_SIZE + n) % BLOCK_SIZE, data[n..], false);
            Emit(off, data, begin) == Zeros(Trailer(off)) + Physical(FragmentType(begin, n == |data|), data[..n]) + next
  {
    hide Physical;
  }

  class Writer {
    var dest: Bytes
    var blockOffset: nat

    predicate Valid()
      reads this
    {
      blockOffset <= BLOCK_SIZE && blockOffset % BLOCK_SIZE == |dest| % BLOCK_SIZE
    }

    /** A writer on a new file, or on one that already holds records. */
    constructor (dest: Bytes)
      ensures Valid() && this.dest == dest
    {
      this.dest := dest;
      blockOffset := |dest| % BLOCK_SIZE;
    }

    method AddRecord(slice: Bytes)
      requires Valid()
      modifies this
      ensures Valid() && dest == old(dest) + Emit(|old(dest)| % BLOCK_SIZE, slice, true)
    {
      hide Physical, Emit, Valid;
      ghost var done := old(dest) + Emit(|old(dest)| % BLOCK_SIZE, slice, true);
      var left := slice;
      var begin := true;
      var more := true;
      while more
        invariant Valid()
        invariant more ==> dest + Emit(|dest| % BLOCK_SIZE, left, begin) == done
        invariant !more ==> dest == done
        decreases more, |left|, if Start(|dest| % BLOCK_SIZE) + HEADER_SIZE == BLOCK_SIZE then 1 else 0
      {
        EmitUnfold(|dest| % BLOCK_SIZE, left, begin);
        var n := AddFragment(left, begin);
        left := left[n..];
        begin := false;
        more := |left| > 0;
      }
    }

    /** One fragment, at the start of a new block if the current one has no room for a header. */
    method AddFragment(left: Bytes, begin: bool) returns (fragmentLength: nat)
      requires Valid()
      modifies this
      ensures Valid()
      ensures var off := |old(dest)| % BLOCK_SIZE;
              && fragmentLength == Taken(off, |left|)
              && dest == old(dest) + Zeros(Trailer(off)) + Physical(FragmentType(begin, fragmentLength == |left|), left[..fragmentLength])
              && |dest| % BLOCK_SIZE == (Start(off) + HEADER_SIZE + fragmentLength) % BLOCK_SIZE
    {
      hide Physical, Start, Trailer, Taken;
      var leftover := BLOCK_SIZE - blockOffset;
      RoomAt(blockOffset, |dest|);
      if leftover < HEADER_SIZE {
        // Switch to a new block
        if leftover > 0 {
          dest := dest + Zeros(leftover);
        }
        blockOffset := 0;
      }
      var avail := BLOCK_SIZE - blockOffset - HEADER_SIZE;
      fragmentLength := if |left| < avail then |left| else avail;
      TakenIs(|old(dest)| % BLOCK_SIZE, |left|);
      var end := |left| == fragmentLength;
      var t := if begin && end then FULL_TYPE else if begin then FIRST_TYPE else if end then LAST_TYPE else MIDDLE_TYPE;
      EmitPhysicalRecord(t, left[..fragmentLength]);
    }

    method EmitPhysicalRecord(t: Byte, payload: Bytes)
      requires Valid() && blockOffset + HEADER_SIZE + |payload| <= BLOCK_SIZE
      modifies this
      ensures Valid() && dest == old(dest) + Physical(t, payload)
      ensures blockOffset == old(blockOffset) + HEADER_SIZE + |payload|
    {
      hide Crc.Extend, Crc.Value, Crc.Mask, AsBits, Fixed, Physical;
      // The checksum of the type alone, extended by the payload
      var crc := Crc.Extend(Crc.Value(AsBits([t])), AsBits(payload));
      ExtendInTurn([t], payload);
      var header := Fixed(Crc.Mask(crc).bits as nat, 4) + [|payload| % 256, |payload| / 256, t];
      PhysicalIs(t, payload, crc);
      OffsetMoves(blockOffset, |dest|, HEADER_SIZE + |payload|);
      dest := dest + header;
      dest := dest + payload;
      assert dest == old(dest) + (header + payload);
      blockOffset := blockOffset + HEADER_SIZE + |payload|;
    }
  }

  /** Where the next fragment starts, seen from the offset in the block. */
  lemma RoomAt(blockOffset: nat, length: nat)
    requires blockOffset <= BLOCK_SIZE && blockOffset % BLOCK_SIZE == length % BLOCK_SIZE
    ensures var off, leftover := length % BLOCK_SIZE, BLOCK_SIZE - blockOffset;
            if leftover < HEADER_SIZE then Start(off) == 0 && Trailer(off) == leftover && (length + leftover) % BLOCK_SIZE == 0
            else Start(off) == blockOffset && Trailer(off) == 0
  {
  }

  lemma TakenIs(off: nat, length: nat)
    requires off < BLOCK_SIZE
    ensures Start(off) + HEADER_SIZE <= BLOCK_SIZE
    ensures var avail := BLOCK_SIZE - Start(off) - HEADER_SIZE; Taken(off, length) == if length < avail then length else avail
  {
  }

  lemma PhysicalIs(t: Byte, payload: Bytes, crc: Crc.Word)
    requires |payload| < 0x1_0000 && crc == Crc.Value(AsBits([t] + payload))
    ensures Physical(t, payload) == Fixed(Crc.Mask(crc).bits as nat, 4) + [|payload| % 256, |payload| / 256, t] + payload
  {
    hide Fixed, Crc.Value, Crc.Mask, AsBits;
  }

  lemma OffsetMoves(a: nat, b: nat, n: nat)
    requires a % BLOCK_SIZE == b % BLOCK_SIZE
    ensures (a + n) % BLOCK_SIZE == (b + n) % BLOCK_SIZE
  {
  }

  lemma ExtendInTurn(a: Bytes, b: Bytes)
    ensures Crc.Extend(Crc.Value(AsBits(a)), AsBits(b)) == Crc.Value(AsBits(a + b))
  {
    hide Crc.Extend;
    AsBitsAppend(a, b);
    Crc.ExtendAppend(Crc.Word(0), AsBits(a), AsBits(b));
  }

  datatype Drop = Drop(bytes: nat, reason: string)

  /** What ReadPhysicalRecord returns, where it leaves the reader, and what it reports. */
  datatype Read = Read(recordType: nat, fragment: Bytes, next: nat, drops: seq<Drop>)

  function SkipTrailer(p: nat): (q: nat)
    ensures p <= q && q % BLOCK_SIZE + HEADER_SIZE <= BLOCK_SIZE
    ensures q == p + Trailer(p % BLOCK_SIZE) && q % BLOCK_SIZE == Start(p % BLOCK_SIZE)
  {
    p + Trailer(p % BLOCK_SIZE)
  }

  function BlockEnd(q: nat): (e: nat)
    ensures e == q - q % BLOCK_SIZE + BLOCK_SIZE && q < e && e % BLOCK_SIZE == 0
  {
    (q / BLOCK_SIZE + 1) * BLOCK_SIZE
  }

  /** `header[6]` as an unsigned value: a char that has its sign bit set comes out large. */
  function TypeOf(b: Byte): nat {
    if b < 128 then b else b + 0xffff_ff00
  }

  function LengthField(low: nat, high: nat): nat {
    low + 256 * high
  }

  predicate CrcMatches(file: Bytes, q: nat, length: nat)
    requires q + HEADER_SIZE + length <= |file|
  {
    Crc.Value(AsBits(file[q + 6..q + HEADER_SIZE + length])) == CrcOf(HeaderCrc(file, q))
  }

  function HeaderCrc(file: Bytes, q: nat): (c: nat)
    requires q + HEADER_SIZE <= |file|
    ensures c < 0x1_0000_0000
  {
    Widths();
    DecodeFixed(file[q..q + 4])
  }

  /** The physical record at position `p` of a file. */
  function PhysicalAt(file: Bytes, p: nat, checksum: bool): (r: Read)
    requires p <= |file|
    ensures p <= r.next <= |file|
    ensures r.recordType == EOF || p < r.next
  {
    var q := SkipTrailer(p);
    if q + HEADER_SIZE > |file| then Read(EOF, [], |file|, [])
    else
      var e := if BlockEnd(q) <= |file| then BlockEnd(q) else |file|;
      var length := LengthField(file[q + 4], file[q + 5]);
      if q + HEADER_SIZE + length > e then
        if e == BlockEnd(q) then Read(BAD_RECORD, [], e, [Drop(e - q, "bad record length")])
        else Read(EOF, [], |file|, [])
      else if TypeOf(file[q + 6]) == ZERO_TYPE && length == 0 then Read(BAD_RECORD, [], e, [])
      else if checksum && !CrcMatches(file, q, length) then Read(BAD_RECORD, [], e, [Drop(e - q, "checksum mismatch")])
      else Read(TypeOf(file[q + 6]), file[q + HEADER_SIZE..q + HEADER_SIZE + length], q + HEADER_SIZE + length, [])
  }

  /** One round of ReadRecord: a result, or the partial record so far. */
  datatype Round = Done(record: Option<Bytes>, drops: seq<Drop>) | More(scratch: Bytes, inFragment: bool, drops: seq<Drop>)

  function Handle(recordType: nat, fragment: Bytes, scratch: Bytes, inFragment: bool): Round {
    if recordType == FULL_TYPE then
      Done(Some(fragment), if inFragment && scratch != [] then [Drop(|scratch|, "partial record without end(1)")] else [])
    else if recordType == FIRST_TYPE then
      More(fragment, true, if inFragment && scratch != [] then [Drop(|scratch|, "partial record without end(2)")] else [])
    else if recordType == MIDDLE_TYPE then
      if !inFragment then More(scratch, false, [Drop(|fragment|, "missing start of fragmented record(1)")])
      else More(scratch + fragment, true, [])
    else if recordType == LAST_TYPE then
      if !inFragment then More(scratch, false, [Drop(|fragment|, "missing start of fragmented record(2)")])
      else Done(Some(scratch + fragment), [])
    else if recordType == EOF then
      Done(None, [])
    else if recordType == BAD_RECORD then
      if inFragment then More([], false, [Drop(|scratch|, "error in middle of record")]) else More(scratch, false, [])
    else
      More([], false, [Drop(|fragment| + if inFragment then |scratch| else 0, "unknown record type")])
  }

  /** What ReadRecord returns from position `p` on. */
  datatype Logical = Logical(record: Option<Bytes>, next: nat, drops: seq<Drop>)

  function ReadFrom(file: Bytes, p: nat, checksum: bool, scratch: Bytes, inFragment: bool): (r: Logical)
    requires p <= |file|
    ensures p <= r.next <= |file|
    ensures r.record.Some? ==> p < r.next
    decreases |file| - p
  {
    var physical := PhysicalAt(file, p, checksum);
    match Handle(physical.recordType, physical.fragment, scratch, inFragment)
    case Done(record, drops) => Logical(record, physical.next, physical.drops + drops)
    case More(scratch', inFragment', drops) =>
      var rest := ReadFrom(file, physical.next, checksum, scratch', inFragment');
      rest.(drops := physical.drops + drops + rest.drops)
  }

  /** All records of a file and all reports, from position `p` on. */
  function ReadAll(file: Bytes, p: nat, checksum: bool): (seq<Bytes>, seq<Drop>)
    requires p <= |file|
    decreases |file| - p
  {
    var r := ReadFrom(file, p, checksum, [], false);
    if r.record.None? then ([], r.drops) else
      var rest := ReadAll(file, r.next, checksum);
      ([r.record.value] + rest.0, r.drops + rest.1)
  }

  predicate BlockAligned(offset: nat) {
    offset % BLOCK_SIZE == 0
  }

  lemma ZeroIsAligned()
    ensures BlockAligned(0)
  {
  }

  /** A reader from offset 0: it holds what is left of the block last read. */
  class Reader {
    const file: Bytes
    const checksum: bool
    var buffer: Bytes
    var eof: bool
    var endOfBufferOffset: nat
    /** The calls to Reporter::Corruption. */
    var reported: seq<Drop>

    ghost predicate Valid()
      reads `buffer, `eof, `endOfBufferOffset
      ensures Valid() ==> 0 <= Position() <= |file|
    {
      && |buffer| <= endOfBufferOffset <= |file|
      && buffer == file[Position()..endOfBufferOffset]
      && (eof ==> endOfBufferOffset == |file|)
      && (!eof ==> BlockAligned(endOfBufferOffset) && |buffer| <= BLOCK_SIZE)
      && (eof && buffer != [] ==> |file| < BlockEnd(Position()))
    }

    ghost function Position(): (p: int)
      reads `buffer, `endOfBufferOffset
    {
      endOfBufferOffset - |buffer|
    }

    constructor (file: Bytes, checksum: bool)
      ensures Valid() && Position() == 0 && reported == []
      ensures this.file == file && this.checksum == checksum
    {
      this.file := file;
      this.checksum := checksum;
      buffer, eof, endOfBufferOffset, reported := [], false, 0, [];
      new;
      hide BlockAligned, BlockEnd;
      ZeroIsAligned();
      assert file[0..0] == [];
    }

    /** SequentialFile::Read of one block. */
    method ReadBlock()
      requires Valid() && !eof && |buffer| < HEADER_SIZE
      modifies this
      ensures Valid() && reported == old(reported)
      ensures eof || |buffer| == BLOCK_SIZE
      ensures Position() == old(endOfBufferOffset)
    {
      var n := if |file| - endOfBufferOffset < BLOCK_SIZE then |file| - endOfBufferOffset else BLOCK_SIZE;
      buffer := file[endOfBufferOffset..endOfBufferOffset + n];
      endOfBufferOffset := endOfBufferOffset + n;
      if n < BLOCK_SIZE {
        eof := true;
      }
    }

    lemma AtHeader()
      requires Valid() && HEADER_SIZE <= |buffer|
      ensures SkipTrailer(Position()) == Position()
      ensures endOfBufferOffset == if BlockEnd(Position()) <= |file| then BlockEnd(Position()) else |file|
      ensures eof <==> endOfBufferOffset < BlockEnd(Position())
    {
      var p: nat := Position();
      if !eof {
        BlockOf(p, endOfBufferOffset);
      }
    }

    lemma AtTrailer()
      requires Valid() && |buffer| < HEADER_SIZE && !eof
      ensures PhysicalAt(file, Position(), checksum) == PhysicalAt(file, endOfBufferOffset, checksum)
    {
      hide PhysicalAt, BlockEnd;
      if buffer != [] {
        SkipToBlock(file, Position(), endOfBufferOffset, checksum);
      }
    }

    /** The loop at the head of ReadPhysicalRecord: a header is in the buffer, or the file has ended. */
    method FillBuffer() returns (ok: bool)
      requires Valid()
      modifies this
      ensures Valid() && reported == old(reported)
      ensures PhysicalAt(file, Position(), checksum) == PhysicalAt(file, old(Position()), checksum)
      ensures if ok then HEADER_SIZE <= |buffer| else eof && |buffer| < HEADER_SIZE
    {
      hide PhysicalAt;
      while |buffer| < HEADER_SIZE
        invariant Valid() && reported == old(reported)
        invariant PhysicalAt(file, Position(), checksum) == PhysicalAt(file, old(Position()), checksum)
        decreases if eof then 0 else 1 + |file| - endOfBufferOffset
      {
        if eof {
          return false;
        }
        AtTrailer();
        ReadBlock();
      }
      return true;
    }

    method CheckCrc(length: nat) returns (ok: bool)
      requires Valid() && HEADER_SIZE + length <= |buffer|
      ensures ok <==> CrcMatches(file, Position(), length)
    {
      hide Crc.Value, CrcOf, AsBits, DecodeFixed, CrcMatches;
      ghost var q: nat := Position();
      SliceOfSlice(file, q, endOfBufferOffset, 0, 4);
      SliceOfSlice(file, q, endOfBufferOffset, 6, HEADER_SIZE + length);
      Widths();
      CrcMatchesMeans(file, q, length);
      var expected := CrcOf(DecodeFixed(buffer[..4]));
      var actual := Crc.Value(AsBits(buffer[6..HEADER_SIZE + length]));
      return actual == expected;
    }

    method ReadPhysicalRecord() returns (recordType: nat, fragment: Bytes)
      requires Valid()
      modifies this
      ensures Valid()
      ensures var r := PhysicalAt(file, old(Position()), checksum);
              && recordType == r.recordType && fragment == r.fragment
              && Position() == r.next && reported == old(reported) + r.drops
    {
      hide *;
      var ok := FillBuffer();
      if !ok {
        recordType, fragment := AtEnd();
      } else {
        recordType, fragment := ParseRecord();
      }
    }

    /** A truncated header at the end of the file. */
    method AtEnd() returns (recordType: nat, fragment: Bytes)
      requires Valid() && eof && |buffer| < HEADER_SIZE
      modifies this
      ensures Valid()
      ensures Read(recordType, fragment, Position(), []) == PhysicalAt(file, old(Position()), checksum) && reported == old(reported)
    {
      hide PhysicalAt;
      PhysicalAtEnd(file, Position(), checksum);
      buffer := [];
      return EOF, [];
    }

    /** buffer_.clear(). */
    method ClearBuffer()
      requires Valid()
      modifies `buffer
      ensures Valid() && buffer == [] && Position() == endOfBufferOffset
    {
      hide BlockEnd, BlockAligned;
      buffer := [];
    }

    lemma InBuffer(k: nat)
      requires Valid() && k < |buffer|
      ensures Position() + k < |file| && buffer[k] == file[Position() + k]
    {
      hide BlockEnd, BlockAligned;
    }

    method ParseRecord() returns (recordType: nat, fragment: Bytes)
      requires Valid() && HEADER_SIZE <= |buffer|
      modifies this
      ensures Valid()
      ensures var r := PhysicalAt(file, old(Position()), checksum);
              && recordType == r.recordType && fragment == r.fragment
              && Position() == r.next && reported == old(reported) + r.drops
    {
      hide CrcMatches, PhysicalAt, BlockEnd, SkipTrailer, BlockAligned, LengthField, TypeOf, Valid;
      AtHeader();
      ghost var p: nat := Position();
      InBuffer(4);
      InBuffer(5);
      InBuffer(6);
      PhysicalAtHeader(file, p, checksum);
      // Parse the header
      var t := TypeOf(buffer[6]);
      var length := LengthField(buffer[4], buffer[5]);
      if HEADER_SIZE + length > |buffer| {
        var dropSize := |buffer|;
        ClearBuffer();
        if !eof {
          reported := reported + [Drop(dropSize, "bad record length")];
          return BAD_RECORD, [];
        }
        return EOF, [];
      }
      if t == ZERO_TYPE && length == 0 {
        ClearBuffer();
        return BAD_RECORD, [];
      }
      if checksum {
        var crcOk := CheckCrc(length);
        if !crcOk {
          var dropSize := |buffer|;
          ClearBuffer();
          reported := reported + [Drop(dropSize, "checksum mismatch")];
          return BAD_RECORD, [];
        }
      }
      fragment := TakeFragment(length);
      return t, fragment;
    }

    method TakeFragment(length: nat) returns (fragment: Bytes)
      requires Valid() && HEADER_SIZE + length <= |buffer|
      modifies this
      ensures Valid() && reported == old(reported)
      ensures old(Position()) + HEADER_SIZE + length == Position() <= |file|
      ensures fragment == file[old(Position()) + HEADER_SIZE..Position()]
    {
      hide BlockEnd, BlockAligned;
      ghost var p: nat := Position();
      fragment := buffer[HEADER_SIZE..HEADER_SIZE + length];
      SliceOfSlice(file, p, endOfBufferOffset, HEADER_SIZE, HEADER_SIZE + length);
      SliceOfSlice(file, p, endOfBufferOffset, HEADER_SIZE + length, |buffer|);
      LaterInBlock(p, HEADER_SIZE + length);
      buffer := buffer[HEADER_SIZE + length..];
    }

    method ReadRecord() returns (record: Option<Bytes>)
      requires Valid()
      modifies this
      ensures Valid()
      ensures var r := ReadFrom(file, old(Position()), checksum, [], false);
              record == r.record && Position() == r.next && reported == old(reported) + r.drops
    {
      hide PhysicalAt, Handle, ReadFrom, Valid, Position;
      ghost var whole := ReadFrom(file, Position(), checksum, [], false);
      var scratch: Bytes := [];
      var inFragmentedRecord := false;
      while true
        invariant Valid()
        invariant var rest := ReadFrom(file, Position(), checksum, scratch, inFragmentedRecord);
                  whole.record == rest.record && whole.next == rest.next && old(reported) + whole.drops == reported + rest.drops
        decreases |file| - Position()
      {
        ReadFromUnfold(file, Position(), checksum, scratch, inFragmentedRecord);
        var recordType, fragment := ReadPhysicalRecord();
        match Handle(recordType, fragment, scratch, inFragmentedRecord) {
          case Done(result, drops) =>
            reported := reported + drops;
            return result;
          case More(scratch', inFragment', drops) =>
            reported := reported + drops;
            scratch, inFragmentedRecord := scratch', inFragment';
        }
      }
    }
  }

  lemma ReadFromUnfold(file: Bytes, p: nat, checksum: bool, scratch: Bytes, inFragment: bool)
    requires p <= |file|
    ensures var physical := PhysicalAt(file, p, checksum);
            var whole := ReadFrom(file, p, checksum, scratch, inFragment);
            match Handle(physical.recordType, physical.fragment, scratch, inFragment)
            case Done(record, drops) => whole == Logical(record, physical.next, physical.drops + drops)
            case More(scratch', inFragment', drops) =>
              && p < physical.next
              && var rest := ReadFrom(file, physical.next, checksum, scratch', inFragment');
                 whole == Logical(rest.record, rest.next, physical.drops + drops + rest.drops)
  {
    hide PhysicalAt;
  }

  lemma SliceOfSlice(s: Bytes, p: nat, e: nat, i: nat, j: nat)
    requires p <= e <= |s| && i <= j <= e - p
    ensures s[p..e][i..j] == s[p + i..p + j]
  {
    var t := s[p..e];
    assert forall k :: i <= k < j ==> t[k] == s[p + k];
    assert |t[i..j]| == j - i == |s[p + i..p + j]|;
    assert forall k :: 0 <= k < j - i ==> t[i..j][k] == s[p + i..p + j][k];
  }

  lemma SkipToBlock(file: Bytes, p: nat, e: nat, checksum: bool)
    requires BlockAligned(e) && p < e < p + HEADER_SIZE && e <= |file|
    ensures PhysicalAt(file, p, checksum) == PhysicalAt(file, e, checksum)
  {
    hide CrcMatches, BlockEnd, LengthField, TypeOf, SkipTrailer, BlockAligned;
    SkipIsSame(p, e);
  }

  lemma SkipIsSame(p: nat, e: nat)
    requires BlockAligned(e) && p < e < p + HEADER_SIZE
    ensures SkipTrailer(p) == SkipTrailer(e)
  {
    assert p % BLOCK_SIZE == BLOCK_SIZE - (e - p);
  }

  lemma LaterInBlock(p: nat, k: nat)
    ensures BlockEnd(p) <= BlockEnd(p + k)
  {
  }

  lemma PhysicalAtEnd(file: Bytes, p: nat, checksum: bool)
    requires p <= |file| < p + HEADER_SIZE
    ensures PhysicalAt(file, p, checksum) == Read(EOF, [], |file|, [])
  {
  }

  lemma PhysicalAtHeader(file: Bytes, q: nat, checksum: bool)
    requires q + HEADER_SIZE <= |file| && SkipTrailer(q) == q
    ensures var e := if BlockEnd(q) <= |file| then BlockEnd(q) else |file|;
            var length := LengthField(file[q + 4], file[q + 5]);
            var t := TypeOf(file[q + 6]);
            PhysicalAt(file, q, checksum) ==
            if q + HEADER_SIZE + length > e then
              if e == BlockEnd(q) then Read(BAD_RECORD, [], e, [Drop(e - q, "bad record length")]) else Read(EOF, [], |file|, [])
            else if t == ZERO_TYPE && length == 0 then Read(BAD_RECORD, [], e, [])
            else if checksum && !CrcMatches(file, q, length) then Read(BAD_RECORD, [], e, [Drop(e - q, "checksum mismatch")])
            else Read(t, file[q + HEADER_SIZE..q + HEADER_SIZE + length], q + HEADER_SIZE + length, [])
  {
    hide CrcMatches, BlockEnd, SkipTrailer;
  }

  lemma BlockOf(p: nat, e: nat)
    requires e % BLOCK_SIZE == 0 && p < e <= p + BLOCK_SIZE
    ensures BlockEnd(p) == e
  {
  }

  lemma CrcMatchesMeans(file: Bytes, q: nat, length: nat)
    requires q + HEADER_SIZE + length <= |file|
    ensures CrcMatches(file, q, length) <==>
            Crc.Value(AsBits(file[q + 6..q + HEADER_SIZE + length])) == CrcOf(HeaderCrc(file, q))
  {
    hide Crc.Value, CrcOf;
  }
}
