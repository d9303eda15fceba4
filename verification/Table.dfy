/** Tables (table/table_builder.cc, table/format.cc, table/table.cc): data blocks, an index of shortened
    separators and a filter, and the point lookup through them. */
module Table {
  import opened Wrappers
  import opened Coding
  import opened KeyOrder
  import B = Block
  import F = FilterBlock
  import Crc
  import Log

  const TRAILER_SIZE: nat := 5
  /** kNoCompression */
  const NO_COMPRESSION: Byte := 0

  type KeyValue = (Bytes, Bytes)

  /** Where a block stands in the file. */
  datatype BlockHandle = BlockHandle(offset: nat, size: nat)

  function EncodeHandle(h: BlockHandle): Bytes {
    Varint(h.offset) + Varint(h.size)
  }

  /** BlockHandle::DecodeFrom: the handle and what follows it. */
  function DecodeHandle(s: Bytes): Parse<BlockHandle> {
    var offset := GetVarint64(s);
    if offset.Unread? then Unread else
      var size := GetVarint64(offset.rest);
      if size.Unread? then Unread else Got(BlockHandle(offset.value, size.value), size.rest)
  }

  lemma HandleRoundTrip(h: BlockHandle, rest: Bytes)
    requires h.offset < U64 && h.size < U64
    ensures DecodeHandle(EncodeHandle(h) + rest) == Got(h, rest)
    ensures |EncodeHandle(h)| <= 20
  {
    hide Varint, GetVarint64;
    Varint64Back(h.offset, Varint(h.size) + rest);
    Varint64Back(h.size, rest);
    assert EncodeHandle(h) + rest == Varint(h.offset) + (Varint(h.size) + rest);
    VarintLengths(h.offset);
    VarintLengths(h.size);
  }

  const FOOTER_SIZE: nat := 48
  const MAGIC: nat := 0xdb47_7524_8b80_fb57

  function Zeros(n: nat): (s: Bytes)
    ensures |s| == n
  {
    seq(n, _ => 0)
  }

  /** std::string::resize. */
  function Resized(s: Bytes, n: nat): (r: Bytes)
    ensures |r| == n
  {
    if n <= |s| then s[..n] else s + Zeros(n - |s|)
  }

  /** Footer::EncodeTo: the handles of the metaindex and of the index, padded, and the magic number. */
  function EncodeFooter(meta: BlockHandle, index: BlockHandle): (r: Bytes)
    ensures |r| == FOOTER_SIZE
  {
    Resized(EncodeHandle(meta) + EncodeHandle(index), 40) + Fixed(MAGIC % U32, 4) + Fixed(MAGIC / U32, 4)
  }

  /** Footer::DecodeFrom. */
  function DecodeFooter(s: Bytes): Option<(BlockHandle, BlockHandle)>
    requires |s| == FOOTER_SIZE
  {
    if DecodeFixed(s[40..44]) + U32 * DecodeFixed(s[44..]) != MAGIC then None else
      var meta := DecodeHandle(s);
      if meta.Unread? then None else
        var index := DecodeHandle(meta.rest);
        if index.Unread? then None else Some((meta.value, index.value))
  }

  lemma FooterRoundTrip(meta: BlockHandle, index: BlockHandle)
    requires meta.offset < U64 && meta.size < U64 && index.offset < U64 && index.size < U64
    ensures DecodeFooter(EncodeFooter(meta, index)) == Some((meta, index))
  {
    hide EncodeHandle, DecodeHandle, Fixed, DecodeFixed;
    var s := EncodeFooter(meta, index);
    var lo, hi := Fixed(MAGIC % U32, 4), Fixed(MAGIC / U32, 4);
    assert s[40..44] == lo && s[44..] == hi;
    Widths();
    FixedRoundTrip(MAGIC % U32, 4);
    FixedRoundTrip(MAGIC / U32, 4);
    HandleRoundTrip(meta, []);
    HandleRoundTrip(index, []);
    var padding := Zeros(40 - |EncodeHandle(meta)| - |EncodeHandle(index)|) + lo + hi;
    assert s == EncodeHandle(meta) + (EncodeHandle(index) + padding);
    HandleRoundTrip(meta, EncodeHandle(index) + padding);
    HandleRoundTrip(index, padding);
  }

  /** What follows a block: its type and the masked checksum of block and type. */
  function Trailer(contents: Bytes): (r: Bytes)
    ensures |r| == TRAILER_SIZE
  {
    [NO_COMPRESSION] + Fixed(Log.StoredCrc(contents + [NO_COMPRESSION]), 4)
  }

  /** The bytes at a handle are those of the block, followed by its trailer. */
  ghost predicate StoredAt(file: Bytes, h: BlockHandle, contents: Bytes) {
    && h.size == |contents| && h.offset + h.size + TRAILER_SIZE <= |file|
    && file[h.offset..h.offset + h.size] == contents
    && file[h.offset + h.size..h.offset + h.size + TRAILER_SIZE] == Trailer(contents)
  }

  /** What ReadBlock finds out about a block when it does not verify checksums. */
  ghost predicate LooksStored(file: Bytes, h: BlockHandle, contents: Bytes) {
    && h.size == |contents| && h.offset + h.size + TRAILER_SIZE <= |file|
    && file[h.offset..h.offset + h.size] == contents && file[h.offset + h.size] == NO_COMPRESSION
  }

  /** ReadBlock: the contents of a stored block in any case; with checksum verification nothing else, and
      without it whatever stands there before an uncompressed block's type. */
  method ReadBlock(file: Bytes, h: BlockHandle, verify: bool) returns (contents: Option<Bytes>)
    ensures forall c :: StoredAt(file, h, c) ==> contents == Some(c)
    ensures contents.Some? && verify ==> StoredAt(file, h, contents.value)
    ensures forall c :: !verify ==> (contents == Some(c) <==> LooksStored(file, h, c))
  {
    hide Crc.Value, Log.CrcOf, Log.AsBits, DecodeFixed, Pow256, StoredAt, LooksStored;
    var n := h.size;
    if h.offset + n + TRAILER_SIZE > |file| {
      // truncated block read
      NothingStored(file, h);
      return None;
    }
    var data := file[h.offset..h.offset + n + TRAILER_SIZE];
    StoredMeans(file, h, data);
    // Check the crc of the type and the block contents
    if verify {
      var crc := Log.CrcOf(DecodeFixed(data[n + 1..]));
      var actual := Crc.Value(Log.AsBits(data[..n + 1]));
      if actual != crc {
        // block checksum mismatch
        return None;
      }
    }
    if data[n] != NO_COMPRESSION {
      return None;
    }
    return Some(data[..n]);
  }

  lemma NothingStored(file: Bytes, h: BlockHandle)
    requires h.offset + h.size + TRAILER_SIZE > |file|
    ensures forall c :: !StoredAt(file, h, c) && !LooksStored(file, h, c)
  {
    hide Trailer;
  }

  /** What the bytes at a handle say. */
  lemma StoredMeans(file: Bytes, h: BlockHandle, data: Bytes)
    requires h.offset + h.size + TRAILER_SIZE <= |file| && data == file[h.offset..h.offset + h.size + TRAILER_SIZE]
    ensures |data| == h.size + TRAILER_SIZE && DecodeFixed(data[h.size + 1..]) < U32
    ensures forall c :: StoredAt(file, h, c) <==>
              c == data[..h.size] && data[h.size] == NO_COMPRESSION &&
              Crc.Value(Log.AsBits(data[..h.size + 1])) == Log.CrcOf(DecodeFixed(data[h.size + 1..]))
    ensures forall c :: LooksStored(file, h, c) <==> c == data[..h.size] && data[h.size] == NO_COMPRESSION
  {
    hide Crc.Value, Log.CrcOf, Log.AsBits, DecodeFixed, Trailer;
    var n := h.size;
    Log.SliceOfSlice(file, h.offset, h.offset + n + TRAILER_SIZE, 0, n);
    Log.SliceOfSlice(file, h.offset, h.offset + n + TRAILER_SIZE, n, n + TRAILER_SIZE);
    assert data[0..n] == data[..n] && data[n..n + TRAILER_SIZE] == data[n..];
    TrailerChecks(data[..n], data[n..]);
    assert data[n] == data[n..][0] == file[h.offset + n];
    assert data[..n] + data[n..][..1] == data[..n + 1] && data[n..][1..] == data[n + 1..];
  }

  /** Five bytes are the trailer of a block exactly when their checksum and type are right. */
  lemma TrailerChecks(contents: Bytes, trailer: Bytes)
    requires |trailer| == TRAILER_SIZE
    ensures DecodeFixed(trailer[1..]) < U32
    ensures trailer == Trailer(contents) <==>
            trailer[0] == NO_COMPRESSION && Crc.Value(Log.AsBits(contents + trailer[..1])) == Log.CrcOf(DecodeFixed(trailer[1..]))
  {
    hide Crc.Value, Log.CrcOf, Log.StoredCrc, Log.AsBits, Fixed, DecodeFixed, Pow256;
    Widths();
    var stored := DecodeFixed(trailer[1..]);
    FixedBack(trailer[1..]);
    if trailer[0] == NO_COMPRESSION {
      assert trailer[..1] == [NO_COMPRESSION];
      assert trailer == [NO_COMPRESSION] + trailer[1..];
      var data := contents + [NO_COMPRESSION];
      FixedRoundTrip(Log.StoredCrc(data), 4);
      Log.StoredCrcReadsBack(data, stored);
    }
  }

  /** A finished data block: its place and what was put into it. */
  datatype DataBlock = DataBlock(handle: BlockHandle, layout: B.Layout)

  ghost predicate KeysIncrease(es: seq<KeyValue>) {
    && (forall i :: 0 <= i < |es| ==> |es[i].0| >= 8)
    && (forall i, j :: 0 <= i < j < |es| ==> KeyLess(es[i].0, es[j].0))
  }

  ghost predicate BlockOk(file: Bytes, b: DataBlock) {
    && B.LayoutOk(b.layout) && b.layout.entries != []
    && StoredAt(file, b.handle, B.BlockOf(b.layout))
    && b.handle.offset < U64 && b.handle.size < U64
  }

  ghost function FirstKey(b: DataBlock): Bytes
    requires b.layout.entries != []
  {
    b.layout.entries[0].0
  }

  ghost function LastKey(b: DataBlock): Bytes
    requires b.layout.entries != []
  {
    b.layout.entries[|b.layout.entries| - 1].0
  }

  /** All entries, block after block. */
  ghost function AllEntries(blocks: seq<DataBlock>): seq<KeyValue> {
    if blocks == [] then [] else AllEntries(blocks[..|blocks| - 1]) + blocks[|blocks| - 1].layout.entries
  }

  /** The index key of a block is its last key, or the first key of a larger user key that lies below the
      next block's first key. */
  ghost predicate IndexKeyOk(blocks: seq<DataBlock>, i: nat, r: Bytes)
    requires i < |blocks| && forall b :: b in blocks ==> b.layout.entries != []
  {
    && |r| >= 8 && |LastKey(blocks[i])| >= 8
    && (i + 1 < |blocks| ==> Separates(r, LastKey(blocks[i]), FirstKey(blocks[i + 1])))
    && (r == LastKey(blocks[i]) || (KeyLess(LastKey(blocks[i]), r) && TagOf(r) == MAX_TAG))
  }

  ghost predicate BlocksOk(file: Bytes, blocks: seq<DataBlock>) {
    (forall i :: 0 <= i < |blocks| ==> BlockOk(file, blocks[i])) && KeysIncrease(AllEntries(blocks))
  }

  /** The index block: for each data block its index key and its encoded handle. */
  ghost predicate IndexOk(blocks: seq<DataBlock>, index: seq<KeyValue>, n: nat)
    requires forall b :: b in blocks ==> b.layout.entries != []
  {
    && |index| == n <= |blocks|
    && forall i :: 0 <= i < n ==> index[i].1 == EncodeHandle(blocks[i].handle) && IndexKeyOk(blocks, i, index[i].0)
  }

  /** The filter of a block's offset holds the user keys of all its entries. */
  ghost predicate FilterCovers(b: DataBlock, groups: seq<seq<Bytes>>) {
    b.handle.offset / F.BASE < |groups| &&
    forall i :: 0 <= i < |b.layout.entries| ==> |b.layout.entries[i].0| >= 8 && UserOf(b.layout.entries[i].0) in groups[b.handle.offset / F.BASE]
  }

  ghost predicate FilterOk(filter: F.FilterBlockReader?, blocks: seq<DataBlock>, groups: seq<seq<Bytes>>) {
    filter != null ==>
      && filter.Valid() && F.FiltersOk(filter.policy, filter.filters, groups)
      && forall b :: b in blocks ==> FilterCovers(b, groups)
  }

  // Reading

  /** An open table: its file, its index block and its filter, if it has one. */
  class Table {
    const file: Bytes
    const indexBlock: Bytes
    const filter: F.FilterBlockReader?
    ghost const blocks: seq<DataBlock>
    ghost const index: B.Layout
    ghost const groups: seq<seq<Bytes>>

    ghost predicate Valid() {
      && BlocksOk(file, blocks) && (forall b :: b in blocks ==> b.layout.entries != [])
      && B.LayoutOk(index) && indexBlock == B.BlockOf(index) && IndexOk(blocks, index.entries, |blocks|)
      && FilterOk(filter, blocks, groups)
    }

    constructor (file: Bytes, indexBlock: Bytes, filter: F.FilterBlockReader?,
                 ghost blocks: seq<DataBlock>, ghost index: B.Layout, ghost groups: seq<seq<Bytes>>)
      requires BlocksOk(file, blocks) && (forall b :: b in blocks ==> b.layout.entries != [])
      requires B.LayoutOk(index) && indexBlock == B.BlockOf(index) && IndexOk(blocks, index.entries, |blocks|)
      requires FilterOk(filter, blocks, groups)
      ensures Valid() && this.blocks == blocks && this.filter == filter
    {
      this.file, this.indexBlock, this.filter := file, indexBlock, filter;
      this.blocks, this.index, this.groups := blocks, index, groups;
    }

    /** InternalGet: what is reported for a lookup key. */
    method InternalGet(k: Bytes, verify: bool) returns (r: Option<KeyValue>)
      requires Valid() && |k| >= 8
      ensures Answers(AllEntries(blocks), k, r)
    {
      hide *;
      ValidParts();
      IndexIncreases(file, blocks, index.entries);
      var iiter := new B.Iter(indexBlock, KeyRank, index);
      iiter.Seek(k);
      iiter.Here();
      IndexPosition(file, blocks, index.entries, k, iiter.at);
      if !iiter.Valid() {
        PastAllBlocks(file, blocks, index.entries, k);
        return None;
      }
      ghost var b := blocks[iiter.at];
      HandleInIndex(file, blocks, index.entries, iiter.at);
      var handle := DecodeHandle(iiter.data[iiter.valueStart..iiter.valueEnd]);
      HandleRoundTrip(b.handle, []);
      assert EncodeHandle(b.handle) + [] == EncodeHandle(b.handle);
      if filter != null {
        ValidFilter();
        var may := filter.KeyMayMatch(handle.value.offset, k);
        if !may {
          // Not found
          NotInFilter(iiter.at, k);
          FilteredOut(file, blocks, index.entries, k, iiter.at);
          return None;
        }
      }
      r := SeekBlock(handle.value, k, verify, iiter.at);
    }

    lemma ValidParts()
      requires Valid()
      ensures BlocksOk(file, blocks) && (forall b :: b in blocks ==> b.layout.entries != [])
      ensures B.LayoutOk(index) && indexBlock == B.BlockOf(index) && IndexOk(blocks, index.entries, |blocks|)
      ensures |index.entries| == |blocks|
    {
      hide B.LayoutOk, B.BlockOf, BlocksOk, IndexKeyOk, FilterOk;
    }

    lemma ValidFilter()
      requires Valid() && filter != null
      ensures filter.Valid()
    {
      hide B.LayoutOk, B.BlockOf, BlocksOk, IndexKeyOk, F.FiltersOk, FilterCovers;
    }

    /** When the filter of a block's offset does not match, no entry of the block has the user key. */
    lemma NotInFilter(i: nat, k: Bytes)
      requires Valid() && |k| >= 8 && i < |blocks| && filter != null
      requires !(exists g: seq<seq<Bytes>> :: F.FiltersOk(filter.policy, filter.filters, g) && blocks[i].handle.offset / F.BASE < |g| && UserOf(k) in g[blocks[i].handle.offset / F.BASE])
      ensures NoneHasUser(blocks[i].layout.entries, k)
    {
      hide B.LayoutOk, B.BlockOf, AllEntries, KeysIncrease, IndexKeyOk, F.FiltersOk, KeyLess, BlocksOk, IndexOk;
      assert FilterCovers(blocks[i], groups);
    }

    /** The data block that the index points at. */
    method SeekBlock(h: BlockHandle, k: Bytes, verify: bool, ghost i: nat) returns (r: Option<KeyValue>)
      requires Valid() && |k| >= 8 && i < |blocks| && h == blocks[i].handle
      requires AllBefore(blocks, index.entries, k, i)
      ensures Answers(AllEntries(blocks), k, r)
    {
      hide *;
      ValidParts();
      ghost var b := blocks[i];
      BlockParts(file, blocks, i);
      var contents := ReadBlock(file, h, verify);
      assert contents == Some(B.BlockOf(b.layout));
      BlockIncreases(file, blocks, i);
      var iter := new B.Iter(contents.value, KeyRank, b.layout);
      iter.Seek(k);
      iter.Here();
      BlockPosition(file, blocks, k, i, iter.at);
      FoundInBlock(file, blocks, index.entries, k, i, iter.at);
      if iter.Valid() {
        return Some((iter.key, iter.data[iter.valueStart..iter.valueEnd]));
      }
      return None;
    }
  }

  lemma HandleInIndex(file: Bytes, blocks: seq<DataBlock>, index: seq<KeyValue>, i: nat)
    requires BlocksOk(file, blocks) && (forall b :: b in blocks ==> b.layout.entries != []) && IndexOk(blocks, index, |blocks|)
    requires i < |blocks|
    ensures index[i].1 == EncodeHandle(blocks[i].handle) && blocks[i].handle.offset < U64 && blocks[i].handle.size < U64
  {
    hide KeysIncrease, IndexKeyOk, B.LayoutOk, StoredAt;
    assert BlockOk(file, blocks[i]);
  }

  lemma BlockParts(file: Bytes, blocks: seq<DataBlock>, i: nat)
    requires BlocksOk(file, blocks) && i < |blocks|
    ensures B.LayoutOk(blocks[i].layout) && StoredAt(file, blocks[i].handle, B.BlockOf(blocks[i].layout))
  {
    hide KeysIncrease, B.LayoutOk, StoredAt;
    assert BlockOk(file, blocks[i]);
  }

  ghost predicate IsFirstAtOrAfter(es: seq<KeyValue>, k: Bytes, p: nat)
    requires |k| >= 8
  {
    && p <= |es| && (forall i :: 0 <= i < |es| ==> |es[i].0| >= 8)
    && (forall i :: 0 <= i < p ==> KeyLess(es[i].0, k))
    && (p < |es| ==> !KeyLess(es[p].0, k))
  }

  /** What a lookup of `k` reports is the first entry at or after `k`, and that entry is never missed when
      it has the user key of `k`. */
  ghost predicate Answers(es: seq<KeyValue>, k: Bytes, r: Option<KeyValue>)
    requires |k| >= 8
  {
    forall p: nat :: IsFirstAtOrAfter(es, k, p) ==>
      && (r.Some? ==> p < |es| && r.value == es[p])
      && (p < |es| && UserOf(es[p].0) == UserOf(k) ==> r.Some?)
  }

  /** The place of a block's first entry among all entries. */
  ghost function StartOf(blocks: seq<DataBlock>, i: nat): nat
    requires i <= |blocks|
  {
    |AllEntries(blocks[..i])|
  }

  lemma EntryAt(blocks: seq<DataBlock>, i: nat)
    requires i < |blocks|
    ensures StartOf(blocks, i) + |blocks[i].layout.entries| == StartOf(blocks, i + 1) <= |AllEntries(blocks)|
    ensures forall q :: 0 <= q < |blocks[i].layout.entries| ==> AllEntries(blocks)[StartOf(blocks, i) + q] == blocks[i].layout.entries[q]
  {
    hide AllEntries;
    BlockStart(blocks, i);
    StartStays(blocks, i + 1, |blocks|);
    assert blocks[..|blocks|] == blocks;
    PartAt(AllEntries(blocks[..i]), blocks[i].layout.entries, AllEntries(blocks));
  }

  lemma PartAt(a: seq<KeyValue>, b: seq<KeyValue>, all: seq<KeyValue>)
    requires a + b <= all
    ensures forall q :: 0 <= q < |b| ==> all[|a| + q] == b[q]
  {
    forall q | 0 <= q < |b|
      ensures all[|a| + q] == b[q]
    {
      assert (a + b)[|a| + q] == b[q];
    }
  }

  /** A block's entries stand behind those of the blocks before it. */
  lemma BlockStart(blocks: seq<DataBlock>, i: nat)
    requires i < |blocks|
    ensures AllEntries(blocks[..i + 1]) == AllEntries(blocks[..i]) + blocks[i].layout.entries
  {
    assert blocks[..i + 1][..i] == blocks[..i];
  }

  lemma {:induction false} StartStays(blocks: seq<DataBlock>, i: nat, n: nat)
    requires i <= n <= |blocks|
    ensures AllEntries(blocks[..i]) <= AllEntries(blocks[..n])
    decreases n
  {
    hide AllEntries;
    if i < n {
      StartStays(blocks, i, n - 1);
      BlockStart(blocks, n - 1);
    }
  }

  /** Every entry stands in some block. */
  lemma {:induction false} EntryOwner(blocks: seq<DataBlock>, p: nat) returns (i: nat, q: nat)
    requires p < |AllEntries(blocks)|
    ensures i < |blocks| && q < |blocks[i].layout.entries| && p == StartOf(blocks, i) + q
    ensures AllEntries(blocks)[p] == blocks[i].layout.entries[q]
  {
    var n := |blocks| - 1;
    if p < |AllEntries(blocks[..n])| {
      i, q := EntryOwner(blocks[..n], p);
      assert blocks[..n][..i] == blocks[..i];
    } else {
      i, q := n, p - |AllEntries(blocks[..n])|;
    }
  }

  /** The index keys of the blocks before `i` lie before `k`; that of block `i` does not. */
  ghost predicate AllBefore(blocks: seq<DataBlock>, index: seq<KeyValue>, k: Bytes, i: nat)
    requires |k| >= 8 && i <= |blocks| == |index|
  {
    && (forall j :: 0 <= j < |index| ==> |index[j].0| >= 8)
    && (forall j :: 0 <= j < i ==> KeyLess(index[j].0, k))
    && (i < |blocks| ==> !KeyLess(index[i].0, k))
  }

  /** Nothing between: `a <= b` and `b < c` give `a < c`. */
  lemma KeyChain(a: Bytes, b: Bytes, c: Bytes)
    requires |a| >= 8 && |b| >= 8 && |c| >= 8 && (a == b || KeyLess(a, b)) && KeyLess(b, c)
    ensures KeyLess(a, c)
  {
    if a != b {
      KeyTransitive(a, b, c);
    }
  }

  lemma BlockKeys(file: Bytes, blocks: seq<DataBlock>, i: nat, q: nat)
    requires BlocksOk(file, blocks) && i < |blocks| && q < |blocks[i].layout.entries|
    ensures blocks[i].layout.entries != []
    ensures |blocks[i].layout.entries[q].0| >= 8 && |LastKey(blocks[i])| >= 8 && |FirstKey(blocks[i])| >= 8
    ensures blocks[i].layout.entries[q].0 == LastKey(blocks[i]) || KeyLess(blocks[i].layout.entries[q].0, LastKey(blocks[i]))
    ensures blocks[i].layout.entries[q].0 == FirstKey(blocks[i]) || KeyLess(FirstKey(blocks[i]), blocks[i].layout.entries[q].0)
    ensures forall r :: q < r < |blocks[i].layout.entries| ==> |blocks[i].layout.entries[r].0| >= 8 && KeyLess(blocks[i].layout.entries[q].0, blocks[i].layout.entries[r].0)
  {
    hide KeyLess, BlockOk, KeysIncrease, AllEntries;
    EntryAt(blocks, i);
    var es, s := AllEntries(blocks), StartOf(blocks, i);
    var n := |blocks[i].layout.entries|;
    assert blocks[i].layout.entries != [];
    KeysAt(es, s + q, s + n - 1);
    KeysAt(es, s, s + q);
    forall r | q < r < n
      ensures |blocks[i].layout.entries[r].0| >= 8 && KeyLess(blocks[i].layout.entries[q].0, blocks[i].layout.entries[r].0)
    {
      KeysAt(es, s + q, s + r);
    }
  }

  lemma KeysAt(es: seq<KeyValue>, p: nat, q: nat)
    requires KeysIncrease(es) && p <= q < |es|
    ensures |es[p].0| >= 8 && |es[q].0| >= 8
    ensures p == q || KeyLess(es[p].0, es[q].0)
  {
    hide KeyLess;
  }

  ghost predicate NoneHasUser(es: seq<KeyValue>, k: Bytes)
    requires |k| >= 8
  {
    forall q :: 0 <= q < |es| && |es[q].0| >= 8 ==> UserOf(es[q].0) != UserOf(k)
  }

  lemma StartsAscend(blocks: seq<DataBlock>, i: nat, j: nat)
    requires i <= j <= |blocks|
    ensures StartOf(blocks, i) <= StartOf(blocks, j) <= |AllEntries(blocks)|
    decreases j - i
  {
    if i < j {
      EntryAt(blocks, i);
      StartsAscend(blocks, i + 1, j);
    } else if j < |blocks| {
      EntryAt(blocks, j);
    } else {
      assert blocks[..j] == blocks;
    }
  }

  lemma FirstBeforeLast(file: Bytes, blocks: seq<DataBlock>, i: nat, j: nat)
    requires BlocksOk(file, blocks) && i <= j < |blocks| && (forall b :: b in blocks ==> b.layout.entries != [])
    ensures |FirstKey(blocks[i])| >= 8 && |LastKey(blocks[j])| >= 8
    ensures FirstKey(blocks[i]) == LastKey(blocks[j]) || KeyLess(FirstKey(blocks[i]), LastKey(blocks[j]))
  {
    hide KeyLess, BlockOk;
    EntryAt(blocks, i);
    EntryAt(blocks, j);
    StartsAscend(blocks, i, j);
    var es := AllEntries(blocks);
    var a, b := StartOf(blocks, i), StartOf(blocks, j) + |blocks[j].layout.entries| - 1;
    assert es[a] == blocks[i].layout.entries[0] && es[b] == blocks[j].layout.entries[|blocks[j].layout.entries| - 1];
  }

  /** The index keys increase, so the index can be searched. */
  lemma IndexIncreases(file: Bytes, blocks: seq<DataBlock>, index: seq<KeyValue>)
    requires BlocksOk(file, blocks) && (forall b :: b in blocks ==> b.layout.entries != [])
    requires IndexOk(blocks, index, |blocks|)
    ensures B.Increasing(index, KeyRank)
  {
    hide BlocksOk, KeyLess, KeyRank;
    forall i, j | 0 <= i < j < |index|
      ensures KeyRank(index[i].0) < KeyRank(index[j].0)
    {
      IndexKeysAscend(file, blocks, index, i, j);
      KeyRankOrders(index[i].0, index[j].0);
    }
  }

  lemma IndexKeysAscend(file: Bytes, blocks: seq<DataBlock>, index: seq<KeyValue>, i: nat, j: nat)
    requires BlocksOk(file, blocks) && (forall b :: b in blocks ==> b.layout.entries != [])
    requires IndexOk(blocks, index, |blocks|) && i < j < |index|
    ensures |index[i].0| >= 8 && |index[j].0| >= 8 && KeyLess(index[i].0, index[j].0)
  {
    hide BlocksOk, KeyLess, FirstKey, LastKey;
    assert IndexKeyOk(blocks, i, index[i].0) && IndexKeyOk(blocks, j, index[j].0);
    FirstBeforeLast(file, blocks, i + 1, j);
    var first, last := FirstKey(blocks[i + 1]), LastKey(blocks[j]);
    if first != last {
      KeyTransitive(index[i].0, first, last);
    }
    if last != index[j].0 {
      KeyTransitive(index[i].0, last, index[j].0);
    }
  }

  lemma IndexPosition(file: Bytes, blocks: seq<DataBlock>, index: seq<KeyValue>, k: Bytes, at: nat)
    requires |k| >= 8 && (forall b :: b in blocks ==> b.layout.entries != []) && IndexOk(blocks, index, |blocks|)
    requires at <= |index| && (forall i :: 0 <= i < at ==> KeyRank(index[i].0) < KeyRank(k)) && (at < |index| ==> KeyRank(k) <= KeyRank(index[at].0))
    ensures AllBefore(blocks, index, k, at)
  {
    hide KeyLess, KeyRank;
    forall j | 0 <= j < |index|
      ensures |index[j].0| >= 8 && (KeyRank(index[j].0) < KeyRank(k) <==> KeyLess(index[j].0, k))
    {
      assert IndexKeyOk(blocks, j, index[j].0);
      KeyRankOrders(index[j].0, k);
    }
  }

  lemma BlockIncreases(file: Bytes, blocks: seq<DataBlock>, i: nat)
    requires BlocksOk(file, blocks) && i < |blocks|
    ensures B.Increasing(blocks[i].layout.entries, KeyRank)
  {
    hide KeyLess, KeyRank, BlockOk, KeysIncrease, BlocksOk;
    var es := blocks[i].layout.entries;
    forall q, r | 0 <= q < r < |es|
      ensures KeyRank(es[q].0) < KeyRank(es[r].0)
    {
      BlockKeys(file, blocks, i, q);
      KeyRankOrders(es[q].0, es[r].0);
    }
  }

  /** A position among the entries of a block: those before it are before `k`, it is not. */
  ghost predicate CutsAt(es: seq<KeyValue>, k: Bytes, q: nat)
    requires |k| >= 8
  {
    && q <= |es| && (forall r :: 0 <= r < |es| ==> |es[r].0| >= 8)
    && (forall r :: 0 <= r < q ==> KeyLess(es[r].0, k))
    && (q < |es| ==> !KeyLess(es[q].0, k))
  }

  lemma BlockPosition(file: Bytes, blocks: seq<DataBlock>, k: Bytes, i: nat, q: nat)
    requires BlocksOk(file, blocks) && |k| >= 8 && i < |blocks| && q <= |blocks[i].layout.entries|
    requires forall r :: 0 <= r < q ==> KeyRank(blocks[i].layout.entries[r].0) < KeyRank(k)
    requires q < |blocks[i].layout.entries| ==> KeyRank(k) <= KeyRank(blocks[i].layout.entries[q].0)
    ensures CutsAt(blocks[i].layout.entries, k, q)
  {
    hide KeyLess, KeyRank, BlockOk, KeysIncrease, BlocksOk;
    forall r | 0 <= r < |blocks[i].layout.entries|
      ensures |blocks[i].layout.entries[r].0| >= 8
      ensures KeyRank(blocks[i].layout.entries[r].0) < KeyRank(k) <==> KeyLess(blocks[i].layout.entries[r].0, k)
    {
      BlockKeys(file, blocks, i, r);
      KeyRankOrders(blocks[i].layout.entries[r].0, k);
    }
  }

  lemma {:induction false} CutExists(es: seq<KeyValue>, k: Bytes) returns (q: nat)
    requires |k| >= 8 && forall r :: 0 <= r < |es| ==> |es[r].0| >= 8
    ensures CutsAt(es, k, q)
  {
    hide KeyLess;
    q := 0;
    while q < |es| && KeyLess(es[q].0, k)
      invariant q <= |es| && forall r :: 0 <= r < q ==> KeyLess(es[r].0, k)
    {
      q := q + 1;
    }
  }

  /** Entries of a block whose index key lies before `k` lie before `k`. */
  lemma EntryBefore(file: Bytes, blocks: seq<DataBlock>, index: seq<KeyValue>, k: Bytes, i: nat, j: nat, q: nat)
    requires BlocksOk(file, blocks) && (forall b :: b in blocks ==> b.layout.entries != []) && IndexOk(blocks, index, |blocks|)
    requires |k| >= 8 && i <= |blocks| && AllBefore(blocks, index, k, i) && j < i && q < |blocks[j].layout.entries|
    ensures |blocks[j].layout.entries[q].0| >= 8 && KeyLess(blocks[j].layout.entries[q].0, k)
  {
    hide KeyLess, BlocksOk;
    BlockKeys(file, blocks, j, q);
    assert IndexKeyOk(blocks, j, index[j].0);
    KeyChain(LastKey(blocks[j]), index[j].0, k);
    KeyChain(blocks[j].layout.entries[q].0, LastKey(blocks[j]), k);
  }

  lemma PastAllBlocks(file: Bytes, blocks: seq<DataBlock>, index: seq<KeyValue>, k: Bytes)
    requires BlocksOk(file, blocks) && (forall b :: b in blocks ==> b.layout.entries != []) && IndexOk(blocks, index, |blocks|)
    requires |k| >= 8 && AllBefore(blocks, index, k, |blocks|)
    ensures Answers(AllEntries(blocks), k, None)
  {
    hide KeyLess, BlocksOk, IndexOk, AllBefore;
    var es := AllEntries(blocks);
    forall p | 0 <= p < |es|
      ensures |es[p].0| >= 8 && KeyLess(es[p].0, k)
    {
      var j, q := EntryOwner(blocks, p);
      EntryBefore(file, blocks, index, k, |blocks|, j, q);
    }
  }

  /** With `q` the cut of block `i`, every entry before it in the table lies before `k`. */
  lemma AllBeforeCut(file: Bytes, blocks: seq<DataBlock>, index: seq<KeyValue>, k: Bytes, i: nat, q: nat)
    requires BlocksOk(file, blocks) && (forall b :: b in blocks ==> b.layout.entries != []) && IndexOk(blocks, index, |blocks|)
    requires |k| >= 8 && i < |blocks| && AllBefore(blocks, index, k, i) && CutsAt(blocks[i].layout.entries, k, q)
    ensures StartOf(blocks, i) + q <= |AllEntries(blocks)|
    ensures forall p :: 0 <= p < StartOf(blocks, i) + q ==> |AllEntries(blocks)[p].0| >= 8 && KeyLess(AllEntries(blocks)[p].0, k)
  {
    hide KeyLess, BlocksOk, IndexOk, AllBefore, AllEntries;
    EntryAt(blocks, i);
    var es := AllEntries(blocks);
    forall p | 0 <= p < StartOf(blocks, i) + q
      ensures |es[p].0| >= 8 && KeyLess(es[p].0, k)
    {
      var j, r := EntryOwner(blocks, p);
      if j < i {
        EntryBefore(file, blocks, index, k, i, j, r);
      } else {
        if i < j {
          EntryAt(blocks, i);
          StartsAscend(blocks, i + 1, j);
        }
        assert j == i && r < q;
      }
    }
  }

  lemma FoundInBlock(file: Bytes, blocks: seq<DataBlock>, index: seq<KeyValue>, k: Bytes, i: nat, q: nat)
    requires BlocksOk(file, blocks) && (forall b :: b in blocks ==> b.layout.entries != []) && IndexOk(blocks, index, |blocks|)
    requires |k| >= 8 && i < |blocks| && AllBefore(blocks, index, k, i) && CutsAt(blocks[i].layout.entries, k, q)
    ensures q < |blocks[i].layout.entries| ==> Answers(AllEntries(blocks), k, Some(blocks[i].layout.entries[q]))
    ensures q < |blocks[i].layout.entries| && NoneHasUser(blocks[i].layout.entries, k) ==> Answers(AllEntries(blocks), k, None)
    ensures q == |blocks[i].layout.entries| ==> Answers(AllEntries(blocks), k, None)
  {
    hide KeyLess, BlocksOk, IndexOk, AllBefore, AllEntries;
    var es, start := AllEntries(blocks), StartOf(blocks, i) + q;
    AllBeforeCut(file, blocks, index, k, i, q);
    EntryAt(blocks, i);
    if q < |blocks[i].layout.entries| {
      assert es[start] == blocks[i].layout.entries[q];
      forall p: nat | IsFirstAtOrAfter(es, k, p)
        ensures p == start
      {
      }
    } else {
      assert start == StartOf(blocks, i + 1);
      if i + 1 < |blocks| {
        NextBlockHasOther(file, blocks, index, k, i);
      } else {
        assert blocks[..i + 1] == blocks;
      }
    }
  }

  /** A key after a block's last key and not after its index key is before the next block, with another user key. */
  lemma BehindSeparator(k: Bytes, last: Bytes, sep: Bytes, first: Bytes)
    requires |k| >= 8 && Separates(sep, last, first) && KeyLess(last, k) && !KeyLess(sep, k)
    ensures |first| >= 8 && !KeyLess(first, k) && UserOf(first) != UserOf(k)
  {
    BytesTotal(UserOf(k), UserOf(sep));
    if UserOf(k) != UserOf(sep) {
      BytesTransitive(UserOf(k), UserOf(sep), UserOf(first));
    }
    BytesTotal(UserOf(k), UserOf(first));
  }

  lemma OnlyFirst(es: seq<KeyValue>, k: Bytes, start: nat)
    requires |k| >= 8 && start < |es| && |es[start].0| >= 8 && !KeyLess(es[start].0, k) && UserOf(es[start].0) != UserOf(k)
    requires forall p :: 0 <= p < start ==> |es[p].0| >= 8 && KeyLess(es[p].0, k)
    ensures Answers(es, k, None)
  {
    hide KeyLess;
    forall p: nat | IsFirstAtOrAfter(es, k, p)
      ensures p == start
    {
    }
  }

  lemma IndexSeparates(blocks: seq<DataBlock>, index: seq<KeyValue>, i: nat)
    requires (forall b :: b in blocks ==> b.layout.entries != []) && IndexOk(blocks, index, |blocks|) && i + 1 < |blocks|
    ensures |index| == |blocks| && Separates(index[i].0, LastKey(blocks[i]), FirstKey(blocks[i + 1]))
  {
    hide Separates, KeyLess;
    assert IndexKeyOk(blocks, i, index[i].0);
  }

  /** If `k` lies behind all of block `i` but not behind its index key, the next entry has another user key. */
  lemma NextBlockHasOther(file: Bytes, blocks: seq<DataBlock>, index: seq<KeyValue>, k: Bytes, i: nat)
    requires BlocksOk(file, blocks) && (forall b :: b in blocks ==> b.layout.entries != []) && IndexOk(blocks, index, |blocks|)
    requires |k| >= 8 && i + 1 < |blocks| && AllBefore(blocks, index, k, i)
    requires CutsAt(blocks[i].layout.entries, k, |blocks[i].layout.entries|)
    ensures Answers(AllEntries(blocks), k, None)
  {
    hide BlocksOk, AllEntries, FirstKey, LastKey, KeyLess, IndexOk, Answers, Separates;
    var n := |blocks[i].layout.entries|;
    assert FirstKey(blocks[i + 1]) == blocks[i + 1].layout.entries[0].0 && LastKey(blocks[i]) == blocks[i].layout.entries[n - 1].0 by {
      Ends(blocks[i]);
      Ends(blocks[i + 1]);
    }
    AllBeforeCut(file, blocks, index, k, i, n);
    EntryAt(blocks, i);
    EntryAt(blocks, i + 1);
    IndexSeparates(blocks, index, i);
    BehindSeparator(k, LastKey(blocks[i]), index[i].0, FirstKey(blocks[i + 1]));
    OnlyFirst(AllEntries(blocks), k, StartOf(blocks, i + 1));
  }

  lemma Ends(b: DataBlock)
    requires b.layout.entries != []
    ensures FirstKey(b) == b.layout.entries[0].0 && LastKey(b) == b.layout.entries[|b.layout.entries| - 1].0
  {
  }

  lemma FilteredOut(file: Bytes, blocks: seq<DataBlock>, index: seq<KeyValue>, k: Bytes, i: nat)
    requires BlocksOk(file, blocks) && (forall b :: b in blocks ==> b.layout.entries != []) && IndexOk(blocks, index, |blocks|)
    requires |k| >= 8 && i < |blocks| && AllBefore(blocks, index, k, i) && NoneHasUser(blocks[i].layout.entries, k)
    ensures Answers(AllEntries(blocks), k, None)
  {
    hide BlocksOk, AllEntries, Answers, IndexOk, AllBefore, KeyLess, NoneHasUser;
    forall r | 0 <= r < |blocks[i].layout.entries|
      ensures |blocks[i].layout.entries[r].0| >= 8
    {
      BlockKeys(file, blocks, i, r);
    }
    var q := CutExists(blocks[i].layout.entries, k);
    FoundInBlock(file, blocks, index, k, i, q);
  }
}
