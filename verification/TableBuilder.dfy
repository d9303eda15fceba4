/** Writing a table (table/table_builder.cc): data blocks are cut by size, and the index entry of a block
    is held back until the next key is known. */
module TableBuilder {
  import opened Coding
  import opened KeyOrder
  import opened Table
  import B = Block
  import Crc
  import F = FilterBlock
  import Log

  /** What is known of a table under construction: its finished blocks, the entries of the current one,
      the index so far, and the user keys in the filters and in the one being collected. */
  datatype State = State(file: Bytes, blocks: seq<DataBlock>, current: seq<KeyValue>, index: seq<KeyValue>,
                         pending: bool, handle: BlockHandle, lastKey: Bytes, groups: seq<seq<Bytes>>, users: seq<Bytes>)

  ghost predicate Nonempty(blocks: seq<DataBlock>) {
    forall b :: b in blocks ==> b.layout.entries != []
  }

  /** The user keys of a block are in the filter of its offset, or will be. */
  ghost predicate Covered(b: DataBlock, groups: seq<seq<Bytes>>, users: seq<Bytes>) {
    && b.handle.offset / F.BASE <= |groups|
    && forall i :: 0 <= i < |b.layout.entries| ==>
         |b.layout.entries[i].0| >= 8 &&
         UserOf(b.layout.entries[i].0) in if b.handle.offset / F.BASE < |groups| then groups[b.handle.offset / F.BASE] else users
  }

  ghost predicate FiltersCover(s: State) {
    && |s.groups| == |s.file| / F.BASE
    && (forall b :: b in s.blocks ==> Covered(b, s.groups, s.users))
    && forall i :: 0 <= i < |s.current| ==> |s.current[i].0| >= 8 && UserOf(s.current[i].0) in s.users
  }

  ghost predicate KeysOk(s: State) {
    && KeysIncrease(AllEntries(s.blocks) + s.current)
    && (s.current != [] ==> s.lastKey == s.current[|s.current| - 1].0)
    && (s.current == [] && s.blocks != [] ==> s.pending)
  }

  /** An index entry is pending exactly when the last finished block has none; then the current block is empty. */
  ghost predicate IndexState(s: State)
    requires Nonempty(s.blocks)
  {
    if s.pending then
      && s.current == [] && s.blocks != []
      && s.handle == s.blocks[|s.blocks| - 1].handle && s.lastKey == LastKey(s.blocks[|s.blocks| - 1])
      && IndexOk(s.blocks, s.index, |s.blocks| - 1)
    else
      && IndexOk(s.blocks, s.index, |s.blocks|)
      && (s.blocks != [] && s.current != [] ==>
            Separates(s.index[|s.blocks| - 1].0, LastKey(s.blocks[|s.blocks| - 1]), s.current[0].0))
  }

  ghost predicate StateOk(s: State) {
    && Nonempty(s.blocks) && (forall i :: 0 <= i < |s.blocks| ==> BlockOk(s.file, s.blocks[i]))
    && KeysOk(s) && IndexState(s) && FiltersCover(s)
  }

  lemma {:induction false} AllEntriesSnoc(blocks: seq<DataBlock>, b: DataBlock)
    ensures AllEntries(blocks + [b]) == AllEntries(blocks) + b.layout.entries
  {
    assert (blocks + [b])[..|blocks|] == blocks;
  }

  /** Blocks stay where they are when the file grows. */
  lemma StoredGrows(file: Bytes, more: Bytes, h: BlockHandle, contents: Bytes)
    requires StoredAt(file, h, contents)
    ensures StoredAt(file + more, h, contents)
  {
    var grown := file + more;
    SliceOfAppend(file, more, h.offset, h.offset + h.size);
    SliceOfAppend(file, more, h.offset + h.size, h.offset + h.size + TRAILER_SIZE);
  }

  lemma SliceOfAppend(a: Bytes, b: Bytes, i: nat, j: nat)
    requires i <= j <= |a|
    ensures (a + b)[i..j] == a[i..j]
  {
    assert (a + b)[..|a|] == a;
  }

  lemma BlocksGrow(file: Bytes, more: Bytes, blocks: seq<DataBlock>)
    requires forall i :: 0 <= i < |blocks| ==> BlockOk(file, blocks[i])
    ensures forall i :: 0 <= i < |blocks| ==> BlockOk(file + more, blocks[i])
  {
    hide B.LayoutOk, StoredAt;
    forall i | 0 <= i < |blocks|
      ensures BlockOk(file + more, blocks[i])
    {
      assert BlockOk(file, blocks[i]);
      StoredGrows(file, more, blocks[i].handle, B.BlockOf(blocks[i].layout));
    }
  }

  lemma WrittenBlock(file: Bytes, contents: Bytes)
    ensures StoredAt(file + contents + Trailer(contents), BlockHandle(|file|, |contents|), contents)
  {
    hide Trailer;
    var f := file + contents + Trailer(contents);
    assert f[|file|..|file| + |contents|] == contents;
    assert f[|file| + |contents|..] == Trailer(contents);
  }

  lemma StillStored(before: Bytes, after: Bytes, h: BlockHandle, c: Bytes)
    requires before <= after && StoredAt(before, h, c)
    ensures StoredAt(after, h, c)
  {
    hide StoredAt;
    StoredGrows(before, after[|before|..], h, c);
    assert before + after[|before|..] == after;
  }

  lemma StoredStays(file: Bytes, more: Bytes)
    ensures forall h, c :: StoredAt(file, h, c) ==> StoredAt(file + more, h, c)
  {
    hide StoredAt;
    forall h, c | StoredAt(file, h, c)
      ensures StoredAt(file + more, h, c)
    {
      StoredGrows(file, more, h, c);
    }
  }

  /** Add, the index part: with the next key known, the pending entry gets its separator. */
  lemma IndexEntryKeepsState(s: State, sep: Bytes, key: Bytes)
    requires StateOk(s) && s.pending && |key| >= 8 && |s.lastKey| >= 8 && Separates(sep, s.lastKey, key)
    ensures var s' := s.(index := s.index + [(sep, EncodeHandle(s.handle))], pending := false);
            && IndexOk(s'.blocks, s'.index, |s'.blocks|)
            && Separates(s'.index[|s'.blocks| - 1].0, LastKey(s'.blocks[|s'.blocks| - 1]), key)
  {
    hide BlockOk, KeysOk, FiltersCover, KeyLess;
    var n := |s.blocks| - 1;
    var index := s.index + [(sep, EncodeHandle(s.handle))];
    forall i | 0 <= i <= n
      ensures index[i].1 == EncodeHandle(s.blocks[i].handle) && IndexKeyOk(s.blocks, i, index[i].0)
    {
      if i < n {
        assert index[i] == s.index[i];
      }
    }
  }

  /** The state in which a key goes to the filter and the current block. */
  ghost predicate ReadyFor(s: State, key: Bytes) {
    && Nonempty(s.blocks) && (forall i :: 0 <= i < |s.blocks| ==> BlockOk(s.file, s.blocks[i]))
    && KeysIncrease(AllEntries(s.blocks) + s.current) && FiltersCover(s) && !s.pending
    && |key| >= 8 && (AllEntries(s.blocks) + s.current != [] ==> |s.lastKey| >= 8 && KeyLess(s.lastKey, key))
    && (s.current != [] ==> s.lastKey == s.current[|s.current| - 1].0)
    && (s.current == [] && s.blocks != [] ==> s.lastKey == LastKey(s.blocks[|s.blocks| - 1]))
    && IndexOk(s.blocks, s.index, |s.blocks|)
    && (s.blocks != [] ==>
          Separates(s.index[|s.blocks| - 1].0, LastKey(s.blocks[|s.blocks| - 1]), if s.current == [] then key else s.current[0].0))
  }

  /** Add, the rest: the key goes to the filter and the current block. */
  lemma EntryKeepsState(s: State, key: Bytes, value: Bytes)
    requires ReadyFor(s, key)
    ensures StateOk(s.(current := s.current + [(key, value)], lastKey := key, users := s.users + [UserOf(key)]))
  {
    hide BlockOk, IndexOk, KeyLess, Separates, StoredAt, AllEntries, LastKey;
    var s' := s.(current := s.current + [(key, value)], lastKey := key, users := s.users + [UserOf(key)]);
    var all := AllEntries(s.blocks) + s.current;
    LastOfAll(s.blocks, s.current);
    IncreaseSnoc(all, key, value);
    assert AllEntries(s.blocks) + s'.current == all + [(key, value)];
    CoverGrows(s, s');
    assert s'.current[0] == if s.current == [] then (key, value) else s.current[0];
  }

  lemma LastOfAll(blocks: seq<DataBlock>, current: seq<KeyValue>)
    requires Nonempty(blocks)
    ensures var all := AllEntries(blocks) + current;
            && (current != [] ==> all != [] && all[|all| - 1] == current[|current| - 1])
            && (current == [] && blocks != [] ==> all != [] && all[|all| - 1].0 == LastKey(blocks[|blocks| - 1]))
            && (current == [] && blocks == [] ==> all == [])
  {
    if current == [] && blocks != [] {
      assert blocks[|blocks| - 1] in blocks;
    }
  }

  lemma IncreaseSnoc(es: seq<KeyValue>, key: Bytes, value: Bytes)
    requires KeysIncrease(es) && |key| >= 8 && (es != [] ==> |es[|es| - 1].0| >= 8 && KeyLess(es[|es| - 1].0, key))
    ensures KeysIncrease(es + [(key, value)])
  {
    hide KeyLess;
    var more := es + [(key, value)];
    forall i, j | 0 <= i < j < |more|
      ensures KeyLess(more[i].0, more[j].0)
    {
      if j == |es| {
        KeysAt(es, i, |es| - 1);
        KeyChain(es[i].0, es[|es| - 1].0, key);
      }
    }
  }

  lemma CoverGrows(s: State, s': State)
    requires FiltersCover(s) && s'.file == s.file && s'.blocks == s.blocks && s'.groups == s.groups && s.users <= s'.users
    requires |s'.current| == |s.current| + 1 && s.current <= s'.current
    requires var key := s'.current[|s.current|].0; |key| >= 8 && UserOf(key) in s'.users
    ensures FiltersCover(s')
  {
    forall b | b in s'.blocks
      ensures Covered(b, s'.groups, s'.users)
    {
      assert Covered(b, s.groups, s.users);
    }
  }

  /** Flush: the current block becomes a finished one, and its index entry is pending. */
  lemma FlushKeepsState(s: State, layout: B.Layout, groups: seq<seq<Bytes>>, users: seq<Bytes>)
    requires StateOk(s) && s.current != [] && B.LayoutOk(layout) && layout.entries == s.current
    requires |s.file| < U64 && |B.BlockOf(layout)| < U64
    requires var file := s.file + B.BlockOf(layout) + Trailer(B.BlockOf(layout));
             && |groups| == |file| / F.BASE
             && (if |s.groups| == |groups| then groups == s.groups && users == s.users
                 else users == [] && s.groups + [s.users] <= groups)
    ensures var contents := B.BlockOf(layout);
            var handle := BlockHandle(|s.file|, |contents|);
            StateOk(s.(file := s.file + contents + Trailer(contents), blocks := s.blocks + [DataBlock(handle, layout)],
                       current := [], pending := true, handle := handle, groups := groups, users := users))
  {
    hide B.LayoutOk, B.BlockOf, StoredAt, Trailer, KeyLess, Separates, KeysIncrease, AllEntries;
    var contents := B.BlockOf(layout);
    var handle := BlockHandle(|s.file|, |contents|);
    var b := DataBlock(handle, layout);
    var file := s.file + contents + Trailer(contents);
    var blocks := s.blocks + [b];
    WrittenBlock(s.file, contents);
    assert file == s.file + (contents + Trailer(contents));
    BlocksGrow(s.file, contents + Trailer(contents), s.blocks);
    AllEntriesSnoc(s.blocks, b);
    assert AllEntries(blocks) + [] == AllEntries(s.blocks) + s.current;
    FlushCovers(s, b, groups, users);
    IndexGrows(s, b);
  }

  lemma FlushCovers(s: State, b: DataBlock, groups: seq<seq<Bytes>>, users: seq<Bytes>)
    requires FiltersCover(s) && b.handle.offset == |s.file| && b.layout.entries == s.current
    requires if |s.groups| == |groups| then groups == s.groups && users == s.users else users == [] && s.groups + [s.users] <= groups
    ensures forall x :: x in s.blocks + [b] ==> Covered(x, groups, users)
  {
    assert |s.groups| < |groups| ==> groups[|s.groups|] == s.users && forall i :: 0 <= i < |s.groups| ==> groups[i] == s.groups[i];
    forall x | x in s.blocks + [b]
      ensures Covered(x, groups, users)
    {
      if x in s.blocks {
        assert Covered(x, s.groups, s.users);
      }
    }
  }

  lemma IndexGrows(s: State, b: DataBlock)
    requires Nonempty(s.blocks) && IndexState(s) && s.current != [] && b.layout.entries == s.current
    ensures Nonempty(s.blocks + [b]) && IndexOk(s.blocks + [b], s.index, |s.blocks|)
  {
    hide KeyLess, Separates;
    var blocks := s.blocks + [b];
    forall i | 0 <= i < |s.blocks|
      ensures s.index[i].1 == EncodeHandle(blocks[i].handle) && IndexKeyOk(blocks, i, s.index[i].0)
    {
      assert IndexKeyOk(s.blocks, i, s.index[i].0);
      assert blocks[i] == s.blocks[i];
      assert i + 1 < |blocks| ==> blocks[i + 1] == if i + 1 < |s.blocks| then s.blocks[i + 1] else b;
    }
  }

  class TableBuilder {
    const blockSize: nat
    const restartInterval: nat
    /** The name of the filter policy. */
    const filterName: Bytes
    /** The file written so far; its length is r->offset. */
    var file: Bytes
    var dataBlock: B.BlockBuilder
    var indexBlock: B.BlockBuilder
    var filterBlock: F.FilterBlockBuilder
    var lastKey: Bytes
    var numEntries: nat
    var pendingIndexEntry: bool
    var pendingHandle: BlockHandle
    ghost var blocks: seq<DataBlock>

    ghost predicate Parts()
      reads this, dataBlock, indexBlock, filterBlock
    {
      && 1 <= restartInterval && dataBlock.restartInterval == restartInterval && dataBlock != indexBlock
      && dataBlock.Valid() && indexBlock.Valid() && filterBlock.Valid()
    }

    ghost function Current(): State
      requires Parts()
      reads this, dataBlock, indexBlock, filterBlock
    {
      State(file, blocks, dataBlock.layout.entries, indexBlock.layout.entries, pendingIndexEntry, pendingHandle, lastKey,
            filterBlock.groups, F.Users(filterBlock.pending))
    }

    ghost predicate Valid()
      reads this, dataBlock, indexBlock, filterBlock
    {
      && Parts() && StateOk(Current())
      && (numEntries == 0 <==> Added() == [])
    }

    /** All entries added so far. */
    ghost function Added(): seq<KeyValue>
      requires Parts()
      reads this, dataBlock, indexBlock, filterBlock
    {
      AllEntries(blocks) + dataBlock.layout.entries
    }

    constructor (blockSize: nat, restartInterval: nat, policy: F.Policy, filterName: Bytes)
      requires 1 <= restartInterval && F.PolicyOk(policy)
      ensures Valid() && Added() == [] && fresh(dataBlock) && fresh(indexBlock) && fresh(filterBlock)
      ensures filterBlock.policy == policy && this.filterName == filterName
    {
      hide StateOk, B.BlockBuilder.Valid, F.FilterBlockBuilder.Valid, AllEntries, F.Users, B.LayoutOk;
      this.blockSize, this.restartInterval, this.filterName := blockSize, restartInterval, filterName;
      file, lastKey, numEntries, pendingIndexEntry, pendingHandle := [], [], 0, false, BlockHandle(0, 0);
      dataBlock := new B.BlockBuilder(restartInterval);
      indexBlock := new B.BlockBuilder(1);
      filterBlock := new F.FilterBlockBuilder(policy);
      blocks := [];
      new;
      StartsOk();
      NothingAdded();
      assert F.Users([]) == [];
      assert Current() == State([], [], [], [], false, BlockHandle(0, 0), [], [], []);
    }

    /** What keeps the sizes of blocks and file within their widths. */
    ghost predicate RoomFor(key: Bytes, value: Bytes)
      reads this, dataBlock, indexBlock
    {
      && dataBlock.CurrentSizeEstimate() + |key| + |value| + 19 < U32
      && indexBlock.CurrentSizeEstimate() + |lastKey| + |key| + 80 < U32
      && |file| + dataBlock.CurrentSizeEstimate() + |key| + |value| + 24 < U64
    }

    /** With the next key known, a pending index entry is written. */
    method WritePending(key: Bytes)
      requires Valid() && |key| >= 8 && indexBlock.CurrentSizeEstimate() + |lastKey| + 40 < U32
      requires Added() != [] ==> |lastKey| >= 8 && KeyLess(lastKey, key)
      modifies `pendingIndexEntry, indexBlock
      ensures Parts() && Current() == old(Current()).(index := Current().index, pending := false) && ReadyFor(Current(), key)
    {
      hide StateOk, KeyLess, Separates, B.BlockBuilder.Valid, F.FilterBlockBuilder.Valid, AllEntries, EncodeHandle, ReadyFor, IndexOk, BlockOk;
      ghost var s := Current();
      if pendingIndexEntry {
        PendingParts(s);
        var separator := FindInternalSeparator(lastKey, key);
        HandleRoundTrip(pendingHandle, []);
        indexBlock.Add(separator, EncodeHandle(pendingHandle));
        pendingIndexEntry := false;
        PendingIsReady(s, separator, key);
      } else {
        NotPendingIsReady(s, key);
      }
    }

    /** The filter and the current block take the key. */
    method AppendEntry(key: Bytes, value: Bytes)
      requires Parts() && |key| >= 8 && ReadyFor(Current(), key) && dataBlock.CurrentSizeEstimate() + |key| + |value| + 19 < U32
      modifies this, dataBlock, filterBlock
      ensures Valid() && Added() == old(Added()) + [(key, value)] && lastKey == key && dataBlock.layout.entries != []
      ensures dataBlock == old(dataBlock) && indexBlock == old(indexBlock) && filterBlock == old(filterBlock)
      ensures file == old(file)
      ensures dataBlock.CurrentSizeEstimate() <= old(dataBlock.CurrentSizeEstimate()) + |key| + |value| + 19
    {
      hide StateOk, KeyLess, Separates, B.BlockBuilder.Valid, F.FilterBlockBuilder.Valid, AllEntries, ReadyFor, F.Users;
      ghost var s := Current();
      EntryKeepsState(s, key, value);
      UsersSnoc(filterBlock.pending, key);
      filterBlock.AddKey(key);
      lastKey := key;
      numEntries := numEntries + 1;
      dataBlock.Add(key, value);
      assert Current() == s.(current := s.current + [(key, value)], lastKey := key, users := s.users + [UserOf(key)]);
    }

    method Add(key: Bytes, value: Bytes)
      requires Valid() && |key| >= 8 && RoomFor(key, value)
      requires Added() != [] ==> |lastKey| >= 8 && KeyLess(lastKey, key)
      modifies this, dataBlock, indexBlock, filterBlock
      ensures Valid() && Added() == old(Added()) + [(key, value)] && lastKey == key
      ensures fresh({dataBlock} - {old(dataBlock)}) && indexBlock == old(indexBlock) && filterBlock == old(filterBlock)
    {
      hide Valid, KeyLess, B.BlockBuilder.Valid, F.FilterBlockBuilder.Valid, AllEntries;
      WritePending(key);
      AppendEntry(key, value);
      var estimatedBlockSize := dataBlock.CurrentSizeEstimate();
      if estimatedBlockSize >= blockSize {
        Flush();
      }
    }

    /** What keeps the sizes of a finished table within their widths. */
    ghost predicate Finishable()
      reads this, dataBlock, indexBlock, filterBlock
    {
      var size := |file| + dataBlock.CurrentSizeEstimate() + TRAILER_SIZE;
      && size + 4 * U32 < U64 && filterBlock.FinishedSize() + 4 * (size / F.BASE) < U32
      && indexBlock.CurrentSizeEstimate() + |lastKey| + 40 < U32 && |filterName| + 60 < U32
    }

    lemma FinishSizes()
      requires Finishable()
      ensures var size := |file| + dataBlock.CurrentSizeEstimate() + TRAILER_SIZE;
              size + 4 * U32 < U64 && filterBlock.FinishedSize() + 4 * (size / F.BASE) < U32
      ensures indexBlock.CurrentSizeEstimate() + |lastKey| + 40 < U32 && |filterName| + 60 < U32
    {
    }

    /** Finish: the last block, the filter, the metaindex, the index, and the footer that leads to them. */
    method Finish() returns (ghost parts: TableParts)
      requires Valid() && Finishable()
      modifies this, indexBlock, filterBlock
      ensures Finished(file, filterName, filterBlock.policy, parts)
      ensures parts.blocks == blocks && AllEntries(blocks) == old(Added())
      ensures filterBlock == old(filterBlock)
    {
      hide StateOk, B.BlockBuilder.Valid, F.FilterBlockBuilder.Valid, AllEntries, B.LayoutOk, B.BlockOf, Trailer, F.FiltersOk, F.PolicyOk, F.Image,
           BlocksOk, IndexOk, StoredAt, FilterCovers, EncodeHandle, FilterKey, EncodeFooter, F.Users, Nonempty, Finished, HandlesOk, Finishable;
      FinishSizes();
      ghost var size, filterSize := |file| + dataBlock.CurrentSizeEstimate() + TRAILER_SIZE, filterBlock.FinishedSize();
      Flush();
      ghost var s := Current();
      FilterFits(size, |file|, filterSize, filterBlock.FinishedSize());
      assert AllEntries(blocks) + dataBlock.layout.entries == AllEntries(blocks);
      var filterHandle := WriteFilter(s);
      ghost var withFilter := file;
      var metaHandle: BlockHandle;
      ghost var meta: B.Layout;
      metaHandle, meta := WriteMetaIndex(filterHandle);
      ghost var withMeta := file;
      var indexHandle := WriteIndexBlock(s);
      ghost var withIndex := file;
      WriteFooter(metaHandle, indexHandle);
      parts := TableParts(blocks, indexBlock.layout, meta, metaHandle, indexHandle, filterHandle, filterBlock.filters, filterBlock.groups);
      HandlesFit(parts);
      FileFinished(s, withFilter, withMeta, withIndex, file, filterName, filterBlock.policy, parts);
    }

    method WriteFilter(ghost s: State) returns (handle: BlockHandle)
      requires filterBlock.Valid() && StateOk(s) && s.groups == filterBlock.groups && s.users == F.Users(filterBlock.pending)
      modifies `file, filterBlock
      ensures old(file) <= file && |file| == |old(file)| + handle.size + TRAILER_SIZE
      ensures handle == BlockHandle(|old(file)|, |F.Image(filterBlock.filters)|) && handle.size == old(filterBlock.FinishedSize())
      ensures StoredAt(file, handle, F.Image(filterBlock.filters))
      ensures F.PolicyOk(filterBlock.policy) && F.FiltersOk(filterBlock.policy, filterBlock.filters, filterBlock.groups)
      ensures forall b :: b in s.blocks ==> FilterCovers(b, filterBlock.groups)
    {
      hide StateOk, F.FilterBlockBuilder.Valid, Trailer, F.FiltersOk, F.PolicyOk, F.Image, StoredAt, FilterCovers, F.Users;
      var contents := filterBlock.Finish();
      FiltersComplete(s, filterBlock.groups);
      handle := WriteRawBlock(contents);
      filterBlock.PolicyIsOk();
    }

    /** The metaindex block: mapping from "filter.Name" to location of filter data. */
    method WriteMetaIndex(filterHandle: BlockHandle) returns (metaHandle: BlockHandle, ghost meta: B.Layout)
      requires 1 <= restartInterval && |filterName| + 60 < U32 && filterHandle.offset < U64 && filterHandle.size < U64
      modifies `file
      ensures B.LayoutOk(meta) && meta.entries == [(FilterKey(filterName), EncodeHandle(filterHandle))]
      ensures old(file) <= file && |file| < |old(file)| + U32 + TRAILER_SIZE
      ensures metaHandle.offset == |old(file)| && metaHandle.size < U32 && StoredAt(file, metaHandle, B.BlockOf(meta))
    {
      hide B.BlockBuilder.Valid, B.LayoutOk, B.BlockOf, Trailer, StoredAt, EncodeHandle, FilterKey;
      var builder := new B.BlockBuilder(restartInterval);
      HandleRoundTrip(filterHandle, []);
      builder.Add(FilterKey(filterName), EncodeHandle(filterHandle));
      meta := builder.layout;
      var contents := builder.Finish();
      metaHandle := WriteRawBlock(contents);
    }

    /** WriteRawBlock: the block, its type, and the masked checksum of both. */
    method WriteRawBlock(contents: Bytes) returns (handle: BlockHandle)
      modifies `file
      ensures file == old(file) + contents + Trailer(contents) && |file| == |old(file)| + |contents| + TRAILER_SIZE
      ensures old(file) <= file && handle == BlockHandle(|old(file)|, |contents|)
      ensures StoredAt(file, handle, contents) && forall h, c :: StoredAt(old(file), h, c) ==> StoredAt(file, h, c)
    {
      hide Crc.Value, Crc.Extend, Crc.Mask, StoredAt, Log.AsBits, Fixed;
      ghost var before := file;
      handle := BlockHandle(|file|, |contents|);
      file := file + contents;
      var crc := Crc.Value(Log.AsBits(contents));
      // Extend crc to cover block type
      crc := Crc.Extend(crc, Log.AsBits([NO_COMPRESSION]));
      Log.ExtendInTurn(contents, [NO_COMPRESSION]);
      file := file + ([NO_COMPRESSION] + Fixed(Crc.Mask(crc).bits as nat, 4));
      WrittenBlock(before, contents);
      StoredStays(before, contents + Trailer(contents));
      assert before + contents + Trailer(contents) == before + (contents + Trailer(contents));
    }

    method FinishIndex(ghost s: State)
      requires StateOk(s) && s.current == [] && s.blocks == blocks && s.index == indexBlock.layout.entries
      requires s.pending == pendingIndexEntry && s.handle == pendingHandle && s.lastKey == lastKey
      requires indexBlock.Valid() && indexBlock.CurrentSizeEstimate() + |lastKey| + 40 < U32
      modifies `pendingIndexEntry, indexBlock
      ensures Nonempty(blocks) && IndexOk(blocks, indexBlock.layout.entries, |blocks|)
      ensures indexBlock.Valid() && indexBlock.CurrentSizeEstimate() < U32
    {
      hide StateOk, KeyLess, B.BlockBuilder.Valid, AllEntries, EncodeHandle, IndexOk, BlockOk;
      if pendingIndexEntry {
        PendingParts(s);
        var successor := FindInternalSuccessor(lastKey);
        HandleRoundTrip(pendingHandle, []);
        indexBlock.Add(successor, EncodeHandle(pendingHandle));
        pendingIndexEntry := false;
        LastIndexEntry(s, successor);
      } else {
        NoBlocksNoIndex(s);
      }
    }

    method WriteIndexBlock(ghost s: State) returns (indexHandle: BlockHandle)
      requires StateOk(s) && s.current == [] && s.blocks == blocks && s.index == indexBlock.layout.entries
      requires s.pending == pendingIndexEntry && s.handle == pendingHandle && s.lastKey == lastKey
      requires indexBlock.Valid() && indexBlock.CurrentSizeEstimate() + |lastKey| + 40 < U32
      modifies `file, `pendingIndexEntry, indexBlock
      ensures Nonempty(blocks) && IndexOk(blocks, indexBlock.layout.entries, |blocks|)
      ensures B.LayoutOk(indexBlock.layout) && StoredAt(file, indexHandle, B.BlockOf(indexBlock.layout))
      ensures old(file) <= file && indexHandle.offset == |old(file)| && indexHandle.size < U32
    {
      hide StateOk, B.BlockBuilder.Valid, IndexOk, B.LayoutOk, B.BlockOf, Trailer, StoredAt;
      FinishIndex(s);
      var contents := indexBlock.Finish();
      indexHandle := WriteRawBlock(contents);
    }

    method WriteFooter(metaHandle: BlockHandle, indexHandle: BlockHandle)
      modifies `file
      ensures old(file) <= file && |file| >= FOOTER_SIZE && file[|file| - FOOTER_SIZE..] == EncodeFooter(metaHandle, indexHandle)
    {
      hide EncodeFooter;
      file := file + EncodeFooter(metaHandle, indexHandle);
    }

    /** Flush: write the current block, if it holds anything. */
    method Flush()
      requires Valid() && |file| + dataBlock.CurrentSizeEstimate() + 5 < U64
      modifies this, filterBlock
      ensures Valid() && Added() == old(Added()) && lastKey == old(lastKey)
      ensures fresh({dataBlock} - {old(dataBlock)}) && indexBlock == old(indexBlock) && filterBlock == old(filterBlock)
      ensures dataBlock.layout.entries == []
      ensures |file| <= old(|file| + dataBlock.CurrentSizeEstimate()) + TRAILER_SIZE
      ensures filterBlock.FinishedSize() <= old(filterBlock.FinishedSize()) + 4 * (|file| / F.BASE)
      ensures indexBlock.CurrentSizeEstimate() == old(indexBlock.CurrentSizeEstimate())
    {
      hide StateOk, B.BlockBuilder.Valid, F.FilterBlockBuilder.Valid, AllEntries, B.LayoutOk, B.BlockOf, Trailer, StoredAt, F.Users,
           BlockOk, KeyLess, EncodeHandle;
      var empty := dataBlock.Empty();
      if empty {
        return;
      }
      ghost var s := Current();
      ghost var layout := WriteDataBlock();
      StateParts(s);
      filterBlock.StartBlock(|file|);
      FlushKeepsState(s, layout, filterBlock.groups, F.Users(filterBlock.pending));
      AllEntriesSnoc(s.blocks, DataBlock(pendingHandle, layout));
    }

    /** WriteBlock for the current data block, which starts afresh. */
    method WriteDataBlock() returns (ghost layout: B.Layout)
      requires Parts()
      modifies this
      ensures Parts() && B.LayoutOk(layout) && layout.entries == old(dataBlock.layout.entries)
      ensures var contents := B.BlockOf(layout);
              && |contents| == old(dataBlock.CurrentSizeEstimate()) && file == old(file) + contents + Trailer(contents)
              && pendingHandle == BlockHandle(|old(file)|, |contents|)
      ensures |file| == |old(file)| + old(dataBlock.CurrentSizeEstimate()) + TRAILER_SIZE
      ensures blocks == old(blocks) + [DataBlock(pendingHandle, layout)] && pendingIndexEntry && dataBlock.layout.entries == []
      ensures fresh(dataBlock) && indexBlock == old(indexBlock) && filterBlock == old(filterBlock)
      ensures lastKey == old(lastKey) && numEntries == old(numEntries)
    {
      hide B.BlockBuilder.Valid, F.FilterBlockBuilder.Valid, B.LayoutOk, B.BlockOf, Trailer, StoredAt;
      layout := dataBlock.layout;
      var contents := dataBlock.Finish();
      pendingHandle := WriteRawBlock(contents);
      dataBlock := new B.BlockBuilder(restartInterval);
      pendingIndexEntry := true;
      blocks := blocks + [DataBlock(pendingHandle, layout)];
    }
  }

  /** "filter." */
  const FILTER_PREFIX: Bytes := [102, 105, 108, 116, 101, 114, 46]

  /** The key that the metaindex block keeps the filter's handle under. */
  function FilterKey(name: Bytes): (key: Bytes)
    ensures |key| == |name| + 7
  {
    FILTER_PREFIX + name
  }

  /** What a finished table consists of, and where it stands. */
  datatype TableParts = TableParts(blocks: seq<DataBlock>, index: B.Layout, meta: B.Layout, metaHandle: BlockHandle, indexHandle: BlockHandle,
                         filterHandle: BlockHandle, filters: seq<Bytes>, groups: seq<seq<Bytes>>)

  ghost predicate HandlesOk(parts: TableParts) {
    && parts.metaHandle.offset < U64 && parts.metaHandle.size < U64
    && parts.indexHandle.offset < U64 && parts.indexHandle.size < U64
    && parts.filterHandle.offset < U64 && parts.filterHandle.size < U64
  }

  /** A finished table file: from its last bytes everything is found. */
  ghost predicate Finished(file: Bytes, name: Bytes, policy: F.Policy, parts: TableParts) {
    && HandlesOk(parts) && |file| >= FOOTER_SIZE
    && file[|file| - FOOTER_SIZE..] == EncodeFooter(parts.metaHandle, parts.indexHandle)
    && B.LayoutOk(parts.meta) && StoredAt(file, parts.metaHandle, B.BlockOf(parts.meta))
    && parts.meta.entries == [(FilterKey(name), EncodeHandle(parts.filterHandle))]
    && F.PolicyOk(policy) && F.FiltersOk(policy, parts.filters, parts.groups)
    && StoredAt(file, parts.filterHandle, F.Image(parts.filters)) && |F.Image(parts.filters)| < U32
    && B.LayoutOk(parts.index) && StoredAt(file, parts.indexHandle, B.BlockOf(parts.index))
    && Nonempty(parts.blocks) && BlocksOk(file, parts.blocks) && IndexOk(parts.blocks, parts.index.entries, |parts.blocks|)
    && forall b :: b in parts.blocks ==> FilterCovers(b, parts.groups)
  }

  /** Table::Open: what was finished is opened from the bytes of the file alone. */
  method Open(file: Bytes, name: Bytes, policy: F.Policy, paranoid: bool, ghost parts: TableParts) returns (table: Table?)
    requires Finished(file, name, policy, parts)
    ensures table != null && table.Valid() && table.blocks == parts.blocks && table.filter != null
  {
    hide BlocksOk, B.LayoutOk, B.BlockOf, StoredAt, IndexOk, F.PolicyOk, F.FiltersOk, F.Image, FilterCovers, EncodeFooter, DecodeFooter,
         EncodeHandle, F.FilterBlockReader.Valid, FilterKey;
    table := null;
    if |file| >= FOOTER_SIZE {
      FooterRoundTrip(parts.metaHandle, parts.indexHandle);
      var footer := DecodeFooter(file[|file| - FOOTER_SIZE..]);
      if footer.Some? {
        // Read the index block
        var contents := ReadBlock(file, footer.value.1, paranoid);
        if contents.Some? {
          // We're ready to serve requests.
          var filter := ReadMeta(file, footer.value.0, name, policy, paranoid, parts);
          table := new Table(file, contents.value, filter, parts.blocks, parts.index, parts.groups);
        }
      }
    }
  }

  method ReadMeta(file: Bytes, metaHandle: BlockHandle, name: Bytes, policy: F.Policy, paranoid: bool, ghost parts: TableParts) returns (filter: F.FilterBlockReader?)
    requires Finished(file, name, policy, parts) && metaHandle == parts.metaHandle
    ensures filter != null && filter.Valid() && filter.policy == policy && filter.filters == parts.filters
  {
    hide BlocksOk, B.LayoutOk, B.BlockOf, StoredAt, IndexOk, F.PolicyOk, F.FiltersOk, F.Image, FilterCovers, EncodeFooter,
         EncodeHandle, F.FilterBlockReader.Valid, FilterKey, BytesRank, B.Iter.Ok;
    filter := null;
    var contents := ReadBlock(file, metaHandle, paranoid);
    if contents.Some? {
      var key := FilterKey(name);
      var iter := new B.Iter(contents.value, BytesRank, parts.meta);
      iter.Seek(key);
      iter.Here();
      assert parts.meta.entries[0] == (key, EncodeHandle(parts.filterHandle));
      assert iter.at == 0;
      if iter.Valid() && iter.key == key {
        filter := ReadFilter(file, iter.data[iter.valueStart..iter.valueEnd], policy, paranoid, parts.filterHandle, parts.filters);
      }
    }
  }

  method ReadFilter(file: Bytes, handleValue: Bytes, policy: F.Policy, paranoid: bool, ghost h: BlockHandle, ghost filters: seq<Bytes>) returns (filter: F.FilterBlockReader?)
    requires handleValue == EncodeHandle(h) && h.offset < U64 && h.size < U64
    requires StoredAt(file, h, F.Image(filters)) && |F.Image(filters)| < U32 && F.PolicyOk(policy)
    ensures filter != null && filter.Valid() && filter.policy == policy && filter.filters == filters
  {
    hide StoredAt, F.Image, F.PolicyOk, EncodeHandle, DecodeHandle, F.FilterBlockReader.Valid;
    filter := null;
    HandleRoundTrip(h, []);
    assert handleValue + [] == handleValue;
    var handle := DecodeHandle(handleValue);
    if handle.Got? {
      var block := ReadBlock(file, handle.value, paranoid);
      if block.Some? {
        filter := new F.FilterBlockReader(policy, block.value, filters);
      }
    }
  }

  /** The last index entry: a short successor of the last key will do. */
  lemma LastIndexEntry(s: State, successor: Bytes)
    requires StateOk(s) && s.pending && |successor| >= 8 && |s.lastKey| >= 8
    requires successor == s.lastKey || (KeyLess(s.lastKey, successor) && TagOf(successor) == MAX_TAG)
    ensures Nonempty(s.blocks) && IndexOk(s.blocks, s.index + [(successor, EncodeHandle(s.handle))], |s.blocks|)
  {
    hide BlockOk, KeysOk, FiltersCover, KeyLess, EncodeHandle;
    var n := |s.blocks| - 1;
    var index := s.index + [(successor, EncodeHandle(s.handle))];
    forall i | 0 <= i <= n
      ensures index[i].1 == EncodeHandle(s.blocks[i].handle) && IndexKeyOk(s.blocks, i, index[i].0)
    {
      if i < n {
        assert index[i] == s.index[i];
      }
    }
  }

  lemma NoBlocksNoIndex(s: State)
    requires StateOk(s) && !s.pending && s.current == []
    ensures Nonempty(s.blocks) && IndexOk(s.blocks, s.index, |s.blocks|)
  {
    hide BlockOk, FiltersCover, KeysIncrease;
  }

  /** With the last filter generated, the filter of every block's offset holds its user keys. */
  lemma FiltersComplete(s: State, groups: seq<seq<Bytes>>)
    requires StateOk(s)
    requires groups == s.groups + if s.users == [] then [] else [s.users]
    ensures forall b :: b in s.blocks ==> FilterCovers(b, groups)
  {
    hide BlockOk, KeysOk, IndexState;
    forall b | b in s.blocks
      ensures FilterCovers(b, groups)
    {
      assert Covered(b, s.groups, s.users);
      assert UserOf(b.layout.entries[0].0) in if b.handle.offset / F.BASE < |s.groups| then s.groups[b.handle.offset / F.BASE] else s.users;
    }
  }

  lemma FilterFits(size: nat, length: nat, before: nat, after: nat)
    requires length <= size && after <= before + 4 * (length / F.BASE) && before + 4 * (size / F.BASE) < U32
    ensures after < U32
  {
  }

  lemma HandlesFit(parts: TableParts)
    requires parts.metaHandle.offset < U64 && parts.metaHandle.size < U64 && parts.indexHandle.offset < U64 && parts.indexHandle.size < U64
    requires parts.filterHandle.offset < U64 && parts.filterHandle.size < U64
    ensures HandlesOk(parts)
  {
  }

  /** Written one behind the other, the parts make up a finished file. */
  lemma FileFinished(s: State, withFilter: Bytes, withMeta: Bytes, withIndex: Bytes, file: Bytes, name: Bytes, policy: F.Policy, parts: TableParts)
    requires StateOk(s) && s.current == [] && s.blocks == parts.blocks && HandlesOk(parts)
    requires s.file <= withFilter <= withMeta <= withIndex <= file
    requires StoredAt(withFilter, parts.filterHandle, F.Image(parts.filters)) && |F.Image(parts.filters)| < U32
    requires F.PolicyOk(policy) && F.FiltersOk(policy, parts.filters, parts.groups) && forall b :: b in s.blocks ==> FilterCovers(b, parts.groups)
    requires B.LayoutOk(parts.meta) && parts.meta.entries == [(FilterKey(name), EncodeHandle(parts.filterHandle))]
    requires StoredAt(withMeta, parts.metaHandle, B.BlockOf(parts.meta))
    requires B.LayoutOk(parts.index) && Nonempty(parts.blocks) && IndexOk(parts.blocks, parts.index.entries, |parts.blocks|)
    requires StoredAt(withIndex, parts.indexHandle, B.BlockOf(parts.index))
    requires |file| >= FOOTER_SIZE && file[|file| - FOOTER_SIZE..] == EncodeFooter(parts.metaHandle, parts.indexHandle)
    ensures Finished(file, name, policy, parts)
  {
    hide *;
    StillStored(withFilter, file, parts.filterHandle, F.Image(parts.filters));
    StillStored(withMeta, file, parts.metaHandle, B.BlockOf(parts.meta));
    StillStored(withIndex, file, parts.indexHandle, B.BlockOf(parts.index));
    FinishedBlocks(s, file[|s.file|..]);
    assert file == s.file + file[|s.file|..];
    TogetherFinished(file, name, policy, parts);
  }

  lemma TogetherFinished(file: Bytes, name: Bytes, policy: F.Policy, parts: TableParts)
    requires HandlesOk(parts) && |file| >= FOOTER_SIZE && file[|file| - FOOTER_SIZE..] == EncodeFooter(parts.metaHandle, parts.indexHandle)
    requires B.LayoutOk(parts.meta) && StoredAt(file, parts.metaHandle, B.BlockOf(parts.meta))
    requires parts.meta.entries == [(FilterKey(name), EncodeHandle(parts.filterHandle))]
    requires F.PolicyOk(policy) && F.FiltersOk(policy, parts.filters, parts.groups)
    requires StoredAt(file, parts.filterHandle, F.Image(parts.filters)) && |F.Image(parts.filters)| < U32
    requires B.LayoutOk(parts.index) && StoredAt(file, parts.indexHandle, B.BlockOf(parts.index))
    requires Nonempty(parts.blocks) && BlocksOk(file, parts.blocks) && IndexOk(parts.blocks, parts.index.entries, |parts.blocks|)
    requires forall b :: b in parts.blocks ==> FilterCovers(b, parts.groups)
    ensures Finished(file, name, policy, parts)
  {
    hide B.LayoutOk, B.BlockOf, F.FiltersOk, F.PolicyOk, F.Image, BlocksOk, IndexOk, StoredAt, FilterCovers, EncodeHandle, FilterKey, EncodeFooter, HandlesOk, Nonempty;
  }

  lemma FinishedBlocks(s: State, more: Bytes)
    requires StateOk(s) && s.current == []
    ensures BlocksOk(s.file + more, s.blocks)
  {
    hide BlockOk, KeysIncrease, AllEntries, IndexState, FiltersCover;
    BlocksGrow(s.file, more, s.blocks);
    assert AllEntries(s.blocks) + s.current == AllEntries(s.blocks);
  }

  lemma StateParts(s: State)
    requires StateOk(s)
    ensures Nonempty(s.blocks) && (forall i :: 0 <= i < |s.blocks| ==> BlockOk(s.file, s.blocks[i]))
    ensures KeysIncrease(AllEntries(s.blocks) + s.current) && FiltersCover(s) && |s.groups| == |s.file| / F.BASE
    ensures s.current != [] ==> s.lastKey == s.current[|s.current| - 1].0
    ensures AllEntries(s.blocks) + s.current == [] ==> s.blocks == []
  {
    hide BlockOk, KeysIncrease, IndexState;
    LastOfAll(s.blocks, s.current);
  }

  lemma PendingParts(s: State)
    requires StateOk(s) && s.pending
    ensures s.current == [] && s.blocks != [] && AllEntries(s.blocks) + s.current != []
    ensures s.lastKey == LastKey(s.blocks[|s.blocks| - 1]) && |s.lastKey| >= 8
    ensures s.handle.offset < U64 && s.handle.size < U64
  {
    hide KeysIncrease, StoredAt, B.LayoutOk, IndexOk, Covered;
    LastOfAll(s.blocks, s.current);
    assert BlockOk(s.file, s.blocks[|s.blocks| - 1]);
    LastKeyLong(s);
  }

  lemma LastKeyLong(s: State)
    requires Nonempty(s.blocks) && s.current == [] && s.blocks != [] && KeysIncrease(AllEntries(s.blocks) + s.current)
    ensures |LastKey(s.blocks[|s.blocks| - 1])| >= 8
  {
    hide KeyLess;
    LastOfAll(s.blocks, s.current);
    assert s.blocks[|s.blocks| - 1] in s.blocks;
  }

  lemma NotPendingParts(s: State)
    requires StateOk(s) && !s.pending
    ensures Nonempty(s.blocks) && IndexOk(s.blocks, s.index, |s.blocks|)
    ensures s.blocks != [] ==> s.current != [] && Separates(s.index[|s.blocks| - 1].0, LastKey(s.blocks[|s.blocks| - 1]), s.current[0].0)
  {
    hide KeysIncrease, BlockOk, IndexOk, Covered, Separates;
  }

  lemma UsersSnoc(keys: seq<Bytes>, key: Bytes)
    requires |key| >= 8 && forall i :: 0 <= i < |keys| ==> |keys[i]| >= 8
    ensures F.Users(keys + [key]) == F.Users(keys) + [UserOf(key)]
  {
  }

  lemma PendingIsReady(s: State, separator: Bytes, key: Bytes)
    requires StateOk(s) && s.pending && |key| >= 8 && |s.lastKey| >= 8 && Separates(separator, s.lastKey, key) && KeyLess(s.lastKey, key)
    ensures ReadyFor(s.(index := s.index + [(separator, EncodeHandle(s.handle))], pending := false), key)
  {
    hide KeyLess, Separates, BlockOk, KeysIncrease, AllEntries, Covered, EncodeHandle, IndexOk;
    StateParts(s);
    PendingParts(s);
    IndexEntryKeepsState(s, separator, key);
    var s' := s.(index := s.index + [(separator, EncodeHandle(s.handle))], pending := false);
    assert FiltersCover(s');
  }

  lemma NotPendingIsReady(s: State, key: Bytes)
    requires StateOk(s) && !s.pending && |key| >= 8
    requires AllEntries(s.blocks) + s.current != [] ==> |s.lastKey| >= 8 && KeyLess(s.lastKey, key)
    ensures ReadyFor(s, key)
  {
    hide KeyLess, Separates, BlockOk, KeysIncrease, Covered, EncodeHandle, IndexOk;
    StateParts(s);
    NotPendingParts(s);
  }

  lemma NothingAdded()
    ensures AllEntries([]) == []
  {
  }

  lemma StartsOk()
    ensures StateOk(State([], [], [], [], false, BlockHandle(0, 0), [], [], []))
  {
  }
}
