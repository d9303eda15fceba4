/**
 * The iterator over an index and the blocks it points to (table/two_level_iterator.cc): a table over its
 * data blocks, or a level over its files (Version::NewConcatenatingIterator). Some blocks may be empty.
 */
module TwoLevelIterator {
  import opened DbFormat
  import opened Merger
  import opened Version
  import opened CompactionWork

  type BlockFunction = Value -> seq<Entry>

  /** The entries of the blocks of the first `n` index entries. */
  function UpTo(index: seq<Entry>, block: BlockFunction, n: nat): seq<Entry>
    requires n <= |index|
  {
    if n == 0 then [] else UpTo(index, block, n - 1) + block(index[n - 1].value)
  }

  function All(index: seq<Entry>, block: BlockFunction): seq<Entry> {
    UpTo(index, block, |index|)
  }

  /** Block `i` ends at or before its index key, and the next ones lie behind it. */
  ghost predicate IndexFits(index: seq<Entry>, block: BlockFunction) {
    && Sorted(index)
    && (forall i :: 0 <= i < |index| ==> Sorted(block(index[i].value)))
    && (forall i, k :: 0 <= i < |index| && 0 <= k < |block(index[i].value)| ==> !Less(index[i].key, block(index[i].value)[k].key))
    && (forall i, j, k :: 0 <= i < j < |index| && 0 <= k < |block(index[j].value)| ==> Less(index[i].key, block(index[j].value)[k].key))
  }

  lemma {:induction false} StartsGrow(index: seq<Entry>, block: BlockFunction, i: nat, j: nat)
    requires i <= j <= |index|
    ensures |UpTo(index, block, i)| <= |UpTo(index, block, j)|
    ensures UpTo(index, block, j)[..|UpTo(index, block, i)|] == UpTo(index, block, i)
    decreases j
  {
    if i < j {
      StartsGrow(index, block, i, j - 1);
    }
  }

  /** An entry of a block, and where it is in the whole. */
  lemma EntryAt(index: seq<Entry>, block: BlockFunction, i: nat, k: nat)
    requires i < |index| && k < |block(index[i].value)|
    ensures |UpTo(index, block, i)| + k < |All(index, block)|
    ensures All(index, block)[|UpTo(index, block, i)| + k] == block(index[i].value)[k]
  {
    StartsGrow(index, block, i + 1, |index|);
    var u := UpTo(index, block, i + 1);
    assert u[|UpTo(index, block, i)| + k] == block(index[i].value)[k];
    assert All(index, block)[..|u|][|UpTo(index, block, i)| + k] == u[|UpTo(index, block, i)| + k];
  }

  /** The block that an entry of the whole is in. */
  lemma {:induction false} BlockOf(index: seq<Entry>, block: BlockFunction, p: nat, n: nat) returns (i: nat, k: nat)
    requires n <= |index| && p < |UpTo(index, block, n)|
    ensures i < n && k < |block(index[i].value)| && p == |UpTo(index, block, i)| + k
    decreases n
  {
    if p < |UpTo(index, block, n - 1)| {
      i, k := BlockOf(index, block, p, n - 1);
    } else {
      i, k := n - 1, p - |UpTo(index, block, n - 1)|;
    }
  }

  /** Entries of two blocks lie on both sides of an index key. */
  lemma BlocksApart(index: seq<Entry>, block: BlockFunction, i: nat, k: nat, j: nat, l: nat)
    requires IndexFits(index, block) && i < j < |index| && k < |block(index[i].value)| && l < |block(index[j].value)|
    ensures Less(block(index[i].value)[k].key, block(index[j].value)[l].key)
  {
    hide Sorted;
    var x, y := block(index[i].value)[k].key, block(index[j].value)[l].key;
    assert !Less(index[i].key, x) && Less(index[i].key, y);
    LessIsLexicographic(index[i].key, x);
    LessIsLexicographic(index[i].key, y);
    LessIsLexicographic(x, y);
  }

  lemma IndexSorted(index: seq<Entry>, block: BlockFunction)
    requires IndexFits(index, block)
    ensures Sorted(index)
  {
    hide Sorted;
  }

  lemma BoundInRange(es: seq<Entry>, target: InternalKey, p: nat)
    requires IsLowerBound(es, target, p)
    ensures p <= |es|
  {
  }

  lemma BlockSorted(index: seq<Entry>, block: BlockFunction, i: nat)
    requires IndexFits(index, block) && i < |index|
    ensures Sorted(block(index[i].value))
  {
    hide Sorted;
  }

  /** The whole is sorted. */
  lemma AllSorted(index: seq<Entry>, block: BlockFunction)
    requires IndexFits(index, block)
    ensures Sorted(All(index, block))
  {
    hide IndexFits, All, UpTo, Less;
    var all := All(index, block);
    forall p, q | 0 <= p < q < |all|
      ensures Less(all[p].key, all[q].key)
    {
      EntriesInOrder(index, block, p, q);
    }
  }

  lemma EntriesInOrder(index: seq<Entry>, block: BlockFunction, p: nat, q: nat)
    requires IndexFits(index, block) && p < q < |All(index, block)|
    ensures Less(All(index, block)[p].key, All(index, block)[q].key)
  {
    hide IndexFits, UpTo, Less;
    var i, k := BlockOf(index, block, p, |index|);
    var j, l := BlockOf(index, block, q, |index|);
    EntryAt(index, block, i, k);
    EntryAt(index, block, j, l);
    if i == j {
      BlockSorted(index, block, i);
    } else if i < j {
      BlocksApart(index, block, i, k, j, l);
    } else {
      StartsGrow(index, block, j + 1, i);
      BlockBehind(index, block, j, l);
    }
  }

  lemma BlockBehind(index: seq<Entry>, block: BlockFunction, j: nat, l: nat)
    requires j < |index| && l < |block(index[j].value)|
    ensures |UpTo(index, block, j)| + l < |UpTo(index, block, j + 1)|
  {
  }

  lemma StepBack(index: seq<Entry>, block: BlockFunction, i: nat)
    requires i < |index|
    ensures i == 0 ==> |UpTo(index, block, i)| == 0
    ensures i > 0 ==> |UpTo(index, block, i)| == |UpTo(index, block, i - 1)| + |block(index[i - 1].value)|
  {
  }

  class TwoLevelIterator {
    const index: Cursor
    const block: BlockFunction
    var data: Cursor?
    var dataBlockHandle: Value

    /** The blocks seen as one run, and the position in it. */
    ghost function Entries(): seq<Entry> {
      All(index.entries, block)
    }

    ghost function Start(): nat
      reads index
    {
      if index.pos <= |index.entries| then |UpTo(index.entries, block, index.pos)| else 0
    }

    ghost function At(): nat
      reads this, index, data
    {
      if data != null && index.Valid() && data.Valid() then Start() + data.pos else |Entries()|
    }

    ghost predicate Shape()
      reads this, index, data
    {
      && IndexFits(index.entries, block) && data != index
      && (data != null ==> index.Valid() && dataBlockHandle == index.entries[index.pos].value && data.entries == block(dataBlockHandle))
    }

    /** On an entry, or past the end. */
    ghost predicate Ok()
      reads this, index, data
    {
      Shape() && (data != null ==> data.Valid())
    }

    predicate Valid()
      reads this, data
    {
      data != null && data.Valid()
    }

    constructor (index: Cursor, block: BlockFunction)
      requires IndexFits(index.entries, block)
      ensures Ok() && !Valid() && this.index == index && this.block == block && data == null
    {
      this.index, this.block := index, block;
      data, dataBlockHandle := null, "";
    }

    lemma PositionHere()
      requires Ok()
      ensures Valid() <==> At() < |Entries()|
      ensures Valid() ==> data.entries[data.pos] == Entries()[At()]
    {
      if Valid() {
        EntryAt(index.entries, block, index.pos, data.pos);
      }
    }

    /** InitDataBlock: an iterator over the block under the index, the one at hand if it is that. */
    method InitDataBlock()
      requires IndexFits(index.entries, block) && data != index
      requires data != null ==> data.entries == block(dataBlockHandle)
      modifies `data, `dataBlockHandle
      ensures Shape() && (data != null <==> index.Valid())
      ensures data == old(data) || data == null || fresh(data)
    {
      if !index.Valid() {
        data := null;
      } else {
        var handle := index.entries[index.pos].value;
        if data == null || handle != dataBlockHandle {
          dataBlockHandle := handle;
          data := new Cursor(block(handle));
        }
      }
    }

    /** SkipEmptyDataBlocksForward: to the first entry at or after where it stands. */
    method SkipEmptyDataBlocksForward()
      requires Shape() && (data != null ==> data.pos <= |data.entries|) && (data == null ==> !index.Valid())
      modifies this, index, data
      ensures Ok() && At() == old(if data != null then Start() + data.pos else |Entries()|)
      ensures data == old(data) || data == null || fresh(data)
    {
      ghost var at := if data != null then Start() + data.pos else |Entries()|;
      while data == null || !data.Valid()
        invariant Shape() && (data != null ==> data.pos <= |data.entries|) && (data == null ==> !index.Valid())
        invariant at == if data != null then Start() + data.pos else |Entries()|
        invariant data == old(data) || data == null || fresh(data)
        modifies this, index, data, old(data)
        decreases if data == null then 0 else 1 + |index.entries| - index.pos
      {
        if !index.Valid() {
          data := null;
          return;
        }
        index.Next();
        InitDataBlock();
        if data != null {
          data.SeekToFirst();
        }
      }
    }

    /** Where a step back from before the first entry of the block at hand leads. */
    ghost function Back(): nat
      reads this, index, data
    {
      if data == null then |Entries()|
      else if data.Valid() then Start() + data.pos
      else if Start() == 0 then |Entries()| else Start() - 1
    }

    /** SkipEmptyDataBlocksBackward: to the last entry at or before where it stands. */
    method SkipEmptyDataBlocksBackward()
      requires Shape() && (data == null ==> !index.Valid())
      modifies this, index, data
      ensures Ok() && At() == old(Back())
      ensures data == old(data) || data == null || fresh(data)
    {
      hide IndexFits, UpTo;
      ghost var at := Back();
      while data == null || !data.Valid()
        invariant Shape() && (data == null ==> !index.Valid()) && Back() == at
        invariant data == old(data) || data == null || fresh(data)
        modifies this, index, data, old(data)
        decreases if data == null then 0 else 1 + index.pos
      {
        if !index.Valid() {
          data := null;
          return;
        }
        StepBack(index.entries, block, index.pos);
        index.Prev();
        InitDataBlock();
        if data != null {
          data.SeekToLast();
        }
      }
    }

    method SeekToFirst()
      requires Ok()
      modifies this, index, data
      ensures Ok() && At() == 0
      ensures data == old(data) || data == null || fresh(data)
    {
      index.SeekToFirst();
      InitDataBlock();
      if data != null {
        data.SeekToFirst();
      }
      SkipEmptyDataBlocksForward();
    }

    method SeekToLast()
      requires Ok()
      modifies this, index, data
      ensures Ok() && At() == if |Entries()| == 0 then 0 else |Entries()| - 1
      ensures data == old(data) || data == null || fresh(data)
    {
      index.SeekToLast();
      InitDataBlock();
      if data != null {
        data.SeekToLast();
      }
      SkipEmptyDataBlocksBackward();
    }

    method Seek(target: InternalKey)
      requires Ok()
      modifies this, index, data
      ensures Ok() && IsLowerBound(Entries(), target, At())
      ensures data == old(data) || data == null || fresh(data)
    {
      hide UpTo, IndexFits, Sorted, IsLowerBound;
      IndexSorted(index.entries, block);
      index.Seek(target);
      InitDataBlock();
      if data != null {
        BlockSorted(index.entries, block, index.pos);
        data.Seek(target);
        BoundInRange(data.entries, target, data.pos);
      }
      BoundInRange(index.entries, target, index.pos);
      SeekIsBound(index.entries, block, target, index.pos, if data != null then data.pos else 0);
      SkipEmptyDataBlocksForward();
    }

    method Next()
      requires Ok() && Valid()
      modifies this, index, data
      ensures Ok() && At() == old(At()) + 1
      ensures data == old(data) || data == null || fresh(data)
    {
      data.Next();
      SkipEmptyDataBlocksForward();
    }

    method Prev()
      requires Ok() && Valid()
      modifies this, index, data
      ensures Ok() && At() == if old(At()) == 0 then |Entries()| else old(At()) - 1
      ensures data == old(data) || data == null || fresh(data)
    {
      PositionHere();
      data.Prev();
      SkipEmptyDataBlocksBackward();
    }
  }

  /** The first index key at or after the target, and in its block the first entry at or after it. */
  lemma SeekIsBound(index: seq<Entry>, block: BlockFunction, target: InternalKey, i: nat, p: nat)
    requires IndexFits(index, block) && IsLowerBound(index, target, i)
    requires if i < |index| then IsLowerBound(block(index[i].value), target, p) else p == 0
    ensures IsLowerBound(All(index, block), target, |UpTo(index, block, i)| + p)
  {
    hide IndexFits, Sorted, Less;
    var all, at := All(index, block), |UpTo(index, block, i)| + p;
    StartsGrow(index, block, i, |index|);
    if i < |index| {
      StartsGrow(index, block, i + 1, |index|);
    }
    hide UpTo;
    forall q | 0 <= q < |all|
      ensures q < at <==> Less(all[q].key, target)
    {
      var j, l := BlockOf(index, block, q, |index|);
      EntryAt(index, block, j, l);
      BoundInBlock(index, block, target, i, p, j, l);
      PlacesOrder(index, block, i, p, j, l);
    }
  }

  /** Positions in the whole compare by block, and then within the block. */
  lemma PlacesOrder(index: seq<Entry>, block: BlockFunction, i: nat, p: nat, j: nat, l: nat)
    requires i <= |index| && p <= (if i < |index| then |block(index[i].value)| else 0)
    requires j < |index| && l < |block(index[j].value)|
    ensures |UpTo(index, block, j)| + l < |UpTo(index, block, i)| + p <==> j < i || (j == i && l < p)
  {
    if j < i {
      StartsGrow(index, block, j + 1, i);
    } else if i < j {
      StartsGrow(index, block, i + 1, j);
    }
  }

  lemma BoundInBlock(index: seq<Entry>, block: BlockFunction, target: InternalKey, i: nat, p: nat, j: nat, l: nat)
    requires IndexFits(index, block) && IsLowerBound(index, target, i) && j < |index| && l < |block(index[j].value)|
    requires if i < |index| then IsLowerBound(block(index[i].value), target, p) else p == 0
    ensures Less(block(index[j].value)[l].key, target) <==> j < i || (j == i && l < p)
  {
    var key := block(index[j].value)[l].key;
    if j < i {
      assert Less(index[j].key, target) && !Less(index[j].key, key);
      LessIsLexicographic(index[j].key, key);
    } else if i < j {
      assert !Less(index[i].key, target) && Less(index[i].key, key);
      LessIsLexicographic(index[i].key, target);
    }
  }

  // A level

  /** LevelFileNumIterator: the largest key of each file, and what to open it by. */
  function LevelIndex(files: seq<File>, handle: File -> Value): (index: seq<Entry>)
    ensures |index| == |files| && forall i :: 0 <= i < |files| ==> index[i] == Entry(files[i].largest, handle(files[i]))
  {
    if files == [] then [] else LevelIndex(files[..|files| - 1], handle) + [Entry(files[|files| - 1].largest, handle(files[|files| - 1]))]
  }

  lemma LevelIndexFits(files: seq<File>, handle: File -> Value, open_: BlockFunction)
    requires SortedLevel(files) && forall f :: f in files ==> open_(handle(f)) == f.entries
    ensures IndexFits(LevelIndex(files, handle), open_)
  {
    hide Less, Sorted, FileOk, LevelIndex;
    LargestAscend(files);
    LevelIndexSorted(files, handle);
    forall i | 0 <= i < |files|
      ensures files[i] in files && Sorted(files[i].entries)
      ensures forall k :: 0 <= k < |files[i].entries| ==> !Less(files[i].largest, files[i].entries[k].key)
    {
      EntriesWithin(files[i]);
    }
    forall i, j | 0 <= i < j < |files|
      ensures forall k :: 0 <= k < |files[j].entries| ==> Less(files[i].largest, files[j].entries[k].key)
    {
      EntriesBehind(files[i], files[j]);
    }
  }

  lemma EntriesWithin(f: File)
    requires FileOk(f)
    ensures Sorted(f.entries) && forall k :: 0 <= k < |f.entries| ==> !Less(f.largest, f.entries[k].key)
  {
    FileBounds(f);
    assert forall k :: 0 <= k < |f.entries| ==> f.entries[k] in f.entries;
  }

  lemma LevelIndexSorted(files: seq<File>, handle: File -> Value)
    requires forall i, j :: 0 <= i < j < |files| ==> Less(files[i].largest, files[j].largest)
    ensures Sorted(LevelIndex(files, handle))
  {
    hide Less, LevelIndex;
  }

  lemma EntriesBehind(f: File, g: File)
    requires FileOk(g) && Less(f.largest, g.smallest)
    ensures forall k :: 0 <= k < |g.entries| ==> Less(f.largest, g.entries[k].key)
  {
    FileBounds(g);
    assert forall k :: 0 <= k < |g.entries| ==> g.entries[k] in g.entries;
  }

  lemma {:induction false} LevelIsFlat(files: seq<File>, handle: File -> Value, open_: BlockFunction, n: nat)
    requires n <= |files| && forall f :: f in files ==> open_(handle(f)) == f.entries
    ensures UpTo(LevelIndex(files, handle), open_, n) == Flat(files[..n])
  {
    if n > 0 {
      hide LevelIndex;
      LevelIsFlat(files, handle, open_, n - 1);
      assert files[..n][..n - 1] == files[..n - 1];
      assert files[n - 1] in files;
      var index := LevelIndex(files, handle);
      assert UpTo(index, open_, n) == UpTo(index, open_, n - 1) + files[n - 1].entries;
      assert Flat(files[..n]) == Flat(files[..n - 1]) + files[n - 1].entries;
    }
  }

  /** NewConcatenatingIterator: a cursor over all entries of a sorted level. */
  method NewConcatenatingIterator(files: seq<File>, handle: File -> Value, open_: BlockFunction) returns (it: TwoLevelIterator)
    requires SortedLevel(files) && forall f :: f in files ==> open_(handle(f)) == f.entries
    ensures fresh(it) && fresh(it.index) && it.Ok() && !it.Valid()
    ensures it.Entries() == Flat(files) && Sorted(it.Entries())
  {
    LevelIndexFits(files, handle, open_);
    LevelIsFlat(files, handle, open_, |files|);
    assert files[..|files|] == files;
    var index := new Cursor(LevelIndex(files, handle));
    it := new TwoLevelIterator(index, open_);
    AllSorted(index.entries, open_);
  }
}
