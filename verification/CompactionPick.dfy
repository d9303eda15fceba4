/** Where a compaction starts: PickCompaction and CompactRange (db/version_set.cc), and the input
    iterator over its files. */
module CompactionPick {
  import opened DbFormat
  import opened Wrappers
  import opened Version
  import opened VersionGet
  import opened CompactionInputs
  import opened CompactionWork
  import opened LevelReplace
  import opened Merger
  import opened InternalIterator

  /** PickCompaction, once a file has been chosen; at level 0 it takes all files overlapping it. */
  method PickCompaction(levels: seq<seq<File>>, level: nat, index: nat, maxFileSize: nat) returns (c: Compaction)
    requires VersionOk(levels) && level + 1 < NUM_LEVELS && index < |levels[level]|
    ensures c.level == level && IsCompaction(levels, c)
    ensures levels[level][index] in c.inputs0
  {
    hide IsStart, IsCompaction, BoundaryChain, FileOk, SortedLevel, IsLargest, IsSmallest, Closed;
    VersionLevelsOk(levels);
    var files := levels[level];
    var start := [files[index]];
    if level == 0 {
      var smallest, largest := GetRange(start);
      ghost var lo, hi;
      start, lo, hi := GetOverlappingInputs(0, files, Some(smallest), Some(largest));
      StartIsCovered(files, [files[index]], [files[index]], smallest, largest, lo, hi);
      assert [files[index]][0] in [files[index]];
      OverlappingIsStart(files, 0, start, lo, hi);
    } else {
      OneFileIsStart(files, level, index);
    }
    ghost var base0, base1;
    c, base0, base1 := SetupOtherInputs(levels, level, start, maxFileSize);
    ChainMembers(files, start, base0);
  }

  lemma OneFileIsStart(files: seq<File>, level: nat, index: nat)
    requires level > 0 && index < |files|
    ensures IsStart(files, level, [files[index]])
  {
    assert IsSliceAt(files, [files[index]], index);
  }

  /** The range of a level-0 search is closed, and finds something exactly if the request does. */
  lemma WidenedRange(files: seq<File>, begin: Option<UserKey>, end: Option<UserKey>, lo: Option<UserKey>, hi: Option<UserKey>)
    requires IsLeastClosed(files, begin, end, lo, hi)
    ensures Closed(files, lo, hi)
    ensures forall f :: f in files && Overlaps(f, begin, end) ==> f in Overlapping(files, lo, hi)
    ensures NoOverlap(files, begin, end) ==> Overlapping(files, lo, hi) == []
  {
    OverlappingMembers(files, lo, hi);
    if NoOverlap(files, begin, end) {
      assert Closed(files, begin, end) && Within(begin, end, begin, end);
      assert Within(lo, hi, begin, end);
      forall f | f in Overlapping(files, lo, hi)
        ensures Overlaps(f, begin, end)
      {
      }
      assert forall k :: 0 <= k < |Overlapping(files, lo, hi)| ==> Overlapping(files, lo, hi)[k] in Overlapping(files, lo, hi);
    }
  }

  lemma OverlappingReached(files: seq<File>, begin: Option<UserKey>, end: Option<UserKey>)
    ensures forall f :: f in files && Overlaps(f, begin, end) ==> f in Overlapping(files, begin, end)
    ensures NoOverlap(files, begin, end) ==> Overlapping(files, begin, end) == []
  {
    OverlappingMembers(files, begin, end);
    assert forall k :: 0 <= k < |Overlapping(files, begin, end)| ==> Overlapping(files, begin, end)[k] in Overlapping(files, begin, end);
  }

  lemma PrefixIsStart(files: seq<File>, level: nat, inputs: seq<File>, n: nat)
    requires level > 0 && IsStart(files, level, inputs) && 0 < n <= |inputs|
    ensures IsStart(files, level, inputs[..n])
  {
    var a: nat :| IsSliceAt(files, inputs, a);
    assert IsSliceAt(files, inputs[..n], a);
  }

  /** "Avoid compacting too much in one shot": the shortest prefix that reaches the limit, or all. */
  method CutAtLimit(inputs: seq<File>, limit: nat) returns (n: nat)
    requires inputs != []
    ensures 0 < n <= |inputs|
    ensures n < |inputs| ==> TotalFileSize(inputs[..n]) >= limit
    ensures forall k :: 0 < k < n ==> TotalFileSize(inputs[..k]) < limit
  {
    var total := 0;
    for i := 0 to |inputs|
      invariant total == TotalFileSize(inputs[..i])
      invariant forall k :: 0 < k <= i ==> TotalFileSize(inputs[..k]) < limit
    {
      assert inputs[..i + 1] == inputs[..i] + [inputs[i]];
      TotalFileSizeSnoc(inputs[..i], inputs[i]);
      total := total + inputs[i].size;
      if total >= limit {
        return i + 1;
      }
    }
    return |inputs|;
  }

  /** A manual compaction: at level 0 all files of the range, deeper the first of them up to a size. */
  method CompactRange(levels: seq<seq<File>>, level: nat, begin: Option<InternalKey>, end: Option<InternalKey>,
                      maxFileSize: nat) returns (c: Option<Compaction>)
    requires VersionOk(levels) && level + 1 < NUM_LEVELS
    ensures c.None? <==> NoOverlap(levels[level], UserBound(begin), UserBound(end))
    ensures c.Some? ==> c.value.level == level && IsCompaction(levels, c.value)
    ensures c.Some? ==> exists f :: f in c.value.inputs0 && f in levels[level] && Overlaps(f, UserBound(begin), UserBound(end))
    ensures c.Some? && level == 0 ==>
              forall f :: f in levels[0] && Overlaps(f, UserBound(begin), UserBound(end)) ==> f in c.value.inputs0
  {
    hide IsStart, IsCompaction, BoundaryChain, FileOk, SortedLevel, Overlaps, Closed, IsLeastClosed;
    VersionLevelsOk(levels);
    var files := levels[level];
    var inputs, lo, hi := GetOverlappingInputs(level, files, begin, end);
    if level == 0 {
      WidenedRange(files, UserBound(begin), UserBound(end), lo, hi);
    } else {
      OverlappingReached(files, lo, hi);
    }
    if inputs == [] {
      return None;
    }
    OverlappingIsStart(files, level, inputs, lo, hi);
    var start := inputs;
    if level > 0 {
      var n := CutAtLimit(inputs, maxFileSize);
      PrefixIsStart(files, level, inputs, n);
      start := inputs[..n];
      OverlappingMembers(files, lo, hi);
      assert inputs[0] in inputs && start[0] == inputs[0] && start[0] in start;
    }
    var compaction;
    ghost var base0, base1;
    compaction, base0, base1 := SetupOtherInputs(levels, level, start, maxFileSize);
    ChainMembers(files, start, base0);
    return Some(compaction);
  }

  /** In order, no file twice: what is left of a level when files are picked out of it. */
  ghost predicate DistinctNumbers(files: seq<File>) {
    forall i, j :: 0 <= i < j < |files| ==> files[i].number != files[j].number
  }

  lemma {:induction false} OverlappingDistinct(files: seq<File>, lo: Option<UserKey>, hi: Option<UserKey>)
    requires DistinctNumbers(files)
    ensures DistinctNumbers(Overlapping(files, lo, hi))
  {
    hide Overlaps;
    if files != [] {
      var n := |files| - 1;
      OverlappingDistinct(files[..n], lo, hi);
      OverlappingMembers(files[..n], lo, hi);
      forall f | f in Overlapping(files[..n], lo, hi)
        ensures f.number != files[n].number
      {
        var k :| 0 <= k < n && files[..n][k] == f;
      }
    }
  }

  lemma SliceSorted(files: seq<File>, a: nat, b: nat)
    requires SortedLevel(files) && a <= b <= |files|
    ensures SortedLevel(files[a..b])
  {
    hide FileOk;
  }

  lemma NewerHasNoCommonKey(a: seq<Entry>, b: seq<Entry>, sa: set<Entry>, sb: set<Entry>)
    requires NewerThan(sa, sb) && (forall x :: x in a ==> x in sa) && (forall x :: x in b ==> x in sb)
    ensures NoCommonKey(a, b) && NoCommonKey(b, a)
  {
  }

  /** Two level-0 files share no internal key. */
  lemma Level0NoCommonKey(files: seq<File>, f: File, g: File)
    requires Level0Ok(files) && f in files && g in files && f.number != g.number
    ensures NoCommonKey(f.entries, g.entries)
  {
    hide Level0Ok;
    if f.number > g.number {
      Level0Newer(files, f, g);
      NewerHasNoCommonKey(f.entries, g.entries, EntrySet(f.entries), EntrySet(g.entries));
    } else {
      Level0Newer(files, g, f);
      NewerHasNoCommonKey(g.entries, f.entries, EntrySet(g.entries), EntrySet(f.entries));
    }
  }

  /** One run per file. */
  function FileRuns(files: seq<File>): (r: seq<seq<Entry>>)
    ensures |r| == |files| && forall i :: 0 <= i < |files| ==> r[i] == files[i].entries
  {
    seq(|files|, i requires 0 <= i < |files| => files[i].entries)
  }

  lemma FileRunsMergeable(level0: seq<File>, files: seq<File>)
    requires Level0Ok(level0) && DistinctNumbers(files) && forall f :: f in files ==> f in level0
    ensures Mergeable(FileRuns(files)) && RunsSet(FileRuns(files)) == LevelSet(files)
  {
    hide Level0Ok, NoCommonKey;
    forall i | 0 <= i < |files|
      ensures Sorted(files[i].entries)
    {
      Level0FileOk(level0, files[i]);
    }
    forall i, j | 0 <= i < j < |files|
      ensures NoCommonKey(files[i].entries, files[j].entries)
    {
      Level0NoCommonKey(level0, files[i], files[j]);
    }
  }

  lemma AppendRun(runs: seq<seq<Entry>>, run: seq<Entry>, entries: set<Entry>)
    requires Mergeable(runs) && Sorted(run)
    requires RunsSet(runs) <= entries && forall x, y :: x in entries && y in run ==> x.key != y.key
    ensures Mergeable(runs + [run])
    ensures RunsSet(runs + [run]) == RunsSet(runs) + EntrySet(run)
  {
    var more := runs + [run];
    forall c | 0 <= c < |runs|
      ensures NoCommonKey(runs[c], run)
    {
      assert forall x :: x in runs[c] ==> x in RunsSet(runs);
    }
    forall x
      ensures x in RunsSet(more) <==> x in RunsSet(runs) || x in run
    {
      assert x in run ==> x in more[|runs|];
      if x in RunsSet(runs) {
        var c :| 0 <= c < |runs| && x in runs[c];
        assert x in more[c];
      }
    }
  }

  /** The level inputs of a compaction are mergeable: level-0 files apart, or one concatenation. */
  method LevelInputRuns(levels: seq<seq<File>>, c: Compaction) returns (runs: seq<seq<Entry>>)
    requires VersionOk(levels) && IsCompaction(levels, c)
    ensures Mergeable(runs) && RunsSet(runs) == LevelSet(c.inputs0)
  {
    hide Level0Ok, FileOk, SortedLevel, Mergeable, RunsSet, LevelSet, NoBoundaryLeft, TakesOverlap, Overlaps, NewerThan;
    VersionLevelsOk(levels);
    if c.level == 0 {
      runs := FileRuns(c.inputs0);
      StartMembers(levels[0], 0, c.inputs0);
      StartDistinct(levels[0], c.inputs0);
      FileRunsMergeable(levels[0], c.inputs0);
    } else {
      var run := ConcatFiles(c.inputs0);
      ghost var a: nat :| IsSliceAt(levels[c.level], c.inputs0, a);
      SliceSorted(levels[c.level], a, a + |c.inputs0|);
      LevelRunSorted(c.inputs0);
      runs := [run];
      OneRun(run);
      assert EntrySet(run) == LevelSet(c.inputs0);
    }
  }

  lemma StartDistinct(files: seq<File>, inputs: seq<File>)
    requires Level0Ok(files) && IsStart(files, 0, inputs)
    ensures DistinctNumbers(inputs)
  {
    var lo, hi :| Closed(files, lo, hi) && inputs == Overlapping(files, lo, hi);
    OverlappingDistinct(files, lo, hi);
  }

  lemma OneRun(run: seq<Entry>)
    requires Sorted(run)
    ensures Mergeable([run]) && RunsSet([run]) == EntrySet(run)
  {
    assert forall x :: x in run ==> x in [run][0];
  }

  /** MakeInputIterator: one cursor over the merge of all entries of the inputs. */
  method MakeInputIterator(levels: seq<seq<File>>, c: Compaction) returns (input: MergingIterator)
    requires VersionOk(levels) && IsCompaction(levels, c)
    ensures fresh(input) && fresh(input.children) && input.Ok()
    ensures EntrySet(input.merged) == LevelSet(c.inputs0) + LevelSet(c.inputs1)
  {
    hide VersionOk, IsCompaction, FileOk, SortedLevel, Mergeable, RunsSet, LevelSet, MergingIterator.Ok, Sorted;
    var runs := LevelInputRuns(levels, c);
    if c.inputs1 != [] {
      var run := ConcatFiles(c.inputs1);
      LowerInputsSorted(levels, c);
      LevelRunSorted(c.inputs1);
      AppendRun(runs, run, LevelSet(c.inputs0));
      assert EntrySet(run) == LevelSet(c.inputs1);
      runs := runs + [run];
    } else {
      NoFilesNoEntries(c.inputs1);
    }
    input := MakeMergingIterator(runs);
  }

  lemma NoFilesNoEntries(files: seq<File>)
    requires files == []
    ensures LevelSet(files) == {}
  {
  }

  lemma LowerInputsSorted(levels: seq<seq<File>>, c: Compaction)
    requires VersionOk(levels) && IsCompaction(levels, c)
    ensures SortedLevel(c.inputs1)
    ensures forall x, y :: x in LevelSet(c.inputs0) && y in LevelSet(c.inputs1) ==> x.key != y.key
  {
    hide FileOk, SortedLevel, LevelSet, Overlaps, IsSmallest, IsLargest, Level0Ok;
    VersionLevelsOk(levels);
    var files1 := levels[c.level + 1];
    var smallest, largest :|
      && IsSmallest(c.inputs0, smallest) && IsLargest(c.inputs0, largest)
      && c.inputs1 == Overlapping(files1, Some(smallest.user), Some(largest.user));
    var a, b := OverlappingIsSlice(files1, Some(smallest.user), Some(largest.user));
    SliceSorted(files1, a, b);
    forall x, y | x in LevelSet(c.inputs0) && y in LevelSet(c.inputs1)
      ensures x.key != y.key
    {
      InputsInLevel(levels, c, x);
      InputsInLevel(levels, c, y);
    }
  }
}
