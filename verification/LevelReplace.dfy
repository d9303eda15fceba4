/** Replacing the inputs of a compaction by its outputs keeps a version in order
    (db/version_set.cc, InstallCompactionResults and the trivial move of db/db_impl.cc). */
module LevelReplace {
  import opened DbFormat
  import opened Wrappers
  import opened Version
  import opened VersionGet
  import opened CompactionInputs
  import opened CompactionWork
  import opened VersionBuilder

  lemma LevelSetHas(files: seq<File>, f: File, x: Entry)
    requires f in files && x in f.entries
    ensures x in LevelSet(files)
  {
  }

  lemma LevelSetFile(files: seq<File>, x: Entry) returns (f: File)
    requires x in LevelSet(files)
    ensures f in files && x in f.entries
  {
    var i :| 0 <= i < |files| && x in files[i].entries;
    f := files[i];
  }

  lemma {:induction false} FlatMembers(files: seq<File>)
    ensures forall x :: x in Flat(files) <==> x in LevelSet(files)
  {
    if files != [] {
      var n := |files| - 1;
      FlatMembers(files[..n]);
      assert files == files[..n] + [files[n]];
      forall x
        ensures x in Flat(files) <==> x in LevelSet(files)
      {
        if x in LevelSet(files[..n]) {
          var f := LevelSetFile(files[..n], x);
          LevelSetHas(files, f, x);
        }
        if x in files[n].entries {
          LevelSetHas(files, files[n], x);
        }
        if x in LevelSet(files) {
          var f := LevelSetFile(files, x);
          if f in files[..n] {
            LevelSetHas(files[..n], f, x);
          }
        }
      }
    }
  }

  ghost predicate Separated(f: File, g: File) {
    Less(f.largest, g.smallest) || Less(g.largest, f.smallest)
  }

  /** A level in file order whose files do not overlap is a sorted level. */
  lemma SortedFromSeparated(files: seq<File>)
    requires Ordered(files) && forall f :: f in files ==> FileOk(f)
    requires forall f, g :: f in files && g in files && f != g ==> Separated(f, g)
    ensures SortedLevel(files)
  {
    forall i, j | 0 <= i < j < |files|
      ensures Less(files[i].largest, files[j].smallest)
    {
      var f, g := files[i], files[j];
      assert f in files && g in files && ByKey(f, g);
      FileBounds(f);
      FileBounds(g);
    }
  }

  lemma SortedIsSeparated(files: seq<File>, f: File, g: File)
    requires SortedLevel(files) && f in files && g in files && f != g
    ensures Separated(f, g)
  {
  }

  lemma SortedIsOrdered(files: seq<File>)
    requires SortedLevel(files)
    ensures Ordered(files)
  {
    forall i, j | 0 <= i < j < |files|
      ensures ByKey(files[i], files[j])
    {
      FileBounds(files[i]);
    }
  }

  /** In a sorted run cut into files, the last file follows all entries before it. */
  lemma LastFileFollows(files: seq<File>, n: nat)
    requires |files| == n + 1 && Sorted(Flat(files)) && files[n].entries != []
    ensures Sorted(Flat(files[..n])) && Sorted(files[n].entries)
    ensures forall x :: x in LevelSet(files[..n]) ==> Less(x.key, files[n].entries[0].key)
  {
    hide LevelSet;
    var front, last := Flat(files[..n]), files[n].entries;
    var flat := Flat(files);
    assert flat == front + last;
    assert front == flat[..|front|] && last == flat[|front|..];
    FlatMembers(files[..n]);
    forall x | x in LevelSet(files[..n])
      ensures Less(x.key, last[0].key)
    {
      var k :| 0 <= k < |front| && front[k] == x;
      assert flat[k] == x && flat[|front|] == last[0];
    }
  }

  /** Outputs cut from one sorted run are valid, disjoint files. */
  lemma {:induction false} OutputsSorted(outputs: seq<File>, first: nat, next: nat)
    requires OutputsOk(outputs, first, next) && Sorted(Flat(outputs))
    requires forall f, i :: f in outputs && 0 <= i < |f.entries| ==> f.entries[i].key.sequence <= MAX_SEQUENCE
    ensures SortedLevel(outputs)
  {
    hide Flat, LevelSet, Sorted;
    if outputs != [] {
      var n := |outputs| - 1;
      var front, last := outputs[..n], outputs[n];
      assert last in outputs;
      assert forall i :: 0 <= i < n ==> front[i] == outputs[i];
      LastFileFollows(outputs, n);
      OutputsSorted(front, first, next);
      forall i | 0 <= i < n
        ensures Less(outputs[i].largest, last.smallest)
      {
        LevelSetHas(front, front[i], front[i].entries[|front[i].entries| - 1]);
      }
    }
  }

  /** A file of the level that is not compacted shares a user key with the inputs only if it lies
      before them, so its entries of that key are newer. */
  lemma ChosenLeftOut(files: seq<File>, level: nat, inputs: seq<File>, f: File, g: File, x: Entry, y: Entry)
    requires LevelOk(files, level) && Chosen(files, level, inputs)
    requires f in files && f !in inputs && g in inputs
    requires x in f.entries && y in g.entries && x.key.user == y.key.user
    ensures level > 0 && Less(x.key, y.key)
  {
    if level == 0 {
      StartMembers(files, level, inputs);
      ClosedLeftOut(files, inputs, f, g, x, y);
    } else {
      var a: nat :| IsSliceAt(files, inputs, a);
      SliceLeftOut(files, inputs, a, f, g, x, y);
    }
  }

  lemma SliceLeftOut(files: seq<File>, inputs: seq<File>, a: nat, f: File, g: File, x: Entry, y: Entry)
    requires SortedLevel(files) && IsSliceAt(files, inputs, a) && NoBoundaryLeft(files, inputs)
    requires f in files && f !in inputs && g in inputs
    requires x in f.entries && y in g.entries && x.key.user == y.key.user
    ensures Less(x.key, y.key)
  {
    hide FileOk, SortedLevel, IsLargest, Less, NoBoundaryLeft;
    var k :| 0 <= k < |files| && files[k] == f;
    var m :| 0 <= m < |inputs| && inputs[m] == g;
    assert files[a + m] == g;
    assert !(a <= k < a + |inputs|);
    if k < a {
      SliceBefore(files, k, a + m, x, y);
    } else {
      BehindIsBoundary(files, a, a + |inputs|, k, a + m, x, y);
      NoneBehind(files, inputs, f);
    }
  }

  lemma NoneBehind(files: seq<File>, inputs: seq<File>, f: File)
    requires NoBoundaryLeft(files, inputs) && f in files
    ensures !exists key :: IsLargest(inputs, key) && IsBoundary(f, key)
  {
  }

  lemma ClosedLeftOut(files: seq<File>, inputs: seq<File>, f: File, g: File, x: Entry, y: Entry)
    requires LevelOk(files, 0) && Chosen(files, 0, inputs)
    requires f in files && g in files && g in inputs
    requires x in f.entries && y in g.entries && x.key.user == y.key.user
    ensures f in inputs
  {
    FileBounds(f);
    FileBounds(g);
    var lo, hi :| Closed(files, lo, hi) && inputs == Overlapping(files, lo, hi);
    OverlappingMembers(files, lo, hi);
    var i :| 0 <= i < |files| && files[i] == g;
    assert Contains(lo, hi, files[i]);
    assert Overlaps(f, lo, hi);
  }

  lemma SliceBefore(files: seq<File>, k: nat, m: nat, x: Entry, y: Entry)
    requires SortedLevel(files) && k < m < |files|
    requires x in files[k].entries && y in files[m].entries
    ensures Less(x.key, y.key)
  {
    FileBounds(files[k]);
    FileBounds(files[m]);
    assert Less(files[k].largest, files[m].smallest);
  }

  lemma BehindIsBoundary(files: seq<File>, a: nat, b: nat, k: nat, m: nat, x: Entry, y: Entry)
    requires SortedLevel(files) && a <= m < b <= k < |files|
    requires x in files[k].entries && y in files[m].entries && x.key.user == y.key.user
    ensures exists key :: IsLargest(files[a..b], key) && IsBoundary(files[k], key)
  {
    var last := files[b - 1];
    SliceLargest(files, a, b);
    FileBounds(files[m]);
    FileBounds(last);
    FileBounds(files[k]);
    LargestAscend(files);
    assert Less(last.largest, files[k].smallest);
    assert m < b - 1 ==> Less(files[m].largest, last.largest);
    assert IsBoundary(files[k], last.largest);
  }

  /** A file of level + 1 that is not compacted lies wholly before or wholly behind the inputs. */
  lemma LeftOutIsApart(files: seq<File>, files1: seq<File>, inputs0: seq<File>, inputs1: seq<File>, g: File)
    requires forall f :: f in inputs0 ==> FileOk(f)
    requires SortedLevel(files1) && TakesOverlap(files1, inputs0, inputs1)
    requires g in files1 && g !in inputs1
    ensures || (forall f :: f in inputs0 || f in inputs1 ==> Less(g.largest, f.smallest))
            || (forall f :: f in inputs0 || f in inputs1 ==> Less(f.largest, g.smallest))
  {
    var smallest, largest :|
      && IsSmallest(inputs0, smallest) && IsLargest(inputs0, largest)
      && inputs1 == Overlapping(files1, Some(smallest.user), Some(largest.user));
    OverlappingMembers(files1, Some(smallest.user), Some(largest.user));
    FileBounds(g);
    forall f | f in inputs0 || f in inputs1
      ensures smallest.user > g.largest.user ==> Less(g.largest, f.smallest)
      ensures largest.user < g.smallest.user ==> Less(f.largest, g.smallest)
    {
      FileBounds(f);
      if f in inputs1 {
        SortedIsSeparated(files1, f, g);
      }
    }
  }

  /** AddInputDeletions, and the outputs added one level down: the edit a compaction installs. For a
      trivial move the output is the input file itself. */
  function ReplaceEdit(c: Compaction, outputs: seq<File>): FileEdit {
    FileEdit((set f | f in c.inputs0 :: (c.level, f.number)) + (set f | f in c.inputs1 :: (c.level + 1, f.number)),
             seq(|outputs|, i requires 0 <= i < |outputs| => (c.level + 1, outputs[i])))
  }

  /** Every file of a version has its own number, below the next one to be given. */
  ghost predicate NumbersOk(levels: seq<seq<File>>, nextFile: nat) {
    && (forall l, f :: 0 <= l < |levels| && f in levels[l] ==> f.number < nextFile)
    && (forall l, m, f, g :: 0 <= l < |levels| && 0 <= m < |levels| && f in levels[l] && g in levels[m] && f.number == g.number ==>
          l == m && f == g)
  }

  /** Output numbers are new; only a trivial move gives the output the number of its input. */
  ghost predicate OutputNumbersOk(levels: seq<seq<File>>, c: Compaction, outputs: seq<File>) {
    && (forall i, j :: 0 <= i < j < |outputs| ==> outputs[i].number != outputs[j].number)
    && (forall l, f, o :: 0 <= l < |levels| && f in levels[l] && o in outputs && f.number == o.number ==>
          l == c.level && f in c.inputs0)
  }

  /** What the levels hold after the edit. */
  ghost predicate Replaced(levels: seq<seq<File>>, c: Compaction, outputs: seq<File>, levels': seq<seq<File>>) {
    && |levels'| == |levels| && c.level + 1 < |levels|
    && (forall l :: 0 <= l < |levels| ==> Ordered(levels'[l]))
    && (forall l :: 0 <= l < |levels| && l != c.level && l != c.level + 1 ==> levels'[l] == levels[l])
    && (forall f :: f in levels'[c.level] <==> f in levels[c.level] && f !in c.inputs0)
    && (forall f :: f in levels'[c.level + 1] <==> f in outputs || (f in levels[c.level + 1] && f !in c.inputs1))
  }

  lemma ReplaceEditFacts(c: Compaction, outputs: seq<File>)
    ensures forall l: nat, n :: n in DeletedAt(ReplaceEdit(c, outputs), l) <==>
              (l == c.level && exists f :: f in c.inputs0 && f.number == n) || (l == c.level + 1 && exists f :: f in c.inputs1 && f.number == n)
    ensures forall l: nat, f :: (l, f) in ReplaceEdit(c, outputs).added <==> l == c.level + 1 && f in outputs
    ensures forall l: nat, n :: n in AddedNumbers(ReplaceEdit(c, outputs).added, l) <==>
              l == c.level + 1 && exists f :: f in outputs && f.number == n
  {
    var edit := ReplaceEdit(c, outputs);
    forall l: nat, n
      ensures n in DeletedAt(edit, l) <==>
              (l == c.level && exists f :: f in c.inputs0 && f.number == n) || (l == c.level + 1 && exists f :: f in c.inputs1 && f.number == n)
    {
      assert n in DeletedAt(edit, l) <==> (l, n) in edit.deleted by {
        assert (l, n).0 == l && (l, n).1 == n;
      }
    }
    forall l: nat, f
      ensures (l, f) in edit.added <==> l == c.level + 1 && f in outputs
    {
      if f in outputs {
        var i :| 0 <= i < |outputs| && outputs[i] == f;
        assert edit.added[i] == (c.level + 1, f);
      }
    }
    forall l: nat, n
      ensures n in AddedNumbers(edit.added, l) <==> l == c.level + 1 && exists f :: f in outputs && f.number == n
    {
      if l == c.level + 1 && exists f :: f in outputs && f.number == n {
        var f :| f in outputs && f.number == n;
        assert (l, f) in edit.added && (l, f).1.number == n;
      }
      if n in AddedNumbers(edit.added, l) {
        var p :| p in edit.added && p.0 == l && p.1.number == n;
        assert p == (l, p.1);
      }
    }
  }

  lemma LevelOrdered(levels: seq<seq<File>>, l: nat)
    requires LevelsOk(levels) && l < |levels| && Ordered(levels[0])
    ensures Ordered(levels[l])
  {
    hide Ordered, SortedLevel;
    if l > 0 {
      SortedIsOrdered(levels[l]);
    }
  }

  lemma InstalledIsReplaced(levels: seq<seq<File>>, c: Compaction, outputs: seq<File>, nextFile: nat, levels': seq<seq<File>>)
    requires LevelsOk(levels) && Ordered(levels[0]) && NumbersOk(levels, nextFile)
    requires c.level + 1 < NUM_LEVELS && OutputNumbersOk(levels, c, outputs)
    requires forall f :: f in c.inputs0 ==> f in levels[c.level]
    requires forall f :: f in c.inputs1 ==> f in levels[c.level + 1]
    requires Installed(levels, ReplaceEdit(c, outputs), levels')
    ensures Replaced(levels, c, outputs, levels')
  {
    hide Ordered, SortedLevel;
    var edit := ReplaceEdit(c, outputs);
    ReplaceEditFacts(c, outputs);
    forall l | 0 <= l < |levels|
      ensures Ordered(levels'[l])
      ensures l != c.level && l != c.level + 1 ==> levels'[l] == levels[l]
    {
      assert LevelInstalled(levels[l], edit, l, levels'[l]);
      LevelOrdered(levels, l);
      if l != c.level && l != c.level + 1 {
        OrderedUnique(levels'[l], levels[l]);
      }
    }
    assert LevelInstalled(levels[c.level], edit, c.level, levels'[c.level]);
    assert LevelInstalled(levels[c.level + 1], edit, c.level + 1, levels'[c.level + 1]);
  }

  lemma ReplaceEditOk(levels: seq<seq<File>>, c: Compaction, outputs: seq<File>)
    requires |levels| == NUM_LEVELS && c.level + 1 < NUM_LEVELS && OutputNumbersOk(levels, c, outputs)
    ensures EditOk(ReplaceEdit(c, outputs)) && AddsFreshNumbers(levels, ReplaceEdit(c, outputs))
  {
    ReplaceEditFacts(c, outputs);
    var edit := ReplaceEdit(c, outputs);
    forall l, f, p | 0 <= l < |levels| && f in levels[l] && p in edit.added && p.0 == l
      ensures f.number != p.1.number
    {
      assert p == (l, p.1);
    }
  }

  /** The outputs of a compaction: valid disjoint files holding only entries of the inputs. */
  ghost predicate OutputsFit(c: Compaction, outputs: seq<File>) {
    && SortedLevel(outputs)
    && forall x :: x in LevelSet(outputs) ==> x in LevelSet(c.inputs0) || x in LevelSet(c.inputs1)
  }

  lemma VersionLevelsOk(levels: seq<seq<File>>)
    requires VersionOk(levels)
    ensures LevelsOk(levels)
  {
  }

  lemma CompactionMembers(levels: seq<seq<File>>, c: Compaction)
    requires LevelsOk(levels) && IsCompaction(levels, c)
    ensures c.level + 1 < NUM_LEVELS == |levels|
    ensures c.inputs0 != []
    ensures forall f :: f in c.inputs0 ==> f in levels[c.level]
    ensures forall f :: f in c.inputs1 ==> f in levels[c.level + 1]
    ensures forall f :: f in c.inputs0 || f in c.inputs1 ==> FileOk(f)
  {
    StartMembers(levels[c.level], c.level, c.inputs0);
    var smallest, largest :|
      && IsSmallest(c.inputs0, smallest) && IsLargest(c.inputs0, largest)
      && c.inputs1 == Overlapping(levels[c.level + 1], Some(smallest.user), Some(largest.user));
    OverlappingMembers(levels[c.level + 1], Some(smallest.user), Some(largest.user));
  }

  /** The inputs' level after the compaction: a part of what it was. */
  lemma InputLevelOk(levels: seq<seq<File>>, c: Compaction, outputs: seq<File>, levels': seq<seq<File>>)
    requires VersionOk(levels) && Replaced(levels, c, outputs, levels')
    ensures c.level == 0 ==> Level0Ok(levels'[0])
    ensures c.level > 0 ==> SortedLevel(levels'[c.level])
  {
    var files, files' := levels[c.level], levels'[c.level];
    if c.level == 0 {
      Level0Part(files, files');
    } else {
      forall f, g | f in files' && g in files' && f != g
        ensures Separated(f, g)
      {
        SortedIsSeparated(files, f, g);
      }
      SortedFromSeparated(files');
    }
  }

  lemma Level0Part(files: seq<File>, files': seq<File>)
    requires Level0Ok(files) && Ordered(files') && forall f :: f in files' ==> f in files
    ensures Level0Ok(files')
  {
    hide NewerThan, FileOk;
    forall i | 0 <= i < |files'|
      ensures FileOk(files'[i])
    {
      assert files'[i] in files;
    }
    forall i, j | 0 <= i < j < |files'|
      ensures files'[i].number != files'[j].number
    {
      assert files'[i] in files && files'[j] in files;
      assert ByKey(files'[i], files'[j]);
    }
    forall i, j | 0 <= i < |files'| && 0 <= j < |files'| && files'[i].number > files'[j].number
      ensures NewerThan(EntrySet(files'[i].entries), EntrySet(files'[j].entries))
    {
      assert files'[i] in files && files'[j] in files;
      Level0Newer(files, files'[i], files'[j]);
    }
  }

  lemma Level0Newer(files: seq<File>, f: File, g: File)
    requires Level0Ok(files) && f in files && g in files && f.number > g.number
    ensures NewerThan(EntrySet(f.entries), EntrySet(g.entries))
  {
    hide NewerThan, FileOk;
    var a :| 0 <= a < |files| && files[a] == f;
    var b :| 0 <= b < |files| && files[b] == g;
    assert NewerThan(EntrySet(files[a].entries), EntrySet(files[b].entries));
  }

  /** The outputs' level after the compaction stays sorted and disjoint. */
  lemma OutputLevelOk(levels: seq<seq<File>>, c: Compaction, outputs: seq<File>, levels': seq<seq<File>>)
    requires LevelsOk(levels) && IsCompaction(levels, c)
    requires OutputsFit(c, outputs) && Replaced(levels, c, outputs, levels')
    ensures SortedLevel(levels'[c.level + 1])
  {
    hide IsCompaction;
    CompactionMembers(levels, c);
    var files1, files' := levels[c.level + 1], levels'[c.level + 1];
    forall f, g | f in files' && g in files' && f != g
      ensures Separated(f, g)
    {
      if f in outputs && g in outputs {
        SortedIsSeparated(outputs, f, g);
      } else if f in outputs {
        OutputApart(levels, c, outputs, f, g);
      } else if g in outputs {
        OutputApart(levels, c, outputs, g, f);
      } else {
        SortedIsSeparated(files1, f, g);
      }
    }
    SortedFromSeparated(files');
  }

  lemma OutputApart(levels: seq<seq<File>>, c: Compaction, outputs: seq<File>, o: File, g: File)
    requires LevelsOk(levels) && IsCompaction(levels, c) && OutputsFit(c, outputs)
    requires o in outputs && g in levels[c.level + 1] && g !in c.inputs1
    ensures Separated(o, g)
  {
    hide SortedLevel, FileOk, Chosen, TakesOverlap, LevelSet;
    CompactionMembers(levels, c);
    LeftOutIsApart(levels[c.level], levels[c.level + 1], c.inputs0, c.inputs1, g);
    SortedFileOk(outputs, o);
    OutputEntryWithin(c, outputs, o, 0, g);
    OutputEntryWithin(c, outputs, o, |o.entries| - 1, g);
    OutputEnds(o);
  }

  lemma SortedFileOk(files: seq<File>, f: File)
    requires SortedLevel(files) && f in files
    ensures FileOk(f) && f.entries != []
  {
  }

  lemma OutputEnds(f: File)
    requires FileOk(f)
    ensures f.entries != [] && f.smallest == f.entries[0].key && f.largest == f.entries[|f.entries| - 1].key
  {
  }

  lemma OutputEntryWithin(c: Compaction, outputs: seq<File>, o: File, i: nat, g: File)
    requires OutputsFit(c, outputs) && o in outputs && i < |o.entries|
    requires forall f :: f in c.inputs0 || f in c.inputs1 ==> FileOk(f)
    ensures (forall f :: f in c.inputs0 || f in c.inputs1 ==> Less(g.largest, f.smallest)) ==> Less(g.largest, o.entries[i].key)
    ensures (forall f :: f in c.inputs0 || f in c.inputs1 ==> Less(f.largest, g.smallest)) ==> Less(o.entries[i].key, g.smallest)
  {
    var x := o.entries[i];
    LevelSetHas(outputs, o, x);
    var f: File;
    if x in LevelSet(c.inputs0) {
      f := LevelSetFile(c.inputs0, x);
    } else {
      f := LevelSetFile(c.inputs1, x);
    }
    FileBounds(f);
  }

  /** Where an entry of the new version was before. */
  lemma EntryOrigin(levels: seq<seq<File>>, c: Compaction, outputs: seq<File>, levels': seq<seq<File>>, l: nat, x: Entry)
    requires VersionOk(levels) && IsCompaction(levels, c) && OutputsFit(c, outputs) && Replaced(levels, c, outputs, levels')
    requires l < |levels| && x in LevelSet(levels'[l])
    ensures x in LevelSet(levels[l]) || (l == c.level + 1 && x in LevelSet(c.inputs0))
    ensures l == c.level ==> exists f :: f in levels[l] && f !in c.inputs0 && x in f.entries
  {
    hide LevelSet, VersionOk, IsCompaction, Ordered, SortedLevel;
    VersionLevelsOk(levels);
    CompactionMembers(levels, c);
    var f := LevelSetFile(levels'[l], x);
    if f in levels[l] {
      LevelSetHas(levels[l], f, x);
    } else {
      assert l == c.level + 1 && f in outputs;
      LevelSetHas(outputs, f, x);
      if x in LevelSet(c.inputs1) {
        var g := LevelSetFile(c.inputs1, x);
        LevelSetHas(levels[l], g, x);
      }
    }
  }

  /** Newer entries of a user key stay in smaller levels. */
  lemma LevelsStayNewer(levels: seq<seq<File>>, c: Compaction, outputs: seq<File>, levels': seq<seq<File>>, l: nat, m: nat)
    requires VersionOk(levels) && IsCompaction(levels, c) && OutputsFit(c, outputs) && Replaced(levels, c, outputs, levels')
    requires UniqueSequences(LevelsSet(levels))
    requires l < m < |levels|
    ensures NewerThan(LevelSet(levels'[l]), LevelSet(levels'[m]))
  {
    hide LevelSet, IsCompaction, Replaced, OutputsFit, Level0Ok, SortedLevel;
    VersionLevelsOk(levels);
    assert |levels'| == |levels| && c.level + 1 < |levels| by { ReplacedLength(levels, c, outputs, levels'); }
    assert NewerThan(LevelSet(levels[l]), LevelSet(levels[m]));
    assert l < c.level ==> NewerThan(LevelSet(levels[l]), LevelSet(levels[c.level]));
    assert c.level < m ==> NewerThan(LevelSet(levels[c.level]), LevelSet(levels[m]));
    forall x, y | x in LevelSet(levels'[l]) && y in LevelSet(levels'[m]) && x.key.user == y.key.user
      ensures x.key.sequence > y.key.sequence
    {
      EntryOrigin(levels, c, outputs, levels', l, x);
      EntryOrigin(levels, c, outputs, levels', m, y);
      InputsInLevel(levels, c, x);
      InputsInLevel(levels, c, y);
      if y !in LevelSet(levels[m]) && l == c.level {
        LeftOutIsNewer(levels, c, x, y);
      }
    }
  }

  lemma ReplacedLength(levels: seq<seq<File>>, c: Compaction, outputs: seq<File>, levels': seq<seq<File>>)
    requires Replaced(levels, c, outputs, levels')
    ensures |levels'| == |levels| && c.level + 1 < |levels|
  {
  }

  lemma InputsInLevel(levels: seq<seq<File>>, c: Compaction, x: Entry)
    requires LevelsOk(levels) && IsCompaction(levels, c)
    ensures x in LevelSet(c.inputs0) ==> x in LevelSet(levels[c.level])
    ensures x in LevelSet(c.inputs1) ==> x in LevelSet(levels[c.level + 1])
  {
    CompactionMembers(levels, c);
    if x in LevelSet(c.inputs0) {
      var f := LevelSetFile(c.inputs0, x);
      LevelSetHas(levels[c.level], f, x);
    }
    if x in LevelSet(c.inputs1) {
      var f := LevelSetFile(c.inputs1, x);
      LevelSetHas(levels[c.level + 1], f, x);
    }
  }

  /** An entry left in the level is newer than a compacted one of the same user key. */
  lemma LeftOutIsNewer(levels: seq<seq<File>>, c: Compaction, x: Entry, y: Entry)
    requires LevelsOk(levels) && IsCompaction(levels, c) && UniqueSequences(LevelsSet(levels))
    requires exists f :: f in levels[c.level] && f !in c.inputs0 && x in f.entries
    requires y in LevelSet(c.inputs0) && x.key.user == y.key.user
    ensures x.key.sequence > y.key.sequence
  {
    CompactionMembers(levels, c);
    var f :| f in levels[c.level] && f !in c.inputs0 && x in f.entries;
    var g := LevelSetFile(c.inputs0, y);
    ChosenLeftOut(levels[c.level], c.level, c.inputs0, f, g, x, y);
    LessIsLexicographic(x.key, y.key);
    LevelSetHas(levels[c.level], f, x);
    LevelSetHas(levels[c.level], g, y);
    assert x in LevelsSet(levels) && y in LevelsSet(levels);
  }

  /** The main invariant of a version is kept by every compaction and trivial move. */
  lemma ReplaceKeepsVersionOk(levels: seq<seq<File>>, c: Compaction, outputs: seq<File>, levels': seq<seq<File>>)
    requires VersionOk(levels) && IsCompaction(levels, c) && OutputsFit(c, outputs) && Replaced(levels, c, outputs, levels')
    requires UniqueSequences(LevelsSet(levels))
    ensures VersionOk(levels')
  {
    hide LevelSet, IsCompaction, OutputsFit, Level0Ok, SortedLevel, Ordered, NewerThan;
    VersionLevelsOk(levels);
    InputLevelOk(levels, c, outputs, levels');
    OutputLevelOk(levels, c, outputs, levels');
    forall l, m | 0 <= l < m < |levels'|
      ensures NewerThan(LevelSet(levels'[l]), LevelSet(levels'[m]))
    {
      LevelsStayNewer(levels, c, outputs, levels', l, m);
    }
  }

  lemma ReplaceKeepsNumbers(levels: seq<seq<File>>, c: Compaction, outputs: seq<File>, levels': seq<seq<File>>,
                            nextFile: nat, nextFile': nat)
    requires NumbersOk(levels, nextFile) && nextFile <= nextFile' && OutputNumbersOk(levels, c, outputs)
    requires forall o :: o in outputs ==> o.number < nextFile'
    requires Replaced(levels, c, outputs, levels')
    ensures NumbersOk(levels', nextFile')
  {
    hide Ordered;
    forall l, m, f, g | 0 <= l < |levels'| && 0 <= m < |levels'| && f in levels'[l] && g in levels'[m] && f.number == g.number
      ensures l == m && f == g
    {
      assert f in levels[l] || (l == c.level + 1 && f in outputs);
      assert g in levels[m] || (m == c.level + 1 && g in outputs);
    }
    forall l, f | 0 <= l < |levels'| && f in levels'[l]
      ensures f.number < nextFile'
    {
      assert f in levels[l] || f in outputs;
    }
  }
}
