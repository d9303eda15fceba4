/** Installing a flushed memtable keeps a version in order (db/db_impl.cc, WriteLevel0Table). */
module LevelFlush {
  import opened DbFormat
  import opened Wrappers
  import opened Version
  import opened VersionGet
  import opened CompactionInputs
  import opened VersionBuilder
  import opened LevelReplace

  function FlushEdit(level: nat, f: File): FileEdit {
    FileEdit({}, [(level, f)])
  }

  ghost predicate Flushed(levels: seq<seq<File>>, level: nat, f: File, levels': seq<seq<File>>) {
    && |levels'| == |levels| && level < |levels|
    && (forall l :: 0 <= l < |levels| ==> Ordered(levels'[l]))
    && (forall l :: 0 <= l < |levels| && l != level ==> levels'[l] == levels[l])
    && (forall g :: g in levels'[level] <==> g == f || g in levels[level])
  }

  lemma InstalledIsFlushed(levels: seq<seq<File>>, level: nat, f: File, levels': seq<seq<File>>)
    requires LevelsOk(levels) && Ordered(levels[0]) && level < |levels|
    requires Installed(levels, FlushEdit(level, f), levels')
    ensures Flushed(levels, level, f, levels')
  {
    hide Ordered, SortedLevel;
    var edit := FlushEdit(level, f);
    forall l | 0 <= l < |levels|
      ensures Ordered(levels'[l])
      ensures l != level ==> levels'[l] == levels[l]
      ensures forall g :: g in levels'[l] <==> (l == level && g == f) || g in levels[l]
    {
      assert LevelInstalled(levels[l], edit, l, levels'[l]);
      assert DeletedAt(edit, l) == {};
      if l > 0 {
        SortedIsOrdered(levels[l]);
      }
      if l != level {
        OrderedUnique(levels'[l], levels[l]);
      }
    }
  }

  lemma FlushEditOk(levels: seq<seq<File>>, level: nat, f: File, nextFile: nat)
    requires |levels| == NUM_LEVELS && level < NUM_LEVELS && NumbersOk(levels, nextFile) && nextFile <= f.number
    ensures EditOk(FlushEdit(level, f)) && AddsFreshNumbers(levels, FlushEdit(level, f))
  {
  }

  lemma FlushedSets(levels: seq<seq<File>>, level: nat, f: File, levels': seq<seq<File>>)
    requires Flushed(levels, level, f, levels')
    ensures forall x :: x in LevelSet(levels'[level]) <==> x in LevelSet(levels[level]) || x in f.entries
    ensures LevelsSet(levels') == LevelsSet(levels) + EntrySet(f.entries)
  {
    hide Ordered;
    forall x
      ensures x in LevelSet(levels'[level]) <==> x in LevelSet(levels[level]) || x in f.entries
    {
      if x in LevelSet(levels'[level]) {
        var g := LevelSetFile(levels'[level], x);
        if g != f {
          LevelSetHas(levels[level], g, x);
        }
      }
      if x in LevelSet(levels[level]) {
        var g := LevelSetFile(levels[level], x);
        LevelSetHas(levels'[level], g, x);
      }
      if x in f.entries {
        LevelSetHas(levels'[level], f, x);
      }
    }
    hide LevelSet;
    forall x
      ensures x in LevelsSet(levels') <==> x in LevelsSet(levels) || x in EntrySet(f.entries)
    {
      if x in LevelsSet(levels') {
        var l :| 0 <= l < |levels'| && x in LevelSet(levels'[l]);
        assert x in LevelSet(levels[l]) || x in f.entries;
      }
      if x in LevelsSet(levels) {
        var l :| 0 <= l < |levels| && x in LevelSet(levels[l]);
        assert x in LevelSet(levels'[l]);
      }
      if x in EntrySet(f.entries) {
        assert x in LevelSet(levels'[level]);
      }
    }
  }

  /** A flushed table is newer than all it lies above, and shares no user key with what lies above it. */
  lemma FlushKeepsVersionOk(levels: seq<seq<File>>, level: nat, f: File, nextFile: nat, levels': seq<seq<File>>)
    requires VersionOk(levels) && NumbersOk(levels, nextFile)
    requires FileOk(f) && nextFile <= f.number
    requires SafeFlushLevel(levels, level, f.smallest.user, f.largest.user)
    requires NewerThan(EntrySet(f.entries), LevelsSet(levels))
    requires Flushed(levels, level, f, levels')
    ensures VersionOk(levels')
  {
    hide Ordered, SortedLevel, FileOk, Level0Ok, LevelSet, NewerThan;
    if level == 0 {
      FlushLevel0(levels, f, nextFile, levels');
    } else {
      FlushSortedLevel(levels[level], f, levels'[level]);
    }
    forall l, m | 0 <= l < m < |levels'|
      ensures NewerThan(LevelSet(levels'[l]), LevelSet(levels'[m]))
    {
      FlushStaysNewer(levels, level, f, levels', l, m);
    }
  }

  lemma FlushLevel0(levels: seq<seq<File>>, f: File, nextFile: nat, levels': seq<seq<File>>)
    requires VersionOk(levels) && NumbersOk(levels, nextFile)
    requires FileOk(f) && nextFile <= f.number
    requires NewerThan(EntrySet(f.entries), LevelsSet(levels))
    requires Flushed(levels, 0, f, levels')
    ensures Level0Ok(levels'[0])
  {
    hide FileOk, LevelSet;
    var files, files' := levels[0], levels'[0];
    forall i | 0 <= i < |files'|
      ensures FileOk(files'[i])
    {
      assert files'[i] == f || files'[i] in files;
      if files'[i] != f {
        Level0FileOk(files, files'[i]);
      }
    }
    forall i, j | 0 <= i < j < |files'|
      ensures files'[i].number != files'[j].number
    {
      assert ByKey(files'[i], files'[j]);
      assert files'[i] == f || files'[i] in levels[0];
      assert files'[j] == f || files'[j] in levels[0];
    }
    forall i, j | 0 <= i < |files'| && 0 <= j < |files'| && files'[i].number > files'[j].number
      ensures NewerThan(EntrySet(files'[i].entries), EntrySet(files'[j].entries))
    {
      assert files'[i] == f || files'[i] in levels[0];
      assert files'[j] == f || files'[j] in levels[0];
      FlushNewerFile(levels, f, files'[i], files'[j]);
    }
  }

  lemma FlushNewerFile(levels: seq<seq<File>>, f: File, a: File, b: File)
    requires VersionOk(levels) && NewerThan(EntrySet(f.entries), LevelsSet(levels))
    requires (a == f || a in levels[0]) && b in levels[0] && a.number > b.number
    ensures NewerThan(EntrySet(a.entries), EntrySet(b.entries))
  {
    if a in levels[0] {
      Level0Newer(levels[0], a, b);
    } else {
      forall y | y in EntrySet(b.entries)
        ensures y in LevelsSet(levels)
      {
        LevelSetHas(levels[0], b, y);
      }
    }
  }

  lemma FlushSortedLevel(files: seq<File>, f: File, files': seq<File>)
    requires SortedLevel(files) && FileOk(f) && Ordered(files')
    requires NoOverlap(files, Some(f.smallest.user), Some(f.largest.user))
    requires forall g :: g in files' <==> g == f || g in files
    ensures SortedLevel(files')
  {
    FileBounds(f);
    forall g | g in files
      ensures Separated(f, g) && Separated(g, f) && FileOk(g)
    {
      var i :| 0 <= i < |files| && files[i] == g;
      assert !Overlaps(files[i], Some(f.smallest.user), Some(f.largest.user));
    }
    forall a, b | a in files' && b in files' && a != b
      ensures Separated(a, b)
    {
      if a != f && b != f {
        SortedIsSeparated(files, a, b);
      }
    }
    SortedFromSeparated(files');
  }

  lemma FlushStaysNewer(levels: seq<seq<File>>, level: nat, f: File, levels': seq<seq<File>>, l: nat, m: nat)
    requires VersionOk(levels) && FileOk(f)
    requires SafeFlushLevel(levels, level, f.smallest.user, f.largest.user)
    requires NewerThan(EntrySet(f.entries), LevelsSet(levels))
    requires Flushed(levels, level, f, levels')
    requires l < m < |levels|
    ensures NewerThan(LevelSet(levels'[l]), LevelSet(levels'[m]))
  {
    hide LevelSet, Level0Ok, SortedLevel, Ordered;
    FlushedSets(levels, level, f, levels');
    VersionLevelsOk(levels);
    assert NewerThan(LevelSet(levels[l]), LevelSet(levels[m]));
    forall x, y | x in LevelSet(levels'[l]) && y in LevelSet(levels'[m]) && x.key.user == y.key.user
      ensures x.key.sequence > y.key.sequence
    {
      if x in LevelSet(levels[l]) && y !in LevelSet(levels[m]) {
        NoOverlapNoKey(levels[l], f, x, y);
      } else if x !in LevelSet(levels[l]) {
        assert x in EntrySet(f.entries);
        assert y in LevelsSet(levels);
      }
    }
  }

  lemma NoOverlapNoKey(files: seq<File>, f: File, x: Entry, y: Entry)
    requires forall g :: g in files ==> FileOk(g)
    requires FileOk(f) && NoOverlap(files, Some(f.smallest.user), Some(f.largest.user))
    requires x in LevelSet(files) && y in f.entries
    ensures x.key.user != y.key.user
  {
    var i :| 0 <= i < |files| && x in files[i].entries;
    FileBounds(f);
    FileBounds(files[i]);
    assert !Overlaps(files[i], Some(f.smallest.user), Some(f.largest.user));
  }
}
