/** Why a compaction leaves every answer unchanged: the entries that are not compacted are safe. */
module LsmCompact {
  import opened DbFormat
  import opened Wrappers
  import opened Version
  import opened VersionGet
  import opened CompactionInputs
  import opened CompactionWork
  import opened VersionBuilder
  import opened LevelReplace

  ghost predicate LeftOutFile(levels: seq<seq<File>>, c: Compaction, l: nat, f: File) {
    && l < |levels| && f in levels[l]
    && !(l == c.level && f in c.inputs0) && !(l == c.level + 1 && f in c.inputs1)
  }

  /** The entry stands in a file that the compaction does not take. */
  ghost predicate InLeftOut(levels: seq<seq<File>>, c: Compaction, x: Entry) {
    exists l: nat, f :: LeftOutFile(levels, c, l, f) && x in f.entries
  }

  lemma LevelsSetHas(levels: seq<seq<File>>, l: nat, f: File, x: Entry)
    requires l < |levels| && f in levels[l] && x in f.entries
    ensures x in LevelsSet(levels)
  {
    LevelSetHas(levels[l], f, x);
  }

  lemma LevelsSetFile(levels: seq<seq<File>>, x: Entry) returns (l: nat, f: File)
    requires x in LevelsSet(levels)
    ensures l < |levels| && f in levels[l] && x in f.entries && x in LevelSet(levels[l])
  {
    var k :| 0 <= k < |levels| && x in LevelSet(levels[k]);
    l := k;
    f := LevelSetFile(levels[l], x);
  }

  /** Before the compaction the levels hold the inputs' entries and those left out. */
  lemma ContentsBefore(levels: seq<seq<File>>, c: Compaction)
    requires LevelsOk(levels) && IsCompaction(levels, c)
    ensures forall x :: x in LevelsSet(levels) <==> x in LevelSet(c.inputs0) || x in LevelSet(c.inputs1) || InLeftOut(levels, c, x)
  {
    hide LevelSet, LevelsSet, IsCompaction;
    CompactionMembers(levels, c);
    forall x
      ensures x in LevelsSet(levels) <==> x in LevelSet(c.inputs0) || x in LevelSet(c.inputs1) || InLeftOut(levels, c, x)
    {
      if x in LevelsSet(levels) {
        var l, f := LevelsSetFile(levels, x);
        if l == c.level && f in c.inputs0 {
          LevelSetHas(c.inputs0, f, x);
        } else if l == c.level + 1 && f in c.inputs1 {
          LevelSetHas(c.inputs1, f, x);
        } else {
          assert LeftOutFile(levels, c, l, f);
        }
      }
      if x in LevelSet(c.inputs0) {
        var f := LevelSetFile(c.inputs0, x);
        LevelsSetHas(levels, c.level, f, x);
      }
      if x in LevelSet(c.inputs1) {
        var f := LevelSetFile(c.inputs1, x);
        LevelsSetHas(levels, c.level + 1, f, x);
      }
      if InLeftOut(levels, c, x) {
        var l: nat, f :| LeftOutFile(levels, c, l, f) && x in f.entries;
        LevelsSetHas(levels, l, f, x);
      }
    }
  }

  /** Afterwards they hold the outputs' entries and those left out. */
  lemma ContentsAfter(levels: seq<seq<File>>, c: Compaction, outputs: seq<File>, levels': seq<seq<File>>)
    requires Replaced(levels, c, outputs, levels')
    ensures forall x :: x in LevelsSet(levels') <==> x in LevelSet(outputs) || InLeftOut(levels, c, x)
  {
    hide LevelSet, LevelsSet, Ordered;
    forall x
      ensures x in LevelsSet(levels') <==> x in LevelSet(outputs) || InLeftOut(levels, c, x)
    {
      if x in LevelsSet(levels') {
        var l, f := LevelsSetFile(levels', x);
        if l == c.level + 1 && f in outputs {
          LevelSetHas(outputs, f, x);
        } else {
          assert LeftOutFile(levels, c, l, f);
        }
      }
      if x in LevelSet(outputs) {
        var f := LevelSetFile(outputs, x);
        LevelsSetHas(levels', c.level + 1, f, x);
      }
      if InLeftOut(levels, c, x) {
        var l: nat, f :| LeftOutFile(levels, c, l, f) && x in f.entries;
        LevelsSetHas(levels', l, f, x);
      }
    }
  }

  /** No entry stands both in an input and in a file left out. */
  lemma LeftOutIsDisjoint(levels: seq<seq<File>>, c: Compaction, x: Entry)
    requires VersionOk(levels) && IsCompaction(levels, c)
    requires InLeftOut(levels, c, x)
    ensures x !in LevelSet(c.inputs0) && x !in LevelSet(c.inputs1)
  {
    hide LevelSet, VersionOk, IsCompaction, FileOk, SortedLevel;
    VersionLevelsOk(levels);
    CompactionMembers(levels, c);
    var l: nat, f :| LeftOutFile(levels, c, l, f) && x in f.entries;
    LevelSetHas(levels[l], f, x);
    if x in LevelSet(c.inputs0) {
      var g := LevelSetFile(c.inputs0, x);
      LevelSetHas(levels[c.level], g, x);
      SameEntrySameLevel(levels, l, c.level, x);
      NotInBoth0(levels, c, f, g, x);
    }
    if x in LevelSet(c.inputs1) {
      var g := LevelSetFile(c.inputs1, x);
      LevelSetHas(levels[c.level + 1], g, x);
      SameEntrySameLevel(levels, l, c.level + 1, x);
      NotInBoth(levels[l], f, g, x);
    }
  }

  lemma NotInBoth0(levels: seq<seq<File>>, c: Compaction, f: File, g: File, x: Entry)
    requires LevelsOk(levels) && IsCompaction(levels, c)
    requires f in levels[c.level] && f !in c.inputs0 && g in c.inputs0 && x in g.entries
    ensures x !in f.entries
  {
    hide FileOk, SortedLevel, Chosen, TakesOverlap;
    if x in f.entries {
      ChosenLeftOut(levels[c.level], c.level, c.inputs0, f, g, x, x);
    }
  }

  lemma NotInBoth(files: seq<File>, f: File, g: File, x: Entry)
    requires SortedLevel(files) && f in files && g in files && f != g && x in g.entries
    ensures x !in f.entries
  {
    SortedIsSeparated(files, f, g);
    FileBounds(f);
    FileBounds(g);
  }

  lemma SameEntrySameLevel(levels: seq<seq<File>>, l: nat, m: nat, x: Entry)
    requires VersionOk(levels) && l < |levels| && m < |levels|
    requires x in LevelSet(levels[l]) && x in LevelSet(levels[m])
    ensures l == m
  {
    hide LevelSet, Level0Ok, SortedLevel;
  }

  /** The user key stands both in a level + 1 input and in a level + 1 file that is left out. */
  ghost predicate SplitKey(levels: seq<seq<File>>, c: Compaction, f: File, g: File, user: UserKey)
    requires c.level + 1 < |levels|
  {
    && f in c.inputs1 && g in levels[c.level + 1] && g !in c.inputs1
    && f.smallest.user <= user <= f.largest.user && g.smallest.user <= user <= g.largest.user
  }

  /** The guard of the compaction step: no level + 1 file that is left out shares a user key with one
      that is taken. */
  ghost predicate NoSplitUserKey(levels: seq<seq<File>>, c: Compaction)
    requires c.level + 1 < |levels|
  {
    forall f, g :: f in c.inputs1 && g in levels[c.level + 1] && g !in c.inputs1 ==>
      f.largest.user < g.smallest.user || g.largest.user < f.smallest.user
  }

  /** A level + 1 file left out shares a user key with an input only by splitting it. */
  lemma LeftOutSplitsKey(levels: seq<seq<File>>, c: Compaction, g: File, x: Entry, y: Entry)
    requires LevelsOk(levels) && IsCompaction(levels, c)
    requires g in levels[c.level + 1] && g !in c.inputs1 && x in g.entries
    requires y in LevelSet(c.inputs0) || y in LevelSet(c.inputs1)
    requires x.key.user == y.key.user
    ensures exists f :: SplitKey(levels, c, f, g, x.key.user)
  {
    hide LevelSet, FileOk, SortedLevel, IsCompaction;
    CompactionMembers(levels, c);
    if y in LevelSet(c.inputs1) {
      var f := LevelSetFile(c.inputs1, y);
      EntryKeyWithin(f, y);
      EntryKeyWithin(g, x);
      assert SplitKey(levels, c, f, g, x.key.user);
    } else {
      var f := LevelSetFile(c.inputs0, y);
      LeftOutMissesInputs(levels, c, g, f, x, y);
    }
  }

  lemma EntryKeyWithin(f: File, x: Entry)
    requires FileOk(f) && x in f.entries
    ensures f.smallest.user <= x.key.user <= f.largest.user
  {
    FileBounds(f);
  }

  /** GetOverlappingInputs takes every file with a user key of the level inputs. */
  lemma LeftOutMissesInputs(levels: seq<seq<File>>, c: Compaction, g: File, f: File, x: Entry, y: Entry)
    requires LevelsOk(levels) && IsCompaction(levels, c)
    requires g in levels[c.level + 1] && g !in c.inputs1 && x in g.entries
    requires f in c.inputs0 && y in f.entries
    ensures x.key.user != y.key.user
  {
    hide Overlapping, SortedLevel, Chosen;
    assert FileOk(f) by { CompactionMembers(levels, c); }
    EntryKeyWithin(f, y);
    EntryKeyWithin(g, x);
    var smallest, largest :|
      && IsSmallest(c.inputs0, smallest) && IsLargest(c.inputs0, largest)
      && c.inputs1 == Overlapping(levels[c.level + 1], Some(smallest.user), Some(largest.user));
    OverlappingMembers(levels[c.level + 1], Some(smallest.user), Some(largest.user));
  }

  /** A left-out entry of a compacted user key is newer, or lies where IsBaseLevelForKey looks, or in a
      level + 1 file that splits the user key. */
  lemma LeftOutIsSafe(levels: seq<seq<File>>, c: Compaction, x: Entry, y: Entry)
    requires VersionOk(levels) && IsCompaction(levels, c) && UniqueSequences(LevelsSet(levels))
    requires InLeftOut(levels, c, x) && (y in LevelSet(c.inputs0) || y in LevelSet(c.inputs1))
    requires x.key.user == y.key.user
    ensures || x.key.sequence > y.key.sequence
            || !BaseLevel(levels, c.level, x.key.user)
            || exists f, g :: SplitKey(levels, c, f, g, x.key.user) && x in g.entries
  {
    hide LevelSet, IsCompaction, Level0Ok, SortedLevel, SplitKey, UniqueSequences, FileOk;
    VersionLevelsOk(levels);
    CompactionMembers(levels, c);
    InputsInLevel(levels, c, y);
    var l: nat, f :| LeftOutFile(levels, c, l, f) && x in f.entries;
    LevelSetHas(levels[l], f, x);
    if l < c.level {
      assert NewerThan(LevelSet(levels[l]), LevelSet(levels[c.level]));
      assert NewerThan(LevelSet(levels[l]), LevelSet(levels[c.level + 1]));
    } else if l == c.level {
      if y in LevelSet(c.inputs0) {
        LeftOutIsNewer(levels, c, x, y);
      } else {
        assert NewerThan(LevelSet(levels[l]), LevelSet(levels[l + 1]));
      }
    } else if l == c.level + 1 {
      LeftOutSplitsKey(levels, c, f, x, y);
    } else {
      DeepFileCovers(levels, c.level, l, f, x);
    }
  }

  lemma DeepFileCovers(levels: seq<seq<File>>, level: nat, l: nat, f: File, x: Entry)
    requires LevelsOk(levels) && level + 2 <= l < |levels| && f in levels[l] && x in f.entries
    ensures !BaseLevel(levels, level, x.key.user)
  {
    FileBounds(f);
    var i :| 0 <= i < |levels[l]| && levels[l][i] == f;
    assert levels[l][i].smallest.user <= x.key.user <= levels[l][i].largest.user;
  }
}
