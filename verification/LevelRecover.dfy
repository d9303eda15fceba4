/** The tables of replayed memtables (db/db_impl.cc: RecoverLogFile, WriteLevel0Table without a base version):
    all go to level 0, and the version stays in order. */
module LevelRecover {
  import opened DbFormat
  import opened Version
  import opened VersionGet
  import opened VersionBuilder
  import opened LevelReplace
  import opened LevelFlush
  import opened Lsm
  import R = Recovery

  /** Sorted, oldest first, with sequence numbers above `low` up to `high`. */
  ghost predicate MemsOk(mems: seq<seq<Entry>>, low: nat, high: nat) {
    && (forall i :: 0 <= i < |mems| ==> Sorted(mems[i]))
    && (forall i, x :: 0 <= i < |mems| && x in mems[i] ==> low < x.key.sequence <= high)
    && (forall i, j :: 0 <= i < j < |mems| ==> R.Older(mems[i], mems[j]))
  }

  /** WriteLevel0Table for each memtable in turn: files with ascending numbers; an empty memtable gives none. */
  ghost predicate TablesOf(mems: seq<seq<Entry>>, files: seq<File>, first: nat, next: nat) {
    if mems == [] then files == [] && first <= next
    else if mems[|mems| - 1] == [] then TablesOf(mems[..|mems| - 1], files, first, next)
    else
      && files != []
      && var f := files[|files| - 1];
         && FileOk(f) && f.entries == mems[|mems| - 1] && f.number < next
         && TablesOf(mems[..|mems| - 1], files[..|files| - 1], first, f.number)
  }

  /** The edit that adds the files to level 0. */
  function Level0Edit(files: seq<File>): FileEdit {
    FileEdit({}, seq(|files|, i requires 0 <= i < |files| => (0, files[i])))
  }

  lemma Level0Adds(files: seq<File>)
    ensures forall l: nat, f :: (l, f) in Level0Edit(files).added <==> l == 0 && f in files
  {
    var added := Level0Edit(files).added;
    forall f | f in files
      ensures (0, f) in added
    {
      var i :| 0 <= i < |files| && files[i] == f;
      assert added[i] == (0, f);
    }
  }

  lemma NothingInstalled(levels: seq<seq<File>>)
    requires VersionOk(levels) && Ordered(levels[0])
    ensures Installed(levels, Level0Edit([]), levels)
  {
    hide Level0Ok, NewerThan, LevelSet, SortedLevel;
    VersionLevelsOk(levels);
    forall l | 0 <= l < |levels|
      ensures Ordered(levels[l])
    {
      if l > 0 {
        SortedIsOrdered(levels[l]);
      }
    }
  }

  /** One more file in level 0. */
  lemma OneMoreInstalled(levels: seq<seq<File>>, files: seq<File>, levels1: seq<seq<File>>, levels': seq<seq<File>>)
    requires 0 < |levels| && files != [] && Installed(levels, Level0Edit(files[..|files| - 1]), levels1)
    requires Flushed(levels1, 0, files[|files| - 1], levels')
    ensures Installed(levels, Level0Edit(files), levels')
  {
    hide Ordered;
    var front, f := files[..|files| - 1], files[|files| - 1];
    Level0Adds(front);
    Level0Adds(files);
    assert files == front + [f];
    forall l | 0 <= l < |levels|
      ensures LevelInstalled(levels[l], Level0Edit(files), l, levels'[l])
    {
      assert LevelInstalled(levels[l], Level0Edit(front), l, levels1[l]);
      assert DeletedAt(Level0Edit(files), l) == {} == DeletedAt(Level0Edit(front), l);
    }
  }

  lemma InsertIsFlushed(levels: seq<seq<File>>, f: File, nextFile: nat)
    requires VersionOk(levels) && Ordered(levels[0]) && NumbersOk(levels, nextFile) && nextFile <= f.number
    ensures Flushed(levels, 0, f, levels[0 := Insert(f, levels[0])])
  {
    hide Level0Ok, NewerThan, LevelSet, Insert, SamePlace, Ordered;
    NothingInstalled(levels);
    forall g | g in levels[0]
      ensures !SamePlace(f, g)
    {
      SamePlaceSameNumber(f, g);
    }
    forall l | 0 <= l < |levels|
      ensures Ordered(levels[l])
    {
      assert LevelInstalled(levels[l], Level0Edit([]), l, levels[l]);
    }
  }

  lemma MemsFront(mems: seq<seq<Entry>>, low: nat, high: nat)
    requires MemsOk(mems, low, high) && mems != []
    ensures MemsOk(mems[..|mems| - 1], low, high)
    ensures R.TableEntries(mems) == R.TableEntries(mems[..|mems| - 1]) + EntrySet(mems[|mems| - 1])
  {
    hide Sorted, R.Older;
    assert mems == mems[..|mems| - 1] + [mems[|mems| - 1]];
    R.TablesSnoc(mems[..|mems| - 1], mems[|mems| - 1]);
  }

  /** The last memtable is newer than all before it and than the tables. */
  lemma LastIsNewer(mems: seq<seq<Entry>>, low: nat, high: nat, tables: set<Entry>)
    requires MemsOk(mems, low, high) && mems != [] && forall x :: x in tables ==> x.key.sequence <= low
    ensures NewerThan(EntrySet(mems[|mems| - 1]), tables + R.TableEntries(mems[..|mems| - 1]))
  {
    hide Sorted;
    var front, last := mems[..|mems| - 1], mems[|mems| - 1];
    forall i | 0 <= i < |front|
      ensures R.Older(front[i], last)
    {
      assert front[i] == mems[i];
    }
  }

  lemma NumbersAbove(levels: seq<seq<File>>, n: nat, n': nat)
    requires NumbersOk(levels, n) && n <= n'
    ensures NumbersOk(levels, n')
  {
  }

  lemma {:induction false} TablesInOrder(mems: seq<seq<Entry>>, files: seq<File>, first: nat, next: nat)
    requires TablesOf(mems, files, first, next)
    ensures first <= next && |files| <= |mems|
    ensures forall i :: 0 <= i < |files| ==> first <= files[i].number < next
    ensures forall i, j :: 0 <= i < j < |files| ==> files[i].number < files[j].number
  {
    hide FileOk;
    if mems != [] {
      if mems[|mems| - 1] == [] {
        TablesInOrder(mems[..|mems| - 1], files, first, next);
      } else {
        TablesInOrder(mems[..|mems| - 1], files[..|files| - 1], first, files[|files| - 1].number);
      }
    }
  }

  /** The tables added to level 0 give a version in order that holds what the memtables held. */
  lemma {:induction false} TablesAdded(levels: seq<seq<File>>, mems: seq<seq<Entry>>, files: seq<File>, first: nat, next: nat, low: nat, high: nat)
    returns (levels': seq<seq<File>>)
    requires VersionOk(levels) && Ordered(levels[0]) && NumbersOk(levels, first)
    requires MemsOk(mems, low, high) && TablesOf(mems, files, first, next)
    requires forall x :: x in LevelsSet(levels) ==> x.key.sequence <= low
    ensures Installed(levels, Level0Edit(files), levels')
    ensures VersionOk(levels') && Ordered(levels'[0]) && NumbersOk(levels', next)
    ensures LevelsSet(levels') == LevelsSet(levels) + R.TableEntries(mems)
  {
    hide VersionOk, Ordered, NumbersOk, MemsOk, FileOk, LevelsSet, Level0Edit, NewerThan, Flushed, R.TableEntries, Installed;
    if mems == [] {
      levels' := levels;
      NothingInstalled(levels);
      NumbersAbove(levels, first, next);
      NoEntries();
    } else {
      MemsFront(mems, low, high);
      if mems[|mems| - 1] == [] {
        levels' := TablesAdded(levels, mems[..|mems| - 1], files, first, next, low, high);
        NoEntries();
      } else {
        var f := files[|files| - 1];
        var levels1 := TablesAdded(levels, mems[..|mems| - 1], files[..|files| - 1], first, f.number, low, high);
        LastIsNewer(mems, low, high, LevelsSet(levels));
        levels' := AddTable(levels1, f);
        HasLevels(levels);
        OneMoreInstalled(levels, files, levels1, levels');
        NumbersAbove(levels', f.number + 1, next);
      }
    }
  }

  lemma NoEntries()
    ensures R.TableEntries([]) == {} && EntrySet([]) == {}
  {
  }

  lemma HasLevels(levels: seq<seq<File>>)
    requires VersionOk(levels)
    ensures |levels| == NUM_LEVELS
  {
    hide Level0Ok, NewerThan, LevelSet, SortedLevel;
  }

  lemma AddTable(levels: seq<seq<File>>, f: File) returns (levels': seq<seq<File>>)
    requires VersionOk(levels) && Ordered(levels[0]) && NumbersOk(levels, f.number)
    requires FileOk(f) && NewerThan(EntrySet(f.entries), LevelsSet(levels))
    ensures Flushed(levels, 0, f, levels') && VersionOk(levels') && Ordered(levels'[0]) && NumbersOk(levels', f.number + 1)
    ensures LevelsSet(levels') == LevelsSet(levels) + EntrySet(f.entries)
  {
    hide Ordered, NumbersOk, FileOk, LevelsSet, NewerThan, Flushed, Level0Ok, SortedLevel, LevelSet, EntrySet, Insert;
    levels' := levels[0 := Insert(f, levels[0])];
    InsertIsFlushed(levels, f, f.number);
    SafeAtLevel0(levels, f);
    FlushKeepsVersionOk(levels, 0, f, f.number, levels');
    FlushedSets(levels, 0, f, levels');
    FlushKeepsNumbers(levels, 0, f, f.number, levels');
  }

  lemma SafeAtLevel0(levels: seq<seq<File>>, f: File)
    requires |levels| == NUM_LEVELS
    ensures SafeFlushLevel(levels, 0, f.smallest.user, f.largest.user)
  {
  }
}
