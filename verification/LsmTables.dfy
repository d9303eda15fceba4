/** What the tables hold without the memtables: at every step of the database they answer as the part of
    the history that has been flushed. */
module LsmTables {
  import opened DbFormat
  import opened Wrappers
  import opened View
  import opened History
  import opened Version
  import opened VersionGet
  import opened CompactionInputs
  import opened CompactionWork
  import opened VersionBuilder
  import opened LevelReplace
  import opened LevelFlush
  import opened LsmCompact
  import opened Lsm
  import Recovery

  /** The tables answer every read as the history `flushed`. */
  ghost predicate TablesRight(levels: seq<seq<File>>, flushed: seq<Item>) {
    AllRecorded(LevelsSet(levels), flushed) && AllRight(LevelsSet(levels), flushed, |flushed|)
  }

  lemma NoTables(sys: System)
    requires Init(sys)
    ensures TablesRight(sys.db.levels, [])
  {
    hide LevelsSet, VersionOk, Ordered, NumbersOk;
    EmptyLevels(sys.db.levels, sys.db.nextFile);
  }

  /** A flush adds the operations of the immutable memtable. */
  lemma FlushTables(sys: System, level: nat, f: File, sys': System, flushed: seq<Item>, ops: seq<Op>)
    requires Inv(sys) && Next(sys, FlushStep(level, f), sys') && TablesRight(sys.db.levels, flushed)
    requires EntrySet(sys.db.imm.value) == Recovery.Logged({}, ops, |flushed|)
    ensures TablesRight(sys'.db.levels, flushed + ops)
  {
    hide VersionOk, LevelsSet, AllRight, Ordered, AllRecorded, Installed, FileOk, SafeFlushLevel, Flushed, NewerThan;
    var db, db' := sys.db, sys'.db;
    VersionLevelsOk(db.levels);
    InstalledIsFlushed(db.levels, level, f, db'.levels);
    FlushedSets(db.levels, level, f, db'.levels);
    Recovery.LoggedOver(LevelsSet(db.levels), {}, ops, |flushed|);
    assert LevelsSet(db.levels) + {} == LevelsSet(db.levels);
    Recovery.LoggedIsRight(LevelsSet(db.levels), flushed, ops, |flushed|);
    AllRightAbove(LevelsSet(db'.levels), flushed + ops, |flushed|, |flushed + ops|);
  }

  lemma MoveTables(sys: System, c: Compaction, sys': System, flushed: seq<Item>)
    requires Inv(sys) && Next(sys, MoveStep(c), sys') && TablesRight(sys.db.levels, flushed)
    ensures TablesRight(sys'.db.levels, flushed)
  {
    hide VersionOk, AllRight, Ordered, Installed, IsCompaction, LevelsSet, LevelSet, Sorted, AllRecorded;
    var db, db' := sys.db, sys'.db;
    VersionLevelsOk(db.levels);
    MoveFits(db.levels, c, db.nextFile);
    ReplacedFacts(db.levels, c, c.inputs0, db.nextFile, db.nextFile, db'.levels, sys.history, Contents(db));
    ContentsBefore(db.levels, c);
    ContentsAfter(db.levels, c, c.inputs0, db'.levels);
    assert LevelSet(c.inputs1) == {} by { EmptyLevelSet(c.inputs1); }
    assert LevelsSet(db'.levels) == LevelsSet(db.levels);
  }

  /** Merging these inputs uncovers no older value in the tables, not even one that a memtable hides. */
  ghost predicate TablesHarmless(sys: System, c: Compaction) {
    forall es, i: nat, y :: IsInputMerge(c, es) ==>
      !Resurrects(sys.db.levels, c.level, SmallestSnapshot(sys.db), es, LevelsSet(sys.db.levels) - EntrySet(es), i, y)
  }

  /** What a compaction uncovers it uncovers in the tables. */
  lemma TablesHarmlessIsHarmless(sys: System, c: Compaction)
    requires Inv(sys) && IsCompaction(sys.db.levels, c) && TablesHarmless(sys, c)
    ensures Harmless(sys, c)
  {
    hide Inv, IsCompaction, TablesHarmless, Resurrects, Contents, LevelsSet;
    forall es, i: nat, y | IsInputMerge(c, es)
      ensures !Resurrects(sys.db.levels, c.level, SmallestSnapshot(sys.db), es, Contents(sys.db) - EntrySet(es), i, y)
    {
      if Resurrects(sys.db.levels, c.level, SmallestSnapshot(sys.db), es, Contents(sys.db) - EntrySet(es), i, y) {
        ResurrectedInTables(sys, c, es, i, y);
        assert TablesHarmless(sys, c);
        NotUncovered(sys, c, es, i, y);
      }
    }
  }

  lemma NotUncovered(sys: System, c: Compaction, es: seq<Entry>, i: nat, y: Entry)
    requires TablesHarmless(sys, c) && IsInputMerge(c, es)
    ensures !Resurrects(sys.db.levels, c.level, SmallestSnapshot(sys.db), es, LevelsSet(sys.db.levels) - EntrySet(es), i, y)
  {
    hide Resurrects, LevelsSet;
  }

  lemma ResurrectedInTables(sys: System, c: Compaction, es: seq<Entry>, i: nat, y: Entry)
    requires Inv(sys) && IsCompaction(sys.db.levels, c) && IsInputMerge(c, es)
    requires Resurrects(sys.db.levels, c.level, SmallestSnapshot(sys.db), es, Contents(sys.db) - EntrySet(es), i, y)
    ensures Resurrects(sys.db.levels, c.level, SmallestSnapshot(sys.db), es, LevelsSet(sys.db.levels) - EntrySet(es), i, y)
  {
    hide VersionOk, AllRight, Ordered, IsCompaction, LevelsSet, LevelSet, Sorted, NumbersOk, AllRecorded, BaseLevel, DroppedTombstone;
    VersionLevelsOk(sys.db.levels);
    ContentsBefore(sys.db.levels, c);
    assert es[i] in EntrySet(es);
    assert es[i] in LevelsSet(sys.db.levels);
  }

  lemma GuardSufficesForTables(sys: System, c: Compaction)
    requires Inv(sys) && IsCompaction(sys.db.levels, c) && NoSplitUserKey(sys.db.levels, c)
    ensures TablesHarmless(sys, c)
  {
    hide Inv, IsCompaction, Resurrects, Contents, IsInputMerge, LevelsSet;
    forall es, i: nat, y | IsInputMerge(c, es)
      ensures !Resurrects(sys.db.levels, c.level, SmallestSnapshot(sys.db), es, LevelsSet(sys.db.levels) - EntrySet(es), i, y)
    {
      if Resurrects(sys.db.levels, c.level, SmallestSnapshot(sys.db), es, LevelsSet(sys.db.levels) - EntrySet(es), i, y) {
        UncoveredIsSplit(sys, c, es, i, y);
      }
    }
  }

  lemma UncoveredIsSplit(sys: System, c: Compaction, es: seq<Entry>, i: nat, y: Entry)
    requires Inv(sys) && IsCompaction(sys.db.levels, c) && IsInputMerge(c, es)
    requires Resurrects(sys.db.levels, c.level, SmallestSnapshot(sys.db), es, LevelsSet(sys.db.levels) - EntrySet(es), i, y)
    ensures c.level + 1 < |sys.db.levels| && exists f, g :: SplitKey(sys.db.levels, c, f, g, y.key.user) && y in g.entries
  {
    hide VersionOk, AllRight, Ordered, IsCompaction, LevelsSet, LevelSet, Sorted, NumbersOk, AllRecorded, BaseLevel, InLeftOut, SplitKey;
    var db := sys.db;
    VersionLevelsOk(db.levels);
    CompactionMembers(db.levels, c);
    RecordedUnique(LevelsSet(db.levels), sys.history) by { RecordedPart(sys); }
    ContentsBefore(db.levels, c);
    assert es[i] in EntrySet(es);
    LeftOutIsSafe(db.levels, c, y, es[i]);
  }

  /** With all entries visible, it makes no difference at which sequence number one reads. */
  lemma AnswerAbove(entries: set<Entry>, user: UserKey, s: nat, t: nat, a: Option<Value>)
    requires forall x :: x in entries ==> x.key.sequence <= s && x.key.sequence <= t
    requires Answer(entries, user, s, a)
    ensures Answer(entries, user, t, a)
  {
    forall e | Newest(entries, user, t, e)
      ensures a == Outcome(e)
    {
      assert Newest(entries, user, s, e);
    }
  }

  /** The inputs have one merge. */
  lemma OneMerge(sys: System, c: Compaction, es: seq<Entry>)
    requires IsInputMerge(c, es)
    ensures TablesHarmless(sys, c) <==>
            forall i: nat, y :: !Resurrects(sys.db.levels, c.level, SmallestSnapshot(sys.db), es, LevelsSet(sys.db.levels) - EntrySet(es), i, y)
  {
    hide Resurrects, LevelsSet, LevelSet, Sorted;
    forall other | IsInputMerge(c, other)
      ensures other == es
    {
      assert forall x :: x in es <==> x in EntrySet(es);
      assert forall x :: x in other <==> x in EntrySet(other);
      SortedUnique(es, other);
    }
  }

  /** A compaction keeps every answer of the tables, at the smallest snapshot and above, exactly when it is
      harmless in them. */
  lemma CompactTablesExact(sys: System, c: Compaction, outputs: seq<File>, next: nat, sys': System)
    requires Inv(sys) && Next(sys, CompactStep(c, outputs, next), sys')
    ensures PreservesView(LevelsSet(sys.db.levels), LevelsSet(sys'.db.levels), SmallestSnapshot(sys.db)) <==> TablesHarmless(sys, c)
    ensures LevelsSet(sys'.db.levels) <= LevelsSet(sys.db.levels)
  {
    hide Inv, Compacted, IsCompaction, Resurrects, Contents, Sorted, LevelsSet, TablesHarmless, PreservesView, Kept, IsInputMerge;
    var es :| Compacted(sys, c, es, outputs, next, sys');
    CompactedMerge(sys, c, es, outputs, next, sys');
    OneMerge(sys, c, es);
    CompactedLevels(sys, c, es, outputs, next, sys');
    RecordedPart(sys);
    RecordedUnique(LevelsSet(sys.db.levels), sys.history);
    SnapshotBelowMax(sys);
    DropRulesExact(sys.db.levels, c.level, SmallestSnapshot(sys.db), es, LevelsSet(sys.db.levels) - EntrySet(es));
  }

  /** A compaction that is harmless to the tables keeps what they answer. */
  lemma CompactTables(sys: System, c: Compaction, outputs: seq<File>, next: nat, sys': System, flushed: seq<Item>)
    requires Inv(sys) && Next(sys, CompactStep(c, outputs, next), sys') && TablesHarmless(sys, c)
    requires TablesRight(sys.db.levels, flushed)
    ensures TablesRight(sys'.db.levels, flushed)
  {
    hide Inv, Next, LevelsSet, AllRight, AllRecorded, TablesHarmless, PreservesView;
    CompactTablesExact(sys, c, outputs, next, sys');
    ViewKept(LevelsSet(sys.db.levels), LevelsSet(sys'.db.levels), SmallestSnapshot(sys.db), flushed);
  }

  /** The memtables hold only what was written after the first `flushed` operations. */
  ghost predicate MemAbove(db: Db, flushed: nat) {
    forall x :: x in EntrySet(db.mem) || x in ImmSet(db) ==> flushed < x.key.sequence
  }

  /** What a compaction uncovers in the tables below the memtables, readers see. */
  lemma UncoveredIsSeen(sys: System, c: Compaction, es: seq<Entry>, i: nat, y: Entry, flushed: nat)
    requires MemAbove(sys.db, flushed) && SmallestSnapshot(sys.db) <= flushed
    requires y !in es && Resurrects(sys.db.levels, c.level, SmallestSnapshot(sys.db), es, LevelsSet(sys.db.levels) - EntrySet(es), i, y)
    ensures Resurrects(sys.db.levels, c.level, SmallestSnapshot(sys.db), es, Contents(sys.db) - EntrySet(es), i, y)
  {
    hide LevelsSet, ImmSet, BaseLevel;
  }

  /** Together: after a compaction the invariant holds and the tables still answer as what was flushed if
      and only if it was harmless in the tables. */
  lemma TablesExact(sys: System, c: Compaction, outputs: seq<File>, next: nat, sys': System, flushed: seq<Item>)
    requires Inv(sys) && Next(sys, CompactStep(c, outputs, next), sys')
    requires TablesRight(sys.db.levels, flushed) && MemAbove(sys.db, |flushed|)
    ensures Inv(sys') && TablesRight(sys'.db.levels, flushed) <==> TablesHarmless(sys, c)
  {
    hide Inv, Compacted, IsCompaction, LevelsSet, AllRight, AllRecorded, TablesHarmless, Harmless, PreservesView, MemAbove;
    var smallest := SmallestSnapshot(sys.db);
    NextExact(sys, CompactStep(c, outputs, next), sys');
    if TablesHarmless(sys, c) {
      TablesHarmlessIsHarmless(sys, c);
      CompactTables(sys, c, outputs, next, sys', flushed);
    } else if smallest <= |flushed| {
      if Harmless(sys, c) {
        HarmlessInTables(sys, c, |flushed|);
      }
    } else {
      CompactTablesExact(sys, c, outputs, next, sys');
      if TablesRight(sys'.db.levels, flushed) {
        AllRightAbove(LevelsSet(sys.db.levels), flushed, |flushed|, smallest);
        AllRightAbove(LevelsSet(sys'.db.levels), flushed, |flushed|, smallest);
        RightIsPreserved(LevelsSet(sys.db.levels), LevelsSet(sys'.db.levels), smallest, flushed);
      }
    }
  }

  lemma HarmlessInTables(sys: System, c: Compaction, flushed: nat)
    requires MemAbove(sys.db, flushed) && SmallestSnapshot(sys.db) <= flushed && Harmless(sys, c)
    ensures TablesHarmless(sys, c)
  {
    hide Resurrects, Contents, LevelsSet, MemAbove, IsInputMerge, Harmless;
    forall es, i: nat, y | IsInputMerge(c, es)
      ensures !Resurrects(sys.db.levels, c.level, SmallestSnapshot(sys.db), es, LevelsSet(sys.db.levels) - EntrySet(es), i, y)
    {
      if Resurrects(sys.db.levels, c.level, SmallestSnapshot(sys.db), es, LevelsSet(sys.db.levels) - EntrySet(es), i, y) {
        UncoveredIsLeft(sys, c, es, i, y);
        UncoveredIsSeen(sys, c, es, i, y, flushed);
        NoHarm(sys, c, es, i, y);
      }
    }
  }

  lemma UncoveredIsLeft(sys: System, c: Compaction, es: seq<Entry>, i: nat, y: Entry)
    requires Resurrects(sys.db.levels, c.level, SmallestSnapshot(sys.db), es, LevelsSet(sys.db.levels) - EntrySet(es), i, y)
    ensures y !in es
  {
    hide LevelsSet, DroppedTombstone;
  }

  lemma NoHarm(sys: System, c: Compaction, es: seq<Entry>, i: nat, y: Entry)
    requires Harmless(sys, c) && IsInputMerge(c, es)
    ensures !Resurrects(sys.db.levels, c.level, SmallestSnapshot(sys.db), es, Contents(sys.db) - EntrySet(es), i, y)
  {
    hide Resurrects, Contents;
  }

  lemma SnapshotBelowMax(sys: System)
    requires Inv(sys)
    ensures SmallestSnapshot(sys.db) < MAX_SEQUENCE
  {
    hide FilesOk, TablesOk, AllRecorded, AllRight;
  }

  lemma ViewKept(before: set<Entry>, after: set<Entry>, smallest: nat, flushed: seq<Item>)
    requires AllRecorded(before, flushed) && AllRight(before, flushed, |flushed|) && after <= before && PreservesView(before, after, smallest)
    ensures AllRecorded(after, flushed) && AllRight(after, flushed, |flushed|)
  {
    hide Answer;
    forall user, s | |flushed| <= s
      ensures Answer(after, user, s, Expected(flushed, user, s))
    {
      var t := if s < smallest then smallest else s;
      assert Answer(before, user, t, Expected(flushed, user, t));
      assert Expected(flushed, user, t) == Expected(flushed, user, s);
      AnswerAbove(after, user, t, s, Expected(flushed, user, s));
    }
  }

  /** What a compaction makes of the tables. */
  lemma CompactedLevels(sys: System, c: Compaction, es: seq<Entry>, outputs: seq<File>, next: nat, sys': System)
    requires Inv(sys) && IsCompaction(sys.db.levels, c) && Compacted(sys, c, es, outputs, next, sys')
    ensures var rest := LevelsSet(sys.db.levels) - EntrySet(es);
            && EntrySet(es) + rest == LevelsSet(sys.db.levels) && Sorted(es)
            && LevelsSet(sys'.db.levels) == EntriesAfter(sys.db.levels, c.level, SmallestSnapshot(sys.db), es, rest)
    ensures LevelsSet(sys'.db.levels) <= LevelsSet(sys.db.levels)
  {
    hide VersionOk, AllRight, Ordered, Installed, IsCompaction, LevelsSet, LevelSet, Sorted, Kept, Flat, OutputsOk, NumbersOk,
         OutputsFit, OutputNumbersOk, Replaced, NewerThan, AllRecorded, InLeftOut;
    var db, db' := sys.db, sys'.db;
    VersionLevelsOk(db.levels);
    OutputsOfMergeFit(db.levels, c, outputs, es, SmallestSnapshot(db), db.nextFile, next);
    FreshNumbersOk(db.levels, c, outputs, db.nextFile, next);
    ReplacedFacts(db.levels, c, outputs, db.nextFile, next, db'.levels, sys.history, Contents(db));
    ContentsBefore(db.levels, c);
    ContentsAfter(db.levels, c, outputs, db'.levels);
    forall x | InLeftOut(db.levels, c, x)
      ensures x !in EntrySet(es)
    {
      LeftOutIsDisjoint(db.levels, c, x);
    }
    assert LevelsSet(db'.levels) == LevelSet(outputs) + (LevelsSet(db.levels) - EntrySet(es));
  }
}
