/** The database as a state machine (db/db_impl.cc): every run of its steps refines the plain
    history of writes. */
module Lsm {
  import opened DbFormat
  import opened Wrappers
  import opened View
  import opened History
  import opened Version
  import opened VersionGet
  import opened CompactionInputs
  import opened CompactionWork
  import opened VersionBuilder
  import opened LevelReplace
  import opened LevelFlush
  import opened LsmCompact

  /** mem_, imm_, the current version's files, the snapshot list (oldest first), LastSequence and
      next_file_number_. */
  datatype Db = Db(mem: seq<Entry>, imm: Option<seq<Entry>>, levels: seq<seq<File>>,
                   snapshots: seq<nat>, lastSequence: nat, nextFile: nat)

  /** A database together with the operations that were written to it. */
  datatype System = System(db: Db, history: seq<Item>)

  ghost function ImmSet(db: Db): set<Entry> {
    if db.imm.None? then {} else EntrySet(db.imm.value)
  }

  ghost function Contents(db: Db): set<Entry> {
    EntrySet(db.mem) + ImmSet(db) + LevelsSet(db.levels)
  }

  /** compact->smallest_snapshot: the oldest snapshot, or the last sequence number. */
  function SmallestSnapshot(db: Db): nat {
    if db.snapshots == [] then db.lastSequence else db.snapshots[0]
  }

  ghost predicate FilesOk(db: Db) {
    VersionOk(db.levels) && Ordered(db.levels[0]) && NumbersOk(db.levels, db.nextFile)
  }

  ghost predicate TablesOk(db: Db) {
    && Sorted(db.mem) && (db.imm.Some? ==> Sorted(db.imm.value))
    && NewerThan(EntrySet(db.mem), ImmSet(db) + LevelsSet(db.levels))
    && NewerThan(ImmSet(db), LevelsSet(db.levels))
  }

  ghost predicate SnapshotsOk(db: Db) {
    && (forall i, j :: 0 <= i < j < |db.snapshots| ==> db.snapshots[i] <= db.snapshots[j])
    && (forall i :: 0 <= i < |db.snapshots| ==> db.snapshots[i] <= db.lastSequence)
  }

  /** The invariant of every run. Its last part is the refinement: at every live snapshot, and at every
      sequence number from the smallest one on, each user key reads as in the plain history. */
  ghost predicate Inv(sys: System) {
    && FilesOk(sys.db) && TablesOk(sys.db) && SnapshotsOk(sys.db)
    && sys.db.lastSequence == |sys.history| < MAX_SEQUENCE
    && AllRecorded(Contents(sys.db), sys.history)
    && AllRight(Contents(sys.db), sys.history, SmallestSnapshot(sys.db))
  }

  /** The skip list's insertion. */
  function InsertEntry(es: seq<Entry>, e: Entry): seq<Entry> {
    var p := LowerBound(es, e.key);
    es[..p] + [e] + es[p..]
  }

  lemma InsertEntrySorted(es: seq<Entry>, e: Entry)
    requires Sorted(es) && forall x :: x in es ==> x.key != e.key
    ensures Sorted(InsertEntry(es, e))
    ensures EntrySet(InsertEntry(es, e)) == EntrySet(es) + {e}
  {
    var p := LowerBound(es, e.key);
    var r := InsertEntry(es, e);
    assert es == es[..p] + es[p..];
    forall x
      ensures x in r <==> x in es || x == e
    {
      assert x in es <==> x in es[..p] || x in es[p..];
    }
    InsertAtSorted(es, e, p);
  }

  /** WriteBatchInternal::InsertInto: operation by operation, at consecutive sequence numbers. */
  function InsertBatch(db: Db, batch: seq<Op>): Db
    decreases |batch|
  {
    if batch == [] then db else InsertBatch(AddOne(db, batch[0]), batch[1..])
  }

  function AddOne(db: Db, op: Op): Db {
    db.(mem := InsertEntry(db.mem, EntryOf(op, db.lastSequence + 1)), lastSequence := db.lastSequence + 1)
  }

  datatype Step =
    | WriteStep(batch: seq<Op>)
    | SwitchStep
    | FlushStep(level: nat, f: File)
    | DiscardStep
    | MoveStep(c: Compaction)
    | CompactStep(c: Compaction, outputs: seq<File>, next: nat)
    | SnapshotStep
    | ReleaseStep(i: nat)

  /** `es` is the merge of all entries of the compaction's inputs. */
  ghost predicate IsInputMerge(c: Compaction, es: seq<Entry>) {
    Sorted(es) && EntrySet(es) == LevelSet(c.inputs0) + LevelSet(c.inputs1)
  }

  /** DoCompactionWork and InstallCompactionResults, whatever the choice of inputs. */
  ghost predicate Compacted(sys: System, c: Compaction, es: seq<Entry>, outputs: seq<File>, next: nat, sys': System) {
    var db, db' := sys.db, sys'.db;
    && IsInputMerge(c, es)
    && Flat(outputs) == Kept(db.levels, c.level, SmallestSnapshot(db), es, |es|)
    && OutputsOk(outputs, db.nextFile, next) && db.nextFile <= next
    && Installed(db.levels, ReplaceEdit(c, outputs), db'.levels)
    && db' == db.(levels := db'.levels, nextFile := next) && sys'.history == sys.history
  }

  ghost predicate Next(sys: System, step: Step, sys': System) {
    var db, db' := sys.db, sys'.db;
    match step
    case WriteStep(batch) =>
      && |sys.history| + |batch| < MAX_SEQUENCE
      && db' == InsertBatch(db, batch) && sys'.history == sys.history + batch
    case SwitchStep =>
      && db.imm.None?
      && db' == db.(mem := [], imm := Some(db.mem), nextFile := db.nextFile + 1) && sys'.history == sys.history
    case FlushStep(level, f) =>
      && db.imm.Some? && FileOk(f) && f.entries == db.imm.value && f.number == db.nextFile
      && level < NUM_LEVELS && SafeFlushLevel(db.levels, level, f.smallest.user, f.largest.user)
      && Installed(db.levels, FlushEdit(level, f), db'.levels)
      && db' == db.(imm := None, levels := db'.levels, nextFile := db.nextFile + 1) && sys'.history == sys.history
    case DiscardStep =>
      && db.imm == Some([])
      && db' == db.(imm := None, nextFile := db.nextFile + 1) && sys'.history == sys.history
    case MoveStep(c) =>
      && IsCompaction(db.levels, c) && |c.inputs0| == 1 && c.inputs1 == []
      && Installed(db.levels, ReplaceEdit(c, c.inputs0), db'.levels)
      && db' == db.(levels := db'.levels) && sys'.history == sys.history
    case CompactStep(c, outputs, next) =>
      && IsCompaction(db.levels, c)
      && exists es :: Compacted(sys, c, es, outputs, next, sys')
    case SnapshotStep =>
      db' == db.(snapshots := db.snapshots + [db.lastSequence]) && sys'.history == sys.history
    case ReleaseStep(i) =>
      && i < |db.snapshots|
      && db' == db.(snapshots := db.snapshots[..i] + db.snapshots[i + 1..]) && sys'.history == sys.history
  }

  /** Merging these inputs by the drop rules uncovers no older value of a deleted key. */
  ghost predicate Harmless(sys: System, c: Compaction) {
    forall es, i: nat, y :: IsInputMerge(c, es) ==>
      !Resurrects(sys.db.levels, c.level, SmallestSnapshot(sys.db), es, Contents(sys.db) - EntrySet(es), i, y)
  }

  ghost predicate StepHarmless(sys: System, step: Step) {
    step.CompactStep? ==> Harmless(sys, step.c)
  }

  /** What readers can tell: at every live snapshot, and now, each user key reads as in the plain history. */
  ghost predicate ReadsRight(sys: System) {
    forall user, s :: s in sys.db.snapshots || s == sys.db.lastSequence ==>
      Answer(Contents(sys.db), user, s, Expected(sys.history, user, s))
  }

  ghost predicate Init(sys: System) {
    && sys.db.mem == [] && sys.db.imm == None && sys.db.snapshots == [] && sys.db.lastSequence == 0
    && |sys.db.levels| == NUM_LEVELS && (forall l :: 0 <= l < NUM_LEVELS ==> sys.db.levels[l] == [])
    && sys.history == []
  }

  lemma InitInv(sys: System)
    requires Init(sys)
    ensures Inv(sys)
  {
    hide LevelsSet, VersionOk, Ordered, NumbersOk;
    EmptyLevels(sys.db.levels, sys.db.nextFile);
    assert Contents(sys.db) == {};
  }

  lemma EmptyLevels(levels: seq<seq<File>>, nextFile: nat)
    requires |levels| == NUM_LEVELS && forall l :: 0 <= l < NUM_LEVELS ==> levels[l] == []
    ensures LevelsSet(levels) == {} && VersionOk(levels) && Ordered(levels[0]) && NumbersOk(levels, nextFile)
  {
    forall l | 0 <= l < NUM_LEVELS
      ensures LevelSet(levels[l]) == {} && SortedLevel(levels[l]) && Level0Ok(levels[l])
    {
    }
  }

  lemma AllRightAbove(entries: set<Entry>, history: seq<Item>, floor: nat, floor': nat)
    requires AllRight(entries, history, floor) && floor <= floor'
    ensures AllRight(entries, history, floor')
  {
  }

  lemma RecordedUnique(entries: set<Entry>, history: seq<Item>)
    requires AllRecorded(entries, history)
    ensures UniqueSequences(entries)
  {
  }

  lemma AddOneInv(sys: System, op: Op)
    requires Inv(sys) && |sys.history| + 1 < MAX_SEQUENCE
    ensures Inv(System(AddOne(sys.db, op), sys.history + [op]))
  {
    hide VersionOk, LevelsSet, AllRight, Sorted, InsertEntry, NumbersOk, Ordered;
    var db, h := sys.db, sys.history;
    var db' := AddOne(db, op);
    var e := EntryOf(op, |h| + 1);
    assert forall x :: x in Contents(db) ==> x.key.sequence <= |h|;
    InsertEntrySorted(db.mem, e);
    assert Contents(db') == Contents(db) + {e};
    AddOperation(Contents(db), h, SmallestSnapshot(db), op);
    AllRightAbove(Contents(db'), h + [op], SmallestSnapshot(db), SmallestSnapshot(db'));
  }

  lemma {:induction false} WriteInv(sys: System, batch: seq<Op>)
    requires Inv(sys) && |sys.history| + |batch| < MAX_SEQUENCE
    ensures Inv(System(InsertBatch(sys.db, batch), sys.history + batch))
    decreases |batch|
  {
    hide Inv, AddOne;
    if batch == [] {
      assert sys.history + batch == sys.history;
    } else {
      AddOneInv(sys, batch[0]);
      WriteInv(System(AddOne(sys.db, batch[0]), sys.history + [batch[0]]), batch[1..]);
      assert sys.history + [batch[0]] + batch[1..] == sys.history + batch;
    }
  }

  lemma SwitchInv(sys: System)
    requires Inv(sys) && sys.db.imm.None?
    ensures Inv(System(sys.db.(mem := [], imm := Some(sys.db.mem), nextFile := sys.db.nextFile + 1), sys.history))
  {
    hide VersionOk, LevelsSet, AllRight, Ordered, AllRecorded;
    var db' := sys.db.(mem := [], imm := Some(sys.db.mem), nextFile := sys.db.nextFile + 1);
    assert Contents(db') == Contents(sys.db);
  }

  lemma FlushInv(sys: System, level: nat, f: File, sys': System)
    requires Inv(sys) && Next(sys, FlushStep(level, f), sys')
    ensures Inv(sys')
  {
    hide VersionOk, LevelsSet, AllRight, Ordered, AllRecorded, Installed, FileOk, SafeFlushLevel, Flushed, NewerThan;
    var db, db' := sys.db, sys'.db;
    VersionLevelsOk(db.levels);
    InstalledIsFlushed(db.levels, level, f, db'.levels);
    PartsNewer(EntrySet(db.mem), ImmSet(db), LevelsSet(db.levels));
    FlushKeepsVersionOk(db.levels, level, f, db.nextFile, db'.levels);
    FlushedSets(db.levels, level, f, db'.levels);
    assert Contents(db') == Contents(db);
    assert ImmSet(db') + LevelsSet(db'.levels) == ImmSet(db) + LevelsSet(db.levels);
    assert ImmSet(db') == {};
    EmptyIsNewer(LevelsSet(db'.levels));
    FlushKeepsNumbers(db.levels, level, f, db.nextFile, db'.levels);
  }

  lemma PartsNewer(a: set<Entry>, b: set<Entry>, c: set<Entry>)
    requires NewerThan(a, b + c)
    ensures NewerThan(a, b) && NewerThan(a, c)
  {
  }

  lemma EmptyIsNewer(b: set<Entry>)
    ensures NewerThan({}, b)
  {
  }

  lemma FlushKeepsNumbers(levels: seq<seq<File>>, level: nat, f: File, nextFile: nat, levels': seq<seq<File>>)
    requires NumbersOk(levels, nextFile) && f.number == nextFile && Flushed(levels, level, f, levels')
    ensures NumbersOk(levels', nextFile + 1) && Ordered(levels'[0])
  {
    hide Ordered;
    forall l, g | 0 <= l < |levels'| && g in levels'[l]
      ensures (l == level && g == f) || g in levels[l]
    {
    }
  }

  lemma DiscardInv(sys: System)
    requires Inv(sys) && sys.db.imm == Some([])
    ensures Inv(System(sys.db.(imm := None, nextFile := sys.db.nextFile + 1), sys.history))
  {
    hide VersionOk, LevelsSet, AllRight, Ordered, AllRecorded;
    var db' := sys.db.(imm := None, nextFile := sys.db.nextFile + 1);
    assert Contents(db') == Contents(sys.db);
  }

  lemma SnapshotInv(sys: System)
    requires Inv(sys)
    ensures Inv(System(sys.db.(snapshots := sys.db.snapshots + [sys.db.lastSequence]), sys.history))
  {
    hide VersionOk, LevelsSet, AllRight, Ordered, AllRecorded, NewerThan, Sorted, NumbersOk;
    var db' := sys.db.(snapshots := sys.db.snapshots + [sys.db.lastSequence]);
    assert Contents(db') == Contents(sys.db);
  }

  lemma ReleaseInv(sys: System, i: nat)
    requires Inv(sys) && i < |sys.db.snapshots|
    ensures Inv(System(sys.db.(snapshots := sys.db.snapshots[..i] + sys.db.snapshots[i + 1..]), sys.history))
  {
    hide VersionOk, LevelsSet, AllRight, Ordered, AllRecorded, NewerThan, Sorted, NumbersOk;
    var db' := sys.db.(snapshots := sys.db.snapshots[..i] + sys.db.snapshots[i + 1..]);
    assert Contents(db') == Contents(sys.db);
    AllRightAbove(Contents(sys.db), sys.history, SmallestSnapshot(sys.db), SmallestSnapshot(db'));
  }

  /** What a replacement of files leaves of the other parts of the invariant. */
  lemma ReplaceInv(sys: System, c: Compaction, outputs: seq<File>, levels': seq<seq<File>>, nextFile': nat)
    requires Inv(sys) && IsCompaction(sys.db.levels, c) && OutputsFit(c, outputs)
    requires OutputNumbersOk(sys.db.levels, c, outputs) && sys.db.nextFile <= nextFile'
    requires forall o :: o in outputs ==> o.number < nextFile'
    requires Installed(sys.db.levels, ReplaceEdit(c, outputs), levels')
    requires var db' := sys.db.(levels := levels', nextFile := nextFile');
             LevelsSet(levels') <= LevelsSet(sys.db.levels) && AllRight(Contents(db'), sys.history, SmallestSnapshot(db'))
    ensures Inv(System(sys.db.(levels := levels', nextFile := nextFile'), sys.history))
  {
    hide VersionOk, LevelsSet, AllRight, Ordered, Installed, IsCompaction, OutputsFit, OutputNumbersOk, Sorted;
    var db := sys.db;
    ReplacedFacts(db.levels, c, outputs, db.nextFile, nextFile', levels', sys.history, Contents(db));
  }

  lemma ReplacedFacts(levels: seq<seq<File>>, c: Compaction, outputs: seq<File>, nextFile: nat, nextFile': nat, levels': seq<seq<File>>,
                      history: seq<Item>, entries: set<Entry>)
    requires VersionOk(levels) && Ordered(levels[0]) && NumbersOk(levels, nextFile)
    requires IsCompaction(levels, c) && OutputsFit(c, outputs)
    requires OutputNumbersOk(levels, c, outputs) && nextFile <= nextFile'
    requires forall o :: o in outputs ==> o.number < nextFile'
    requires Installed(levels, ReplaceEdit(c, outputs), levels')
    requires LevelsSet(levels) <= entries && AllRecorded(entries, history)
    ensures Replaced(levels, c, outputs, levels')
    ensures VersionOk(levels') && Ordered(levels'[0]) && NumbersOk(levels', nextFile')
  {
    hide VersionOk, LevelsSet, Ordered, Installed, OutputsFit, OutputNumbersOk;
    VersionLevelsOk(levels);
    CompactionMembers(levels, c);
    InstalledIsReplaced(levels, c, outputs, nextFile, levels');
    RecordedUnique(LevelsSet(levels), history);
    ReplaceKeepsVersionOk(levels, c, outputs, levels');
    ReplaceKeepsNumbers(levels, c, outputs, levels', nextFile, nextFile');
  }

  /** The trivial move keeps every entry. */
  lemma MoveInv(sys: System, c: Compaction, sys': System)
    requires Inv(sys) && Next(sys, MoveStep(c), sys')
    ensures Inv(sys')
  {
    hide VersionOk, AllRight, Ordered, Installed, IsCompaction, LevelsSet, LevelSet, Sorted, AllRecorded;
    var db, db' := sys.db, sys'.db;
    VersionLevelsOk(db.levels);
    MoveFits(db.levels, c, db.nextFile);
    ReplacedFacts(db.levels, c, c.inputs0, db.nextFile, db.nextFile, db'.levels, sys.history, Contents(db));
    ContentsBefore(db.levels, c);
    ContentsAfter(db.levels, c, c.inputs0, db'.levels);
    assert LevelSet(c.inputs1) == {} by { EmptyLevelSet(c.inputs1); }
    assert LevelsSet(db'.levels) == LevelsSet(db.levels);
    assert Contents(db') == Contents(db);
    ReplaceInv(sys, c, c.inputs0, db'.levels, db.nextFile);
  }

  lemma EmptyLevelSet(files: seq<File>)
    requires files == []
    ensures LevelSet(files) == {}
  {
  }

  lemma MoveFits(levels: seq<seq<File>>, c: Compaction, nextFile: nat)
    requires LevelsOk(levels) && IsCompaction(levels, c) && |c.inputs0| == 1 && NumbersOk(levels, nextFile)
    ensures OutputsFit(c, c.inputs0) && OutputNumbersOk(levels, c, c.inputs0)
    ensures forall o :: o in c.inputs0 ==> o.number < nextFile
  {
    hide IsCompaction, LevelSet;
    CompactionMembers(levels, c);
    assert c.inputs0[0] in c.inputs0;
  }

  /** The merge iterator's entries are the inputs' entries, so the outputs hold only such entries. */
  lemma OutputsOfMergeFit(levels: seq<seq<File>>, c: Compaction, outputs: seq<File>, es: seq<Entry>, smallest: nat, first: nat, next: nat)
    requires LevelsOk(levels) && IsCompaction(levels, c) && IsInputMerge(c, es)
    requires Flat(outputs) == Kept(levels, c.level, smallest, es, |es|) && OutputsOk(outputs, first, next)
    ensures OutputsFit(c, outputs)
    ensures LevelSet(outputs) == EntrySet(Kept(levels, c.level, smallest, es, |es|)) <= EntrySet(es)
  {
    hide LevelSet, Flat, Kept, IsCompaction, SortedLevel, Sorted, OutputsOk, FileOk, Dropped;
    CompactionMembers(levels, c);
    FlatMembers(outputs);
    KeptMembers(levels, c.level, smallest, es, |es|);
    KeptSorted(levels, c.level, smallest, es, |es|);
    forall x | x in LevelSet(outputs)
      ensures x in LevelSet(c.inputs0) || x in LevelSet(c.inputs1)
    {
      assert x in EntrySet(es);
    }
    forall f, i | f in outputs && 0 <= i < |f.entries|
      ensures f.entries[i].key.sequence <= MAX_SEQUENCE
    {
      LevelSetHas(outputs, f, f.entries[i]);
      InputSequenceOk(c, f.entries[i]);
    }
    OutputsSorted(outputs, first, next);
  }

  lemma InputSequenceOk(c: Compaction, x: Entry)
    requires forall f :: f in c.inputs0 || f in c.inputs1 ==> FileOk(f)
    requires x in LevelSet(c.inputs0) || x in LevelSet(c.inputs1)
    ensures x.key.sequence <= MAX_SEQUENCE
  {
    var f: File;
    if x in LevelSet(c.inputs0) {
      f := LevelSetFile(c.inputs0, x);
    } else {
      f := LevelSetFile(c.inputs1, x);
    }
    var i :| 0 <= i < |f.entries| && f.entries[i] == x;
  }

  lemma FreshNumbersOk(levels: seq<seq<File>>, c: Compaction, outputs: seq<File>, first: nat, next: nat)
    requires OutputsOk(outputs, first, next) && NumbersOk(levels, first)
    ensures OutputNumbersOk(levels, c, outputs)
    ensures forall o :: o in outputs ==> o.number < next
  {
  }

  /** A compaction of any chosen inputs keeps the invariant exactly when it resurrects no value: then,
      and only then, every live snapshot keeps its answers. */
  lemma CompactExact(sys: System, c: Compaction, es: seq<Entry>, outputs: seq<File>, next: nat, sys': System)
    requires Inv(sys) && IsCompaction(sys.db.levels, c) && Compacted(sys, c, es, outputs, next, sys')
    ensures Inv(sys') <==>
            forall i: nat, y :: !Resurrects(sys.db.levels, c.level, SmallestSnapshot(sys.db), es, Contents(sys.db) - EntrySet(es), i, y)
  {
    hide VersionOk, AllRight, Ordered, Installed, IsCompaction, LevelsSet, LevelSet, Sorted, Kept, Flat, OutputsOk, NumbersOk,
         OutputsFit, OutputNumbersOk, Replaced, NewerThan, AllRecorded, PreservesView, Resurrects;
    var db, db' := sys.db, sys'.db;
    var smallest := SmallestSnapshot(db);
    CompactedEntries(sys, c, es, outputs, next, sys');
    RecordedUnique(Contents(db), sys.history);
    DropRulesExact(db.levels, c.level, smallest, es, Contents(db) - EntrySet(es));
    if PreservesView(Contents(db), Contents(db'), smallest) {
      PreservedIsRight(Contents(db), Contents(db'), smallest, sys.history);
      ReplaceInv(sys, c, outputs, db'.levels, next);
    }
    if Inv(sys') {
      RightIsPreserved(Contents(db), Contents(db'), smallest, sys.history);
    }
  }

  /** What the compaction makes of the contents, and that its outputs fit. */
  lemma CompactedEntries(sys: System, c: Compaction, es: seq<Entry>, outputs: seq<File>, next: nat, sys': System)
    requires Inv(sys) && IsCompaction(sys.db.levels, c) && Compacted(sys, c, es, outputs, next, sys')
    ensures OutputsFit(c, outputs) && OutputNumbersOk(sys.db.levels, c, outputs) && forall o :: o in outputs ==> o.number < next
    ensures EntrySet(es) + (Contents(sys.db) - EntrySet(es)) == Contents(sys.db)
    ensures Contents(sys'.db) == EntriesAfter(sys.db.levels, c.level, SmallestSnapshot(sys.db), es, Contents(sys.db) - EntrySet(es))
    ensures LevelsSet(sys'.db.levels) <= LevelsSet(sys.db.levels)
  {
    hide VersionOk, AllRight, Ordered, Installed, IsCompaction, LevelsSet, LevelSet, Sorted, Kept, Flat, OutputsOk, NumbersOk,
         OutputsFit, OutputNumbersOk, Replaced, NewerThan, AllRecorded;
    var db, db' := sys.db, sys'.db;
    VersionLevelsOk(db.levels);
    OutputsOfMergeFit(db.levels, c, outputs, es, SmallestSnapshot(db), db.nextFile, next);
    FreshNumbersOk(db.levels, c, outputs, db.nextFile, next);
    ReplacedFacts(db.levels, c, outputs, db.nextFile, next, db'.levels, sys.history, Contents(db));
    CompactedContents(sys, c, outputs, es, db'.levels, Contents(db) - EntrySet(es));
  }

  lemma RightIsPreserved(before: set<Entry>, after: set<Entry>, smallest: nat, history: seq<Item>)
    requires AllRight(before, history, smallest) && AllRight(after, history, smallest)
    ensures PreservesView(before, after, smallest)
  {
    hide Answer, Expected;
    forall user, s, a | smallest <= s && Answer(before, user, s, a)
      ensures Answer(after, user, s, a)
    {
      AnswerIsUnique(before, user, s, a, Expected(history, user, s));
    }
  }

  /** Where a resurrected value comes from: a level + 1 file that the choice of inputs left out although
      it continues a user key of a level + 1 input. */
  lemma ResurrectedIsSplit(sys: System, c: Compaction, es: seq<Entry>, i: nat, y: Entry)
    requires Inv(sys) && IsCompaction(sys.db.levels, c) && IsInputMerge(c, es)
    requires Resurrects(sys.db.levels, c.level, SmallestSnapshot(sys.db), es, Contents(sys.db) - EntrySet(es), i, y)
    ensures c.level + 1 < |sys.db.levels| && exists f, g :: SplitKey(sys.db.levels, c, f, g, y.key.user) && y in g.entries
  {
    hide VersionOk, AllRight, Ordered, IsCompaction, LevelsSet, LevelSet, Sorted, NumbersOk, AllRecorded, BaseLevel, InLeftOut, SplitKey;
    var db := sys.db;
    VersionLevelsOk(db.levels);
    CompactionMembers(db.levels, c);
    RecordedUnique(LevelsSet(db.levels), sys.history) by { RecordedPart(sys); }
    ContentsBefore(db.levels, c);
    assert es[i] in EntrySet(es);
    assert es[i] in LevelsSet(db.levels);
    assert y !in EntrySet(db.mem) && y !in ImmSet(db);
    LeftOutIsSafe(db.levels, c, y, es[i]);
  }

  lemma RecordedPart(sys: System)
    requires Inv(sys)
    ensures AllRecorded(LevelsSet(sys.db.levels), sys.history)
  {
    hide LevelsSet, FilesOk, TablesOk, AllRight;
  }

  /** The compaction step: levels stay in order and every snapshot keeps its answers exactly when it is
      harmless, and otherwise some key reads wrong at the smallest snapshot. */
  lemma CompactStepExact(sys: System, c: Compaction, outputs: seq<File>, next: nat, sys': System)
    requires Inv(sys) && Next(sys, CompactStep(c, outputs, next), sys')
    ensures Inv(sys') <==> Harmless(sys, c)
    ensures ReadsRight(sys') ==> Harmless(sys, c)
  {
    hide Inv, Compacted, IsCompaction, Resurrects, Contents, Sorted, ReadsRight;
    var es :| Compacted(sys, c, es, outputs, next, sys');
    CompactedMerge(sys, c, es, outputs, next, sys');
    CompactExact(sys, c, es, outputs, next, sys');
    forall other | IsInputMerge(c, other)
      ensures other == es
    {
      assert forall x :: x in es <==> x in EntrySet(es);
      assert forall x :: x in other <==> x in EntrySet(other);
      SortedUnique(es, other);
    }
    forall i: nat, y | Resurrects(sys.db.levels, c.level, SmallestSnapshot(sys.db), es, Contents(sys.db) - EntrySet(es), i, y)
      ensures !ReadsRight(sys')
    {
      ResurrectedReadsWrong(sys, c, es, outputs, next, sys', i, y);
    }
  }

  lemma CompactedMerge(sys: System, c: Compaction, es: seq<Entry>, outputs: seq<File>, next: nat, sys': System)
    requires Compacted(sys, c, es, outputs, next, sys')
    ensures IsInputMerge(c, es)
  {
  }

  lemma ResurrectedReadsWrong(sys: System, c: Compaction, es: seq<Entry>, outputs: seq<File>, next: nat, sys': System, i: nat, y: Entry)
    requires Inv(sys) && IsCompaction(sys.db.levels, c) && Compacted(sys, c, es, outputs, next, sys')
    requires Resurrects(sys.db.levels, c.level, SmallestSnapshot(sys.db), es, Contents(sys.db) - EntrySet(es), i, y)
    ensures !ReadsRight(sys')
  {
    hide VersionOk, AllRight, Ordered, Installed, IsCompaction, LevelsSet, LevelSet, Sorted, Kept, Flat, OutputsOk, NumbersOk,
         OutputsFit, OutputNumbersOk, Replaced, NewerThan, AllRecorded, Resurrects, Answer, Expected;
    var db, smallest, user := sys.db, SmallestSnapshot(sys.db), es[i].key.user;
    CompactedEntries(sys, c, es, outputs, next, sys');
    RecordedUnique(Contents(db), sys.history);
    Resurrected(db.levels, c.level, smallest, es, Contents(db) - EntrySet(es), i, y);
    RightAt(sys, user, smallest);
    AnswerIsUnique(Contents(db), user, smallest, None, Expected(sys.history, user, smallest));
    assert sys'.history == sys.history && sys'.db.snapshots == db.snapshots && sys'.db.lastSequence == db.lastSequence;
    assert smallest in sys'.db.snapshots || smallest == sys'.db.lastSequence;
  }

  lemma RightAt(sys: System, user: UserKey, s: nat)
    requires Inv(sys) && SmallestSnapshot(sys.db) <= s
    ensures Answer(Contents(sys.db), user, s, Expected(sys.history, user, s))
  {
    hide FilesOk, TablesOk, Answer, Contents, AllRecorded, Expected;
  }

  /** When no user key is split between a next-level input and a file left out, nothing is uncovered. */
  lemma GuardSuffices(sys: System, c: Compaction)
    requires Inv(sys) && IsCompaction(sys.db.levels, c) && NoSplitUserKey(sys.db.levels, c)
    ensures Harmless(sys, c)
  {
    hide Inv, IsCompaction, Resurrects, Contents, IsInputMerge;
    forall es, i: nat, y | IsInputMerge(c, es)
      ensures !Resurrects(sys.db.levels, c.level, SmallestSnapshot(sys.db), es, Contents(sys.db) - EntrySet(es), i, y)
    {
      if Resurrects(sys.db.levels, c.level, SmallestSnapshot(sys.db), es, Contents(sys.db) - EntrySet(es), i, y) {
        ResurrectedIsSplit(sys, c, es, i, y);
      }
    }
  }

  lemma PreservedIsRight(before: set<Entry>, after: set<Entry>, smallest: nat, history: seq<Item>)
    requires PreservesView(before, after, smallest) && AllRight(before, history, smallest)
    ensures AllRight(after, history, smallest)
  {
  }

  /** The contents before and after a compaction, split into compacted entries and the rest. */
  lemma CompactedContents(sys: System, c: Compaction, outputs: seq<File>, es: seq<Entry>, levels': seq<seq<File>>, rest: set<Entry>)
    requires Inv(sys) && IsCompaction(sys.db.levels, c) && IsInputMerge(c, es)
    requires Replaced(sys.db.levels, c, outputs, levels')
    requires forall x :: x in LevelSet(outputs) ==> x in EntrySet(es)
    requires rest == Contents(sys.db) - EntrySet(es)
    ensures EntrySet(es) + rest == Contents(sys.db)
    ensures Contents(sys.db.(levels := levels')) == LevelSet(outputs) + rest
    ensures LevelsSet(levels') <= LevelsSet(sys.db.levels)
    ensures forall x :: x in rest ==> x in EntrySet(sys.db.mem) || x in ImmSet(sys.db) || InLeftOut(sys.db.levels, c, x)
  {
    hide VersionOk, AllRight, Ordered, IsCompaction, LevelsSet, LevelSet, Sorted, NumbersOk, Replaced, AllRecorded;
    var db := sys.db;
    VersionLevelsOk(db.levels);
    ContentsBefore(db.levels, c);
    ContentsAfter(db.levels, c, outputs, levels');
    forall x | InLeftOut(db.levels, c, x)
      ensures x !in EntrySet(es)
    {
      LeftOutIsDisjoint(db.levels, c, x);
    }
    forall x | x in EntrySet(es)
      ensures x !in EntrySet(db.mem) && x !in ImmSet(db)
    {
      assert x in LevelsSet(db.levels);
    }
  }

  /** Every step keeps the invariant, a compaction exactly when it is harmless; one that is not makes
      some read wrong. */
  lemma NextExact(sys: System, step: Step, sys': System)
    requires Inv(sys) && Next(sys, step, sys')
    ensures Inv(sys') <==> StepHarmless(sys, step)
    ensures ReadsRight(sys') ==> StepHarmless(sys, step)
  {
    hide Inv, Harmless, ReadsRight;
    match step
    case WriteStep(batch) => WriteInv(sys, batch);
    case SwitchStep => SwitchInv(sys);
    case FlushStep(level, f) => FlushInv(sys, level, f, sys');
    case DiscardStep => DiscardInv(sys);
    case MoveStep(c) => MoveInv(sys, c, sys');
    case CompactStep(c, outputs, next) => CompactStepExact(sys, c, outputs, next, sys');
    case SnapshotStep => SnapshotInv(sys);
    case ReleaseStep(i) => ReleaseInv(sys, i);
  }

  /** A run: it starts empty, and each state follows from the one before by a step. */
  ghost predicate Run(states: seq<System>, steps: seq<Step>) {
    && |states| == |steps| + 1 && Init(states[0])
    && forall i :: 0 <= i < |steps| ==> Next(states[i], steps[i], states[i + 1])
  }

  /** Whole-run refinement: while compactions are harmless, the levels are in order in every state, and
      every user key reads, at every live snapshot and at the last sequence number, as in the plain history. */
  lemma {:induction false} RunRefinesHistory(states: seq<System>, steps: seq<Step>, i: nat)
    requires Run(states, steps) && i <= |steps|
    requires forall j :: 0 <= j < i ==> StepHarmless(states[j], steps[j])
    ensures Inv(states[i]) && VersionOk(states[i].db.levels) && ReadsRight(states[i])
  {
    hide Inv, Next, StepHarmless, ReadsRight;
    if i == 0 {
      InitInv(states[0]);
    } else {
      RunRefinesHistory(states, steps, i - 1);
      NextExact(states[i - 1], steps[i - 1], states[i]);
    }
    LiveAnswers(states[i]);
  }

  /** A run shows its readers nothing but the plain history if and only if each of its compactions,
      whatever inputs it chose, is harmless in the state it starts from. */
  lemma RunExact(states: seq<System>, steps: seq<Step>)
    requires Run(states, steps)
    ensures (forall i :: 0 <= i <= |steps| ==> ReadsRight(states[i])) <==>
            (forall i :: 0 <= i < |steps| ==> StepHarmless(states[i], steps[i]))
  {
    hide Inv, Next, StepHarmless, ReadsRight;
    if forall i :: 0 <= i < |steps| ==> StepHarmless(states[i], steps[i]) {
      forall i | 0 <= i <= |steps|
        ensures ReadsRight(states[i])
      {
        RunRefinesHistory(states, steps, i);
      }
    }
    if forall i :: 0 <= i <= |steps| ==> ReadsRight(states[i]) {
      RightIsHarmless(states, steps, |steps|);
    }
  }

  lemma {:induction false} RightIsHarmless(states: seq<System>, steps: seq<Step>, n: nat)
    requires Run(states, steps) && n <= |steps| && forall i :: 0 <= i <= |steps| ==> ReadsRight(states[i])
    ensures forall j :: 0 <= j < n ==> StepHarmless(states[j], steps[j])
  {
    hide Inv, Next, StepHarmless, ReadsRight;
    if n > 0 {
      RightIsHarmless(states, steps, n - 1);
      RunRefinesHistory(states, steps, n - 1);
      NextExact(states[n - 1], steps[n - 1], states[n]);
    }
  }

  lemma LiveAnswers(sys: System)
    requires Inv(sys)
    ensures VersionOk(sys.db.levels) && ReadsRight(sys)
  {
    hide VersionOk, Answer, Expected, AllRecorded, NumbersOk, Ordered, TablesOk, Contents;
  }
}
