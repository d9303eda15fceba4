/** The database together with its files (db/db_impl.cc: Write, MakeRoomForWrite, CompactMemTable,
    BackgroundCompaction): what its log files and its descriptor hold in every state of a run. */
module Durable {
  import opened DbFormat
  import opened Wrappers
  import opened Coding
  import opened History
  import opened Version
  import opened VersionGet
  import opened CompactionInputs
  import opened VersionBuilder
  import opened LevelReplace
  import opened LevelFlush
  import opened Lsm
  import opened LsmTables
  import opened FileNumbers
  import R = Recovery
  import M = Manifest
  import VE = VersionEdit
  import WB = WriteBatch

  /** The comparator's name, file metadata and the table files that it describes, the options of recovery. */
  datatype Env = Env(comparator: Bytes, load: VE.FileMeta -> File, describe: File -> VE.FileMeta, options: R.Options)

  /** A log file: its number, the last sequence number before it, its batches, and how many of them are
      known to be on disk. */
  datatype LogFile = LogFile(number: nat, first: nat, batches: seq<seq<WB.Update>>, synced: nat)

  function OpsIn(log: LogFile, env: Env): seq<Op> {
    R.OpsOf(R.Flat(log.batches), env.options.as_)
  }

  /** AddRecord, and Sync if the write asks for it: that reaches all of the file. */
  function Appended(log: LogFile, batch: seq<WB.Update>, sync: bool): LogFile {
    log.(batches := log.batches + [batch], synced := if sync then |log.batches| + 1 else log.synced)
  }

  /** The database; the log of the immutable memtable, if there is one; the log being written; and the
      descriptor's edits with the versions that they gave. */
  datatype Store = Store(sys: System, prior: Option<LogFile>, log: LogFile,
                         edits: seq<VE.VersionEdit>, versions: seq<seq<seq<File>>>)

  /** How many operations of the history the tables hold. */
  function Flushed(st: Store): nat {
    if st.prior.Some? then st.prior.value.first else st.log.first
  }

  /** The oldest log file that is still needed. */
  function OldestLog(st: Store): nat {
    if st.prior.Some? then st.prior.value.number else st.log.number
  }

  /** The operations of a log file are the entries of its memtable. */
  ghost predicate LogHolds(log: LogFile, entries: set<Entry>, last: nat, env: Env) {
    && R.LogFits(log.batches, log.first) && log.synced <= |log.batches|
    && entries == R.Logged({}, OpsIn(log, env), log.first)
    && last == log.first + |OpsIn(log, env)|
  }

  ghost predicate LogsOk(st: Store, env: Env) {
    && LogHolds(st.log, EntrySet(st.sys.db.mem), st.sys.db.lastSequence, env)
    && (st.prior.Some? <==> st.sys.db.imm.Some?)
    && (st.prior.Some? ==> LogHolds(st.prior.value, EntrySet(st.sys.db.imm.value), st.log.first, env))
    && 0 < OldestLog(st) <= st.log.number < st.sys.db.nextFile
    && (st.prior.Some? ==> st.prior.value.number < st.log.number)
  }

  /** What is not in the tables is in the logs, in order. */
  ghost predicate HistorySplits(st: Store, env: Env) {
    && Flushed(st) <= |st.sys.history|
    && st.sys.history[Flushed(st)..] == (if st.prior.Some? then OpsIn(st.prior.value, env) else []) + OpsIn(st.log, env)
  }

  /** The descriptor replays to the current version and names the oldest log that is needed. */
  ghost predicate DescriptorOk(st: Store, env: Env) {
    && M.Chain(st.edits, st.versions, env.comparator, env.load) && |env.comparator| < U32
    && |st.versions| == |st.edits| + 1 && st.versions[|st.edits|] == st.sys.db.levels
    && M.PointersFit(M.PointersOf(st.edits))
    && M.LastOf(st.edits, M.Log) == Some(OldestLog(st)) && M.LastOf(st.edits, M.PrevLog) == Some(0)
    && M.LastOf(st.edits, M.NextFile).Some? && OldestLog(st) < M.LastOf(st.edits, M.NextFile).value <= st.sys.db.nextFile
    && M.LastOf(st.edits, M.Sequence).Some? && Flushed(st) <= M.LastOf(st.edits, M.Sequence).value <= st.sys.db.lastSequence
  }

  /** Files have metadata, with numbers that the descriptor knows to be given out, and none was added to a
      level below its own. */
  ghost predicate FilesFit(st: Store, env: Env) {
    && M.LastOf(st.edits, M.NextFile).Some?
    && M.LevelsDescribed(st.sys.db.levels, M.LastOf(st.edits, M.NextFile).value, env.load, env.describe)
    && AddedBelow(st.edits, st.sys.db.nextFile, env.load) && AddedAbove(st.edits, st.sys.db.levels, env.load)
  }

  ghost predicate StoreInv(st: Store, env: Env) {
    && Inv(st.sys) && LogsOk(st, env) && HistorySplits(st, env) && DescriptorOk(st, env) && FilesFit(st, env)
    && TablesRight(st.sys.db.levels, st.sys.history[..Flushed(st)])
  }

  datatype Event =
    | Write(batch: seq<WB.Update>, sync: bool)
    | Switch
    | LogEdit(step: Step, edit: VE.VersionEdit)
    | Other(step: Step)

  /** The edit that a step hands to LogAndApply: its files, and, once a memtable is in a table, that
      earlier logs are no longer needed. */
  ghost predicate EditFor(st: Store, env: Env, step: Step, edit: VE.VersionEdit, db': Db) {
    && IsLogged(step) && VE.EditFits(edit) && edit.comparator.None? && M.FileEditOf(edit, env.load) == FilesOf(step)
    && (forall i :: 0 <= i < |edit.added| ==> env.describe(env.load(edit.added[i].1)) == edit.added[i].1)
    && edit.logNumber == (if EndsMemTable(step) then Some(st.log.number) else None)
    && edit.prevLogNumber == (if EndsMemTable(step) then Some(0) else None)
    && db'.nextFile < U64
  }

  /** The edit as LogAndApply writes it. */
  function Written(st: Store, edit: VE.VersionEdit, db': Db): VE.VersionEdit {
    M.Completed(edit, OldestLog(st), 0, db'.nextFile, st.sys.db.lastSequence)
  }

  ghost predicate StoreNext(st: Store, env: Env, event: Event, st': Store) {
    match event
    case Write(batch, sync) =>
      && R.BatchFits(batch) && Next(st.sys, WriteStep(R.OpsOf(batch, env.options.as_)), st'.sys)
      && st' == st.(sys := st'.sys, log := Appended(st.log, batch, sync))
    case Switch =>
      && Next(st.sys, SwitchStep, st'.sys)
      && st' == st.(sys := st'.sys, prior := Some(st.log), log := LogFile(st.sys.db.nextFile, st.sys.db.lastSequence, [], 0))
    case LogEdit(step, edit) =>
      && Next(st.sys, step, st'.sys) && EditFor(st, env, step, edit, st'.sys.db)
      && st' == Store(st'.sys, if EndsMemTable(step) then None else st.prior, st.log, st.edits + [Written(st, edit, st'.sys.db)],
                      st.versions + [st'.sys.db.levels])
    case Other(step) =>
      && (step.SnapshotStep? || step.ReleaseStep?)
      && Next(st.sys, step, st'.sys) && st' == st.(sys := st'.sys)
  }

  /** A compaction must not uncover old values in the tables. */
  ghost predicate EventHarmless(st: Store, event: Event) {
    event.LogEdit? && event.step.CompactStep? ==> TablesHarmless(st.sys, event.step.c)
  }

  /** A new database: an empty log, and a descriptor that never added a file. */
  ghost predicate StoreInit(st: Store, env: Env) {
    && Init(st.sys) && st.prior.None? && st.log == LogFile(st.log.number, 0, [], 0) && 0 < st.log.number < st.sys.db.nextFile
    && DescriptorOk(st, env) && forall i :: 0 <= i < |st.edits| ==> M.FileEditOf(st.edits[i], env.load).added == []
  }

  lemma InitStoreInv(st: Store, env: Env)
    requires StoreInit(st, env)
    ensures StoreInv(st, env)
  {
    hide Inv, M.Chain, TablesRight, M.LastOf, M.FileEditOf, M.PointersOf;
    InitInv(st.sys);
    NoTables(st.sys);
    assert st.sys.history[..0] == [];
  }

  // Writes

  /** The memtable after a batch holds what the log holds. */
  lemma {:induction false} InsertBatchLogs(db: Db, ops: seq<Op>)
    requires Sorted(db.mem) && forall x :: x in db.mem ==> x.key.sequence <= db.lastSequence
    ensures var db' := InsertBatch(db, ops);
            && EntrySet(db'.mem) == R.Logged(EntrySet(db.mem), ops, db.lastSequence)
            && db' == db.(mem := db'.mem, lastSequence := db.lastSequence + |ops|)
    decreases |ops|
  {
    hide Sorted, InsertEntry;
    if ops != [] {
      var e := EntryOf(ops[0], db.lastSequence + 1);
      InsertEntrySorted(db.mem, e);
      var next := AddOne(db, ops[0]);
      assert forall x :: x in next.mem <==> x in EntrySet(next.mem);
      InsertBatchLogs(next, ops[1..]);
    }
  }

  lemma OneFlat(batch: seq<WB.Update>)
    ensures R.Flat([batch]) == batch
  {
    assert [batch][1..] == [];
  }

  lemma AppendHolds(log: LogFile, batch: seq<WB.Update>, sync: bool, entries: set<Entry>, last: nat, env: Env)
    requires LogHolds(log, entries, last, env) && R.BatchFits(batch) && last + |batch| < MAX_SEQUENCE
    ensures var ops := R.OpsOf(batch, env.options.as_);
            && OpsIn(Appended(log, batch, sync), env) == OpsIn(log, env) + ops
            && LogHolds(Appended(log, batch, sync), R.Logged(entries, ops, last), last + |ops|, env)
  {
    hide R.BatchFits, R.Flat, R.OpsOf, R.Logged;
    R.FlatAppend(log.batches, [batch]);
    OneFlat(batch);
    R.OpsAppend(R.Flat(log.batches), batch, env.options.as_);
    R.LoggedAppend({}, OpsIn(log, env), R.OpsOf(batch, env.options.as_), log.first);
  }

  lemma WriteStoreInv(st: Store, env: Env, batch: seq<WB.Update>, sync: bool, st': Store)
    requires StoreInv(st, env) && StoreNext(st, env, Write(batch, sync), st')
    ensures StoreInv(st', env)
  {
    hide Inv, TablesRight, LogsOk, DescriptorOk, FilesFit, R.BatchFits, R.OpsOf, InsertBatch, OpsIn, Next, R.Flat, R.Logged;
    var ops := R.OpsOf(batch, env.options.as_);
    NextExact(st.sys, WriteStep(ops), st'.sys);
    WriteChanges(st.sys, ops, st'.sys);
    SameFiles(st, env, st');
    WriteKeepsLogs(st, env, batch, sync, st');
    var h, n := st.sys.history, Flushed(st);
    assert (h + ops)[n..] == h[n..] + ops && (h + ops)[..n] == h[..n];
  }

  lemma WriteChanges(sys: System, ops: seq<Op>, sys': System)
    requires Inv(sys) && Next(sys, WriteStep(ops), sys')
    ensures EntrySet(sys'.db.mem) == R.Logged(EntrySet(sys.db.mem), ops, sys.db.lastSequence) && sys'.db.imm == sys.db.imm
    ensures sys'.db.lastSequence == sys.db.lastSequence + |ops| < MAX_SEQUENCE && sys'.history == sys.history + ops
    ensures sys'.db.levels == sys.db.levels && sys'.db.nextFile == sys.db.nextFile
  {
    hide Inv, InsertBatch, R.Logged, Sorted;
    MemBounds(sys);
    InsertBatchLogs(sys.db, ops);
  }

  lemma WriteKeepsLogs(st: Store, env: Env, batch: seq<WB.Update>, sync: bool, st': Store)
    requires StoreInv(st, env) && StoreNext(st, env, Write(batch, sync), st')
    ensures LogsOk(st', env) && OpsIn(st'.log, env) == OpsIn(st.log, env) + R.OpsOf(batch, env.options.as_)
    ensures st'.log.first == st.log.first
  {
    hide Inv, TablesRight, DescriptorOk, FilesFit, HistorySplits, LogHolds, R.BatchFits, R.OpsOf, InsertBatch, OpsIn, Next;
    WriteChanges(st.sys, R.OpsOf(batch, env.options.as_), st'.sys);
    AppendHolds(st.log, batch, sync, EntrySet(st.sys.db.mem), st.sys.db.lastSequence, env);
  }

  /** Numbers may be given out, and operations written. */
  lemma SameFiles(st: Store, env: Env, st': Store)
    requires DescriptorOk(st, env) && FilesFit(st, env)
    requires st'.edits == st.edits && st'.versions == st.versions && st'.sys.db.levels == st.sys.db.levels
    requires st.sys.db.nextFile <= st'.sys.db.nextFile && st.sys.db.lastSequence <= st'.sys.db.lastSequence
    requires OldestLog(st') == OldestLog(st) && Flushed(st') == Flushed(st)
    ensures DescriptorOk(st', env) && FilesFit(st', env)
  {
    hide M.Chain, M.LastOf, M.LevelsDescribed, AddedBelow, AddedAbove, M.PointersOf, M.PointersFit;
    AddedStill(st.edits, st.sys.db.nextFile, st'.sys.db.nextFile, env.load);
  }

  lemma MemBounds(sys: System)
    requires Inv(sys)
    ensures Sorted(sys.db.mem) && (forall x :: x in sys.db.mem ==> x.key.sequence <= sys.db.lastSequence)
    ensures sys.db.lastSequence == |sys.history| < MAX_SEQUENCE
  {
    hide FilesOk, AllRight, LevelsSet, Sorted, NewerThan;
    forall x | x in sys.db.mem
      ensures x.key.sequence <= sys.db.lastSequence
    {
      assert x in Contents(sys.db);
    }
  }

  lemma SwitchStoreInv(st: Store, env: Env, st': Store)
    requires StoreInv(st, env) && StoreNext(st, env, Switch, st')
    ensures StoreInv(st', env)
  {
    hide Inv, TablesRight, DescriptorOk, FilesFit, OpsIn, R.LogFits;
    NextExact(st.sys, SwitchStep, st'.sys);
    MemBounds(st.sys);
    EmptyLog(st.sys.db.nextFile, st.sys.db.lastSequence, env);
    EmptyMem();
    assert st.prior.None?;
    assert OpsIn(st.log, env) + [] == OpsIn(st.log, env);
    SameFiles(st, env, st');
  }

  lemma EmptyMem()
    ensures EntrySet([]) == {}
  {
  }

  lemma EmptyLog(number: nat, first: nat, env: Env)
    requires first < MAX_SEQUENCE
    ensures var log := LogFile(number, first, [], 0); OpsIn(log, env) == [] && R.LogFits(log.batches, first)
  {
  }

  // Edits

  lemma AddedStill(edits: seq<VE.VersionEdit>, nextFile: nat, nextFile': nat, load: VE.FileMeta -> File)
    requires AddedBelow(edits, nextFile, load) && nextFile <= nextFile'
    ensures AddedBelow(edits, nextFile', load)
  {
    hide M.FileEditOf;
  }

  /** What LogAndApply asks of its caller, and what the descriptor asks of a new edit. */
  lemma EditApplies(st: Store, env: Env, step: Step, edit: VE.VersionEdit, sys': System)
    requires StoreInv(st, env) && Next(st.sys, step, sys') && EditFor(st, env, step, edit, sys'.db)
    ensures M.Applicable(edit, st.sys.db.levels, OldestLog(st), sys'.db.nextFile, env.load, env.describe)
    ensures M.NotAddedBefore(st.edits, edit, env.load)
  {
    hide Inv, M.Chain, M.LastOf, TablesRight, LogHolds, OpsIn, Next, FilesOf, M.FileEditOf, EditOk, AddsFreshNumbers, AddedBelow, AddedAbove,
         M.PointersOf, M.PointersFit, M.LevelsDescribed, VE.EditFits, NewOrMoved, M.NotAddedBefore, HistorySplits;
    StepInstalls(st.sys, step, sys');
    StepAdds(st.sys, step, sys');
    NotAddedAgain(st.edits, edit, st.sys.db.levels, st.sys.db.nextFile, env.load);
    AddedFiles(edit, env.load);
  }

  lemma AddedFiles(edit: VE.VersionEdit, load: VE.FileMeta -> File)
    ensures forall i :: 0 <= i < |edit.added| ==> (edit.added[i].0, load(edit.added[i].1)) in M.FileEditOf(edit, load).added
  {
    forall i | 0 <= i < |edit.added|
      ensures (edit.added[i].0, load(edit.added[i].1)) in M.FileEditOf(edit, load).added
    {
      assert M.FileEditOf(edit, load).added[i] == (edit.added[i].0, load(edit.added[i].1));
    }
  }

  /** One more edit in the descriptor. */
  lemma EditKeepsDescriptor(st: Store, env: Env, step: Step, edit: VE.VersionEdit, sys': System)
    requires StoreInv(st, env) && Next(st.sys, step, sys') && EditFor(st, env, step, edit, sys'.db)
    ensures var edits := st.edits + [Written(st, edit, sys'.db)];
            && M.Chain(edits, st.versions + [sys'.db.levels], env.comparator, env.load) && M.PointersFit(M.PointersOf(edits))
            && M.LastOf(edits, M.Log) == Some(if EndsMemTable(step) then st.log.number else OldestLog(st))
            && M.LastOf(edits, M.PrevLog) == Some(0)
            && M.LastOf(edits, M.NextFile) == Some(sys'.db.nextFile) && M.LastOf(edits, M.Sequence) == Some(st.sys.db.lastSequence)
            && M.LevelsDescribed(sys'.db.levels, sys'.db.nextFile, env.load, env.describe)
            && AddedBelow(edits, sys'.db.nextFile, env.load)
  {
    hide Inv, M.Chain, M.LastOf, M.Readable, EditOk, M.NotAddedBefore, Installed, M.FileEditOf, FilesOf, TablesRight, LogHolds, OpsIn, Next,
         M.LevelsDescribed, M.PointersOf, M.PointersFit, AddedBelow, AddedAbove, VE.EditFits, M.Applicable, HistorySplits, M.WithPointers;
    var e := Written(st, edit, sys'.db);
    MemBounds(st.sys);
    EditApplies(st, env, step, edit, sys');
    StepInstalls(st.sys, step, sys');
    M.CompletedKeepsFiles(edit, env.load, OldestLog(st), 0, sys'.db.nextFile, st.sys.db.lastSequence);
    M.SameFiles(st.edits, edit, e, env.load);
    DescribedAbove(st.sys.db.levels, M.LastOf(st.edits, M.NextFile).value, sys'.db.nextFile, env.load, env.describe);
    M.ApplicableParts(edit, st.sys.db.levels, OldestLog(st), 0, sys'.db.nextFile, env.load, env.describe);
    M.ExtendChain(st.edits, st.versions, env.comparator, env.load, e, sys'.db.levels);
    M.RecoveredAfter(st.edits, e);
    M.AppliedIsDescribed(edit, st.sys.db.levels, sys'.db.levels, OldestLog(st), sys'.db.nextFile, env.load, env.describe);
    M.PointersSnoc(st.edits, e);
    M.ChangesFit(edit, M.PointersOf(st.edits));
    StepAdds(st.sys, step, sys');
    AddedBelowStill(st.edits, e, st.sys.db.nextFile, sys'.db.nextFile, env.load);
  }

  lemma StepInstalls(sys: System, step: Step, sys': System)
    requires Inv(sys) && Next(sys, step, sys') && IsLogged(step)
    ensures Installed(sys.db.levels, FilesOf(step), sys'.db.levels)
    ensures sys'.db.lastSequence == sys.db.lastSequence && sys'.history == sys.history && sys'.db.mem == sys.db.mem
    ensures sys'.db.imm == if EndsMemTable(step) then None else sys.db.imm
    ensures sys.db.nextFile <= sys'.db.nextFile
    ensures EndsMemTable(step) ==> sys.db.imm.Some?
    ensures step.DiscardStep? ==> sys.db.imm == Some([]) && sys'.db.levels == sys.db.levels
  {
    hide InsertBatch, SafeFlushLevel, FileOk, IsCompaction, ReplaceEdit, IsInputMerge, FlushEdit;
    if step.DiscardStep? {
      LevelsInOrder(sys);
    }
  }

  lemma LevelsInOrder(sys: System)
    requires Inv(sys)
    ensures Installed(sys.db.levels, FileEdit({}, []), sys.db.levels)
  {
    hide TablesOk, AllRight, AllRecorded, FileOk, Ordered, Level0Ok, NewerThan, LevelSet;
    var levels := sys.db.levels;
    VersionLevelsOk(levels);
    forall l | 0 <= l < |levels|
      ensures Ordered(levels[l])
    {
      if l > 0 {
        SortedIsOrdered(levels[l]);
      }
    }
  }

  /** The tables after a step, as far as the history they then hold. */
  lemma TablesAfter(st: Store, env: Env, step: Step, st': Store)
    requires StoreInv(st, env) && Next(st.sys, step, st'.sys)
    requires EndsMemTable(step) || step.MoveStep? || (step.CompactStep? && TablesHarmless(st.sys, step.c))
    ensures var flushed := if EndsMemTable(step) then st.log.first else Flushed(st);
            flushed <= |st.sys.history| && TablesRight(st'.sys.db.levels, st.sys.history[..flushed])
    ensures step.DiscardStep? ==> st.log.first == Flushed(st)
  {
    hide Inv, M.Chain, M.LastOf, TablesRight, TablesHarmless, LogHolds, Installed, SafeFlushLevel, FileOk, Compacted, IsCompaction, R.Logged, OpsIn;
    var h, flushed := st.sys.history, Flushed(st);
    match step
    case FlushStep(level, f) =>
      var ops := OpsIn(st.prior.value, env);
      HeldByOld(st, env);
      assert h == h[..flushed] + h[flushed..];
      assert h[..st.log.first] == h[..flushed] + ops;
      FlushTables(st.sys, level, f, st'.sys, h[..flushed], ops);
    case DiscardStep =>
      NothingHeld(st, env);
    case MoveStep(c) =>
      MoveTables(st.sys, c, st'.sys, h[..flushed]);
    case CompactStep(c, outputs, next) =>
      CompactTables(st.sys, c, outputs, next, st'.sys, h[..flushed]);
  }

  lemma HeldByOld(st: Store, env: Env)
    requires LogsOk(st, env) && st.prior.Some?
    ensures st.sys.db.imm.Some?
    ensures EntrySet(st.sys.db.imm.value) == R.Logged({}, OpsIn(st.prior.value, env), st.prior.value.first)
    ensures st.log.first == st.prior.value.first + |OpsIn(st.prior.value, env)|
  {
    hide R.LogFits, R.Logged, OpsIn;
  }

  lemma NothingHeld(st: Store, env: Env)
    requires LogsOk(st, env) && st.sys.db.imm == Some([])
    ensures st.log.first == Flushed(st) && OpsIn(st.prior.value, env) == []
  {
    hide OpsIn;
    HeldByOld(st, env);
    OpsLeaveEntries(OpsIn(st.prior.value, env), st.prior.value.first);
    EmptyMem();
  }

  lemma OpsLeaveEntries(ops: seq<Op>, last: nat)
    ensures ops != [] ==> R.Logged({}, ops, last) != {}
  {
    if ops != [] {
      R.LoggedMembers(ops, last);
      assert R.LeftBy(EntryOf(ops[0], last + 1), ops, last);
    }
  }

  lemma EditStoreInv(st: Store, env: Env, step: Step, edit: VE.VersionEdit, st': Store)
    requires StoreInv(st, env) && StoreNext(st, env, LogEdit(step, edit), st') && EventHarmless(st, LogEdit(step, edit))
    ensures StoreInv(st', env)
  {
    hide Inv, M.Chain, M.LastOf, TablesRight, TablesHarmless, LogHolds, OpsIn, Next, Installed, M.Readable, M.NotAddedBefore, EditOk, FilesOf,
         M.FileEditOf, EditFor, M.LevelsDescribed, M.PointersOf, M.PointersFit, AddedBelow, AddedAbove;
    if step.CompactStep? {
      CompactsChosen(st.sys, step, st'.sys);
      TablesHarmlessIsHarmless(st.sys, step.c);
    }
    NextExact(st.sys, step, st'.sys);
    IsLoggedStep(st, env, step, edit, st'.sys.db);
    StepInstalls(st.sys, step, st'.sys);
    EditKeepsDescriptor(st, env, step, edit, st'.sys);
    EditKeepsPlaces(st, env, step, edit, st'.sys);
    TablesAfter(st, env, step, st');
    MemBounds(st.sys);
    LastHeld(st, env);
    if EndsMemTable(step) {
      HeldByOld(st, env);
      assert st.sys.history[st.log.first..] == st.sys.history[Flushed(st)..][st.log.first - Flushed(st)..];
    }
  }

  lemma IsLoggedStep(st: Store, env: Env, step: Step, edit: VE.VersionEdit, db': Db)
    requires EditFor(st, env, step, edit, db')
    ensures IsLogged(step)
  {
    hide VE.EditFits, M.FileEditOf, FilesOf;
  }

  /** Files only go to deeper levels. */
  lemma EditKeepsPlaces(st: Store, env: Env, step: Step, edit: VE.VersionEdit, sys': System)
    requires StoreInv(st, env) && Next(st.sys, step, sys') && EditFor(st, env, step, edit, sys'.db) && Inv(sys')
    ensures AddedAbove(st.edits + [Written(st, edit, sys'.db)], sys'.db.levels, env.load)
  {
    hide M.Chain, M.LastOf, TablesRight, LogHolds, OpsIn, Next, FilesOf, M.FileEditOf, EditOk, AddsFreshNumbers, AddedBelow, AddedAbove,
         M.PointersOf, M.PointersFit, M.LevelsDescribed, VE.EditFits, NewOrMoved, HistorySplits, Installed, NumbersOk, TablesOk, AllRight,
         AllRecorded, SnapshotsOk, LevelsSet, Ordered, LogsOk, DescriptorOk, VersionOk;
    StepInstalls(st.sys, step, sys');
    StepAdds(st.sys, step, sys');
    StepLevels(FilesOf(step));
    WrittenFiles(st, edit, sys'.db, env.load);
    LevelCount(st.sys);
    AddedAboveStill(st.edits, Written(st, edit, sys'.db), st.sys.db.levels, st.sys.db.nextFile, sys'.db.levels, sys'.db.nextFile, env.load);
  }

  lemma WrittenFiles(st: Store, edit: VE.VersionEdit, db': Db, load: VE.FileMeta -> File)
    ensures M.FileEditOf(Written(st, edit, db'), load) == M.FileEditOf(edit, load)
  {
  }

  lemma StepLevels(files: FileEdit)
    requires EditOk(files)
    ensures forall p :: p in files.added ==> p.0 < NUM_LEVELS
  {
  }

  lemma LevelCount(sys: System)
    requires Inv(sys)
    ensures |sys.db.levels| == NUM_LEVELS
  {
    hide TablesOk, AllRight, AllRecorded, LevelSet, Ordered;
  }

  lemma CompactsChosen(sys: System, step: Step, sys': System)
    requires Next(sys, step, sys') && step.CompactStep?
    ensures IsCompaction(sys.db.levels, step.c)
  {
    hide IsCompaction, Compacted;
  }

  lemma LastHeld(st: Store, env: Env)
    requires LogsOk(st, env)
    ensures st.log.first <= st.sys.db.lastSequence
  {
    hide R.LogFits, R.Logged, OpsIn;
  }

  lemma OtherStoreInv(st: Store, env: Env, step: Step, st': Store)
    requires StoreInv(st, env) && StoreNext(st, env, Other(step), st')
    ensures StoreInv(st', env)
  {
    hide Inv, TablesRight, DescriptorOk, FilesFit, LogHolds, OpsIn;
    NextExact(st.sys, step, st'.sys);
    SameFiles(st, env, st');
  }

  /** Every step of the store keeps its invariant, a compaction exactly when it is harmless in the tables. */
  lemma StoreNextExact(st: Store, env: Env, event: Event, st': Store)
    requires StoreInv(st, env) && StoreNext(st, env, event, st')
    ensures StoreInv(st', env) <==> EventHarmless(st, event)
  {
    hide StoreInv, EventHarmless;
    match event
    case Write(batch, sync) => WriteStoreInv(st, env, batch, sync, st'); AlwaysHarmless(st, event);
    case Switch => SwitchStoreInv(st, env, st'); AlwaysHarmless(st, event);
    case LogEdit(step, edit) =>
      if EventHarmless(st, event) {
        EditStoreInv(st, env, step, edit, st');
      } else if StoreInv(st', env) {
        KeptIsHarmless(st, env, step, edit, st');
      }
    case Other(step) => OtherStoreInv(st, env, step, st'); AlwaysHarmless(st, event);
  }

  lemma AlwaysHarmless(st: Store, event: Event)
    requires !event.LogEdit?
    ensures EventHarmless(st, event)
  {
  }

  /** What a memtable holds comes after what is in the tables. */
  lemma MemFollowsTables(st: Store, env: Env)
    requires LogsOk(st, env)
    ensures MemAbove(st.sys.db, Flushed(st))
  {
    hide R.Logged, R.LogFits, OpsIn;
    R.LoggedMembers(OpsIn(st.log, env), st.log.first);
    if st.prior.Some? {
      R.LoggedMembers(OpsIn(st.prior.value, env), st.prior.value.first);
    }
  }

  lemma KeptIsHarmless(st: Store, env: Env, step: Step, edit: VE.VersionEdit, st': Store)
    requires StoreInv(st, env) && StoreNext(st, env, LogEdit(step, edit), st') && StoreInv(st', env)
    ensures EventHarmless(st, LogEdit(step, edit))
  {
    hide Inv, LogsOk, DescriptorOk, FilesFit, HistorySplits, TablesRight, TablesHarmless, EditFor, Written, MemAbove, Next;
    if step.CompactStep? {
      MemFollowsTables(st, env);
      FlushedPart(st, env);
      IsLoggedStep(st, env, step, edit, st'.sys.db);
      StepInstalls(st.sys, step, st'.sys);
      assert step == CompactStep(step.c, step.outputs, step.next);
      TablesExact(st.sys, step.c, step.outputs, step.next, st'.sys, st.sys.history[..Flushed(st)]);
    }
  }

  lemma FlushedPart(st: Store, env: Env)
    requires HistorySplits(st, env)
    ensures Flushed(st) <= |st.sys.history| && |st.sys.history[..Flushed(st)]| == Flushed(st)
  {
    hide OpsIn;
  }

  ghost predicate StoreRun(states: seq<Store>, events: seq<Event>, env: Env) {
    && |states| == |events| + 1 && StoreInit(states[0], env)
    && forall i :: 0 <= i < |events| ==> StoreNext(states[i], env, events[i], states[i + 1])
  }

  /** In every state of every run with harmless compactions: the memtables are what the logs hold, the
      descriptor replays to the current version and names the oldest log that is needed, and the tables
      answer as the history before that log. */
  lemma {:induction false} RunKeepsFiles(states: seq<Store>, events: seq<Event>, env: Env, i: nat)
    requires StoreRun(states, events, env) && i <= |events|
    requires forall j :: 0 <= j < i ==> EventHarmless(states[j], events[j])
    ensures StoreInv(states[i], env)
  {
    hide StoreInv, StoreNext, EventHarmless, StoreInit;
    if i == 0 {
      InitStoreInv(states[0], env);
    } else {
      RunKeepsFiles(states, events, env, i - 1);
      StoreNextExact(states[i - 1], env, events[i - 1], states[i]);
    }
  }

  /** And that holds all along a run if and only if each of its compactions is harmless in the tables. */
  lemma RunFilesExact(states: seq<Store>, events: seq<Event>, env: Env)
    requires StoreRun(states, events, env)
    ensures (forall i :: 0 <= i <= |events| ==> StoreInv(states[i], env)) <==>
            (forall i :: 0 <= i < |events| ==> EventHarmless(states[i], events[i]))
  {
    hide StoreInv, StoreNext, EventHarmless, StoreInit;
    if forall i :: 0 <= i < |events| ==> EventHarmless(states[i], events[i]) {
      forall i | 0 <= i <= |events|
        ensures StoreInv(states[i], env)
      {
        RunKeepsFiles(states, events, env, i);
      }
    }
    if forall i :: 0 <= i <= |events| ==> StoreInv(states[i], env) {
      forall i | 0 <= i < |events|
        ensures EventHarmless(states[i], events[i])
      {
        StoreNextExact(states[i], env, events[i], states[i + 1]);
      }
    }
  }

  /** The version set serves the store, with file numbers given out below `nextFile`. */
  ghost predicate Serves(vs: M.VersionSet, st: Store, env: Env, nextFile: nat)
    reads vs
  {
    && vs.Valid() && vs.descriptor.Some? && vs.edits == st.edits && vs.versions == st.versions && vs.levels == st.sys.db.levels
    && vs.comparator == env.comparator && vs.load == env.load && vs.describe == env.describe
    && vs.logNumber == OldestLog(st) && vs.prevLogNumber == 0 && vs.nextFile == nextFile && vs.lastSequence == st.sys.db.lastSequence
  }

  /** LogAndApply of a step's edit is the step of the store. */
  method ApplyStep(vs: M.VersionSet, ghost st: Store, ghost env: Env, ghost step: Step, edit: VE.VersionEdit, ghost sys': System)
    returns (ghost st': Store)
    requires StoreInv(st, env) && Next(st.sys, step, sys') && EditFor(st, env, step, edit, sys'.db)
    requires Serves(vs, st, env, sys'.db.nextFile)
    modifies vs
    ensures st'.sys == sys' && StoreNext(st, env, LogEdit(step, edit), st') && Serves(vs, st', env, sys'.db.nextFile)
  {
    hide Inv, LogsOk, DescriptorOk, FilesFit, HistorySplits, TablesRight, EditFor, Next, M.VersionSet.Valid, M.Applicable, M.NotAddedBefore,
         M.VersionSet.Saved, FilesOf, M.WithPointers, M.FileEditOf, Installed;
    MemBounds(st.sys);
    EditApplies(st, env, step, edit, sys');
    EditFacts(st, env, step, edit, sys');
    vs.LogAndApply(edit);
    st' := Store(sys', if EndsMemTable(step) then None else st.prior, st.log, vs.edits, vs.versions);
    InstalledOnce(st.sys.db.levels, FilesOf(step), sys'.db.levels, vs.levels);
  }

  lemma EditFacts(st: Store, env: Env, step: Step, edit: VE.VersionEdit, sys': System)
    requires StoreInv(st, env) && Next(st.sys, step, sys') && EditFor(st, env, step, edit, sys'.db)
    ensures IsLogged(step) && M.FileEditOf(edit, env.load) == FilesOf(step) && sys'.db.nextFile < U64
    ensures edit.logNumber == (if EndsMemTable(step) then Some(st.log.number) else None)
    ensures edit.prevLogNumber == (if EndsMemTable(step) then Some(0) else None)
    ensures Installed(st.sys.db.levels, FilesOf(step), sys'.db.levels) && sys'.db.lastSequence == st.sys.db.lastSequence
  {
    hide Inv, LogsOk, DescriptorOk, FilesFit, HistorySplits, TablesRight, Next, VE.EditFits, M.FileEditOf, FilesOf, Installed;
    StepInstalls(st.sys, step, sys');
  }

  /** An edit gives one version. */
  lemma InstalledOnce(levels: seq<seq<File>>, files: FileEdit, a: seq<seq<File>>, b: seq<seq<File>>)
    requires Installed(levels, files, a) && Installed(levels, files, b)
    ensures a == b
  {
    hide Ordered, Gone;
    forall l | 0 <= l < |levels|
      ensures a[l] == b[l]
    {
      assert LevelInstalled(levels[l], files, l, a[l]) && LevelInstalled(levels[l], files, l, b[l]);
      OrderedUnique(a[l], b[l]);
    }
  }
}
