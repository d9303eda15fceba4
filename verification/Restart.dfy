/** What DB::Open makes of a recovered database (db/db_impl.cc, Open and RecoverLogFile; db/version_set.cc,
    LogAndApply): the replayed memtables become level-0 tables of a new version, a new log and a new
    descriptor begin, and the store is in order again. */
module Restart {
  import opened DbFormat
  import opened Wrappers
  import opened Coding
  import opened History
  import opened Version
  import opened VersionGet
  import opened VersionBuilder
  import opened LevelReplace
  import opened LevelRecover
  import opened Lsm
  import opened LsmTables
  import opened FileNumbers
  import opened Durable
  import opened Opening
  import opened Crash
  import R = Recovery
  import M = Manifest
  import VE = VersionEdit

  /** The memtables of a replayed log: the full ones, and what was left. */
  function MemTablesOf(st: R.Recovered): seq<seq<Entry>> {
    st.tables + if st.mem.Some? then [st.mem.value] else []
  }

  function MemTables(replayed: seq<R.Recovered>): seq<seq<Entry>> {
    if replayed == [] then [] else MemTablesOf(replayed[0]) + MemTables(replayed[1..])
  }

  // What the logs gave

  lemma ReplayedMems(st: R.Recovered, log: LogFile, t: nat, last: nat, env: Env)
    requires Replays(st, log, t, last, env)
    ensures MemsOk(MemTablesOf(st), log.first, log.first + |OpsLeft(log, t, env)|)
    ensures R.TableEntries(MemTablesOf(st)) == R.Entries(st)
  {
    hide R.Logged, OpsLeft, Left, R.RecoveredOk, R.Entries, MemsOk, MemTablesOf, R.TableEntries;
    R.LoggedMembers(OpsLeft(log, t, env), log.first);
    MemsEntries(st);
    RecoveredMems(st, log.first, log.first + |OpsLeft(log, t, env)|);
  }

  lemma MemsEntries(st: R.Recovered)
    ensures R.TableEntries(MemTablesOf(st)) == R.Entries(st)
  {
    hide R.TableEntries;
    if st.mem.Some? {
      R.TablesSnoc(st.tables, st.mem.value);
    } else {
      assert st.tables + [] == st.tables;
    }
  }

  lemma RecoveredMems(st: R.Recovered, low: nat, high: nat)
    requires R.RecoveredOk(st, high) && forall x :: x in R.Entries(st) ==> low < x.key.sequence
    ensures MemsOk(MemTablesOf(st), low, high)
  {
    hide Sorted, R.Older, R.TableEntries, R.Entries;
    var mems := MemTablesOf(st);
    MemsEntries(st);
    EntriesOfTables(mems);
    assert forall i :: 0 <= i < |st.tables| ==> mems[i] == st.tables[i];
  }

  lemma EntriesOfTables(mems: seq<seq<Entry>>)
    ensures forall i, x :: 0 <= i < |mems| && x in mems[i] ==> x in R.TableEntries(mems)
  {
  }

  lemma MemsAppend(a: seq<seq<Entry>>, b: seq<seq<Entry>>, low: nat, mid: nat, mid': nat, high: nat)
    requires MemsOk(a, low, mid) && MemsOk(b, mid', high) && low <= mid <= mid' <= high
    ensures MemsOk(a + b, low, high)
    ensures R.TableEntries(a + b) == R.TableEntries(a) + R.TableEntries(b)
  {
    hide Sorted;
    var c := a + b;
    forall i, j | 0 <= i < j < |c|
      ensures R.Older(c[i], c[j])
    {
    }
    forall x | x in R.TableEntries(a)
      ensures x in R.TableEntries(c)
    {
      var i :| 0 <= i < |a| && x in a[i];
      assert c[i] == a[i];
    }
    forall x | x in R.TableEntries(b)
      ensures x in R.TableEntries(c)
    {
      var i :| 0 <= i < |b| && x in b[i];
      assert c[|a| + i] == b[i];
    }
  }

  lemma MemsWiden(mems: seq<seq<Entry>>, low: nat, mid: nat, high: nat)
    requires MemsOk(mems, low, mid) && mid <= high
    ensures MemsOk(mems, low, high)
  {
    hide Sorted, R.Older;
  }

  /** All memtables of both logs, in order, above what is in the tables. */
  lemma StoreMems(replayed: seq<R.Recovered>, st: Store, env: Env, tPrior: nat, tLog: nat)
    requires StoreInv(st, env) && StoreReplays(replayed, st, env, tPrior, tLog)
    ensures MemsOk(MemTables(replayed), Flushed(st), |st.sys.history|)
    ensures R.TableEntries(MemTables(replayed)) == ReplayedEntries(replayed)
  {
    hide StoreInv, Replays, MemsOk, R.TableEntries, MemTablesOf, OpsLeft, OpsIn, R.Entries;
    Parts(st, env, tPrior, tLog);
    if st.prior.Some? {
      ReplayedMems(replayed[0], st.prior.value, tPrior, 0, env);
      ReplayedMems(replayed[1], st.log, tLog, replayed[0].maxSequence, env);
      MemsAppend(MemTablesOf(replayed[0]), MemTablesOf(replayed[1]), Flushed(st), Flushed(st) + |PriorOpsLeft(st, tPrior, env)|,
                 st.log.first, st.log.first + |OpsLeft(st.log, tLog, env)|);
      MemsWiden(MemTablesOf(replayed[0]) + MemTablesOf(replayed[1]), Flushed(st), st.log.first + |OpsLeft(st.log, tLog, env)|, |st.sys.history|);
      TwoMems(replayed[0], replayed[1]);
      TwoEntries(replayed[0], replayed[1]);
      assert replayed == [replayed[0], replayed[1]];
    } else {
      ReplayedMems(replayed[0], st.log, tLog, 0, env);
      MemsWiden(MemTablesOf(replayed[0]), Flushed(st), st.log.first + |OpsLeft(st.log, tLog, env)|, |st.sys.history|);
      OneMems(replayed[0]);
      OneEntries(replayed[0]);
      assert replayed == [replayed[0]];
    }
  }

  lemma OneMems(one: R.Recovered)
    ensures MemTables([one]) == MemTablesOf(one)
  {
    assert [one][1..] == [];
    assert MemTablesOf(one) + [] == MemTablesOf(one);
  }

  lemma TwoMems(one: R.Recovered, two: R.Recovered)
    ensures MemTables([one, two]) == MemTablesOf(one) + MemTablesOf(two)
  {
    hide MemTablesOf;
    assert [one, two][1..] == [two];
    OneMems(two);
  }

  // What is left of the history

  /** Operation number `p` + 1 was in the tables, or in what is left of its log. */
  predicate Survives(st: Store, env: Env, tPrior: nat, tLog: nat, p: nat) {
    || p < Flushed(st) + |PriorOpsLeft(st, tPrior, env)|
    || st.log.first <= p < st.log.first + |OpsLeft(st.log, tLog, env)|
  }

  /** The history up to the recovered sequence number: what did not survive counts as lost. */
  function HistoryLeft(st: Store, env: Env, tPrior: nat, tLog: nat, last: nat): (r: seq<Item>)
    requires last <= |st.sys.history|
    ensures |r| == last
    ensures forall p :: 0 <= p < last ==> r[p] == if Survives(st, env, tPrior, tLog, p) then st.sys.history[p] else Lost
  {
    seq(last, p requires 0 <= p < last => if Survives(st, env, tPrior, tLog, p) then st.sys.history[p] else Lost)
  }

  /** The recovered sequence number covers what survives and is not made up. */
  lemma LastInRange(st: Store, env: Env, present: set<nat>, tPrior: nat, tLog: nat)
    requires StoreInv(st, env) && Crashed(st, tPrior, tLog) && LiveNumbers(st.sys.db.levels) <= present
    ensures HasNumbers(st.edits)
    ensures var r := OpenedAfter(st, env, present, tPrior, tLog);
            && r.Opened? && Flushed(st) <= r.lastSequence <= |st.sys.history|
            && forall p: nat :: p < |st.sys.history| && Survives(st, env, tPrior, tLog, p) ==> p < r.lastSequence
  {
    hide Inv, LogsOk, HistorySplits, FilesFit, TablesRight, M.Chain, M.LastOf, M.PointersOf, OpenedAfter, ContentsOf, Reopened, Crashed, OpsLeft,
         LiveNumbers, HasNumbers, OpsIn, StoreReplays;
    OpenedIs(st, env, present, tPrior, tLog);
    SequenceReplayed(OpenedAfter(st, env, present, tPrior, tLog).logs, st, env, tPrior, tLog);
    Parts(st, env, tPrior, tLog);
    MemBounds(st.sys);
  }

  /** What is opened holds the entries of the history that is left. */
  lemma LeftContents(st: Store, env: Env, tPrior: nat, tLog: nat, last: nat)
    requires StoreInv(st, env) && Flushed(st) <= last <= |st.sys.history|
    requires forall p: nat :: p < |st.sys.history| && Survives(st, env, tPrior, tLog, p) ==> p < last
    ensures var left := HistoryLeft(st, env, tPrior, tLog, last);
            && left[..Flushed(st)] == st.sys.history[..Flushed(st)]
            && Reopened(st, env, tPrior, tLog) == LevelsSet(st.sys.db.levels) + R.Logged({}, left[Flushed(st)..], Flushed(st))
  {
    hide StoreInv, R.Logged, LevelsSet, OpsLeft, OpsIn, HistoryLeft;
    var left, f := HistoryLeft(st, env, tPrior, tLog, last), Flushed(st);
    R.LoggedMembers(PriorOpsLeft(st, tPrior, env), f);
    R.LoggedMembers(OpsLeft(st.log, tLog, env), st.log.first);
    R.LoggedMembers(left[f..], f);
    forall x
      ensures R.LeftBy(x, left[f..], f) <==> R.LeftBy(x, PriorOpsLeft(st, tPrior, env), f) || R.LeftBy(x, OpsLeft(st.log, tLog, env), st.log.first)
    {
      LeftByEither(st, env, tPrior, tLog, last, x);
    }
    LeftStarts(st, env, tPrior, tLog, last);
  }

  lemma LeftStarts(st: Store, env: Env, tPrior: nat, tLog: nat, last: nat)
    requires Flushed(st) <= last <= |st.sys.history|
    ensures HistoryLeft(st, env, tPrior, tLog, last)[..Flushed(st)] == st.sys.history[..Flushed(st)]
  {
    hide OpsLeft;
  }

  lemma LeftByEither(st: Store, env: Env, tPrior: nat, tLog: nat, last: nat, x: Entry)
    requires StoreInv(st, env) && Flushed(st) <= last <= |st.sys.history|
    requires forall p: nat :: p < |st.sys.history| && Survives(st, env, tPrior, tLog, p) ==> p < last
    ensures R.LeftBy(x, HistoryLeft(st, env, tPrior, tLog, last)[Flushed(st)..], Flushed(st)) <==>
            R.LeftBy(x, PriorOpsLeft(st, tPrior, env), Flushed(st)) || R.LeftBy(x, OpsLeft(st.log, tLog, env), st.log.first)
  {
    hide StoreInv, OpsLeft, OpsIn, HistoryLeft, PriorOpsLeft, PriorOps, EntryOf;
    Parts(st, env, tPrior, tLog);
    var h, f, start, s := st.sys.history, Flushed(st), st.log.first, x.key.sequence;
    var left, a, b := HistoryLeft(st, env, tPrior, tLog, last), PriorOpsLeft(st, tPrior, env), OpsLeft(st.log, tLog, env);
    if f < s <= last {
      assert left[f..][s - f - 1] == left[s - 1];
    }
    if f < s <= f + |a| {
      assert a[s - f - 1] == PriorOps(st, env)[s - f - 1] == h[f..start][s - f - 1] == h[s - 1];
      assert Survives(st, env, tPrior, tLog, s - 1);
    } else if start < s <= start + |b| {
      assert b[s - start - 1] == OpsIn(st.log, env)[s - start - 1] == h[start..][s - start - 1] == h[s - 1];
      assert Survives(st, env, tPrior, tLog, s - 1);
    }
  }

  // The store that is opened

  /** Open after Recover: the tables of the replayed memtables, then the new log file, whose number ends
      the numbers used so far, and the edit for LogAndApply. */
  ghost predicate OpenEdit(r: Opened, files: seq<File>, number: nat, edit: VE.VersionEdit, env: Env)
    requires r.Opened?
  {
    && TablesOf(MemTables(r.logs), files, r.nextFile, number) && r.logsEnd <= number && number + 1 < U64
    && VE.EditFits(edit) && edit.comparator.None? && M.FileEditOf(edit, env.load) == Level0Edit(files)
    && (forall i :: 0 <= i < |edit.added| ==> env.describe(env.load(edit.added[i].1)) == edit.added[i].1)
    && edit.logNumber == Some(number) && edit.prevLogNumber == Some(0)
    && M.LevelsDescribed(r.levels, r.nextFile, env.load, env.describe)
  }

  /** The new descriptor: a snapshot of the recovered version, and the edit. */
  function OpenEdits(r: Opened, number: nat, edit: VE.VersionEdit, env: Env): seq<VE.VersionEdit>
    requires r.Opened? && |r.compactPointers| == NUM_LEVELS
  {
    [M.SnapshotEdit(r.levels, M.WithPointers(r.compactPointers, edit.compactPointers), env.comparator, env.describe),
     M.Completed(edit, r.logNumber, r.prevLogNumber, number + 1, r.lastSequence)]
  }

  /** The store with which the database runs on, holding `history`. */
  ghost predicate Started(r: Opened, history: seq<Item>, files: seq<File>, edit: VE.VersionEdit, st: Store, env: Env) {
    && r.Opened? && |r.compactPointers| == NUM_LEVELS && OpenEdit(r, files, st.log.number, edit, env)
    && Installed(r.levels, Level0Edit(files), st.sys.db.levels)
    && st == Store(System(Db([], None, st.sys.db.levels, [], r.lastSequence, st.log.number + 1), history), None,
                   LogFile(st.log.number, r.lastSequence, [], 0), OpenEdits(r, st.log.number, edit, env),
                   [M.NO_FILES, r.levels, st.sys.db.levels])
  }

  /** What Open can rely on after Recover. */
  ghost predicate ReadyToStart(r: Opened, history: seq<Item>, low: nat, env: Env)
    ensures ReadyToStart(r, history, low, env) ==> r.Opened?
  {
    && r.Opened? && VersionOk(r.levels) && Ordered(r.levels[0]) && NumbersOk(r.levels, r.nextFile)
    && (forall x :: x in LevelsSet(r.levels) ==> x.key.sequence <= low) && MemsOk(MemTables(r.logs), low, r.lastSequence)
    && |env.comparator| < U32 && M.PointersFit(r.compactPointers) && r.logNumber < r.nextFile && r.prevLogNumber == 0
    && r.lastSequence == |history| < MAX_SEQUENCE
    && AllRecorded(LevelsSet(r.levels) + R.TableEntries(MemTables(r.logs)), history)
    && AllRight(LevelsSet(r.levels) + R.TableEntries(MemTables(r.logs)), history, |history|)
  }

  lemma StartedInv(r: Opened, history: seq<Item>, low: nat, files: seq<File>, edit: VE.VersionEdit, st: Store, env: Env)
    requires ReadyToStart(r, history, low, env) && Started(r, history, files, edit, st, env)
    ensures Inv(st.sys) && TablesRight(st.sys.db.levels, history)
  {
    hide VersionOk, Ordered, NumbersOk, MemsOk, AllRecorded, AllRight, LevelsSet, Installed, TablesOf, Level0Edit, M.FileEditOf, VE.EditFits,
         M.LevelsDescribed, R.TableEntries, MemTables, OpenEdits, M.PointersFit;
    var number, levels := st.log.number, st.sys.db.levels;
    var levels' := TablesAdded(r.levels, MemTables(r.logs), files, r.nextFile, number, low, r.lastSequence);
    InstalledOnce(r.levels, Level0Edit(files), levels, levels');
    NumbersAbove(levels, number, number + 1);
    EmptyMem();
    EmptyIsNewer(LevelsSet(levels));
    EmptyIsNewer({} + LevelsSet(levels));
    assert Contents(st.sys.db) == LevelsSet(levels);
    R.NothingSorted();
  }

  lemma SnapshotNumbers(levels: seq<seq<File>>, pointers: seq<Bytes>, nextFile: nat, env: Env)
    requires M.LevelsDescribed(levels, nextFile, env.load, env.describe) && NumbersOk(levels, nextFile) && |pointers| == NUM_LEVELS
    ensures var edits := [M.SnapshotEdit(levels, pointers, env.comparator, env.describe)];
            AddedBelow(edits, nextFile, env.load) && AddedAbove(edits, levels, env.load)
  {
    hide Ordered, M.Described, M.NumbersDistinct, M.SnapshotFiles, M.Loaded;
    M.SnapshotFilesAre(levels, |levels|, env.load, env.describe, nextFile);
    var added := M.FileEditOf(M.SnapshotEdit(levels, pointers, env.comparator, env.describe), env.load).added;
    forall p | p in added
      ensures p.0 < |levels| && p.1 in levels[p.0]
    {
      assert (p.0, p.1) in added;
    }
  }

  /** The files of the opening edit are new. */
  lemma OpenEditApplies(r: Opened, files: seq<File>, number: nat, edit: VE.VersionEdit, env: Env)
    requires r.Opened? && OpenEdit(r, files, number, edit, env) && NumbersOk(r.levels, r.nextFile) && r.logNumber < r.nextFile
    ensures M.Applicable(edit, r.levels, r.logNumber, number + 1, env.load, env.describe)
    ensures r.nextFile <= number
    ensures forall p :: p in M.FileEditOf(edit, env.load).added ==>
              p.0 == 0 && p.1.number < number + 1 && NewOrMoved(r.levels, r.nextFile, p.0, p.1)
  {
    hide MemTables, VE.EditFits, M.LevelsDescribed, M.FileEditOf, TablesOf, Ordered;
    TablesInOrder(MemTables(r.logs), files, r.nextFile, number);
    AddedFiles(edit, env.load);
  }

  /** The new descriptor replays to the new version. */
  lemma StartedDescriptor(r: Opened, history: seq<Item>, low: nat, files: seq<File>, edit: VE.VersionEdit, st: Store, env: Env)
    requires ReadyToStart(r, history, low, env) && Started(r, history, files, edit, st, env) && NumbersOk(st.sys.db.levels, st.log.number + 1)
    ensures DescriptorOk(st, env) && FilesFit(st, env)
  {
    hide VersionOk, Ordered, NumbersOk, MemsOk, AllRecorded, AllRight, LevelsSet, Installed, TablesOf, Level0Edit, M.FileEditOf, VE.EditFits,
         M.LevelsDescribed, R.TableEntries, MemTables, M.PointersFit, M.Chain, M.LastOf, M.PointersOf, M.Applicable, AddedBelow, AddedAbove,
         NewOrMoved, M.SnapshotEdit, M.WithPointers, M.Readable, EditOk, M.NotAddedBefore;
    var levels, number := r.levels, st.log.number;
    var pointers := M.WithPointers(r.compactPointers, edit.compactPointers);
    var snapshot, e := OpenEdits(r, number, edit, env)[0], OpenEdits(r, number, edit, env)[1];
    OpenEditApplies(r, files, number, edit, env);
    OpenPointersFit(r, edit);
    M.SnapshotIsChain(levels, pointers, r.nextFile, env.comparator, env.load, env.describe);
    M.SnapshotKeepsPointers(levels, pointers, env.comparator, env.describe);
    DescribedAbove(levels, r.nextFile, number + 1, env.load, env.describe);
    M.ApplicableParts(edit, levels, r.logNumber, 0, number + 1, env.load, env.describe);
    M.CompletedKeepsFiles(edit, env.load, r.logNumber, 0, number + 1, r.lastSequence);
    M.SnapshotAddsOther(edit, levels, pointers, r.logNumber, number + 1, env.comparator, env.load, env.describe);
    M.SameFiles([snapshot], edit, e, env.load);
    M.ExtendChain([snapshot], [M.NO_FILES, levels], env.comparator, env.load, e, st.sys.db.levels);
    M.RecoveredAfter([snapshot], e);
    M.AppliedIsDescribed(edit, levels, st.sys.db.levels, r.logNumber, number + 1, env.load, env.describe);
    M.PointersSnoc([snapshot], e);
    M.PointersTwice(r.compactPointers, edit.compactPointers);
    SnapshotNumbers(levels, pointers, r.nextFile, env);
    AddedBelowStill([snapshot], e, r.nextFile, number + 1, env.load);
    HasLevels(levels);
    AddedAboveStill([snapshot], e, levels, r.nextFile, st.sys.db.levels, number + 1, env.load);
    assert st.edits == [snapshot] + [e] && st.versions == [M.NO_FILES, levels] + [st.sys.db.levels];
  }

  lemma OpenPointersFit(r: Opened, edit: VE.VersionEdit)
    requires r.Opened? && M.PointersFit(r.compactPointers) && VE.EditFits(edit)
    ensures M.PointersFit(M.WithPointers(r.compactPointers, edit.compactPointers))
  {
    M.ChangesFit(edit, r.compactPointers);
  }

  /** Opened from what is ready, the store is in order. */
  lemma StartedStoreInv(r: Opened, history: seq<Item>, low: nat, files: seq<File>, edit: VE.VersionEdit, st: Store, env: Env)
    requires ReadyToStart(r, history, low, env) && Started(r, history, files, edit, st, env)
    ensures StoreInv(st, env)
  {
    hide Inv, DescriptorOk, FilesFit, TablesRight, ReadyToStart, OpenEdit, OpenEdits, Installed;
    StartedInv(r, history, low, files, edit, st, env);
    FileNumbersOk(st.sys);
    StartedDescriptor(r, history, low, files, edit, st, env);
    StartsAboveZero(r, history, low, files, edit, st, env);
    MemBounds(st.sys);
    EmptyLog(st.log.number, r.lastSequence, env);
    EmptyMem();
    assert history[..r.lastSequence] == history && history[r.lastSequence..] == [];
  }

  lemma FileNumbersOk(sys: System)
    requires Inv(sys)
    ensures NumbersOk(sys.db.levels, sys.db.nextFile)
  {
    hide TablesOk, AllRight, AllRecorded, NumbersOk, Ordered, VersionOk;
  }

  lemma StartsAboveZero(r: Opened, history: seq<Item>, low: nat, files: seq<File>, edit: VE.VersionEdit, st: Store, env: Env)
    requires ReadyToStart(r, history, low, env) && Started(r, history, files, edit, st, env)
    ensures 0 < st.log.number && r.lastSequence == |history|
  {
    hide VersionOk, Ordered, NumbersOk, MemsOk, AllRecorded, AllRight, LevelsSet, Installed, TablesOf, Level0Edit, M.FileEditOf, VE.EditFits,
         M.LevelsDescribed, R.TableEntries, MemTables, M.PointersFit, OpenEdits;
    TablesInOrder(MemTables(r.logs), files, r.nextFile, st.log.number);
  }

  // Opened again after a crash

  /** From what a crash left of a store to the store that runs on, in a directory where new tables may be. */
  ghost predicate Restarted(st: Store, env: Env, present: set<nat>, tPrior: nat, tLog: nat, files: seq<File>, edit: VE.VersionEdit, st': Store, env': Env) {
    && Crashed(st, tPrior, tLog) && LiveNumbers(st.sys.db.levels) <= present && HasNumbers(st.edits)
    && env'.comparator == env.comparator && env'.options.as_ == env.options.as_
    && var r := OpenedAfter(st, env, present, tPrior, tLog);
       && r.Opened? && r.lastSequence <= |st.sys.history|
       && Started(r, HistoryLeft(st, env, tPrior, tLog, r.lastSequence), files, edit, st', env')
  }

  lemma MemsNarrow(mems: seq<seq<Entry>>, low: nat, high: nat, tables: set<Entry>, history: seq<Item>)
    requires MemsOk(mems, low, high) && AllRecorded(tables + R.TableEntries(mems), history)
    ensures MemsOk(mems, low, |history|)
  {
    hide Sorted, R.Older, R.TableEntries;
    EntriesOfTables(mems);
    forall x | x in R.TableEntries(mems)
      ensures x.key.sequence <= |history|
    {
      assert x in tables + R.TableEntries(mems);
    }
  }

  /** What is recovered reads as the history that is left. */
  lemma LeftIsRight(st: Store, env: Env, tPrior: nat, tLog: nat, last: nat)
    requires StoreInv(st, env) && Flushed(st) <= last <= |st.sys.history|
    requires forall p: nat :: p < |st.sys.history| && Survives(st, env, tPrior, tLog, p) ==> p < last
    ensures AllRecorded(Reopened(st, env, tPrior, tLog), HistoryLeft(st, env, tPrior, tLog, last))
    ensures AllRight(Reopened(st, env, tPrior, tLog), HistoryLeft(st, env, tPrior, tLog, last), last)
  {
    hide Inv, LogsOk, HistorySplits, DescriptorOk, FilesFit, AllRecorded, AllRight, LevelsSet, R.Logged, Reopened, HistoryLeft, Survives;
    LeftContents(st, env, tPrior, tLog, last);
    var left, f, tables := HistoryLeft(st, env, tPrior, tLog, last), Flushed(st), LevelsSet(st.sys.db.levels);
    assert |left| == last;
    R.LoggedOver(tables, {}, left[f..], f);
    assert tables + {} == tables;
    R.LoggedIsRight(tables, left[..f], left[f..], f);
    assert left[..f] + left[f..] == left;
    AllRightAbove(Reopened(st, env, tPrior, tLog), left, f, last);
  }

  /** After a crash at any moment, Open finds what it relies on, for the history that is left. */
  lemma StoreReady(st: Store, env: Env, present: set<nat>, tPrior: nat, tLog: nat, env': Env)
    requires StoreInv(st, env) && Crashed(st, tPrior, tLog) && LiveNumbers(st.sys.db.levels) <= present
    requires env'.comparator == env.comparator
    ensures HasNumbers(st.edits)
    ensures var r := OpenedAfter(st, env, present, tPrior, tLog);
            && r.Opened? && r.lastSequence <= |st.sys.history|
            && ReadyToStart(r, HistoryLeft(st, env, tPrior, tLog, r.lastSequence), Flushed(st), env')
  {
    hide StoreInv, OpenedAfter, ContentsOf, Reopened, Crashed, LiveNumbers, HasNumbers, Survives, HistoryLeft, AllRecorded, AllRight, MemsOk,
         MemTables, LevelsSet, R.TableEntries, ReplayedEntries, VersionOk, Ordered, NumbersOk, M.LastOf, M.PointersOf, M.PointersFit, StoreReplays;
    LastInRange(st, env, present, tPrior, tLog);
    OpenedIs(st, env, present, tPrior, tLog);
    var r := OpenedAfter(st, env, present, tPrior, tLog);
    LeftIsRight(st, env, tPrior, tLog, r.lastSequence);
    StoreMems(r.logs, st, env, tPrior, tLog);
    EntriesOpened(r);
    var left := HistoryLeft(st, env, tPrior, tLog, r.lastSequence);
    assert |left| == r.lastSequence;
    MemsNarrow(MemTables(r.logs), Flushed(st), |st.sys.history|, LevelsSet(r.levels), left);
    TablesBelow(st, env);
    StoreParts(st, env);
  }

  lemma EntriesOpened(r: Opened)
    requires r.Opened?
    ensures ContentsOf(r) == LevelsSet(r.levels) + ReplayedEntries(r.logs)
  {
    hide LevelsSet, ReplayedEntries;
  }

  lemma StoreParts(st: Store, env: Env)
    requires StoreInv(st, env)
    ensures VersionOk(st.sys.db.levels) && Ordered(st.sys.db.levels[0]) && M.LastOf(st.edits, M.NextFile).Some?
    ensures NumbersOk(st.sys.db.levels, M.LastOf(st.edits, M.NextFile).value + 1) && OldestLog(st) < M.LastOf(st.edits, M.NextFile).value + 1
    ensures |env.comparator| < U32 && M.PointersFit(M.PointersOf(st.edits)) && |st.sys.history| < MAX_SEQUENCE
  {
    hide LogsOk, HistorySplits, TablesRight, M.Chain, M.LastOf, M.PointersOf, M.PointersFit, AllRight, AllRecorded, AddedBelow, AddedAbove,
         TablesOk, VersionOk, Ordered, SnapshotsOk, VE.MetaFits, M.NumbersDistinct;
    HasLevels(st.sys.db.levels);
  }

  /** The new log has a number above those of the replayed logs: what is left of them, and of older ones,
      makes no difference any more. */
  lemma OldLogsObsolete(st: Store, env: Env, present: set<nat>, tPrior: nat, tLog: nat, files: seq<File>, edit: VE.VersionEdit, st': Store, env': Env,
                        obsolete: seq<Numbered>)
    requires StoreInv(st, env) && Restarted(st, env, present, tPrior, tLog, files, edit, st', env') && Obsolete(obsolete, st)
    ensures st.log.number < st'.log.number && Obsolete(obsolete + LogsLeft(st, tPrior, tLog), st')
  {
    hide StoreInv, OpenedAfter, Crashed, LiveNumbers, HasNumbers, HistoryLeft, Started, OldestLog;
    OpenedIs(st, env, present, tPrior, tLog);
    var r := OpenedAfter(st, env, present, tPrior, tLog);
    StartedNumber(r, HistoryLeft(st, env, tPrior, tLog, r.lastSequence), files, edit, st', env');
    LogNumbers(st, env, tPrior, tLog);
  }

  lemma StartedNumber(r: Opened, history: seq<Item>, files: seq<File>, edit: VE.VersionEdit, st: Store, env: Env)
    requires Started(r, history, files, edit, st, env)
    ensures r.Opened? && r.logsEnd <= st.log.number == OldestLog(st)
  {
    hide TablesOf, OpenEdits, Installed, VE.EditFits, M.FileEditOf, M.LevelsDescribed;
  }

  lemma LogNumbers(st: Store, env: Env, tPrior: nat, tLog: nat)
    requires StoreInv(st, env)
    ensures OldestLog(st) <= st.log.number
    ensures var left := LogsLeft(st, tPrior, tLog); forall i :: 0 <= i < |left| ==> 0 < left[i].number <= st.log.number
  {
    hide Inv, HistorySplits, DescriptorOk, FilesFit, TablesRight, LogHolds, RecordsOf;
  }

  /** The store that is opened after a crash is in order again, over the history that is left. */
  lemma RestartStoreInv(st: Store, env: Env, present: set<nat>, tPrior: nat, tLog: nat, files: seq<File>, edit: VE.VersionEdit, st': Store, env': Env)
    requires StoreInv(st, env) && Restarted(st, env, present, tPrior, tLog, files, edit, st', env')
    ensures StoreInv(st', env')
  {
    hide StoreInv, OpenedAfter, Crashed, LiveNumbers, HasNumbers, HistoryLeft, ReadyToStart, Started;
    StoreReady(st, env, present, tPrior, tLog, env');
    var r := OpenedAfter(st, env, present, tPrior, tLog);
    StartedStoreInv(r, HistoryLeft(st, env, tPrior, tLog, r.lastSequence), Flushed(st), files, edit, st', env');
  }

  /** The end of Open: LogAndApply on a version set without a descriptor log gives the store. */
  method OpenStore(r: Opened, number: nat, edit: VE.VersionEdit, env: Env, ghost history: seq<Item>, ghost low: nat, ghost files: seq<File>)
    returns (vs: M.VersionSet, ghost st: Store)
    requires ReadyToStart(r, history, low, env) && OpenEdit(r, files, number, edit, env)
    ensures Started(r, history, files, edit, st, env) && st.log.number == number && StoreInv(st, env)
    ensures fresh(vs) && Serves(vs, st, env, number + 1)
  {
    hide ReadyToStart, OpenEdit, Installed, M.LevelsDescribed, M.PointersFit, M.Applicable, M.WithPointers, StoreInv, M.SnapshotEdit, M.Completed,
         Level0Edit, M.FileEditOf, M.VersionSet.Saved, M.VersionSet.Valid;
    OpenFacts(r, history, low, files, number, edit, env);
    vs := new M.VersionSet(env.comparator, env.load, env.describe, r.levels, r.compactPointers, r.logNumber, r.prevLogNumber, number + 1, r.lastSequence);
    vs.LogAndApply(edit);
    st := Store(System(Db([], None, vs.levels, [], r.lastSequence, number + 1), history), None, LogFile(number, r.lastSequence, [], 0), vs.edits, vs.versions);
    StartedStoreInv(r, history, low, files, edit, st, env);
  }

  lemma OpenFacts(r: Opened, history: seq<Item>, low: nat, files: seq<File>, number: nat, edit: VE.VersionEdit, env: Env)
    requires ReadyToStart(r, history, low, env) && OpenEdit(r, files, number, edit, env)
    ensures M.LevelsDescribed(r.levels, number + 1, env.load, env.describe) && |env.comparator| < U32
    ensures M.Applicable(edit, r.levels, r.logNumber, number + 1, env.load, env.describe) && number + 1 < U64
    ensures r.logNumber < U64 && r.prevLogNumber == 0 && M.PointersFit(r.compactPointers) && |r.compactPointers| == NUM_LEVELS
    ensures r.lastSequence < U64 && edit.logNumber == Some(number) && edit.prevLogNumber == Some(0)
    ensures M.FileEditOf(edit, env.load) == Level0Edit(files)
  {
    hide VersionOk, Ordered, NumbersOk, MemsOk, AllRecorded, AllRight, LevelsSet, TablesOf, Level0Edit, M.FileEditOf, VE.EditFits,
         M.LevelsDescribed, R.TableEntries, MemTables, M.Applicable, NewOrMoved;
    OpenEditApplies(r, files, number, edit, env);
    DescribedAbove(r.levels, r.nextFile, number + 1, env.load, env.describe);
  }

  // A new database

  /** Without CURRENT: what NewDB wrote is opened as the empty database, and the store starts empty. */
  lemma NewDbStarts(present: set<nat>, env: Env, edit: VE.VersionEdit, st: Store)
    requires |env.comparator| < U32
    ensures HasNumbers([NewDbEdit(env.comparator)])
    ensures var r := OpenedFrom([NewDbEdit(env.comparator)], M.NO_FILES, present, [], env.options);
            ReadyToStart(r, [], 0, env) && (Started(r, [], [], edit, st, env) ==> StoreInit(st, env))
  {
    hide DescriptorOk, FilesFit, ReadyToStart, OpenEdit, Installed, StoreInv;
    var r := OpenedFrom([NewDbEdit(env.comparator)], M.NO_FILES, present, [], env.options);
    NewDbReady(present, env);
    if Started(r, [], [], edit, st, env) {
      StartedStoreInv(r, [], 0, [], edit, st, env);
      StartedEmpty(r, edit, st, env);
    }
  }

  lemma NewDbReady(present: set<nat>, env: Env)
    requires |env.comparator| < U32
    ensures HasNumbers([NewDbEdit(env.comparator)])
    ensures ReadyToStart(OpenedFrom([NewDbEdit(env.comparator)], M.NO_FILES, present, [], env.options), [], 0, env)
  {
    hide VersionOk, Ordered, NumbersOk, LevelsSet, M.PointersFit, OpenedFrom, HasNumbers, MemTables, R.TableEntries, AllRight, AllRecorded;
    NewDbOpened(present, env);
    var r := OpenedFrom([NewDbEdit(env.comparator)], M.NO_FILES, present, [], env.options);
    EmptyLevels(M.NO_FILES, r.nextFile);
    NoEntries();
    assert MemTables([]) == [] by { NoMemTables(); }
    assert LevelsSet(r.levels) + R.TableEntries([]) == {};
    NewPointers(env.comparator);
    NothingWritten();
  }

  lemma NoMemTables()
    ensures MemTables([]) == []
  {
  }

  lemma NothingWritten()
    ensures AllRecorded({}, []) && AllRight({}, [], 0)
  {
  }

  lemma NewDbOpened(present: set<nat>, env: Env)
    ensures HasNumbers([NewDbEdit(env.comparator)])
    ensures OpenedFrom([NewDbEdit(env.comparator)], M.NO_FILES, present, [], env.options) ==
            Opened(M.NO_FILES, M.PointersOf([NewDbEdit(env.comparator)]), 3, 0, 0, 0, [], 0)
  {
    hide M.PointersOf;
    var e := NewDbEdit(env.comparator);
    assert [e][..0] == [];
    assert M.LastOf([e], M.PrevLog) == M.LastOf([], M.PrevLog);
    assert LiveNumbers(M.NO_FILES) == {};
    NoneReplayed(0, 0, 0, env.options);
  }

  lemma NewPointers(comparator: Bytes)
    ensures M.PointersFit(M.PointersOf([NewDbEdit(comparator)]))
  {
    assert [NewDbEdit(comparator)][..0] == [];
    assert M.WithPointers(M.NO_POINTERS, []) == M.NO_POINTERS;
  }

  lemma StartedEmpty(r: Opened, edit: VE.VersionEdit, st: Store, env: Env)
    requires ReadyToStart(r, [], 0, env) && Started(r, [], [], edit, st, env) && r.levels == M.NO_FILES && StoreInv(st, env)
    ensures StoreInit(st, env)
  {
    hide VersionOk, Ordered, NumbersOk, MemsOk, AllRecorded, AllRight, LevelsSet, TablesOf, M.FileEditOf, VE.EditFits, M.LevelsDescribed,
         R.TableEntries, MemTables, M.PointersFit, Inv, LogHolds, DescriptorOk, FilesFit, TablesRight, HistorySplits, M.SnapshotEdit, Gone;
    SnapshotOfNothing(M.WithPointers(r.compactPointers, edit.compactPointers), env);
    CompletedFiles(edit, r.logNumber, r.prevLogNumber, st.log.number + 1, r.lastSequence, env.load);
    NothingInstalled(M.NO_FILES);
    InstalledOnce(M.NO_FILES, Level0Edit([]), st.sys.db.levels, M.NO_FILES);
  }

  lemma SnapshotOfNothing(pointers: seq<Bytes>, env: Env)
    requires |pointers| == NUM_LEVELS
    ensures M.FileEditOf(M.SnapshotEdit(M.NO_FILES, pointers, env.comparator, env.describe), env.load).added == []
  {
    NoneToSave(|M.NO_FILES|, env);
  }

  lemma {:induction false} NoneToSave(n: nat, env: Env)
    requires n <= NUM_LEVELS
    ensures M.SnapshotFiles(M.NO_FILES, n, env.describe) == []
  {
    if n > 0 {
      NoneToSave(n - 1, env);
      assert M.NO_FILES[n - 1] == [];
    }
  }

  lemma CompletedFiles(edit: VE.VersionEdit, log: nat, prev: nat, next: nat, last: nat, load: VE.FileMeta -> File)
    ensures M.FileEditOf(M.Completed(edit, log, prev, next, last), load) == M.FileEditOf(edit, load)
  {
  }
}
