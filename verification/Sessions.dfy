/** Runs with crashes in them: after each the database is opened again and goes on. */
module Sessions {
  import opened History
  import opened Version
  import opened CompactionInputs
  import opened VersionBuilder
  import opened LevelReplace
  import opened Lsm
  import opened LsmTables
  import opened Durable
  import opened Opening
  import opened Crash
  import opened Restart
  import opened RestartTotal
  import R = Recovery
  import VE = VersionEdit
  import WB = WriteBatch

  /** The store, and where its files are. */
  datatype World = World(st: Store, env: Env)

  /** A step of the store, or a crash after which it is opened again. */
  datatype Turn =
    | Goes(event: Event)
    | Crashes(present: set<nat>, tPrior: nat, tLog: nat, files: seq<File>, edit: VE.VersionEdit)

  ghost predicate TurnNext(w: World, turn: Turn, w': World) {
    match turn
    case Goes(event) => StoreNext(w.st, w.env, event, w'.st) && w'.env == w.env
    case Crashes(present, tPrior, tLog, files, edit) => Restarted(w.st, w.env, present, tPrior, tLog, files, edit, w'.st, w'.env)
  }

  ghost predicate TurnHarmless(w: World, turn: Turn) {
    turn.Goes? ==> EventHarmless(w.st, turn.event)
  }

  ghost predicate InOrder(w: World) {
    StoreInv(w.st, w.env)
  }

  ghost predicate LongRun(worlds: seq<World>, turns: seq<Turn>) {
    && |worlds| == |turns| + 1 && StoreInit(worlds[0].st, worlds[0].env)
    && forall i :: 0 <= i < |turns| ==> TurnNext(worlds[i], turns[i], worlds[i + 1])
  }

  /** Steps and crashes keep the store in order, a compaction exactly when it is harmless in the tables. */
  lemma TurnExact(w: World, turn: Turn, w': World)
    requires InOrder(w) && TurnNext(w, turn, w')
    ensures InOrder(w') <==> TurnHarmless(w, turn)
  {
    hide StoreInv, StoreNext, Restarted, EventHarmless;
    match turn
    case Goes(event) => StoreNextExact(w.st, w.env, event, w'.st);
    case Crashes(present, tPrior, tLog, files, edit) =>
      RestartStoreInv(w.st, w.env, present, tPrior, tLog, files, edit, w'.st, w'.env);
  }

  /** However often the database crashes, with harmless compactions it is in order in every state and reads
      as its history at every live snapshot and at the last sequence number. */
  lemma {:induction false} CrashesKeepOrder(worlds: seq<World>, turns: seq<Turn>, i: nat)
    requires LongRun(worlds, turns) && i <= |turns|
    requires forall j :: 0 <= j < i ==> TurnHarmless(worlds[j], turns[j])
    ensures InOrder(worlds[i]) && ReadsRight(worlds[i].st.sys)
  {
    hide InOrder, TurnNext, TurnHarmless, StoreInit, ReadsRight;
    if i == 0 {
      StartsInOrder(worlds[0]);
    } else {
      CrashesKeepOrder(worlds, turns, i - 1);
      TurnExact(worlds[i - 1], turns[i - 1], worlds[i]);
    }
    OrderReads(worlds[i]);
  }

  /** A crash can come in any state and cut the logs anywhere past what was synced: there is always a turn for
      it, unless the file numbers run out. */
  lemma CrashCanCome(w: World, tPrior: nat, tLog: nat) returns (turn: Turn, w': World)
    requires InOrder(w) && Crashed(w.st, tPrior, tLog)
    requires HasNumbers(w.st.edits) ==> NumbersLeft(OpenedAfter(w.st, w.env, LiveNumbers(w.st.sys.db.levels), tPrior, tLog))
    ensures turn.Crashes? && turn.tPrior == tPrior && turn.tLog == tLog
    ensures TurnNext(w, turn, w') && InOrder(w')
  {
    hide StoreInv, Crashed, HasNumbers, NumbersLeft, OpenedAfter, LiveNumbers, Restarted;
    var present := LiveNumbers(w.st.sys.db.levels);
    var files, edit, st', env' := CrashHasSuccessor(w.st, w.env, present, tPrior, tLog);
    turn, w' := Crashes(present, tPrior, tLog, files, edit), World(st', env');
    TurnExact(w, turn, w');
  }

  lemma StartsInOrder(w: World)
    requires StoreInit(w.st, w.env)
    ensures InOrder(w)
  {
    hide StoreInv, StoreInit;
    InitStoreInv(w.st, w.env);
  }

  lemma OrderReads(w: World)
    requires InOrder(w)
    ensures ReadsRight(w.st.sys)
  {
    hide Inv, ReadsRight, LogsOk, HistorySplits, DescriptorOk, FilesFit;
    LiveAnswers(w.st.sys);
  }

  // What is on disk

  /** The operations of the synced batches of a log. */
  function SyncedOps(log: LogFile, env: Env): seq<Op> {
    R.OpsOf(R.Flat(log.batches[..if log.synced <= |log.batches| then log.synced else 0]), env.options.as_)
  }

  predicate InSynced(log: LogFile, env: Env, p: nat) {
    log.first <= p < log.first + |SyncedOps(log, env)|
  }

  /** Operation number `p` + 1 is in the tables, or in a synced batch. */
  predicate OnDisk(w: World, p: nat) {
    || p < Flushed(w.st)
    || (w.st.prior.Some? && InSynced(w.st.prior.value, w.env, p))
    || InSynced(w.st.log, w.env, p)
  }

  lemma PrefixOps(log: LogFile, env: Env, j: nat, k: nat)
    requires j <= k <= |log.batches|
    ensures R.OpsOf(R.Flat(log.batches[..j]), env.options.as_) <= R.OpsOf(R.Flat(log.batches[..k]), env.options.as_)
  {
    hide R.Flat, R.OpsOf;
    assert log.batches[..k] == log.batches[..j] + log.batches[j..k];
    R.FlatAppend(log.batches[..j], log.batches[j..k]);
    R.OpsAppend(R.Flat(log.batches[..j]), R.Flat(log.batches[j..k]), env.options.as_);
  }

  lemma SyncedAreIn(log: LogFile, env: Env)
    ensures |SyncedOps(log, env)| <= |OpsIn(log, env)|
  {
    hide R.Flat, R.OpsOf;
    PrefixOps(log, env, if log.synced <= |log.batches| then log.synced else 0, |log.batches|);
    assert log.batches[..|log.batches|] == log.batches;
  }

  /** What is on disk is part of the history. */
  lemma OnDiskInHistory(w: World, p: nat)
    requires InOrder(w) && OnDisk(w, p)
    ensures p < |w.st.sys.history|
  {
    hide StoreInv, OpsIn, SyncedOps;
    Parts(w.st, w.env, 0, 0);
    SyncedAreIn(w.st.log, w.env);
    if w.st.prior.Some? {
      SyncedAreIn(w.st.prior.value, w.env);
    }
  }

  /** Appending to a log loses nothing that was synced. */
  lemma AppendKeepsSynced(log: LogFile, batch: seq<WB.Update>, sync: bool, env: Env)
    requires log.synced <= |log.batches|
    ensures |SyncedOps(log, env)| <= |SyncedOps(Appended(log, batch, sync), env)|
    ensures sync ==> SyncedOps(Appended(log, batch, sync), env) == OpsIn(Appended(log, batch, sync), env)
  {
    hide R.Flat, R.OpsOf;
    var more := Appended(log, batch, sync);
    PrefixOps(more, env, log.synced, more.synced);
    assert more.batches[..log.synced] == log.batches[..log.synced];
    assert more.batches[..|more.batches|] == more.batches;
  }

  lemma SyncedInLog(w: World)
    requires InOrder(w)
    ensures w.st.log.synced <= |w.st.log.batches|
  {
    hide Inv, HistorySplits, DescriptorOk, FilesFit, R.LogFits, R.Logged, OpsIn;
  }

  /** A step keeps on disk what is there, and the history only grows. */
  lemma StepKeepsDisk(w: World, event: Event, w': World, p: nat)
    requires InOrder(w) && TurnNext(w, Goes(event), w') && OnDisk(w, p)
    ensures OnDisk(w', p)
  {
    hide StoreInv, OpsIn, SyncedOps, Next, EditFor, Written, Appended;
    Parts(w.st, w.env, 0, 0);
    SyncedInLog(w);
    match event
    case Write(batch, sync) =>
      AppendKeepsSynced(w.st.log, batch, sync, w.env);
      AppendedStart(w.st.log, batch, sync);
    case Switch =>
      NoPrior(w, w');
    case LogEdit(step, edit) =>
      if w.st.prior.Some? {
        SyncedAreIn(w.st.prior.value, w.env);
      }
    case Other(step) =>
  }

  lemma AppendedStart(log: LogFile, batch: seq<WB.Update>, sync: bool)
    ensures Appended(log, batch, sync).first == log.first
  {
  }

  lemma NoPrior(w: World, w': World)
    requires InOrder(w) && TurnNext(w, Goes(Switch), w')
    ensures w.st.prior.None?
  {
    hide Inv, HistorySplits, DescriptorOk, FilesFit, LogHolds;
  }

  lemma StepExtendsHistory(w: World, event: Event, w': World)
    requires TurnNext(w, Goes(event), w')
    ensures w.st.sys.history <= w'.st.sys.history
  {
    hide EditFor, Written, Installed, IsCompaction, SafeFlushLevel, InsertBatch, IsInputMerge, ReplaceEdit, FileOk;
  }

  lemma SyncedOpsLeft(log: LogFile, t: nat, env: Env)
    requires CutAt(log, t)
    ensures |SyncedOps(log, env)| <= |OpsLeft(log, t, env)|
  {
    hide R.Flat, R.OpsOf, Left;
    SyncedAreLeft(log, t);
    PrefixOps(log, env, log.synced, Left(log, t));
  }

  /** What is on disk survives a crash. */
  lemma OnDiskSurvives(w: World, present: set<nat>, tPrior: nat, tLog: nat, files: seq<File>, edit: VE.VersionEdit, w': World, p: nat)
    requires InOrder(w) && TurnNext(w, Crashes(present, tPrior, tLog, files, edit), w') && OnDisk(w, p)
    ensures OnDisk(w', p) && p < |w.st.sys.history| && p < |w'.st.sys.history| && w'.st.sys.history[p] == w.st.sys.history[p]
  {
    hide StoreInv, OpsIn, SyncedOps, OpenedAfter, CutAt, LiveNumbers, HasNumbers, HistoryLeft, OpenEdit, OpenEdits, OpsLeft;
    OnDiskInHistory(w, p);
    LastInRange(w.st, w.env, present, tPrior, tLog);
    SyncedOpsLeft(w.st.log, tLog, w.env);
    if w.st.prior.Some? {
      SyncedOpsLeft(w.st.prior.value, tPrior, w.env);
    }
    assert Survives(w.st, w.env, tPrior, tLog, p);
  }

  /** One turn keeps what is on disk, at its place in the history. */
  lemma TurnKeepsDisk(w: World, turn: Turn, w': World, p: nat)
    requires InOrder(w) && TurnNext(w, turn, w') && OnDisk(w, p)
    ensures OnDisk(w', p) && p < |w.st.sys.history| && p < |w'.st.sys.history| && w'.st.sys.history[p] == w.st.sys.history[p]
  {
    hide InOrder, TurnNext, OnDisk;
    match turn
    case Goes(event) =>
      StepKeepsDisk(w, event, w', p);
      OnDiskInHistory(w, p);
      StepExtendsHistory(w, event, w');
    case Crashes(present, tPrior, tLog, files, edit) =>
      OnDiskSurvives(w, present, tPrior, tLog, files, edit, w', p);
  }

  /** What a crash changes in the history: operations that were not on disk may be lost, no other is there. */
  lemma CrashOnlyLoses(w: World, present: set<nat>, tPrior: nat, tLog: nat, files: seq<File>, edit: VE.VersionEdit, w': World, p: nat)
    requires InOrder(w) && TurnNext(w, Crashes(present, tPrior, tLog, files, edit), w') && p < |w'.st.sys.history|
    ensures p < |w.st.sys.history| && (w'.st.sys.history[p] == w.st.sys.history[p] || (w'.st.sys.history[p] == Lost && !OnDisk(w, p)))
  {
    hide InOrder, OpenedAfter, Crashed, LiveNumbers, HasNumbers, OpenEdit, OpenEdits, OnDisk, Survives;
    if OnDisk(w, p) {
      TurnKeepsDisk(w, Crashes(present, tPrior, tLog, files, edit), w', p);
    }
  }

  /** Durability over any run with any crashes: an operation that is on disk stays in the history, at its
      sequence number, from then on. */
  lemma {:induction false} OnDiskForever(worlds: seq<World>, turns: seq<Turn>, i: nat, j: nat, p: nat)
    requires LongRun(worlds, turns) && i <= j <= |turns| && OnDisk(worlds[i], p)
    requires forall k :: 0 <= k < j ==> TurnHarmless(worlds[k], turns[k])
    ensures OnDisk(worlds[j], p) && p < |worlds[i].st.sys.history| && p < |worlds[j].st.sys.history|
    ensures worlds[j].st.sys.history[p] == worlds[i].st.sys.history[p]
  {
    hide InOrder, TurnNext, TurnHarmless, StoreInit, ReadsRight, OnDisk;
    CrashesKeepOrder(worlds, turns, i);
    OnDiskInHistory(worlds[i], p);
    if i < j {
      OnDiskForever(worlds, turns, i, j - 1, p);
      CrashesKeepOrder(worlds, turns, j - 1);
      TurnKeepsDisk(worlds[j - 1], turns[j - 1], worlds[j], p);
    }
  }

  /** A write that asked for sync is on disk once it is done. */
  lemma SyncWriteOnDisk(w: World, batch: seq<WB.Update>, w': World, p: nat)
    requires InOrder(w) && TurnNext(w, Goes(Write(batch, true)), w') && p < |w'.st.sys.history|
    requires |w.st.sys.history| <= p
    ensures OnDisk(w', p) && w'.st.sys.history == w.st.sys.history + R.OpsOf(batch, w.env.options.as_)
  {
    hide InOrder, Next, Appended, OpsIn, SyncedOps, R.OpsOf, R.Flat;
    SyncedInLog(w);
    AppendKeepsSynced(w.st.log, batch, true, w.env);
    AppendedStart(w.st.log, batch, true);
    WriteGrows(w, batch, w');
  }

  lemma WriteGrows(w: World, batch: seq<WB.Update>, w': World)
    requires InOrder(w) && TurnNext(w, Goes(Write(batch, true)), w')
    ensures w'.st.sys.history == w.st.sys.history + R.OpsOf(batch, w.env.options.as_)
    ensures w'.st.log.first <= |w.st.sys.history| && |w'.st.sys.history| == w'.st.log.first + |OpsIn(w'.st.log, w.env)|
  {
    hide Inv, TablesRight, DescriptorOk, FilesFit, LogHolds, R.BatchFits, R.OpsOf, InsertBatch, OpsIn, Appended;
    WriteKeepsLogs(w.st, w.env, batch, true, w'.st);
    AppendedStart(w.st.log, batch, true);
    Parts(w.st, w.env, 0, 0);
  }

  lemma TurnAt(worlds: seq<World>, turns: seq<Turn>, i: nat)
    requires LongRun(worlds, turns) && i < |turns|
    ensures |worlds| == |turns| + 1 && TurnNext(worlds[i], turns[i], worlds[i + 1])
  {
    hide TurnNext, StoreInit;
  }

  /** End to end: each operation of a synced write is in the history of every later state, whatever crashes
      came between. */
  lemma SyncWriteLasts(worlds: seq<World>, turns: seq<Turn>, i: nat, j: nat, batch: seq<WB.Update>, q: nat)
    requires LongRun(worlds, turns) && i < j <= |turns| && turns[i] == Goes(Write(batch, true)) && q < |batch|
    requires forall k :: 0 <= k < j ==> TurnHarmless(worlds[k], turns[k])
    ensures var p := |worlds[i].st.sys.history| + q;
            p < |worlds[j].st.sys.history| && worlds[j].st.sys.history[p] == R.OpsOf(batch, worlds[i].env.options.as_)[q]
  {
    hide *;
    CrashesKeepOrder(worlds, turns, i);
    TurnAt(worlds, turns, i);
    WriteGrows(worlds[i], batch, worlds[i + 1]);
    SyncWriteOnDisk(worlds[i], batch, worlds[i + 1], |worlds[i].st.sys.history| + q);
    OnDiskForever(worlds, turns, i + 1, j, |worlds[i].st.sys.history| + q);
  }
}
