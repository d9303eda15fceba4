/** Two log files, the older one not synced: a crash that loses an earlier write and keeps a later one. */
module CrashHole {
  import opened Wrappers
  import opened Coding
  import opened History
  import opened Version
  import opened VersionGet
  import opened Lsm
  import opened LsmTables
  import opened Durable
  import opened Opening
  import opened Crash
  import R = Recovery
  import M = Manifest
  import VE = VersionEdit
  import WB = WriteBatch
  import LogRoundTrip
  import Log
  import VersionBuilder

  const A := WB.Put([97], [1])
  const B := WB.Put([98], [2])

  function OpsA(env: Env): seq<Op> {
    R.OpsOf([A], env.options.as_)
  }

  function OpsB(env: Env): seq<Op> {
    R.OpsOf([B], env.options.as_)
  }

  /** The first edit of a new database. */
  function FirstEdit(env: Env): VE.VersionEdit {
    VE.VersionEdit(Some(env.comparator), Some(3), Some(0), Some(4), Some(0), [], [], [])
  }

  function New(env: Env): Store {
    Store(System(Db([], None, M.NO_FILES, [], 0, 4), []), None, LogFile(3, 0, [], 0), [FirstEdit(env)], [M.NO_FILES, M.NO_FILES])
  }

  function WithA(env: Env): Store {
    var st := New(env);
    st.(sys := System(InsertBatch(st.sys.db, OpsA(env)), OpsA(env)), log := Appended(st.log, [A], false))
  }

  function SwitchedOver(env: Env): Store {
    var st := WithA(env);
    var db := st.sys.db;
    Store(System(db.(mem := [], imm := Some(db.mem), nextFile := db.nextFile + 1), st.sys.history), Some(st.log),
          LogFile(db.nextFile, db.lastSequence, [], 0), st.edits, st.versions)
  }

  function WithB(env: Env): Store {
    var st := SwitchedOver(env);
    st.(sys := System(InsertBatch(st.sys.db, OpsB(env)), st.sys.history + OpsB(env)), log := Appended(st.log, [B], true))
  }

  lemma NewIsInit(env: Env)
    requires |env.comparator| < U32
    ensures StoreInit(New(env), env)
  {
    hide M.Chain, M.FileEditOf, M.PointersOf, M.PointersFit;
    var e := FirstEdit(env);
    FirstChain(env);
    NoPointers(e);
    assert [e][..0] == [];
    assert M.LastOf([e], M.Log) == e.logNumber;
  }

  lemma FirstChain(env: Env)
    requires |env.comparator| < U32
    ensures M.Chain([FirstEdit(env)], [M.NO_FILES, M.NO_FILES], env.comparator, env.load)
    ensures M.FileEditOf(FirstEdit(env), env.load).added == []
  {
    var e := FirstEdit(env);
    assert M.FileEditOf(e, env.load) == VersionBuilder.FileEdit({}, []);
    assert M.FileEdits([e], env.load) == [VersionBuilder.FileEdit({}, [])];
    assert M.Readable(e, env.comparator);
    EmptyInstalled();
    M.OneEditAddsOnce(VersionBuilder.FileEdit({}, []));
    hide M.Readable;
  }

  lemma NoPointers(e: VE.VersionEdit)
    requires e.compactPointers == []
    ensures M.PointersFit(M.PointersOf([e]))
  {
    assert [e][..0] == [];
    assert M.WithPointers(M.NO_POINTERS, []) == M.NO_POINTERS;
    assert M.PointersOf([e]) == M.WithPointers(M.PointersOf([]), []);
  }

  lemma EmptyInstalled()
    ensures VersionBuilder.Installed(M.NO_FILES, VersionBuilder.FileEdit({}, []), M.NO_FILES)
  {
    forall l | 0 <= l < NUM_LEVELS
      ensures M.NO_FILES[l] == []
    {
    }
  }

  lemma HoleRuns(env: Env)
    requires |env.comparator| < U32
    ensures StoreRun([New(env), WithA(env), SwitchedOver(env), WithB(env)], [Write([A], false), Switch, Write([B], true)], env)
  {
    hide InsertBatch, DescriptorOk;
    NewIsInit(env);
    assert StoreNext(New(env), env, Write([A], false), WithA(env));
    WritesKeepImm(New(env).sys.db, OpsA(env));
    assert StoreNext(WithA(env), env, Switch, SwitchedOver(env));
    assert StoreNext(SwitchedOver(env), env, Write([B], true), WithB(env));
  }

  lemma {:induction false} WritesKeepImm(db: Db, ops: seq<Op>)
    ensures InsertBatch(db, ops).imm == db.imm
    decreases |ops|
  {
    if ops != [] {
      WritesKeepImm(AddOne(db, ops[0]), ops[1..]);
    }
  }

  /** The database opens with the later operation and without the earlier one: as no prefix of the history. */
  ghost predicate OpensWithoutFirst(st: Store, env: Env, tPrior: nat, tLog: nat) {
    && DescriptorOk(st, env) && Flushed(st) == 0 && |OpsA(env)| == 1 && |OpsB(env)| == 1
    && st.sys.history == OpsA(env) + OpsB(env)
    && var r := OpenedAfter(st, env, LiveNumbers(st.sys.db.levels), tPrior, tLog);
       && r.Opened? && EntryOf(OpsA(env)[0], 1) !in ContentsOf(r) && EntryOf(OpsB(env)[0], 2) in ContentsOf(r)
       && forall n: nat :: n <= 2 ==> ContentsOf(r) != PrefixContents(st, n)
  }

  /** Changing to a new log does not sync the old one: a write that was not synced can be lost while a
      later, synced one is kept. */
  lemma UnsyncedLogLeavesHole(env: Env)
    requires |env.comparator| < U32
    ensures exists states, events, tPrior, tLog ::
      && StoreRun(states, events, env) && Crashed(states[|events|], tPrior, tLog)
      && !NoHole(states[|events|], env, tPrior, tLog) && OpensWithoutFirst(states[|events|], env, tPrior, tLog)
  {
    hide StoreRun, InsertBatch, Log.Written, CutAt, OpsLeft, OpsIn, RecordsOf, R.OpsOf, New, OpensWithoutFirst;
    var st := WithB(env);
    var tLog := |Log.Written(RecordsOf(st.log))|;
    HoleRuns(env);
    LastLogs(env);
    OneBatch(st.prior.value, [A], env);
    OneBatch(st.log, [B], env);
    var states, events := [New(env), WithA(env), SwitchedOver(env), st], [Write([A], false), Switch, Write([B], true)];
    assert StoreRun(states, events, env) && Crashed(states[|events|], 0, tLog) && !NoHole(states[|events|], env, 0, tLog);
    HoleIsSeen(env, tLog);
  }

  lemma HoleIsSeen(env: Env, tLog: nat)
    requires |env.comparator| < U32 && Crashed(WithB(env), 0, tLog) && OpsLeft(WithB(env).log, tLog, env) == OpsIn(WithB(env).log, env)
    requires OpsLeft(WithB(env).prior.value, 0, env) == [] && !NoHole(WithB(env), env, 0, tLog)
    ensures OpensWithoutFirst(WithB(env), env, 0, tLog)
  {
    hide StoreInv, Reopened, WithB, NoHole, Crashed, OpsIn, OpsLeft, PrefixContents, OpenedAfter, LiveNumbers, OpsA, OpsB, DescriptorOk, ContentsOf,
         R.OpsOf;
    var st := WithB(env);
    HoleRunKeeps(env);
    OpsOfHole(env);
    StoreOpens(st, env, LiveNumbers(st.sys.db.levels), 0, tLog);
    forall n: nat | n <= 2
      ensures Reopened(st, env, 0, tLog) != PrefixContents(st, n)
    {
      HoleIsNoPrefix(st, env, 0, tLog, n);
    }
    OnlySecond(st, env, tLog);
  }

  lemma HoleRunKeeps(env: Env)
    requires |env.comparator| < U32
    ensures StoreInv(WithB(env), env) && DescriptorOk(WithB(env), env)
  {
    hide StoreInv, StoreRun, New, WithA, SwitchedOver, WithB, EventHarmless;
    HoleRuns(env);
    var states, events := [New(env), WithA(env), SwitchedOver(env), WithB(env)], [Write([A], false), Switch, Write([B], true)];
    forall j | 0 <= j < 3
      ensures EventHarmless(states[j], events[j])
    {
      AlwaysHarmless(states[j], events[j]);
    }
    RunKeepsFiles(states, events, env, 3);
    StoreDescriptor(WithB(env), env);
  }

  lemma StoreDescriptor(st: Store, env: Env)
    requires StoreInv(st, env)
    ensures DescriptorOk(st, env)
  {
    hide Inv, LogsOk, HistorySplits, DescriptorOk, FilesFit, TablesRight;
  }

  lemma OpsOfHole(env: Env)
    ensures |OpsA(env)| == 1 && |OpsB(env)| == 1
    ensures var st := WithB(env);
            && Flushed(st) == 0 && st.sys.history == OpsA(env) + OpsB(env) && st.prior.Some?
            && OpsIn(st.prior.value, env) == OpsA(env) && OpsIn(st.log, env) == OpsB(env)
  {
    hide InsertBatch, R.OpsOf;
    LastLogs(env);
    OneFlat([A]);
    OneFlat([B]);
  }

  lemma OnlySecond(st: Store, env: Env, tLog: nat)
    requires StoreInv(st, env) && Flushed(st) == 0 && st.prior.Some? && |OpsA(env)| == |OpsB(env)| == 1
    requires OpsIn(st.prior.value, env) == OpsA(env) && OpsIn(st.log, env) == OpsB(env)
    requires OpsLeft(st.prior.value, 0, env) == [] && OpsLeft(st.log, tLog, env) == OpsB(env)
    ensures EntryOf(OpsA(env)[0], 1) !in Reopened(st, env, 0, tLog)
    ensures EntryOf(OpsB(env)[0], 2) in Reopened(st, env, 0, tLog)
  {
    hide StoreInv, OpsA, OpsB, OpsIn, OpsLeft, R.Logged, LevelsSet;
    Parts(st, env, 0, tLog);
    TablesBelow(st, env);
    R.LoggedMembers([], 0);
    R.LoggedMembers(OpsB(env), 1);
    assert R.LeftBy(EntryOf(OpsB(env)[0], 2), OpsB(env), 1);
  }

  lemma LastLogs(env: Env)
    ensures var st := WithB(env);
            st.prior.Some? && st.prior.value.batches == [[A]] && st.prior.value.synced == 0 && st.log.batches == [[B]] && st.log.synced == 1
  {
    hide InsertBatch;
  }

  /** A log of one batch: nothing is left of an empty file, all of the whole one. */
  lemma OneBatch(log: LogFile, batch: seq<WB.Update>, env: Env)
    requires log.batches == [batch] && log.synced <= 1 && batch != []
    ensures var whole := |Log.Written(RecordsOf(log))|;
            && OpsLeft(log, 0, env) == [] && OpsLeft(log, whole, env) == OpsIn(log, env) != []
            && (log.synced == 0 ==> CutAt(log, 0)) && CutAt(log, whole)
  {
    var records := RecordsOf(log);
    assert records[..0] == [] && records[..1] == records && log.batches[..0] == [] && log.batches[..1] == log.batches;
    assert [batch][1..] == [];
    assert R.Flat(log.batches) == batch + [] == batch;
    LogRoundTrip.NothingWritten();
    assert Log.Written(records) != [];
  }
}
