/** What a crash leaves (db/db_impl.cc: Recover, RecoverLogFile): each log file may have lost what was not
    synced, and the descriptor the edit that was being written. */
module Crash {
  import opened DbFormat
  import opened Wrappers
  import opened Coding
  import opened View
  import opened History
  import opened VersionGet
  import opened Lsm
  import opened LsmTables
  import opened FileNumbers
  import opened Durable
  import opened Opening
  import R = Recovery
  import M = Manifest
  import VE = VersionEdit
  import LogRoundTrip
  import Log

  function RecordsOf(log: LogFile): (r: seq<Bytes>)
    ensures |r| == |log.batches|
  {
    R.Records(log.batches, log.first)
  }

  /** A log file may end anywhere from the end of the synced batches on. */
  ghost predicate CutAt(log: LogFile, t: nat)
    ensures CutAt(log, t) ==> t <= |Log.Written(RecordsOf(log))|
  {
    && log.synced <= |log.batches|
    && |Log.Written(RecordsOf(log)[..log.synced])| <= t <= |Log.Written(RecordsOf(log))|
  }

  function FileOf(log: LogFile, t: nat): Numbered {
    var bytes := Log.Written(RecordsOf(log));
    Numbered(log.number, if t < |bytes| then bytes[..t] else bytes)
  }

  /** The batches that survive. */
  function Left(log: LogFile, t: nat): (k: nat)
    ensures k <= |log.batches|
  {
    LogRoundTrip.Survived(RecordsOf(log), t)
  }

  function OpsLeft(log: LogFile, t: nat, env: Env): seq<Op> {
    R.OpsOf(R.Flat(log.batches[..Left(log, t)]), env.options.as_)
  }

  /** All synced batches survive. */
  lemma SyncedAreLeft(log: LogFile, t: nat)
    requires CutAt(log, t)
    ensures log.synced <= Left(log, t)
  {
    hide Log.Written, R.Records;
    SurvivesSynced(RecordsOf(log), log.synced, t);
  }

  lemma {:induction false} SurvivesSynced(records: seq<Bytes>, synced: nat, t: nat)
    requires synced <= |records| && |Log.Written(records[..synced])| <= t
    ensures synced <= LogRoundTrip.Survived(records, t)
  {
    hide Log.Written;
    if records != [] && |Log.Written(records)| > t {
      assert synced < |records| by { assert records[..|records|] == records; }
      assert records[..|records| - 1][..synced] == records[..synced];
      SurvivesSynced(records[..|records| - 1], synced, t);
    }
  }

  /** The operations that survive are the first ones of the log. */
  lemma LeftIsPrefix(log: LogFile, t: nat, env: Env)
    ensures OpsLeft(log, t, env) <= OpsIn(log, env)
    ensures Left(log, t) == |log.batches| ==> OpsLeft(log, t, env) == OpsIn(log, env)
  {
    hide R.Flat, R.OpsOf, LogRoundTrip.Survived;
    var k := Left(log, t);
    assert log.batches == log.batches[..k] + log.batches[k..];
    R.FlatAppend(log.batches[..k], log.batches[k..]);
    R.OpsAppend(R.Flat(log.batches[..k]), R.Flat(log.batches[k..]), env.options.as_);
    if k == |log.batches| {
      assert log.batches[..k] == log.batches;
    }
  }

  /** `st` is what replaying the file that is left of a log gives. */
  ghost predicate Replays(st: R.Recovered, log: LogFile, t: nat, last: nat, env: Env) {
    var end := log.first + |OpsLeft(log, t, env)|;
    && st.ok && R.Entries(st) == R.Logged({}, OpsLeft(log, t, env), log.first) && R.RecoveredOk(st, end)
    && st.maxSequence == if Left(log, t) == 0 then last else Max(last, end)
  }

  /** One log file is replayed to exactly what is left of it. */
  lemma LogReplays(log: LogFile, t: nat, last: nat, entries: set<Entry>, end: nat, env: Env)
    requires LogHolds(log, entries, end, env) && CutAt(log, t)
    ensures Replays(R.RecoverFrom(FileOf(log, t).bytes, 0, R.Nothing(last), env.options), log, t, last, env)
  {
    hide R.RecoverFrom, R.Records, R.LogFits, R.Logged, R.Flat, R.OpsOf, R.Entries, R.RecoveredOk, Log.Written, LogRoundTrip.Survived;
    R.TornLogRecovers(log.batches, log.first, t, last, env.options);
    var bytes := Log.Written(RecordsOf(log));
    assert bytes[..|bytes|] == bytes;
  }

  /** The log files on disk. */
  function LogsLeft(st: Store, tPrior: nat, tLog: nat): seq<Numbered> {
    (if st.prior.Some? then [FileOf(st.prior.value, tPrior)] else []) + [FileOf(st.log, tLog)]
  }

  ghost predicate Crashed(st: Store, tPrior: nat, tLog: nat) {
    (st.prior.Some? ==> CutAt(st.prior.value, tPrior)) && CutAt(st.log, tLog)
  }

  function PriorOpsLeft(st: Store, t: nat, env: Env): seq<Op> {
    if st.prior.Some? then OpsLeft(st.prior.value, t, env) else []
  }

  function PriorOps(st: Store, env: Env): seq<Op> {
    if st.prior.Some? then OpsIn(st.prior.value, env) else []
  }

  /** All entries that the logs gave. */
  ghost function ReplayedEntries(replayed: seq<R.Recovered>): set<Entry> {
    if replayed == [] then {} else R.Entries(replayed[0]) + ReplayedEntries(replayed[1..])
  }

  /** What the database holds after it was opened again. */
  ghost function Reopened(st: Store, env: Env, tPrior: nat, tLog: nat): set<Entry> {
    LevelsSet(st.sys.db.levels)
    + R.Logged({}, PriorOpsLeft(st, tPrior, env), Flushed(st))
    + R.Logged({}, OpsLeft(st.log, tLog, env), st.log.first)
  }

  lemma OneReplayed(log: Numbered, more: seq<Numbered>, minLog: nat, last: nat, options: R.Options)
    requires minLog <= log.number
    ensures var st := R.RecoverFrom(log.bytes, 0, R.Nothing(last), options);
            st.ok ==> ReplayOf([log] + more, minLog, 0, last, options) == [st] + ReplayOf(more, minLog, 0, st.maxSequence, options)
  {
    hide R.RecoverFrom;
    assert ([log] + more)[1..] == more;
  }

  /** The newer log alone. */
  lemma LogReplaysAlone(log: LogFile, t: nat, minLog: nat, last: nat, entries: set<Entry>, end: nat, env: Env)
    requires LogHolds(log, entries, end, env) && CutAt(log, t) && minLog <= log.number
    ensures var replayed := ReplayOf([FileOf(log, t)], minLog, 0, last, env.options);
            |replayed| == 1 && Replays(replayed[0], log, t, last, env)
  {
    hide R.RecoverFrom, LogHolds, R.Logged, OpsLeft, R.Entries, CutAt, Left, RecordsOf, R.RecoveredOk;
    LogReplays(log, t, last, entries, end, env);
    var file := FileOf(log, t);
    OneReplayed(file, [], minLog, last, env.options);
    NoneReplayed(minLog, 0, R.RecoverFrom(file.bytes, 0, R.Nothing(last), env.options).maxSequence, env.options);
    assert [file] + [] == [file];
  }

  /** The older log, and then the newer one. */
  lemma TwoLogsReplay(a: LogFile, tA: nat, b: LogFile, tB: nat, minLog: nat, entriesA: set<Entry>, endA: nat, entriesB: set<Entry>, endB: nat, env: Env)
    requires LogHolds(a, entriesA, endA, env) && CutAt(a, tA) && LogHolds(b, entriesB, endB, env) && CutAt(b, tB)
    requires minLog <= a.number && minLog <= b.number
    ensures var replayed := ReplayOf([FileOf(a, tA), FileOf(b, tB)], minLog, 0, 0, env.options);
            && |replayed| == 2 && Replays(replayed[0], a, tA, 0, env) && Replays(replayed[1], b, tB, replayed[0].maxSequence, env)
  {
    hide R.RecoverFrom, LogHolds, R.Logged, OpsLeft, R.Entries, CutAt, Left, RecordsOf, ReplayOf, R.RecoveredOk;
    LogReplays(a, tA, 0, entriesA, endA, env);
    var file := FileOf(a, tA);
    var one := R.RecoverFrom(file.bytes, 0, R.Nothing(0), env.options);
    LogReplaysAlone(b, tB, minLog, one.maxSequence, entriesB, endB, env);
    OneReplayed(file, [FileOf(b, tB)], minLog, 0, env.options);
    var rest := ReplayOf([FileOf(b, tB)], minLog, 0, one.maxSequence, env.options);
    assert [file] + [FileOf(b, tB)] == [file, FileOf(b, tB)];
    assert [one] + rest == [one, rest[0]];
  }

  /** Both logs are replayed. */
  ghost predicate StoreReplays(replayed: seq<R.Recovered>, st: Store, env: Env, tPrior: nat, tLog: nat) {
    if st.prior.Some? then
      && |replayed| == 2 && Replays(replayed[0], st.prior.value, tPrior, 0, env)
      && Replays(replayed[1], st.log, tLog, replayed[0].maxSequence, env)
    else
      |replayed| == 1 && Replays(replayed[0], st.log, tLog, 0, env)
  }

  lemma LogsReplay(st: Store, env: Env, tPrior: nat, tLog: nat)
    requires LogsOk(st, env) && Crashed(st, tPrior, tLog)
    ensures StoreReplays(ReplayOf(LogsLeft(st, tPrior, tLog), OldestLog(st), 0, 0, env.options), st, env, tPrior, tLog)
  {
    hide LogHolds, CutAt, FileOf, ReplayOf, Replays;
    if st.prior.Some? {
      TwoLogsReplay(st.prior.value, tPrior, st.log, tLog, OldestLog(st), EntrySet(st.sys.db.imm.value), st.log.first,
                    EntrySet(st.sys.db.mem), st.sys.db.lastSequence, env);
      assert LogsLeft(st, tPrior, tLog) == [FileOf(st.prior.value, tPrior), FileOf(st.log, tLog)];
    } else {
      LogReplaysAlone(st.log, tLog, OldestLog(st), 0, EntrySet(st.sys.db.mem), st.sys.db.lastSequence, env);
      assert LogsLeft(st, tPrior, tLog) == [FileOf(st.log, tLog)];
    }
  }

  /** To the operations left of each. */
  lemma ReplayedIs(replayed: seq<R.Recovered>, st: Store, env: Env, tPrior: nat, tLog: nat)
    requires StoreReplays(replayed, st, env, tPrior, tLog)
    ensures AllOk(replayed)
    ensures ReplayedEntries(replayed) == R.Logged({}, PriorOpsLeft(st, tPrior, env), Flushed(st)) + R.Logged({}, OpsLeft(st.log, tLog, env), st.log.first)
  {
    hide R.Logged, OpsLeft, R.Entries, Left, R.RecoveredOk, ReplayedEntries;
    NoOpsLogged(Flushed(st));
    if st.prior.Some? {
      TwoEntries(replayed[0], replayed[1]);
      assert replayed == [replayed[0], replayed[1]];
    } else {
      OneEntries(replayed[0]);
      assert replayed == [replayed[0]];
    }
  }

  /** No sequence number is lost, and none is made up. */
  lemma SequenceReplayed(replayed: seq<R.Recovered>, st: Store, env: Env, tPrior: nat, tLog: nat)
    requires StoreReplays(replayed, st, env, tPrior, tLog)
    ensures PriorOpsLeft(st, tPrior, env) != [] ==> Flushed(st) + |PriorOpsLeft(st, tPrior, env)| <= LastReplayed(replayed)
    ensures OpsLeft(st.log, tLog, env) != [] ==> st.log.first + |OpsLeft(st.log, tLog, env)| <= LastReplayed(replayed)
    ensures LastReplayed(replayed) <= Max(Flushed(st) + |PriorOpsLeft(st, tPrior, env)|, st.log.first + |OpsLeft(st.log, tLog, env)|)
  {
    hide R.Logged, OpsLeft, R.Entries, Left, R.RecoveredOk;
    NothingLeft(st.log, tLog, env);
    if st.prior.Some? {
      NothingLeft(st.prior.value, tPrior, env);
    }
  }

  lemma NothingLeft(log: LogFile, t: nat, env: Env)
    ensures Left(log, t) == 0 ==> OpsLeft(log, t, env) == []
  {
    hide Left;
    assert log.batches[..0] == [];
  }

  lemma NoOpsLogged(last: nat)
    ensures R.Logged({}, [], last) == {}
  {
  }

  lemma OneEntries(one: R.Recovered)
    ensures ReplayedEntries([one]) == R.Entries(one)
  {
    assert [one][1..] == [];
  }

  lemma TwoEntries(one: R.Recovered, two: R.Recovered)
    ensures ReplayedEntries([one, two]) == R.Entries(one) + R.Entries(two)
  {
    assert [one, two][1..] == [two];
    OneEntries(two);
  }

  // What is read after a crash

  /** The history up to operation `n`: the tables, and the entries of what follows them. */
  ghost function PrefixContents(st: Store, n: nat): set<Entry>
    requires Flushed(st) <= n <= |st.sys.history|
  {
    LevelsSet(st.sys.db.levels) + R.Logged({}, st.sys.history[Flushed(st)..n], Flushed(st))
  }

  /** Nothing lost from the older log, or nothing left of the newer one. */
  ghost predicate NoHole(st: Store, env: Env, tPrior: nat, tLog: nat) {
    PriorOpsLeft(st, tPrior, env) == PriorOps(st, env) || OpsLeft(st.log, tLog, env) == []
  }

  /** How much of the history is left, when it has no hole. */
  function Recovered(st: Store, env: Env, tPrior: nat, tLog: nat): nat {
    Flushed(st) + |PriorOpsLeft(st, tPrior, env)| + |OpsLeft(st.log, tLog, env)|
  }

  /** The parts of the history: in the tables, in the older log, in the newer log. */
  lemma Parts(st: Store, env: Env, tPrior: nat, tLog: nat)
    requires StoreInv(st, env)
    ensures Flushed(st) <= st.log.first <= |st.sys.history|
    ensures st.sys.history[Flushed(st)..st.log.first] == PriorOps(st, env) && st.sys.history[st.log.first..] == OpsIn(st.log, env)
    ensures st.log.first == Flushed(st) + |PriorOps(st, env)|
    ensures PriorOpsLeft(st, tPrior, env) <= PriorOps(st, env) && OpsLeft(st.log, tLog, env) <= OpsIn(st.log, env)
  {
    hide *;
    LeftIsPrefix(st.log, tLog, env);
    PriorLeftIsPrefix(st, tPrior, env);
    PartsJoin(st, env);
    PartsOf(st.sys.history, Flushed(st), st.log.first, PriorOps(st, env), OpsIn(st.log, env));
  }

  lemma PartsJoin(st: Store, env: Env)
    requires StoreInv(st, env)
    ensures Flushed(st) <= |st.sys.history| && st.sys.history[Flushed(st)..] == PriorOps(st, env) + OpsIn(st.log, env)
    ensures st.log.first == Flushed(st) + |PriorOps(st, env)|
  {
    hide Inv, DescriptorOk, FilesFit, TablesRight, OpsIn, R.LogFits, R.Logged;
  }

  lemma PriorLeftIsPrefix(st: Store, t: nat, env: Env)
    ensures PriorOpsLeft(st, t, env) <= PriorOps(st, env)
  {
    hide OpsIn, OpsLeft;
    if st.prior.Some? {
      LeftIsPrefix(st.prior.value, t, env);
    }
  }

  lemma PartsOf(history: seq<Item>, i: nat, j: nat, a: seq<Item>, b: seq<Item>)
    requires i <= |history| && history[i..] == a + b && j == i + |a|
    ensures j <= |history| && history[i..j] == a && history[j..] == b
  {
    assert history[i..][..|a|] == history[i..j];
    assert history[i..][|a|..] == history[j..];
  }

  /** Without a hole, what is opened holds exactly a prefix of the history. */
  lemma NoHoleIsPrefix(st: Store, env: Env, tPrior: nat, tLog: nat)
    requires StoreInv(st, env) && NoHole(st, env, tPrior, tLog)
    ensures var n := Recovered(st, env, tPrior, tLog);
            Flushed(st) <= n <= |st.sys.history| && Reopened(st, env, tPrior, tLog) == PrefixContents(st, n)
  {
    hide Inv, LogsOk, HistorySplits, DescriptorOk, FilesFit, TablesRight, OpsIn, OpsLeft, R.Logged, LevelsSet;
    Parts(st, env, tPrior, tLog);
    var a, b := PriorOpsLeft(st, tPrior, env), OpsLeft(st.log, tLog, env);
    var n := Recovered(st, env, tPrior, tLog);
    var h, f := st.sys.history, Flushed(st);
    assert h[f..n] == a + b by {
      assert h[f..st.log.first] + h[st.log.first..] == h[f..];
      assert h[f..n] == h[f..][..n - f];
    }
    R.LoggedAppend({}, a, b, f);
    R.LoggedOver(R.Logged({}, a, f), {}, b, f + |a|);
    assert R.Logged({}, a, f) + {} == R.Logged({}, a, f);
    if b == [] {
      NoOpsLogged(f + |a|);
      NoOpsLogged(st.log.first);
    }
  }

  lemma TablesBelow(st: Store, env: Env)
    requires StoreInv(st, env)
    ensures forall x :: x in LevelsSet(st.sys.db.levels) ==> x.key.sequence <= Flushed(st)
  {
    hide Inv, LogsOk, DescriptorOk, LevelsSet, AllRight;
  }

  /** With a hole, it is no prefix: the last operation of the older log is missing, a later one is there. */
  lemma HoleIsNoPrefix(st: Store, env: Env, tPrior: nat, tLog: nat, n: nat)
    requires StoreInv(st, env) && !NoHole(st, env, tPrior, tLog)
    requires Flushed(st) <= n <= |st.sys.history|
    ensures Reopened(st, env, tPrior, tLog) != PrefixContents(st, n)
  {
    hide Inv, LogsOk, HistorySplits, DescriptorOk, FilesFit, TablesRight, OpsIn, OpsLeft, R.Logged, LevelsSet, PriorOps, PriorOpsLeft;
    Parts(st, env, tPrior, tLog);
    TablesBelow(st, env);
    var a, b := PriorOpsLeft(st, tPrior, env), OpsLeft(st.log, tLog, env);
    var h, f, start := st.sys.history, Flushed(st), st.log.first;
    R.LoggedMembers(a, f);
    R.LoggedMembers(b, start);
    R.LoggedMembers(h[f..n], f);
    assert |a| < |PriorOps(st, env)|;
    if n <= start {
      var later := EntryOf(b[0], start + 1);
      assert R.LeftBy(later, b, start);
      assert later in Reopened(st, env, tPrior, tLog) && later !in PrefixContents(st, n);
    } else {
      var last := h[f..start][start - 1 - f];
      assert last == PriorOps(st, env)[start - 1 - f] == h[f..n][start - 1 - f];
      var missing := EntryOf(last, start);
      assert R.LeftBy(missing, h[f..n], f);
      assert missing in PrefixContents(st, n) && missing !in Reopened(st, env, tPrior, tLog);
    }
  }

  /** Crash safety, exactly: whatever each log lost past its synced length, the opened database holds the
      entries of a prefix of the history if and only if the older log lost nothing or nothing is left of
      the newer one. */
  lemma CrashIsPrefixExactly(st: Store, env: Env, tPrior: nat, tLog: nat)
    requires StoreInv(st, env) && Crashed(st, tPrior, tLog)
    ensures (exists n: nat :: Flushed(st) <= n <= |st.sys.history| && Reopened(st, env, tPrior, tLog) == PrefixContents(st, n)) <==>
            NoHole(st, env, tPrior, tLog)
  {
    hide StoreInv, Reopened, PrefixContents, NoHole, Crashed;
    if NoHole(st, env, tPrior, tLog) {
      NoHoleIsPrefix(st, env, tPrior, tLog);
    } else {
      forall n: nat | Flushed(st) <= n <= |st.sys.history|
        ensures Reopened(st, env, tPrior, tLog) != PrefixContents(st, n)
      {
        HoleIsNoPrefix(st, env, tPrior, tLog, n);
      }
    }
  }

  /** And then it reads as that prefix. */
  lemma PrefixReads(st: Store, env: Env, tPrior: nat, tLog: nat)
    requires StoreInv(st, env) && NoHole(st, env, tPrior, tLog)
    ensures var n := Recovered(st, env, tPrior, tLog);
            && n <= |st.sys.history|
            && AllRecorded(Reopened(st, env, tPrior, tLog), st.sys.history[..n])
            && AllRight(Reopened(st, env, tPrior, tLog), st.sys.history[..n], n)
  {
    hide Inv, LogsOk, HistorySplits, DescriptorOk, FilesFit, AllRecorded, AllRight, LevelsSet, R.Logged, Reopened, Recovered, NoHole, OpsLeft;
    NoHoleIsPrefix(st, env, tPrior, tLog);
    var n, h, f := Recovered(st, env, tPrior, tLog), st.sys.history, Flushed(st);
    R.LoggedOver(LevelsSet(st.sys.db.levels), {}, h[f..n], f);
    assert LevelsSet(st.sys.db.levels) + {} == LevelsSet(st.sys.db.levels);
    R.LoggedIsRight(LevelsSet(st.sys.db.levels), h[..f], h[f..n], f);
    assert h[..f] + h[f..n] == h[..n];
    AllRightAbove(Reopened(st, env, tPrior, tLog), h[..n], f, n);
  }

  /** The entries of what was opened. */
  ghost function ContentsOf(r: Opened): set<Entry>
    requires r.Opened?
  {
    LevelsSet(r.levels) + ReplayedEntries(r.logs)
  }

  /** What must be read after a crash: every synced write is there, and at the recovered sequence number
      the prefix of the history that is left. */
  ghost predicate OpenedRight(r: Opened, st: Store, env: Env, tPrior: nat, tLog: nat) {
    && r.Opened? && ContentsOf(r) == Reopened(st, env, tPrior, tLog)
    && st.log.synced <= Left(st.log, tLog) && (st.prior.Some? ==> st.prior.value.synced <= Left(st.prior.value, tPrior))
    && (NoHole(st, env, tPrior, tLog) ==>
          var n := Recovered(st, env, tPrior, tLog);
          && n <= |st.sys.history| && n <= r.lastSequence
          && forall user :: Answer(ContentsOf(r), user, r.lastSequence, Expected(st.sys.history[..n], user, n)))
  }

  /** What is opened from the descriptor of a store and what is left of its logs. */
  function OpenedAfter(st: Store, env: Env, present: set<nat>, tPrior: nat, tLog: nat): Opened
    requires HasNumbers(st.edits)
  {
    OpenedFrom(st.edits, st.sys.db.levels, present, LogsLeft(st, tPrior, tLog), env.options)
  }

  lemma StoreHasNumbers(st: Store, env: Env)
    requires StoreInv(st, env)
    ensures HasNumbers(st.edits)
  {
    hide Inv, LogsOk, HistorySplits, FilesFit, TablesRight, M.Chain, M.LastOf, M.PointersOf;
  }

  lemma LogsEndAt(st: Store, env: Env, tPrior: nat, tLog: nat)
    requires LogsOk(st, env)
    ensures LogsEnd(LogsLeft(st, tPrior, tLog), OldestLog(st), 0) == st.log.number + 1
  {
    hide LogHolds, RecordsOf;
    var file := FileOf(st.log, tLog);
    assert [file][1..] == [];
    assert LogsEnd([file], OldestLog(st), 0) == Max(file.number + 1, LogsEnd([], OldestLog(st), 0));
    if st.prior.Some? {
      assert LogsLeft(st, tPrior, tLog)[1..] == [file];
    } else {
      assert LogsLeft(st, tPrior, tLog) == [file];
    }
  }

  /** What Reopen makes of a store's descriptor and of what is left of its logs. */
  lemma OpenedIs(st: Store, env: Env, present: set<nat>, tPrior: nat, tLog: nat)
    requires StoreInv(st, env) && Crashed(st, tPrior, tLog) && LiveNumbers(st.sys.db.levels) <= present
    ensures HasNumbers(st.edits)
    ensures var r := OpenedAfter(st, env, present, tPrior, tLog);
            && r.Opened? && r.levels == st.sys.db.levels && r.compactPointers == M.PointersOf(st.edits)
            && r.logNumber == OldestLog(st) && r.prevLogNumber == 0 && r.nextFile == M.LastOf(st.edits, M.NextFile).value + 1
            && r.logsEnd == st.log.number + 1
            && r.lastSequence == Max(M.LastOf(st.edits, M.Sequence).value, LastReplayed(r.logs))
            && StoreReplays(r.logs, st, env, tPrior, tLog)
            && ContentsOf(r) == Reopened(st, env, tPrior, tLog)
  {
    hide Inv, LogsOk, HistorySplits, FilesFit, TablesRight, M.Chain, M.LastOf, ReplayOf, ReplayedEntries, LevelsSet, R.Logged, OpsLeft, LogsLeft,
         Crashed, StoreReplays, M.PointersOf, LiveNumbers, LogsEnd;
    StoreHasNumbers(st, env);
    LogsEndAt(st, env, tPrior, tLog);
    LogsReplay(st, env, tPrior, tLog);
    var replayed := ReplayOf(LogsLeft(st, tPrior, tLog), OldestLog(st), 0, 0, env.options);
    ReplayedIs(replayed, st, env, tPrior, tLog);
    assert LiveNumbers(st.sys.db.levels) - present == {};
  }

  /** The descriptor of a store and what is left of its logs open to what PrefixReads speaks of. */
  lemma StoreOpens(st: Store, env: Env, present: set<nat>, tPrior: nat, tLog: nat)
    requires StoreInv(st, env) && Crashed(st, tPrior, tLog) && LiveNumbers(st.sys.db.levels) <= present
    ensures HasNumbers(st.edits) && OpenedRight(OpenedAfter(st, env, present, tPrior, tLog), st, env, tPrior, tLog)
  {
    hide StoreInv, OpenedAfter, ContentsOf, Reopened, CutAt, Left, OpsLeft, NoHole, LiveNumbers, HasNumbers, Answer, Expected, M.LastOf,
         AllRight, AllRecorded, Recovered;
    OpenedIs(st, env, present, tPrior, tLog);
    SyncedAreLeft(st.log, tLog);
    if st.prior.Some? {
      SyncedAreLeft(st.prior.value, tPrior);
    }
    if NoHole(st, env, tPrior, tLog) {
      var r := OpenedAfter(st, env, present, tPrior, tLog);
      PrefixReads(st, env, tPrior, tLog);
      RecoveredIsReached(st, env, present, tPrior, tLog);
      ReadAtLast(ContentsOf(r), st.sys.history, Recovered(st, env, tPrior, tLog), r.lastSequence);
    }
  }

  /** The sequence number at which the opened database reads is not below what is left. */
  lemma RecoveredIsReached(st: Store, env: Env, present: set<nat>, tPrior: nat, tLog: nat)
    requires StoreInv(st, env) && Crashed(st, tPrior, tLog) && LiveNumbers(st.sys.db.levels) <= present && NoHole(st, env, tPrior, tLog)
    ensures HasNumbers(st.edits) && var r := OpenedAfter(st, env, present, tPrior, tLog);
            r.Opened? && Recovered(st, env, tPrior, tLog) <= r.lastSequence
  {
    hide Inv, LogsOk, HistorySplits, FilesFit, TablesRight, M.Chain, M.LastOf, M.PointersOf, OpenedAfter, ContentsOf, Reopened, CutAt, OpsLeft,
         LiveNumbers, HasNumbers, OpsIn, StoreReplays;
    OpenedIs(st, env, present, tPrior, tLog);
    SequenceReplayed(OpenedAfter(st, env, present, tPrior, tLog).logs, st, env, tPrior, tLog);
    Parts(st, env, tPrior, tLog);
  }

  lemma ReadAtLast(entries: set<Entry>, history: seq<Item>, n: nat, last: nat)
    requires n <= |history| && n <= last && AllRight(entries, history[..n], n)
    ensures forall user :: Answer(entries, user, last, Expected(history[..n], user, n))
  {
    hide Answer;
    forall user
      ensures Answer(entries, user, last, Expected(history[..n], user, n))
    {
      assert Answer(entries, user, last, Expected(history[..n], user, last));
    }
  }

  /** Older log files that were not deleted yet. */
  predicate Obsolete(obsolete: seq<Numbered>, st: Store) {
    forall i :: 0 <= i < |obsolete| ==> 0 < obsolete[i].number < OldestLog(st)
  }

  lemma {:induction false} SkipsObsolete(obsolete: seq<Numbered>, logs: seq<Numbered>, minLog: nat, last: nat, options: R.Options)
    requires forall i :: 0 <= i < |obsolete| ==> 0 < obsolete[i].number < minLog
    ensures ReplayOf(obsolete + logs, minLog, 0, last, options) == ReplayOf(logs, minLog, 0, last, options)
    ensures LogsEnd(obsolete + logs, minLog, 0) == LogsEnd(logs, minLog, 0)
    decreases |obsolete|
  {
    hide R.RecoverFrom;
    if obsolete == [] {
      assert obsolete + logs == logs;
    } else {
      SkipsObsolete(obsolete[1..], logs, minLog, last, options);
      assert (obsolete + logs)[1..] == obsolete[1..] + logs;
    }
  }

  /** They make no difference. */
  lemma ObsoleteLogsSkipped(obsolete: seq<Numbered>, logs: seq<Numbered>, st: Store, env: Env, present: set<nat>)
    requires StoreInv(st, env) && Obsolete(obsolete, st)
    ensures HasNumbers(st.edits)
    ensures OpenedFrom(st.edits, st.sys.db.levels, present, obsolete + logs, env.options) ==
            OpenedFrom(st.edits, st.sys.db.levels, present, logs, env.options)
  {
    hide Inv, LogsOk, HistorySplits, FilesFit, TablesRight, M.Chain, M.LastOf, ReplayOf, M.PointersOf, LiveNumbers, AllOk, LogsEnd;
    SkipsObsolete(obsolete, logs, OldestLog(st), 0, env.options);
  }

  /** Opening a database after a crash at any moment between two steps, from the bytes that are left. */
  method OpenAfterCrash(ghost st: Store, env: Env, descriptor: Bytes, present: set<nat>, logs: seq<Numbered>, ghost obsolete: seq<Numbered>,
                        ghost tPrior: nat, ghost tLog: nat) returns (r: Opened)
    requires StoreInv(st, env) && Crashed(st, tPrior, tLog) && LiveNumbers(st.sys.db.levels) <= present
    requires descriptor == Log.Written(M.Records(st.edits)) && logs == obsolete + LogsLeft(st, tPrior, tLog) && Obsolete(obsolete, st)
    ensures OpenedRight(r, st, env, tPrior, tLog)
    ensures HasNumbers(st.edits) && r == OpenedAfter(st, env, present, tPrior, tLog)
  {
    hide *;
    StoreScans(st, env);
    OpensOf(st, env);
    assert DescriptorOf(Some(descriptor), env.comparator) == descriptor by { CurrentIsGiven(descriptor, env.comparator); }
    r := Reopen(Some(descriptor), false, false, present, logs, env, st.versions);
    ObsoleteLogsSkipped(obsolete, LogsLeft(st, tPrior, tLog), st, env, present);
    OpenedAfterIs(st, env, present, tPrior, tLog);
    StoreOpens(st, env, present, tPrior, tLog);
  }

  lemma StoreScans(st: Store, env: Env)
    requires StoreInv(st, env)
    ensures M.ScanOf(Log.Written(M.Records(st.edits)), env.comparator) == M.Edits(st.edits)
    ensures M.Chain(st.edits, st.versions, env.comparator, env.load)
  {
    hide Inv, LogsOk, HistorySplits, FilesFit, TablesRight, M.Chain, M.LastOf, M.ScanOf, Log.Written, M.PointersOf;
    var descriptor := Log.Written(M.Records(st.edits));
    M.TornDescriptorScans(st.edits, st.versions, env.comparator, env.load, |descriptor|);
    assert descriptor[..|descriptor|] == descriptor && st.edits[..|st.edits|] == st.edits;
  }

  /** A crash while an edit was being written, the files of the step already there: the database opens as
      before the step or as after it. */
  method OpenMidEdit(ghost st: Store, env: Env, ghost step: Step, ghost edit: VE.VersionEdit, ghost st': Store, ghost t: nat, descriptor: Bytes,
                     present: set<nat>, logs: seq<Numbered>, ghost obsolete: seq<Numbered>, ghost tPrior: nat, ghost tLog: nat) returns (r: Opened)
    requires StoreInv(st, env) && StoreNext(st, env, LogEdit(step, edit), st') && EventHarmless(st, LogEdit(step, edit))
    requires Crashed(st, tPrior, tLog) && LiveNumbers(st.sys.db.levels) <= present && LiveNumbers(st'.sys.db.levels) <= present
    requires |Log.Written(M.Records(st.edits))| <= t <= |Log.Written(M.Records(st'.edits))|
    requires descriptor == Log.Written(M.Records(st'.edits))[..t] && logs == obsolete + LogsLeft(st, tPrior, tLog) && Obsolete(obsolete, st)
    ensures StoreInv(st', env) && Crashed(st', tPrior, tLog) && HasNumbers(st.edits) && HasNumbers(st'.edits)
    ensures || (r == OpenedAfter(st, env, present, tPrior, tLog) && OpenedRight(r, st, env, tPrior, tLog))
            || (r == OpenedAfter(st', env, present, tPrior, tLog) && OpenedRight(r, st', env, tPrior, tLog))
  {
    hide *;
    StoreNextExact(st, env, LogEdit(step, edit), st');
    CrashedMidEdit(st, env, step, edit, st', tPrior, tLog);
    ghost var whole := MidEditScans(st, env, step, edit, st', t);
    OpensOf(st, env);
    OpensOf(st', env);
    assert DescriptorOf(Some(descriptor), env.comparator) == descriptor by { CurrentIsGiven(descriptor, env.comparator); }
    r := Reopen(Some(descriptor), false, false, present, logs, env, if whole then st'.versions else st.versions);
    if whole {
      StoreOpens(st', env, present, tPrior, tLog);
      StillObsolete(obsolete, st, env, step, edit, st');
      ObsoleteLogsSkipped(obsolete, LogsLeft(st, tPrior, tLog), st', env, present);
      OldLogSkipped(st, env, step, edit, st', present, tPrior, tLog);
    } else {
      StoreOpens(st, env, present, tPrior, tLog);
      ObsoleteLogsSkipped(obsolete, LogsLeft(st, tPrior, tLog), st, env, present);
    }
    OpenedAfterIs(st, env, present, tPrior, tLog);
    OpenedAfterIs(st', env, present, tPrior, tLog);
  }

  lemma StillObsolete(obsolete: seq<Numbered>, st: Store, env: Env, step: Step, edit: VE.VersionEdit, st': Store)
    requires StoreInv(st, env) && StoreNext(st, env, LogEdit(step, edit), st') && Obsolete(obsolete, st)
    ensures Obsolete(obsolete, st')
  {
    hide Inv, HistorySplits, DescriptorOk, FilesFit, TablesRight, LogHolds, Next, EditFor, Written;
  }

  lemma CurrentIsGiven(descriptor: Bytes, comparator: Bytes)
    ensures DescriptorOf(Some(descriptor), comparator) == descriptor
  {
  }

  lemma OpenedAfterIs(st: Store, env: Env, present: set<nat>, tPrior: nat, tLog: nat)
    requires HasNumbers(st.edits)
    ensures OpenedAfter(st, env, present, tPrior, tLog) ==
            OpenedFrom(st.edits, st.sys.db.levels, present, LogsLeft(st, tPrior, tLog), env.options)
  {
    hide OpenedFrom, LogsLeft;
  }

  lemma OpensOf(st: Store, env: Env)
    requires StoreInv(st, env)
    ensures HasNumbers(st.edits) && |st.versions| == |st.edits| + 1 && st.versions[|st.edits|] == st.sys.db.levels
  {
    hide Inv, LogsOk, HistorySplits, FilesFit, TablesRight, M.Chain, M.LastOf, M.PointersOf;
  }

  lemma CrashedMidEdit(st: Store, env: Env, step: Step, edit: VE.VersionEdit, st': Store, tPrior: nat, tLog: nat)
    requires StoreNext(st, env, LogEdit(step, edit), st') && Crashed(st, tPrior, tLog)
    ensures Crashed(st', tPrior, tLog)
  {
    hide CutAt, Next, EditFor, Written;
  }

  /** The new edit is in the descriptor or it is not. */
  lemma MidEditScans(st: Store, env: Env, step: Step, edit: VE.VersionEdit, st': Store, t: nat) returns (whole: bool)
    requires StoreInv(st, env) && StoreNext(st, env, LogEdit(step, edit), st') && StoreInv(st', env)
    requires |Log.Written(M.Records(st.edits))| <= t <= |Log.Written(M.Records(st'.edits))|
    ensures M.ScanOf(Log.Written(M.Records(st'.edits))[..t], env.comparator) == M.Edits(if whole then st'.edits else st.edits)
    ensures M.Chain(st.edits, st.versions, env.comparator, env.load) && M.Chain(st'.edits, st'.versions, env.comparator, env.load)
  {
    hide Inv, LogsOk, HistorySplits, FilesFit, TablesRight, M.Chain, M.LastOf, M.ScanOf, Log.Written, LogRoundTrip.Survived, Next, EditFor,
         M.Records, M.PointersOf;
    M.TornDescriptorScans(st'.edits, st'.versions, env.comparator, env.load, t);
    var k := LogRoundTrip.Survived(M.Records(st'.edits), t);
    EditSurvivesOrNot(st, Written(st, edit, st'.sys.db), t);
    whole := k > |st.edits|;
    assert st'.edits[..|st.edits|] == st.edits && st'.edits[..|st'.edits|] == st'.edits;
  }

  lemma EditSurvivesOrNot(st: Store, e: VE.VersionEdit, t: nat)
    requires |Log.Written(M.Records(st.edits))| <= t
    ensures |st.edits| <= LogRoundTrip.Survived(M.Records(st.edits + [e]), t) <= |st.edits| + 1
  {
    hide Log.Written;
    assert M.Records(st.edits + [e])[..|st.edits|] == M.Records(st.edits);
    SurvivesSynced(M.Records(st.edits + [e]), |st.edits|, t);
  }

  /** With the edit in the descriptor, the log of the flushed memtable is no longer replayed. */
  lemma OldLogSkipped(st: Store, env: Env, step: Step, edit: VE.VersionEdit, st': Store, present: set<nat>, tPrior: nat, tLog: nat)
    requires StoreInv(st, env) && StoreNext(st, env, LogEdit(step, edit), st') && StoreInv(st', env) && Crashed(st, tPrior, tLog)
    ensures HasNumbers(st'.edits)
    ensures OpenedFrom(st'.edits, st'.sys.db.levels, present, LogsLeft(st, tPrior, tLog), env.options) ==
            OpenedFrom(st'.edits, st'.sys.db.levels, present, LogsLeft(st', tPrior, tLog), env.options)
  {
    hide Inv, HistorySplits, FilesFit, TablesRight, M.Chain, M.LastOf, CutAt, LogHolds, Next, EditFor, RecordsOf, R.RecoverFrom, Written, M.PointersOf;
    if EndsMemTable(step) && st.prior.Some? {
      var file := FileOf(st.log, tLog);
      assert LogsLeft(st, tPrior, tLog)[1..] == [file];
      assert LogsLeft(st', tPrior, tLog) == [file];
    }
  }
}
