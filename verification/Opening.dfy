/** Opening a database (db/db_impl.cc: NewDB, Recover): the version that the descriptor holds, and what the
    log files hold beyond it. */
module Opening {
  import opened Wrappers
  import opened Coding
  import opened Version
  import opened Durable
  import R = Recovery
  import M = Manifest
  import VE = VersionEdit
  import Log

  /** A file in the database's directory. */
  datatype Numbered = Numbered(number: nat, bytes: Bytes)

  /** Logs from `minLog` on, and `prevLog`, are replayed in the order in which they were made. */
  function ReplayOf(logs: seq<Numbered>, minLog: nat, prevLog: nat, last: nat, options: R.Options): (r: seq<R.Recovered>)
    ensures |r| <= |logs|
    decreases |logs|
  {
    if logs == [] then []
    else if logs[0].number < minLog && logs[0].number != prevLog then ReplayOf(logs[1..], minLog, prevLog, last, options)
    else
      var st := R.RecoverFrom(logs[0].bytes, 0, R.Nothing(last), options);
      if st.ok then [st] + ReplayOf(logs[1..], minLog, prevLog, st.maxSequence, options) else [st]
  }

  function Max(a: nat, b: nat): nat {
    if a < b then b else a
  }

  /** MarkFileNumberUsed for the replayed logs: the first number above all of theirs. */
  function LogsEnd(logs: seq<Numbered>, minLog: nat, prevLog: nat): nat {
    if logs == [] then 0
    else if logs[0].number < minLog && logs[0].number != prevLog then LogsEnd(logs[1..], minLog, prevLog)
    else Max(logs[0].number + 1, LogsEnd(logs[1..], minLog, prevLog))
  }

  /** `nextFile` is the first number that the descriptor leaves free, `logsEnd` the first above the logs. */
  datatype Opened =
    | Opened(levels: seq<seq<File>>, compactPointers: seq<Bytes>, nextFile: nat, logsEnd: nat, logNumber: nat, prevLogNumber: nat,
             logs: seq<R.Recovered>, lastSequence: nat)
    | NotOpened(error: M.Recovered)
    | MissingFiles(count: nat)
    | BadLog

  function LastReplayed(replayed: seq<R.Recovered>): nat {
    if replayed == [] then 0 else replayed[|replayed| - 1].maxSequence
  }

  /** AddLiveFiles. */
  function LiveNumbers(levels: seq<seq<File>>): set<nat> {
    set l, i | 0 <= l < |levels| && 0 <= i < |levels[l]| :: levels[l][i].number
  }

  predicate HasNumbers(edits: seq<VE.VersionEdit>) {
    M.LastOf(edits, M.NextFile).Some? && M.LastOf(edits, M.Log).Some? && M.LastOf(edits, M.Sequence).Some?
  }

  /** What is opened from a descriptor of these edits, whose last version is `levels`, with files of the
      numbers `present` and these logs in the directory. */
  function OpenedFrom(edits: seq<VE.VersionEdit>, levels: seq<seq<File>>, present: set<nat>, logs: seq<Numbered>, options: R.Options): Opened
    requires HasNumbers(edits)
  {
    var log, prev := M.LastOf(edits, M.Log).value, M.LastOf(edits, M.PrevLog);
    var prevLog := if prev.Some? then prev.value else 0;
    var replayed := ReplayOf(logs, log, prevLog, 0, options);
    var missing := LiveNumbers(levels) - present;
    if missing != {} then MissingFiles(|missing|)
    else if !AllOk(replayed) then BadLog
    else Opened(levels, M.PointersOf(edits), M.LastOf(edits, M.NextFile).value + 1, LogsEnd(logs, log, prevLog), log, prevLog, replayed,
                Max(M.LastOf(edits, M.Sequence).value, LastReplayed(replayed)))
  }

  function NewDbEdit(comparator: Bytes): VE.VersionEdit {
    VE.EMPTY.(comparator := Some(comparator), logNumber := Some(0), nextFile := Some(2), lastSequence := Some(0))
  }

  /** NewDB: the descriptor of a new database. */
  method NewDB(comparator: Bytes) returns (descriptor: Bytes)
    ensures descriptor == Log.Written(M.Records([NewDbEdit(comparator)]))
  {
    hide Log.Written, NewDbEdit, Log.Emit, M.Encoded, M.Records;
    M.FirstRecord(NewDbEdit(comparator));
    descriptor := M.AppendRecord([], NewDbEdit(comparator));
  }

  /** What is in the descriptor that CURRENT names; without CURRENT, what NewDB writes. */
  function DescriptorOf(current: Option<Bytes>, comparator: Bytes): Bytes {
    if current.Some? then current.value else Log.Written(M.Records([NewDbEdit(comparator)]))
  }

  /** Recover: the version from the descriptor, then what the logs hold beyond it. */
  method Reopen(current: Option<Bytes>, createIfMissing: bool, errorIfExists: bool, present: set<nat>, logs: seq<Numbered>, env: Env,
                ghost versions: seq<seq<seq<File>>>) returns (r: Opened)
    requires var scan := M.ScanOf(DescriptorOf(current, env.comparator), env.comparator);
             scan.Edits? ==> M.Chain(scan.edits, versions, env.comparator, env.load)
    ensures var scan := M.ScanOf(DescriptorOf(current, env.comparator), env.comparator);
            if if current.Some? then errorIfExists else !createIfMissing then r == NotOpened(M.InvalidArgument)
            else if scan.Failed? then r == NotOpened(scan.error)
            else if !HasNumbers(scan.edits) then r.NotOpened?
            else |versions| == |scan.edits| + 1 && r == OpenedFrom(scan.edits, versions[|scan.edits|], present, logs, env.options)
  {
    hide M.ScanOf, M.Chain, M.LastOf, R.RecoverFrom, M.PointersOf, Log.Written;
    var descriptor: Bytes;
    if current.None? {
      if !createIfMissing {
        return NotOpened(M.InvalidArgument);
      }
      descriptor := NewDB(env.comparator);
    } else {
      if errorIfExists {
        return NotOpened(M.InvalidArgument);
      }
      descriptor := current.value;
    }
    var found := M.Recover(descriptor, env.comparator, env.load, versions);
    if !found.Ok? {
      return NotOpened(found);
    }
    var missing := LiveNumbers(found.levels) - present;
    if missing != {} {
      return MissingFiles(|missing|);
    }
    var replayed, logsEnd := ReplayLogs(logs, found.logNumber, found.prevLogNumber, env.options);
    if replayed != [] && !replayed[|replayed| - 1].ok {
      NotAllOk(replayed);
      return BadLog;
    }
    OnlyLastFails(logs, found.logNumber, found.prevLogNumber, 0, env.options);
    return Opened(found.levels, found.compactPointers, found.nextFile, logsEnd, found.logNumber, found.prevLogNumber, replayed,
                  Max(found.lastSequence, LastReplayed(replayed)));
  }

  predicate AllOk(replayed: seq<R.Recovered>) {
    forall i :: 0 <= i < |replayed| ==> replayed[i].ok
  }

  lemma NotAllOk(replayed: seq<R.Recovered>)
    requires replayed != [] && !replayed[|replayed| - 1].ok
    ensures !AllOk(replayed)
  {
  }

  predicate FrontOk(replayed: seq<R.Recovered>) {
    forall i :: 0 <= i < |replayed| - 1 ==> replayed[i].ok
  }

  /** Replay stops at the first log that fails. */
  lemma {:induction false} OnlyLastFails(logs: seq<Numbered>, minLog: nat, prevLog: nat, last: nat, options: R.Options)
    ensures FrontOk(ReplayOf(logs, minLog, prevLog, last, options))
    decreases |logs|
  {
    hide R.RecoverFrom, FrontOk;
    if logs == [] {
      FrontAt([], R.Nothing(0));
    } else {
      var st := R.RecoverFrom(logs[0].bytes, 0, R.Nothing(last), options);
      OnlyLastFails(logs[1..], minLog, prevLog, last, options);
      OnlyLastFails(logs[1..], minLog, prevLog, st.maxSequence, options);
      FrontAt(ReplayOf(logs[1..], minLog, prevLog, st.maxSequence, options), st);
    }
  }

  lemma FrontAt(rest: seq<R.Recovered>, st: R.Recovered)
    ensures FrontOk([]) && FrontOk([st])
    ensures FrontOk(rest) && st.ok ==> FrontOk([st] + rest)
  {
  }

  lemma ReplayStep(logs: seq<Numbered>, i: nat, minLog: nat, prevLog: nat, last: nat, options: R.Options)
    requires i < |logs|
    ensures var st := R.RecoverFrom(logs[i].bytes, 0, R.Nothing(last), options);
            ReplayOf(logs[i..], minLog, prevLog, last, options) ==
              if logs[i].number < minLog && logs[i].number != prevLog then ReplayOf(logs[i + 1..], minLog, prevLog, last, options)
              else if st.ok then [st] + ReplayOf(logs[i + 1..], minLog, prevLog, st.maxSequence, options) else [st]
  {
    hide R.RecoverFrom;
    assert logs[i..][0] == logs[i] && logs[i..][1..] == logs[i + 1..];
  }

  lemma NoneReplayed(minLog: nat, prevLog: nat, last: nat, options: R.Options)
    ensures ReplayOf([], minLog, prevLog, last, options) == []
  {
  }

  lemma LogsEndStep(logs: seq<Numbered>, i: nat, minLog: nat, prevLog: nat)
    requires i < |logs|
    ensures LogsEnd(logs[i..], minLog, prevLog) ==
            if logs[i].number < minLog && logs[i].number != prevLog then LogsEnd(logs[i + 1..], minLog, prevLog)
            else Max(logs[i].number + 1, LogsEnd(logs[i + 1..], minLog, prevLog))
  {
    assert logs[i..][0] == logs[i] && logs[i..][1..] == logs[i + 1..];
  }

  method ReplayLogs(logs: seq<Numbered>, minLog: nat, prevLog: nat, options: R.Options) returns (replayed: seq<R.Recovered>, logsEnd: nat)
    ensures replayed == ReplayOf(logs, minLog, prevLog, 0, options)
    ensures AllOk(replayed) ==> logsEnd == LogsEnd(logs, minLog, prevLog)
  {
    hide R.RecoverFrom, ReplayOf, LogsEnd, AllOk, Max;
    replayed, logsEnd := [], 0;
    var maxSequence := 0;
    ghost var all := ReplayOf(logs, minLog, prevLog, 0, options);
    assert logs[0..] == logs;
    MaxOfNone(LogsEnd(logs, minLog, prevLog));
    for i := 0 to |logs|
      invariant replayed + ReplayOf(logs[i..], minLog, prevLog, maxSequence, options) == all
      invariant Max(logsEnd, LogsEnd(logs[i..], minLog, prevLog)) == LogsEnd(logs, minLog, prevLog)
    {
      ReplayStep(logs, i, minLog, prevLog, maxSequence, options);
      LogsEndStep(logs, i, minLog, prevLog);
      if logs[i].number >= minLog || logs[i].number == prevLog {
        var st := R.RecoverLogFile(logs[i].bytes, maxSequence, options);
        if st.ok {
          JoinsNext(replayed, st, ReplayOf(logs[i + 1..], minLog, prevLog, st.maxSequence, options));
        }
        replayed := replayed + [st];
        if !st.ok {
          NotAllOk(replayed);
          return;
        }
        MaxTakes(logsEnd, logs[i].number, LogsEnd(logs[i + 1..], minLog, prevLog));
        logsEnd := if logsEnd <= logs[i].number then logs[i].number + 1 else logsEnd;
        maxSequence := st.maxSequence;
      }
    }
    assert logs[|logs|..] == [];
    NoneReplayed(minLog, prevLog, maxSequence, options);
    NoLogsEnd(minLog, prevLog);
    MaxOfNone(logsEnd);
  }

  lemma NoLogsEnd(minLog: nat, prevLog: nat)
    ensures LogsEnd([], minLog, prevLog) == 0
  {
  }

  lemma JoinsNext(replayed: seq<R.Recovered>, st: R.Recovered, rest: seq<R.Recovered>)
    ensures replayed + [st] + rest == replayed + ([st] + rest)
  {
  }

  lemma MaxTakes(end: nat, number: nat, rest: nat)
    ensures Max(if end <= number then number + 1 else end, rest) == Max(end, Max(number + 1, rest))
  {
  }

  lemma MaxOfNone(end: nat)
    ensures Max(0, end) == end == Max(end, 0)
  {
  }
}
