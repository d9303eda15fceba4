/** Open always has a way on (db/db_impl.cc, Open; db/builder.cc): whatever a crash left, there are tables for
    the replayed memtables, an edit that adds them, and a store that runs on. */
module RestartTotal {
  import opened DbFormat
  import opened Wrappers
  import opened History
  import opened Coding
  import opened Version
  import opened VersionGet
  import opened VersionBuilder
  import opened LevelReplace
  import opened LevelRecover
  import opened Lsm
  import opened LsmTables
  import opened FileNumbers
  import opened Durable
  import opened Opening
  import opened Crash
  import opened Restart
  import M = Manifest
  import VE = VersionEdit

  /** BuildTable for a memtable that is not empty. */
  function TableFor(mem: seq<Entry>, number: nat): File
    requires mem != []
  {
    File(number, 0, mem[0].key, mem[|mem| - 1].key, mem)
  }

  /** One number for each memtable, and a table for each that is not empty. */
  function TablesFor(mems: seq<seq<Entry>>, first: nat): seq<File> {
    if mems == [] then [] else
      var n := |mems| - 1;
      TablesFor(mems[..n], first) + if mems[n] == [] then [] else [TableFor(mems[n], first + n)]
  }

  lemma {:induction false} LaterNext(mems: seq<seq<Entry>>, files: seq<File>, first: nat, next: nat, next': nat)
    requires TablesOf(mems, files, first, next) && next <= next'
    ensures TablesOf(mems, files, first, next')
  {
    hide FileOk;
    if mems != [] && mems[|mems| - 1] == [] {
      LaterNext(mems[..|mems| - 1], files, first, next, next');
    }
  }

  lemma {:induction false} TablesForMems(mems: seq<seq<Entry>>, first: nat, low: nat, high: nat)
    requires MemsOk(mems, low, high) && high <= MAX_SEQUENCE
    ensures TablesOf(mems, TablesFor(mems, first), first, first + |mems|)
  {
    hide MemsOk, FileOk;
    if mems != [] {
      var n := |mems| - 1;
      MemsFront(mems, low, high);
      TablesForMems(mems[..n], first, low, high);
      if mems[n] == [] {
        assert TablesFor(mems[..n], first) + [] == TablesFor(mems[..n], first);
        LaterNext(mems[..n], TablesFor(mems[..n], first), first, first + n, first + n + 1);
      } else {
        TableIsOk(mems, n, first + n, low, high);
        var files := TablesFor(mems, first);
        assert files[|files| - 1] == TableFor(mems[n], first + n) && files[..|files| - 1] == TablesFor(mems[..n], first);
      }
    }
  }

  lemma TableIsOk(mems: seq<seq<Entry>>, n: nat, number: nat, low: nat, high: nat)
    requires MemsOk(mems, low, high) && high <= MAX_SEQUENCE && n < |mems| && mems[n] != []
    ensures FileOk(TableFor(mems[n], number))
  {
    hide Sorted;
    assert forall i :: 0 <= i < |mems[n]| ==> mems[n][i] in mems[n];
  }

  // Finding files by number

  function MetaOf(f: File): VE.FileMeta {
    VE.FileMeta(f.number, 0, [], [])
  }

  function Nowhere(): File {
    File(0, 0, InternalKey(0.0, 0, TypeDeletion), InternalKey(0.0, 0, TypeDeletion), [])
  }

  /** The first file of that number. */
  function Numbered(files: seq<File>, number: nat): File {
    if files == [] then Nowhere() else if files[0].number == number then files[0] else Numbered(files[1..], number)
  }

  function AllFiles(levels: seq<seq<File>>, files: seq<File>): seq<File> {
    if levels == [] then files else levels[0] + AllFiles(levels[1..], files)
  }

  lemma {:induction false} AllFilesHas(levels: seq<seq<File>>, files: seq<File>, f: File)
    ensures f in AllFiles(levels, files) <==> f in files || exists l :: 0 <= l < |levels| && f in levels[l]
  {
    if levels != [] {
      AllFilesHas(levels[1..], files, f);
      assert forall l :: 0 <= l < |levels[1..]| ==> levels[1..][l] == levels[l + 1];
      if l :| 0 <= l < |levels| && f in levels[l] {
        assert l > 0 ==> f in levels[1..][l - 1];
      }
    }
  }

  ghost predicate OneEach(files: seq<File>) {
    forall f, g :: f in files && g in files && f.number == g.number ==> f == g
  }

  lemma {:induction false} NumberedFinds(files: seq<File>, f: File)
    requires OneEach(files) && f in files
    ensures Numbered(files, f.number) == f
  {
    if files[0].number != f.number {
      assert OneEach(files[1..]);
      NumberedFinds(files[1..], f);
    } else {
      assert files[0] in files;
    }
  }

  /** Old files and new ones have numbers of their own. */
  lemma NumbersApart(levels: seq<seq<File>>, files: seq<File>, first: nat, next: nat)
    requires NumbersOk(levels, first)
    requires forall i :: 0 <= i < |files| ==> first <= files[i].number < next
    requires forall i, j :: 0 <= i < j < |files| ==> files[i].number < files[j].number
    ensures OneEach(AllFiles(levels, files))
  {
    forall f, g | f in AllFiles(levels, files) && g in AllFiles(levels, files) && f.number == g.number
      ensures f == g
    {
      AllFilesHas(levels, files, f);
      AllFilesHas(levels, files, g);
      OwnNumber(levels, files, first, next, f, g);
    }
  }

  lemma OwnNumber(levels: seq<seq<File>>, files: seq<File>, first: nat, next: nat, f: File, g: File)
    requires NumbersOk(levels, first) && f.number == g.number
    requires forall i :: 0 <= i < |files| ==> first <= files[i].number < next
    requires forall i, j :: 0 <= i < j < |files| ==> files[i].number < files[j].number
    requires f in files || exists l :: 0 <= l < |levels| && f in levels[l]
    requires g in files || exists l :: 0 <= l < |levels| && g in levels[l]
    ensures f == g
  {
    if f in files && g in files {
      var i :| 0 <= i < |files| && files[i] == f;
      var j :| 0 <= j < |files| && files[j] == g;
      assert !(i < j) && !(j < i);
    }
  }

  // The store

  /** The directory after the tables are written. */
  function WithTables(env: Env, levels: seq<seq<File>>, files: seq<File>): Env {
    env.(load := (m: VE.FileMeta) => Numbered(AllFiles(levels, files), m.number), describe := MetaOf)
  }

  function EditOf(files: seq<File>, number: nat): VE.VersionEdit {
    VE.EMPTY.(logNumber := Some(number), prevLogNumber := Some(0),
              added := seq(|files|, i requires 0 <= i < |files| => (0, MetaOf(files[i]))))
  }

  ghost predicate Found(levels: seq<seq<File>>, files: seq<File>, env: Env) {
    && (forall l, f :: 0 <= l < |levels| && f in levels[l] ==> env.load(env.describe(f)) == f)
    && (forall f :: f in files ==> env.load(env.describe(f)) == f)
  }

  lemma TablesFound(levels: seq<seq<File>>, files: seq<File>, first: nat, next: nat, env: Env)
    requires NumbersOk(levels, first)
    requires forall i :: 0 <= i < |files| ==> first <= files[i].number < next
    requires forall i, j :: 0 <= i < j < |files| ==> files[i].number < files[j].number
    ensures Found(levels, files, WithTables(env, levels, files))
  {
    hide NumbersOk, OneEach, Numbered, AllFiles;
    NumbersApart(levels, files, first, next);
    forall l, f | 0 <= l < |levels| && f in levels[l]
      ensures Numbered(AllFiles(levels, files), f.number) == f
    {
      AllFilesHas(levels, files, f);
      NumberedFinds(AllFiles(levels, files), f);
    }
    forall f | f in files
      ensures Numbered(AllFiles(levels, files), f.number) == f
    {
      AllFilesHas(levels, files, f);
      NumberedFinds(AllFiles(levels, files), f);
    }
  }

  lemma EditAddsFiles(levels: seq<seq<File>>, files: seq<File>, number: nat, env: Env)
    requires Found(levels, files, env) && env.describe == MetaOf && number < U64
    requires forall i :: 0 <= i < |files| ==> files[i].number < number
    ensures var edit := EditOf(files, number);
            && VE.EditFits(edit) && M.FileEditOf(edit, env.load) == Level0Edit(files)
            && forall i :: 0 <= i < |edit.added| ==> env.describe(env.load(edit.added[i].1)) == edit.added[i].1
  {
    var edit := EditOf(files, number);
    forall i | 0 <= i < |files|
      ensures env.load(edit.added[i].1) == files[i]
    {
      assert files[i] in files && env.describe(files[i]) == MetaOf(files[i]);
    }
    assert M.FileEditOf(edit, env.load).deleted == {};
    assert M.Loaded(edit.added, env.load) == Level0Edit(files).added;
  }

  /** How many numbers Open takes: below 64 bits there must be room for them. */
  ghost predicate NumbersLeft(r: Opened) {
    r.Opened? ==> Max(r.nextFile + |MemTables(r.logs)|, r.logsEnd) + 1 < U64
  }

  lemma LevelsStayDescribed(levels: seq<seq<File>>, n: nat, n': nat, files: seq<File>, env: Env, env': Env)
    requires M.LevelsDescribed(levels, n, env.load, env.describe) && n <= n' <= U64 && Found(levels, files, env') && env'.describe == MetaOf
    ensures M.LevelsDescribed(levels, n', env'.load, env'.describe)
  {
    hide Ordered, M.NumbersDistinct;
  }

  /** What Open finds to do after Recover, as long as there are numbers. */
  lemma OpenEditExists(r: Opened, history: seq<Item>, low: nat, env: Env) returns (files: seq<File>, number: nat, edit: VE.VersionEdit, env': Env)
    requires ReadyToStart(r, history, low, env) && M.LevelsDescribed(r.levels, r.nextFile, env.load, env.describe) && NumbersLeft(r)
    ensures env'.comparator == env.comparator && env'.options == env.options
    ensures OpenEdit(r, files, number, edit, env')
  {
    hide VersionOk, Ordered, NumbersOk, MemsOk, LevelsSet, TablesOf, Level0Edit, M.FileEditOf, VE.EditFits, M.LevelsDescribed, MemTables,
         TablesFor, EditOf, Found, M.PointersFit, AllRecorded, AllRight;
    var mems := MemTables(r.logs);
    files := TablesFor(mems, r.nextFile);
    number := Max(r.nextFile + |mems|, r.logsEnd);
    edit := EditOf(files, number);
    env' := WithTables(env, r.levels, files);
    TablesForMems(mems, r.nextFile, low, r.lastSequence);
    LaterNext(mems, files, r.nextFile, r.nextFile + |mems|, number);
    TablesInOrder(mems, files, r.nextFile, number);
    TablesFound(r.levels, files, r.nextFile, number, env);
    EditAddsFiles(r.levels, files, number, env');
    LevelsStayDescribed(r.levels, r.nextFile, r.nextFile, files, env, env');
    assert edit.logNumber == Some(number) && edit.prevLogNumber == Some(0) && edit.comparator.None? by { EditNumbers(files, number); }
  }

  lemma EditNumbers(files: seq<File>, number: nat)
    ensures var edit := EditOf(files, number); edit.logNumber == Some(number) && edit.prevLogNumber == Some(0) && edit.comparator.None?
  {
  }

  /** And the store with which it runs on. */
  lemma StoreStarts(r: Opened, history: seq<Item>, low: nat, files: seq<File>, number: nat, edit: VE.VersionEdit, env: Env) returns (st: Store)
    requires ReadyToStart(r, history, low, env) && OpenEdit(r, files, number, edit, env)
    ensures Started(r, history, files, edit, st, env)
  {
    hide VersionOk, Ordered, NumbersOk, MemsOk, LevelsSet, Installed, Level0Edit, M.FileEditOf, VE.EditFits, M.LevelsDescribed, MemTables,
         M.PointersFit, AllRecorded, AllRight, OpenEdits, OpenEdit;
    OpenFacts(r, history, low, files, number, edit, env);
    TablesOfEdit(r, files, number, edit, env);
    var levels := TablesAdded(r.levels, MemTables(r.logs), files, r.nextFile, number, low, r.lastSequence);
    st := Store(System(Db([], None, levels, [], r.lastSequence, number + 1), history), None, LogFile(number, r.lastSequence, [], 0),
                OpenEdits(r, number, edit, env), [M.NO_FILES, r.levels, levels]);
  }

  lemma TablesOfEdit(r: Opened, files: seq<File>, number: nat, edit: VE.VersionEdit, env: Env)
    requires r.Opened? && OpenEdit(r, files, number, edit, env)
    ensures TablesOf(MemTables(r.logs), files, r.nextFile, number)
  {
    hide M.FileEditOf, VE.EditFits, M.LevelsDescribed, TablesOf;
  }

  /** Every crash has a way on: from any store in order and any cut past what was synced, Open starts a store,
      unless the file numbers run out. */
  lemma CrashHasSuccessor(st: Store, env: Env, present: set<nat>, tPrior: nat, tLog: nat)
    returns (files: seq<File>, edit: VE.VersionEdit, st': Store, env': Env)
    requires StoreInv(st, env) && Crashed(st, tPrior, tLog) && LiveNumbers(st.sys.db.levels) <= present
    requires HasNumbers(st.edits) ==> NumbersLeft(OpenedAfter(st, env, present, tPrior, tLog))
    ensures Restarted(st, env, present, tPrior, tLog, files, edit, st', env')
  {
    hide StoreInv, OpenedAfter, Crashed, LiveNumbers, HasNumbers, HistoryLeft, ReadyToStart, Started, OpenEdit, M.LevelsDescribed, NumbersLeft;
    StoreReady(st, env, present, tPrior, tLog, env);
    var r := OpenedAfter(st, env, present, tPrior, tLog);
    var history := HistoryLeft(st, env, tPrior, tLog, r.lastSequence);
    StoreDescribed(st, env, present, tPrior, tLog);
    var number;
    files, number, edit, env' := OpenEditExists(r, history, Flushed(st), env);
    StoreReady(st, env, present, tPrior, tLog, env');
    st' := StoreStarts(r, history, Flushed(st), files, number, edit, env');
  }

  lemma StoreDescribed(st: Store, env: Env, present: set<nat>, tPrior: nat, tLog: nat)
    requires StoreInv(st, env) && Crashed(st, tPrior, tLog) && LiveNumbers(st.sys.db.levels) <= present
    ensures HasNumbers(st.edits)
    ensures var r := OpenedAfter(st, env, present, tPrior, tLog); r.Opened? && M.LevelsDescribed(r.levels, r.nextFile, env.load, env.describe)
  {
    hide Inv, LogsOk, HistorySplits, DescriptorOk, TablesRight, OpenedAfter, Crashed, LiveNumbers, StoreReplays, M.LevelsDescribed, AddedBelow,
         AddedAbove, M.LastOf, ContentsOf, Reopened;
    OpenedIs(st, env, present, tPrior, tLog);
    var n := M.LastOf(st.edits, M.NextFile).value;
    DescribedAbove(st.sys.db.levels, n, n + 1, env.load, env.describe);
  }
}
