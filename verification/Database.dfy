/** The database object (db/db_impl.cc): its methods take the steps of `Lsm`, so they keep the
    invariant, and its readers report what the plain history of writes says. */
module Database {
  import opened DbFormat
  import opened Wrappers
  import opened View
  import opened History
  import opened Version
  import opened VersionGet
  import opened CompactionInputs
  import opened CompactionWork
  import opened VersionBuilder
  import opened LevelReplace
  import opened LevelFlush
  import opened LsmCompact
  import opened Lsm
  import opened Merger
  import opened InternalIterator
  import opened CompactionPick
  import opened DbIter

  /** BuildTable: the table of a memtable, if it holds anything. */
  method BuildTable(number: nat, es: seq<Entry>, tableSize: seq<Entry> -> nat) returns (file: Option<File>)
    requires Sorted(es) && forall i :: 0 <= i < |es| ==> es[i].key.sequence <= MAX_SEQUENCE
    ensures file.None? <==> es == []
    ensures file.Some? ==> FileOk(file.value) && file.value.entries == es && file.value.number == number
  {
    if es == [] {
      return None;
    }
    var smallest, largest := es[0].key, es[0].key;
    var written := [];
    for i := 0 to |es|
      invariant written == es[..i]
      invariant largest == es[if i == 0 then 0 else i - 1].key
    {
      largest := es[i].key;
      written := written + [es[i]];
    }
    assert written == es;
    return Some(File(number, tableSize(written), smallest, largest, written));
  }

  /** A memtable lookup: MemTable::Get. */
  method SearchMemTable(es: seq<Entry>, user: UserKey, s: nat) returns (found: Option<Entry>)
    requires Sorted(es)
    ensures found.Some? ==> Newest(EntrySet(es), user, s, found.value)
    ensures found.None? ==> NoneSeen(EntrySet(es), user, s)
  {
    var p := LowerBound(es, LookupKey(user, s));
    RunNewest(es, user, s, p);
    if p < |es| && es[p].key.user == user {
      return Some(es[p]);
    }
    return None;
  }

  lemma InvParts(sys: System)
    requires Inv(sys)
    ensures VersionOk(sys.db.levels) && LevelsOk(sys.db.levels) && |sys.db.levels| == NUM_LEVELS
    ensures forall l :: 1 <= l < NUM_LEVELS ==> SortedLevel(sys.db.levels[l])
    ensures NumbersOk(sys.db.levels, sys.db.nextFile) && Ordered(sys.db.levels[0])
    ensures Sorted(sys.db.mem) && (sys.db.imm.Some? ==> Sorted(sys.db.imm.value))
    ensures NewerThan(EntrySet(sys.db.mem), ImmSet(sys.db) + LevelsSet(sys.db.levels))
    ensures NewerThan(ImmSet(sys.db), LevelsSet(sys.db.levels))
    ensures sys.db.lastSequence == |sys.history| < MAX_SEQUENCE
  {
    hide LevelsSet, LevelSet, Ordered, NewerThan, Sorted, AllRight, AllRecorded, FileOk, Level0Ok, SortedLevel;
    VersionLevelsOk(sys.db.levels);
  }

  lemma LevelsOrdered(levels: seq<seq<File>>)
    requires VersionOk(levels) && Ordered(levels[0])
    ensures |levels| == NUM_LEVELS && forall l :: 0 <= l < NUM_LEVELS ==> Ordered(levels[l])
  {
    hide Ordered, Level0Ok, LevelSet, NewerThan;
    forall l | 1 <= l < NUM_LEVELS
      ensures Ordered(levels[l])
    {
      SortedIsOrdered(levels[l]);
    }
  }

  lemma ImmSequences(sys: System)
    requires Inv(sys) && sys.db.imm.Some?
    ensures forall i :: 0 <= i < |sys.db.imm.value| ==> sys.db.imm.value[i].key.sequence <= MAX_SEQUENCE
  {
    hide FilesOk, TablesOk, AllRight, LevelsSet;
    forall i | 0 <= i < |sys.db.imm.value|
      ensures sys.db.imm.value[i].key.sequence <= MAX_SEQUENCE
    {
      assert sys.db.imm.value[i] in Contents(sys.db);
    }
  }

  /** A first hit in newer contents is the newest hit overall. */
  lemma NewerWins(a: set<Entry>, b: set<Entry>, user: UserKey, s: nat, e: Entry)
    requires NewerThan(a, b) && Newest(a, user, s, e)
    ensures Newest(a + b, user, s, e)
  {
  }

  lemma MissThenHit(a: set<Entry>, b: set<Entry>, user: UserKey, s: nat, e: Entry)
    requires NoneSeen(a, user, s) && Newest(b, user, s, e)
    ensures Newest(a + b, user, s, e)
  {
  }

  /** What the readers of a database must report. */
  lemma ReadsAsExpected(sys: System, user: UserKey, s: nat)
    requires Inv(sys) && (s in sys.db.snapshots || s == sys.db.lastSequence)
    ensures Answer(Contents(sys.db), user, s, Expected(sys.history, user, s))
  {
    hide FilesOk, TablesOk, Answer, Contents, AllRecorded, Expected;
  }

  /** What an iterator over the whole contents shows: exactly the map that the history leaves. */
  lemma LiveIsExpected(sys: System, es: seq<Entry>, s: nat)
    requires Inv(sys) && (s in sys.db.snapshots || s == sys.db.lastSequence)
    requires Sorted(es) && EntrySet(es) == Contents(sys.db)
    ensures forall user, v :: (user, v) in Live(es, s, |es|) <==> Expected(sys.history, user, s) == Some(v)
  {
    hide FilesOk, TablesOk, Answer, Contents, Expected, Sorted, Live, AllRight;
    RecordedUnique(Contents(sys.db), sys.history);
    forall user, v
      ensures (user, v) in Live(es, s, |es|) <==> Expected(sys.history, user, s) == Some(v)
    {
      LiveIsAnswer(es, s, user, v);
      ReadsAsExpected(sys, user, s);
      if Answer(Contents(sys.db), user, s, Some(v)) {
        AnswerIsUnique(Contents(sys.db), user, s, Some(v), Expected(sys.history, user, s));
      }
    }
  }

  /** Further writes only add entries with larger sequence numbers. */
  lemma {:induction false} WritesAddAbove(db: Db, ops: seq<Op>, s: nat)
    requires Sorted(db.mem) && (forall x :: x in Contents(db) ==> x.key.sequence <= db.lastSequence) && s <= db.lastSequence
    ensures forall x :: Visible(x, s) ==> (x in Contents(db) <==> x in Contents(InsertBatch(db, ops)))
    decreases |ops|
  {
    hide Sorted, InsertEntry, LevelsSet;
    if ops != [] {
      var e := EntryOf(ops[0], db.lastSequence + 1);
      assert forall x :: x in db.mem ==> x in Contents(db);
      InsertEntrySorted(db.mem, e);
      var next := AddOne(db, ops[0]);
      assert Contents(next) == Contents(db) + {e};
      WritesAddAbove(next, ops[1..], s);
    }
  }

  /** Whatever is written to the memtable that an iterator shares, its live pairs stay those of its
      sequence number. */
  lemma IteratorStays(sys: System, ops: seq<Op>, es: seq<Entry>, es': seq<Entry>, s: nat)
    requires Inv(sys) && s <= sys.db.lastSequence
    requires Sorted(es) && EntrySet(es) == Contents(sys.db)
    requires Sorted(es') && EntrySet(es') == Contents(InsertBatch(sys.db, ops))
    ensures Live(es', s, |es'|) == Live(es, s, |es|)
    ensures forall user :: Expected(sys.history + ops, user, s) == Expected(sys.history, user, s)
  {
    hide FilesOk, AllRight, Contents, InsertBatch, Sorted, Live;
    RecordedBelow(sys);
    WritesAddAbove(sys.db, ops, s);
    assert forall x :: x in es <==> x in EntrySet(es);
    assert forall x :: x in es' <==> x in EntrySet(es');
    LiveStays(es, es', s);
    ReplayPrefix(sys.history, ops, s);
  }

  lemma RecordedBelow(sys: System)
    requires Inv(sys)
    ensures Sorted(sys.db.mem) && forall x :: x in Contents(sys.db) ==> x.key.sequence <= sys.db.lastSequence
  {
    hide FilesOk, AllRight, Contents, Sorted;
  }

  class Database {
    const maxFileSize: nat
    const tableSize: seq<Entry> -> nat
    var mem: seq<Entry>
    var imm: Option<seq<Entry>>
    var levels: seq<seq<File>>
    var snapshots: seq<nat>
    var lastSequence: nat
    var nextFile: nat
    /** All operations written so far. */
    ghost var history: seq<Item>

    ghost function State(): (sys: System)
      reads this
      ensures sys.history == history
      ensures sys.db == Db(mem, imm, levels, snapshots, lastSequence, nextFile)
    {
      System(Db(mem, imm, levels, snapshots, lastSequence, nextFile), history)
    }

    ghost predicate Valid()
      reads this
    {
      Inv(State())
    }

    constructor (maxFileSize: nat, tableSize: seq<Entry> -> nat)
      ensures Valid() && Init(State())
    {
      this.maxFileSize := maxFileSize;
      this.tableSize := tableSize;
      mem, imm, snapshots, lastSequence, nextFile := [], None, [], 0, 2;
      levels := seq(NUM_LEVELS, _ => []);
      history := [];
      new;
      InitInv(State());
    }

    /** InsertInto and SetLastSequence: the batch gets consecutive sequence numbers. */
    method Write(batch: seq<Op>)
      requires Valid() && |history| + |batch| < MAX_SEQUENCE
      modifies this
      ensures Valid() && Next(old(State()), WriteStep(batch), State())
    {
      hide Inv, Next, InsertEntry;
      ghost var before := State();
      var sequence := lastSequence + 1;
      for i := 0 to |batch|
        invariant sequence == lastSequence + 1 + i
        invariant InsertBatch(before.db, batch) == InsertBatch(State().db.(lastSequence := lastSequence + i), batch[i..])
        invariant State() == System(before.db.(mem := mem), before.history)
      {
        mem := InsertEntry(mem, EntryOf(batch[i], sequence));
        assert batch[i..][0] == batch[i] && batch[i..][1..] == batch[i + 1..];
        sequence := sequence + 1;
      }
      lastSequence := sequence - 1;
      history := history + batch;
      WriteIsStep(before, batch, State());
    }

    /** MakeRoomForWrite, when the memtable is full: a new log number and a new memtable. */
    method SwitchMemTable()
      requires Valid() && imm.None?
      modifies this
      ensures Valid() && Next(old(State()), SwitchStep, State())
    {
      hide Inv;
      ghost var before := State();
      nextFile := nextFile + 1;
      imm := Some(mem);
      mem := [];
      NextExact(before, SwitchStep, State());
    }

    /** CompactMemTable: the table goes to the picked level; an empty memtable only uses up a number. */
    method CompactMemTable() returns (ghost step: Step)
      requires Valid() && imm.Some?
      modifies this
      ensures Valid() && Next(old(State()), step, State())
      ensures imm.None? && history == old(history)
      ensures if old(imm) == Some([]) then step == DiscardStep && levels == old(levels) else step.FlushStep?
    {
      hide Inv, FileOk, SafeFlushLevel, VersionOk, Installed, NewerThan, NumbersOk, Ordered, LevelOk, LevelsSet;
      ghost var before := State();
      InvParts(before);
      ImmSequences(before);
      var number := nextFile;
      nextFile := nextFile + 1;
      var file := BuildTable(number, imm.value, tableSize);
      if file.Some? {
        var f := file.value;
        LevelsOrdered(levels);
        var level := PickLevelForMemTableOutput(levels, f.smallest.user, f.largest.user, MaxGrandParentOverlapBytes(maxFileSize));
        FlushEditOk(levels, level, f, number);
        var installed := InstallEdit(levels, FlushEdit(level, f));
        levels := installed;
        step := FlushStep(level, f);
      } else {
        step := DiscardStep;
      }
      imm := None;
      NextExact(before, step, State());
    }

    /** BackgroundCompaction without a manual compaction: PickCompaction starts from a file, which the
        scores and the seeks choose. */
    method BackgroundCompaction(level: nat, index: nat) returns (ghost step: Step)
      requires Valid() && level + 1 < NUM_LEVELS && index < |levels[level]|
      modifies this
      ensures Next(old(State()), step, State()) && history == old(history)
      ensures (step.MoveStep? || step.CompactStep?) && step.c.level == level && old(levels)[level][index] in step.c.inputs0
      ensures Valid() <==> StepHarmless(old(State()), step)
    {
      hide Inv, VersionOk, IsCompaction, Next, StepHarmless;
      InvParts(State());
      var c := PickCompaction(levels, level, index, maxFileSize);
      step := RunCompaction(c, false);
    }

    /** BackgroundCompaction for a manual compaction: nothing is done exactly when no file overlaps the range. */
    method ManualCompaction(level: nat, begin: Option<InternalKey>, end: Option<InternalKey>) returns (ghost step: Option<Step>)
      requires Valid() && level + 1 < NUM_LEVELS
      modifies this
      ensures step.None? <==> NoOverlap(old(levels)[level], UserBound(begin), UserBound(end))
      ensures step.None? ==> Valid() && State() == old(State())
      ensures step.Some? ==> Next(old(State()), step.value, State()) && history == old(history)
      ensures step.Some? ==> step.value.CompactStep? && step.value.c.level == level
      ensures step.Some? ==> (Valid() <==> Harmless(old(State()), step.value.c))
    {
      hide Inv, VersionOk, IsCompaction, Next, Harmless, NoOverlap;
      InvParts(State());
      var c := CompactRange(levels, level, begin, end, maxFileSize);
      step := None;
      if c.Some? {
        ghost var run := RunCompaction(c.value, true);
        step := Some(run);
      }
    }

    /** The rest of BackgroundCompaction: a trivial move, or the merge of the inputs into new files. */
    method RunCompaction(c: Compaction, manual: bool) returns (ghost step: Step)
      requires Valid() && IsCompaction(levels, c)
      modifies this
      ensures Next(old(State()), step, State()) && history == old(history)
      ensures (step.MoveStep? || step.CompactStep?) && step.c == c
      ensures step.MoveStep? <==> !manual && IsTrivialMove(c, maxFileSize)
      // all readers go on to read what they must exactly if the merge uncovers nothing
      ensures Valid() <==> StepHarmless(old(State()), step)
      ensures ReadsRight(State()) ==> Valid()
    {
      hide Harmless, ReadsRight, Inv, FileOk, VersionOk, Installed, NewerThan, NumbersOk, Ordered, LevelOk, LevelsSet, LevelSet, IsCompaction,
           Flat, Kept, OutputsOk, MergingIterator.Ok;
      ghost var before := State();
      InvParts(before);
      LevelsOrdered(levels);
      if !manual && IsTrivialMove(c, maxFileSize) {
        // Move file to next level
        CompactionMembers(levels, c);
        MoveFits(levels, c, nextFile);
        ReplaceEditOk(levels, c, c.inputs0);
        var installed := InstallEdit(levels, ReplaceEdit(c, c.inputs0));
        levels := installed;
        step := MoveStep(c);
      } else {
        CompactionMembers(levels, c);
        var input := MakeInputIterator(levels, c);
        ghost var es := input.merged;
        var smallest := if snapshots == [] then lastSequence else snapshots[0];
        var outputs, next := DoCompactionWork(levels, c, smallest, maxFileSize, tableSize, nextFile, input);
        FreshNumbersOk(levels, c, outputs, nextFile, next);
        ReplaceEditOk(levels, c, outputs);
        // InstallCompactionResults
        var installed := InstallEdit(levels, ReplaceEdit(c, outputs));
        levels := installed;
        nextFile := next;
        step := CompactStep(c, outputs, next);
        assert Compacted(before, c, es, outputs, next, State());
      }
      NextExact(before, step, State());
    }

    method GetSnapshot() returns (snapshot: nat)
      requires Valid()
      modifies this
      ensures Valid() && Next(old(State()), SnapshotStep, State())
      ensures snapshot == lastSequence == |history| && snapshot in snapshots
    {
      hide Inv;
      ghost var before := State();
      InvParts(before);
      snapshot := lastSequence;
      snapshots := snapshots + [snapshot];
      NextExact(before, SnapshotStep, State());
    }

    method ReleaseSnapshot(i: nat)
      requires Valid() && i < |snapshots|
      modifies this
      ensures Valid() && Next(old(State()), ReleaseStep(i), State())
    {
      hide Inv;
      ghost var before := State();
      snapshots := snapshots[..i] + snapshots[i + 1..];
      NextExact(before, ReleaseStep(i), State());
    }

    /** Get: the memtable, then the immutable memtable, then the files. */
    method Get(user: UserKey, snapshot: Option<nat>) returns (r: Option<Value>)
      requires Valid() && (snapshot.Some? ==> snapshot.value in snapshots)
      ensures r == Expected(history, user, if snapshot.Some? then snapshot.value else |history|)
    {
      hide Inv, VersionOk, NewerThan, Newest, NoneSeen, LevelsSet, EntrySet, Sorted, Expected;
      var s := if snapshot.Some? then snapshot.value else lastSequence;
      ghost var sys := State();
      InvParts(sys);
      ghost var files := LevelsSet(levels);
      var found := SearchMemTable(mem, user, s);
      if found.Some? {
        NewerWins(EntrySet(mem), ImmSet(sys.db) + files, user, s, found.value);
        assert EntrySet(mem) + (ImmSet(sys.db) + files) == Contents(sys.db);
      } else {
        if imm.Some? {
          found := SearchMemTable(imm.value, user, s);
        } else {
          NothingInNoTable(user, s);
        }
        if found.Some? {
          NewerWins(ImmSet(sys.db), files, user, s, found.value);
        } else {
          found := VersionGet.Get(levels, user, s);
          if found.Some? {
            MissThenHit(ImmSet(sys.db), files, user, s, found.value);
          }
        }
        if found.Some? {
          MissThenHit(EntrySet(mem), ImmSet(sys.db) + files, user, s, found.value);
          assert EntrySet(mem) + (ImmSet(sys.db) + files) == Contents(sys.db);
        }
      }
      ReadsAsExpected(sys, user, s);
      if found.Some? {
        HitIsAnswer(Contents(sys.db), user, s, found.value, Expected(history, user, s));
        return Outcome(found.value);
      }
      MissIsAnswer(EntrySet(mem), ImmSet(sys.db), files, user, s, Expected(history, user, s));
      return None;
    }

    /** The child iterators of NewInternalIterator and AddIterators. */
    method ChildRuns() returns (runs: seq<seq<Entry>>)
      requires Valid()
      ensures Mergeable(runs) && RunsSet(runs) == Contents(State().db)
    {
      hide Inv, VersionOk, NewerThan, LevelsSet, LevelSet, EntrySet, Sorted, Mergeable, RunsSet, Ordered;
      ghost var sys := State();
      InvParts(sys);
      ghost var tables := EntrySet(mem) + ImmSet(sys.db);
      OneRun(mem);
      runs := [mem];
      if imm.Some? {
        MemTablesApart(sys);
        AppendRun(runs, imm.value, EntrySet(mem));
        runs := runs + [imm.value];
      }
      // Merge all level zero files together since they may overlap
      NoFilesNoEntries(levels[0][..0]);
      for i := 0 to |levels[0]|
        invariant Mergeable(runs) && RunsSet(runs) == tables + LevelSet(levels[0][..i])
      {
        Level0FileApart(sys, i);
        AppendRun(runs, levels[0][i].entries, tables + LevelSet(levels[0][..i]));
        runs := runs + [levels[0][i].entries];
      }
      assert levels[0][..|levels[0]|] == levels[0];
      FirstLevelSet(levels);
      for level := 1 to NUM_LEVELS
        invariant Mergeable(runs) && RunsSet(runs) == tables + LevelsSet(levels[..level])
      {
        LevelApart(sys, level);
        if levels[level] != [] {
          var run := ConcatFiles(levels[level]);
          LevelRunIsSorted(sys, level);
          AppendRun(runs, run, tables + LevelsSet(levels[..level]));
          runs := runs + [run];
        }
      }
      assert levels[..NUM_LEVELS] == levels;
    }

    /** NewIterator: an iterator over exactly the pairs that the history leaves at its sequence number. */
    method NewIterator(snapshot: Option<nat>) returns (it: DBIter)
      requires Valid() && (snapshot.Some? ==> snapshot.value in snapshots)
      ensures fresh(it) && fresh(it.iter) && fresh(it.iter.children) && it.Ok() && !it.valid
      ensures it.sequence == if snapshot.Some? then snapshot.value else lastSequence
      ensures forall user, v :: (user, v) in it.LivePairs() <==> Expected(history, user, it.sequence) == Some(v)
      ensures forall a, b :: 0 <= a < b < |it.LivePairs()| ==> it.LivePairs()[a].0 < it.LivePairs()[b].0
    {
      hide Inv, Mergeable, RunsSet, MergingIterator.Ok, DBIter.Ok, Contents, Expected, Live, Sorted;
      ghost var sys := State();
      InvParts(sys);
      var runs := ChildRuns();
      var internal := MakeMergingIterator(runs);
      var s := if snapshot.Some? then snapshot.value else lastSequence;
      it := new DBIter(internal, s);
      LiveIsExpected(sys, internal.merged, s);
      LiveAscends(internal.merged, s);
    }
  }

  lemma WriteIsStep(before: System, batch: seq<Op>, after: System)
    requires Inv(before) && |before.history| + |batch| < MAX_SEQUENCE
    requires after == System(InsertBatch(before.db, batch), before.history + batch)
    ensures Inv(after) && Next(before, WriteStep(batch), after)
  {
    hide Inv;
    NextExact(before, WriteStep(batch), after);
  }

  lemma NothingInNoTable(user: UserKey, s: nat)
    ensures NoneSeen({}, user, s)
  {
  }

  lemma HitIsAnswer(entries: set<Entry>, user: UserKey, s: nat, e: Entry, a: Option<Value>)
    requires Newest(entries, user, s, e) && Answer(entries, user, s, a)
    ensures a == Outcome(e)
  {
  }

  lemma MissIsAnswer(a: set<Entry>, b: set<Entry>, c: set<Entry>, user: UserKey, s: nat, r: Option<Value>)
    requires NoneSeen(a, user, s) && NoneSeen(b, user, s) && NoneSeen(c, user, s) && Answer(a + b + c, user, s, r)
    ensures r == None
  {
    assert NoneSeen(a + b + c, user, s);
  }

  /** The runs of the children share no key. */
  lemma MemTablesApart(sys: System)
    requires Inv(sys) && sys.db.imm.Some?
    ensures forall x, y :: x in EntrySet(sys.db.mem) && y in sys.db.imm.value ==> x.key != y.key
  {
    hide AllRight, AllRecorded, FilesOk, LevelsSet, Sorted;
  }

  lemma Level0FileApart(sys: System, i: nat)
    requires Inv(sys) && i < |sys.db.levels[0]|
    ensures var f := sys.db.levels[0][i];
            && Sorted(f.entries)
            && (forall x, y :: x in EntrySet(sys.db.mem) + ImmSet(sys.db) + LevelSet(sys.db.levels[0][..i]) && y in f.entries ==> x.key != y.key)
            && LevelSet(sys.db.levels[0][..i + 1]) == LevelSet(sys.db.levels[0][..i]) + EntrySet(f.entries)
  {
    hide AllRight, AllRecorded, LevelsSet, Sorted, Ordered, SortedLevel, LevelSet, FileOk, NumbersOk;
    var files, f := sys.db.levels[0], sys.db.levels[0][i];
    assert f in files;
    Level0FileOk(files, f);
    forall y | y in f.entries
      ensures y in LevelsSet(sys.db.levels)
    {
      LevelsSetHas(sys.db.levels, 0, f, y);
    }
    forall x, y | x in LevelSet(files[..i]) && y in f.entries
      ensures x.key != y.key
    {
      var g := LevelSetFile(files[..i], x);
      var k :| 0 <= k < i && files[..i][k] == g;
      Level0NoCommonKey(files, files[k], f);
    }
    LevelSetSnoc(files, i);
  }

  lemma LevelSetSnoc(files: seq<File>, i: nat)
    requires i < |files|
    ensures LevelSet(files[..i + 1]) == LevelSet(files[..i]) + EntrySet(files[i].entries)
  {
    assert files[..i + 1] == files[..i] + [files[i]];
  }

  lemma FirstLevelSet(levels: seq<seq<File>>)
    requires |levels| > 0
    ensures LevelsSet(levels[..1]) == LevelSet(levels[0])
  {
    hide LevelSet;
    assert levels[..1] == [levels[0]];
  }

  lemma LevelApart(sys: System, l: nat)
    requires Inv(sys) && 1 <= l < NUM_LEVELS
    ensures forall x, y :: x in EntrySet(sys.db.mem) + ImmSet(sys.db) + LevelsSet(sys.db.levels[..l]) && y in LevelSet(sys.db.levels[l]) ==>
              x.key != y.key
    ensures LevelsSet(sys.db.levels[..l + 1]) == LevelsSet(sys.db.levels[..l]) + LevelSet(sys.db.levels[l])
    ensures sys.db.levels[l] == [] ==> LevelSet(sys.db.levels[l]) == {}
  {
    hide AllRight, AllRecorded, Sorted, Ordered, SortedLevel, LevelSet, Level0Ok;
    var levels := sys.db.levels;
    forall x, y | x in EntrySet(sys.db.mem) + ImmSet(sys.db) + LevelsSet(levels[..l]) && y in LevelSet(levels[l])
      ensures x.key != y.key
    {
      assert y in LevelsSet(levels);
      if x in LevelsSet(levels[..l]) {
        var m :| 0 <= m < l && x in LevelSet(levels[..l][m]);
        assert NewerThan(LevelSet(levels[m]), LevelSet(levels[l]));
      }
    }
    LevelsSetSnoc(levels, l);
    if levels[l] == [] {
      NoFilesNoEntries(levels[l]);
    }
  }

  lemma LevelsSetSnoc(levels: seq<seq<File>>, l: nat)
    requires l < |levels|
    ensures LevelsSet(levels[..l + 1]) == LevelsSet(levels[..l]) + LevelSet(levels[l])
  {
    hide LevelSet;
    assert levels[..l + 1] == levels[..l] + [levels[l]];
  }

  lemma LevelRunIsSorted(sys: System, l: nat)
    requires Inv(sys) && 1 <= l < NUM_LEVELS
    ensures Sorted(Flat(sys.db.levels[l])) && EntrySet(Flat(sys.db.levels[l])) == LevelSet(sys.db.levels[l])
    ensures forall x :: x in Flat(sys.db.levels[l]) <==> x in LevelSet(sys.db.levels[l])
  {
    hide AllRight, AllRecorded, Sorted, Ordered, SortedLevel, LevelSet, Level0Ok, TablesOk;
    LevelRunSorted(sys.db.levels[l]);
  }
}
