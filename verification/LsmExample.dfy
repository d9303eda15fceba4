/** Why a compaction can do harm: a run whose last step compacts inputs as SetupOtherInputs chooses them,
    and brings a deleted value back. The
    two level-3 files share the user key 2.0: the first ends with its tombstone, the second holds the
    value it hides, and only the first overlaps the level-2 file that is compacted. They were cut
    apart by a compaction that had to keep both entries for a snapshot, since released. */
module LsmExample {
  import opened DbFormat
  import opened Wrappers
  import opened View
  import opened History
  import opened Version
  import opened VersionGet
  import opened CompactionInputs
  import opened CompactionWork
  import opened VersionBuilder
  import opened LevelReplace
  import opened LevelFlush
  import opened Lsm

  const OldPut := Entry(InternalKey(1.0, 1, TypeValue), "a")
  const Hidden := Entry(InternalKey(2.0, 2, TypeValue), "b")
  const Tombstone := Entry(InternalKey(2.0, 3, TypeDeletion), "")
  const NewPut := Entry(InternalKey(1.0, 4, TypeValue), "c")

  const Writes := [Put(1.0, "a"), Put(2.0, "b"), Delete(2.0), Put(1.0, "c")]

  const Upper := File(5, 1, NewPut.key, NewPut.key, [NewPut])
  const First := File(2, 1, OldPut.key, Tombstone.key, [OldPut, Tombstone])
  const Second := File(3, 1, Hidden.key, Hidden.key, [Hidden])
  const Output := File(6, 1, NewPut.key, NewPut.key, [NewPut])

  const Before: seq<seq<File>> := [[], [], [Upper], [First, Second], [], [], []]
  const After: seq<seq<File>> := [[], [], [], [Output, Second], [], [], []]

  const Start := System(Db([], None, Before, [], 4, 6), Writes)
  const End := System(Db([], None, After, [], 4, 7), Writes)

  const Inputs := Compaction(2, [Upper], [First], [])
  const Merged := [NewPut, OldPut, Tombstone]

  lemma TwoFiles(f: File, g: File)
    ensures LevelSet([]) == {} && LevelSet([f]) == EntrySet(f.entries)
    ensures LevelSet([f, g]) == EntrySet(f.entries) + EntrySet(g.entries)
  {
    assert forall x :: x in f.entries <==> x in [f][0].entries;
    forall x
      ensures x in LevelSet([f, g]) <==> x in f.entries || x in g.entries
    {
      assert x in f.entries ==> x in [f, g][0].entries;
      assert x in g.entries ==> x in [f, g][1].entries;
    }
  }

  lemma LevelSets()
    ensures LevelSet([]) == {} && LevelSet([Upper]) == {NewPut} && LevelSet([First]) == {OldPut, Tombstone}
    ensures LevelSet([First, Second]) == {OldPut, Tombstone, Hidden} && LevelSet([Output, Second]) == {NewPut, Hidden}
  {
    hide LevelSet;
    TwoFiles(Upper, Upper);
    TwoFiles(First, Second);
    TwoFiles(Output, Second);
  }

  lemma StartContents()
    ensures Contents(Start.db) == LevelsSet(Before) == {NewPut, OldPut, Tombstone, Hidden}
    ensures Contents(End.db) == LevelsSet(After) == {NewPut, Hidden}
  {
    hide LevelSet;
    LevelSets();
    forall x
      ensures x in LevelsSet(Before) <==> x in {NewPut, OldPut, Tombstone, Hidden}
      ensures x in LevelsSet(After) <==> x in {NewPut, Hidden}
    {
      assert x in LevelSet(Before[2]) <==> x == NewPut;
      assert x in LevelSet(Before[3]) <==> x in {OldPut, Tombstone, Hidden};
      assert x in LevelSet(After[3]) <==> x in {NewPut, Hidden};
      if x in LevelsSet(Before) {
        var l :| 0 <= l < |Before| && x in LevelSet(Before[l]);
      }
      if x in LevelsSet(After) {
        var l :| 0 <= l < |After| && x in LevelSet(After[l]);
      }
    }
  }

  lemma FilesAreOk()
    ensures FileOk(Upper) && FileOk(First) && FileOk(Second)
    ensures Less(First.largest, Second.smallest)
  {
  }

  lemma StartVersionOk()
    ensures VersionOk(Before) && Ordered(Before[0]) && NumbersOk(Before, 6)
  {
    hide LevelSet, FileOk;
    LevelSets();
    FilesAreOk();
    assert Level0Ok(Before[0]);
    assert Before[2] == [Upper] && Before[3] == [First, Second];
    forall l | 1 <= l < |Before|
      ensures SortedLevel(Before[l])
    {
      assert l == 2 || l == 3 || Before[l] == [];
    }
    forall l, m | 0 <= l < m < |Before|
      ensures NewerThan(LevelSet(Before[l]), LevelSet(Before[m]))
    {
      StartNewer(l, m);
    }
    StartNumbers();
  }

  lemma StartNewer(l: nat, m: nat)
    requires l < m < |Before|
    ensures NewerThan(LevelSet(Before[l]), LevelSet(Before[m]))
  {
    hide LevelSet;
    LevelSets();
    if l == 2 && m == 3 {
      assert LevelSet(Before[2]) == {NewPut} && LevelSet(Before[3]) == {OldPut, Tombstone, Hidden};
    } else {
      assert Before[l] == [] || Before[m] == [];
    }
  }

  lemma StartNumbers()
    ensures NumbersOk(Before, 6)
  {
    forall l: nat, f | l < |Before| && f in Before[l]
      ensures f.number < 6 && f.number == (if l == 2 then 5 else if f == First then 2 else 3)
      ensures (l == 2 && f == Upper) || (l == 3 && (f == First || f == Second))
    {
      FilesBefore(l, f);
    }
  }

  lemma FilesBefore(l: nat, f: File)
    requires l < |Before| && f in Before[l]
    ensures (l == 2 && f == Upper) || (l == 3 && (f == First || f == Second))
  {
    EmptyBefore();
  }

  lemma EmptyBefore()
    ensures forall l :: 0 <= l < |Before| && l != 2 && l != 3 ==> Before[l] == []
  {
  }

  lemma HistoryIs()
    ensures Replay(Writes, 4) == map[1.0 := "c"]
  {
    assert Replay(Writes, 1) == map[1.0 := "a"];
    assert Replay(Writes, 2) == map[1.0 := "a", 2.0 := "b"];
    assert Replay(Writes, 3) == map[1.0 := "a"];
  }

  lemma StartInv()
    ensures Inv(Start)
  {
    hide VersionOk, NumbersOk, LevelsSet, Ordered, Expected;
    StartContents();
    StartVersionOk();
    forall user, s | 4 <= s
      ensures Answer(Contents(Start.db), user, s, Expected(Writes, user, s))
    {
      StartAnswers(user, s);
    }
  }

  lemma StartAnswers(user: UserKey, s: nat)
    requires 4 <= s
    ensures Answer({NewPut, OldPut, Tombstone, Hidden}, user, s, Expected(Writes, user, s))
  {
    HistoryIs();
    var entries := {NewPut, OldPut, Tombstone, Hidden};
    if user == 1.0 {
      assert Newest(entries, user, s, NewPut);
    } else if user == 2.0 {
      assert Newest(entries, user, s, Tombstone);
    }
  }

  lemma InputsAreChosen()
    ensures IsCompaction(Before, Inputs)
  {
    hide IsStart, NoBoundaryLeft;
    ChosenUpper();
    OverlapIsFirst();
    assert [Upper][0] in [Upper];
    assert IsSmallest([Upper], NewPut.key) && IsLargest([Upper], NewPut.key);
    assert TakesOverlap(Before[3], [Upper], [First]);
  }

  lemma ChosenUpper()
    ensures Chosen([Upper], 2, [Upper])
  {
    assert IsSliceAt([Upper], [Upper], 0);
    forall key, f | IsLargest([Upper], key) && f in [Upper]
      ensures !IsBoundary(f, key)
    {
      var g :| g in [Upper] && g.largest == key;
    }
  }

  lemma OverlapIsFirst()
    ensures Overlapping([First, Second], Some(1.0), Some(1.0)) == [First]
  {
    assert [First, Second][..1] == [First] && [First][..0] == [];
    assert Overlapping([First], Some(1.0), Some(1.0)) == [First];
    assert !Overlaps(Second, Some(1.0), Some(1.0));
  }

  lemma KeptIs()
    ensures Kept(Before, 2, 4, Merged, 3) == [NewPut]
  {
    assert BaseLevel(Before, 2, 2.0);
    assert !Dropped(Before, 2, 4, Merged, 0);
    assert Dropped(Before, 2, 4, Merged, 1);
    assert Dropped(Before, 2, 4, Merged, 2);
    assert Kept(Before, 2, 4, Merged, 0) == [];
    assert Kept(Before, 2, 4, Merged, 1) == [NewPut];
    assert Kept(Before, 2, 4, Merged, 2) == [NewPut];
  }

  lemma EditIsInstalled()
    ensures Installed(Before, ReplaceEdit(Inputs, [Output]), After)
  {
    var edit := ReplaceEdit(Inputs, [Output]);
    ReplaceEditFacts(Inputs, [Output]);
    forall l | 0 <= l < NUM_LEVELS
      ensures LevelInstalled(Before[l], edit, l, After[l])
    {
    }
  }

  // The run that reaches Start

  const Empty: seq<seq<File>> := [[], [], [], [], [], [], []]
  const Base := File(1, 1, OldPut.key, Hidden.key, [OldPut, Tombstone, Hidden])
  const WithBase: seq<seq<File>> := [[], [], [Base], [], [], [], []]
  const Split: seq<seq<File>> := [[], [], [], [First, Second], [], [], []]
  const BaseInputs := Compaction(2, [Base], [], [])

  const Fresh := System(Db([], None, Empty, [], 0, 0), [])
  const Written := System(Db([OldPut, Hidden], None, Empty, [], 2, 0), Writes[..2])
  const Watched := System(Db([OldPut, Hidden], None, Empty, [2], 2, 0), Writes[..2])
  const Deleted := System(Db([OldPut, Tombstone, Hidden], None, Empty, [2], 3, 0), Writes[..3])
  const Switched := System(Db([], Some([OldPut, Tombstone, Hidden]), Empty, [2], 3, 1), Writes[..3])
  const BaseFlushed := System(Db([], None, WithBase, [2], 3, 2), Writes[..3])
  const Cut := System(Db([], None, Split, [2], 3, 4), Writes[..3])
  const Rewritten := System(Db([NewPut], None, Split, [2], 4, 4), Writes)
  const SwitchedAgain := System(Db([], Some([NewPut]), Split, [2], 4, 5), Writes)
  const UpperFlushed := System(Db([], None, Before, [2], 4, 6), Writes)

  lemma TwoPuts()
    ensures Init(Fresh) && Next(Fresh, WriteStep(Writes[..2]), Written)
  {
    var batch := Writes[..2];
    assert batch[1..] == [Put(2.0, "b")] && batch[1..][1..] == [];
    var one := AddOne(Fresh.db, batch[0]);
    assert one.mem == [OldPut];
    assert LowerBound([OldPut], Hidden.key) == 1;
    assert AddOne(one, Put(2.0, "b")).mem == [OldPut, Hidden];
    assert InsertBatch(one, batch[1..]) == InsertBatch(AddOne(one, Put(2.0, "b")), []);
  }

  lemma OneDelete()
    ensures Next(Watched, WriteStep([Delete(2.0)]), Deleted)
  {
    assert [OldPut, Hidden][1..] == [Hidden];
    assert LowerBound([OldPut, Hidden], Tombstone.key) == 1;
    assert AddOne(Watched.db, Delete(2.0)).mem == [OldPut, Tombstone, Hidden];
    assert InsertBatch(AddOne(Watched.db, Delete(2.0)), []) == Deleted.db;
    assert Writes[..2] + [Delete(2.0)] == Writes[..3];
  }

  lemma OnePut()
    ensures Next(Cut, WriteStep([Put(1.0, "c")]), Rewritten)
  {
    assert AddOne(Cut.db, Put(1.0, "c")).mem == [NewPut];
    assert InsertBatch(AddOne(Cut.db, Put(1.0, "c")), []) == Rewritten.db;
    assert Writes[..3] + [Put(1.0, "c")] == Writes;
  }

  /** Both flushes go to the deepest level a memtable may go to: nothing there or above overlaps. */
  lemma FlushBase()
    ensures FileOk(Base) && Next(Switched, FlushStep(MAX_MEM_COMPACT_LEVEL, Base), BaseFlushed)
  {
    forall l | 0 <= l < NUM_LEVELS
      ensures Empty[l] == [] && LevelInstalled(Empty[l], FlushEdit(2, Base), l, WithBase[l])
    {
    }
  }

  lemma FlushUpper()
    ensures Next(SwitchedAgain, FlushStep(MAX_MEM_COMPACT_LEVEL, Upper), UpperFlushed)
  {
    FilesAreOk();
    forall l | 0 <= l < NUM_LEVELS
      ensures (l != 3 ==> Split[l] == []) && LevelInstalled(Split[l], FlushEdit(2, Upper), l, Before[l])
    {
    }
  }

  /** The snapshot at 2 keeps the value, and the tombstone above it; a table ends between them. */
  lemma CompactBase()
    ensures Next(BaseFlushed, CompactStep(BaseInputs, [First, Second], 4), Cut)
  {
    hide IsCompaction, Installed, Kept, IsInputMerge, Flat, LevelSet, ReplaceEdit, Less;
    BaseIsChosen();
    BaseIsKept();
    BaseIsSplit();
    BaseIsMerged();
    SplitIsFlat();
    assert Compacted(BaseFlushed, BaseInputs, Base.entries, [First, Second], 4, Cut);
  }

  lemma BaseIsMerged()
    ensures IsInputMerge(BaseInputs, Base.entries)
  {
    hide LevelSet;
    TwoFiles(Base, Base);
  }

  lemma SplitIsFlat()
    ensures Flat([First, Second]) == Base.entries
  {
    assert [First, Second][..1] == [First] && [First][..0] == [];
    assert Flat([First]) == First.entries;
  }

  lemma BaseIsChosen()
    ensures IsCompaction(WithBase, BaseInputs)
  {
    assert IsSliceAt([Base], [Base], 0);
    forall key, f | IsLargest([Base], key) && f in [Base]
      ensures !IsBoundary(f, key)
    {
      var g :| g in [Base] && g.largest == key;
    }
    assert [Base][0] in [Base];
    assert IsSmallest([Base], OldPut.key) && IsLargest([Base], Hidden.key);
    assert TakesOverlap(WithBase[3], [Base], []);
  }

  lemma BaseIsKept()
    ensures Kept(WithBase, 2, 2, Base.entries, 3) == Base.entries
  {
    var es := Base.entries;
    assert !Dropped(WithBase, 2, 2, es, 0) && !Dropped(WithBase, 2, 2, es, 1) && !Dropped(WithBase, 2, 2, es, 2);
    assert Kept(WithBase, 2, 2, es, 0) == [];
    assert Kept(WithBase, 2, 2, es, 1) == [OldPut];
    assert Kept(WithBase, 2, 2, es, 2) == [OldPut, Tombstone];
  }

  lemma BaseIsSplit()
    ensures Installed(WithBase, ReplaceEdit(BaseInputs, [First, Second]), Split)
  {
    var edit := ReplaceEdit(BaseInputs, [First, Second]);
    ReplaceEditFacts(BaseInputs, [First, Second]);
    forall l | 0 <= l < NUM_LEVELS
      ensures LevelInstalled(WithBase[l], edit, l, Split[l])
    {
    }
  }

  lemma OtherSteps()
    ensures Next(Written, SnapshotStep, Watched)
    ensures Next(Deleted, SwitchStep, Switched) && Next(Rewritten, SwitchStep, SwitchedAgain)
    ensures Next(UpperFlushed, ReleaseStep(0), Start)
  {
  }

  /** The run that reaches Start and then compacts `Inputs`. */
  lemma EndIsReached() returns (states: seq<System>, steps: seq<Step>)
    ensures Run(states, steps) && |steps| == 11 && states[10] == Start && states[11] == End
    ensures steps[10] == CompactStep(Inputs, [Output], 7)
  {
    hide Next, Init, InsertBatch, AddOne, InsertEntry, LowerBound, Less;
    states := [Fresh, Written, Watched, Deleted, Switched, BaseFlushed, Cut, Rewritten, SwitchedAgain, UpperFlushed, Start, End];
    steps := [WriteStep(Writes[..2]), SnapshotStep, WriteStep([Delete(2.0)]), SwitchStep, FlushStep(MAX_MEM_COMPACT_LEVEL, Base),
              CompactStep(BaseInputs, [First, Second], 4), WriteStep([Put(1.0, "c")]), SwitchStep,
              FlushStep(MAX_MEM_COMPACT_LEVEL, Upper), ReleaseStep(0), CompactStep(Inputs, [Output], 7)];
    TwoPuts();
    OneDelete();
    OnePut();
    FlushBase();
    FlushUpper();
    CompactBase();
    OtherSteps();
    StartCompacts();
  }

  lemma StartCompacts()
    ensures Next(Start, CompactStep(Inputs, [Output], 7), End)
  {
    hide IsCompaction, Kept, LevelsSet, Contents, Installed, Ordered, IsInputMerge, ReplaceEdit;
    InputsAreChosen();
    KeptIs();
    EditIsInstalled();
    MergedIs();
    assert Flat([Output]) == [NewPut] by { assert [Output][..0] == []; }
    assert Compacted(Start, Inputs, Merged, [Output], 7, End);
  }

  /** A run of the code's steps whose last compaction makes the deleted user key 2.0 readable again,
      though every read was right before it. */
  lemma CompactionResurrects()
    ensures exists states, steps ::
      && Run(states, steps) && states[|steps|] == End && Inv(states[|steps| - 1])
      && steps[|steps| - 1] == CompactStep(Inputs, [Output], 7) && !Harmless(states[|steps| - 1], Inputs)
    ensures Expected(End.history, 2.0, End.db.lastSequence) == None
    ensures Answer(Contents(End.db), 2.0, End.db.lastSequence, Some("b")) && !ReadsRight(End)
  {
    hide Inv, LevelsSet, Contents, Run, Next, Harmless;
    StartInv();
    StartContents();
    HistoryIs();
    assert Newest({NewPut, Hidden}, 2.0, 4, Hidden);
    EndIsWrong();
    var states, steps := EndIsReached();
    LastStep(states, steps);
    NextExact(Start, steps[10], End);
  }

  lemma LastStep(states: seq<System>, steps: seq<Step>)
    requires Run(states, steps) && |steps| == 11
    ensures |states| == 12 && Next(states[10], steps[10], states[11])
  {
    hide Next;
  }

  lemma MergedIs()
    ensures IsInputMerge(Inputs, Merged)
  {
    hide LevelSet;
    LevelSets();
  }

  lemma EndIsWrong()
    requires Answer(Contents(End.db), 2.0, 4, Some("b")) && Expected(Writes, 2.0, 4) == None
    ensures !ReadsRight(End) && !Inv(End)
  {
    hide Answer, Contents, Inv, Expected;
    if ReadsRight(End) {
      assert Answer(Contents(End.db), 2.0, 4, Expected(Writes, 2.0, 4));
      AnswerIsUnique(Contents(End.db), 2.0, 4, Some("b"), None);
    }
    if Inv(End) {
      LiveAnswers(End);
    }
  }
}
