/** The numbers of table files (db/version_set.h, NewFileNumber): what keeps an edit from adding a file to
    a level that was given its number before. */
module FileNumbers {
  import opened Version
  import opened History
  import opened VersionGet
  import opened CompactionInputs
  import opened CompactionWork
  import opened VersionBuilder
  import opened LevelReplace
  import opened LevelFlush
  import opened Lsm
  import M = Manifest
  import VE = VersionEdit

  /** The files that a step deletes and adds. */
  function FilesOf(step: Step): FileEdit {
    match step
    case FlushStep(level, f) => FlushEdit(level, f)
    case MoveStep(c) => ReplaceEdit(c, c.inputs0)
    case CompactStep(c, outputs, _) => ReplaceEdit(c, outputs)
    case _ => FileEdit({}, [])
  }

  predicate EndsMemTable(step: Step) {
    step.FlushStep? || step.DiscardStep?
  }

  /** The steps that end in LogAndApply. */
  predicate IsLogged(step: Step) {
    EndsMemTable(step) || step.MoveStep? || step.CompactStep?
  }

  /** Every number in the descriptor was given out. */
  ghost predicate AddedBelow(edits: seq<VE.VersionEdit>, nextFile: nat, load: VE.FileMeta -> File) {
    forall i, p :: 0 <= i < |edits| && p in M.FileEditOf(edits[i], load).added ==> p.1.number < nextFile
  }

  /** A file was added to no level below the one where it is. */
  ghost predicate AddedAbove(edits: seq<VE.VersionEdit>, levels: seq<seq<File>>, load: VE.FileMeta -> File) {
    forall i, p, l, f :: 0 <= i < |edits| && p in M.FileEditOf(edits[i], load).added && 0 <= l < |levels| && f in levels[l] && p.1.number == f.number ==>
      p.0 <= l
  }

  /** A new number, or a file from the level above. */
  ghost predicate NewOrMoved(levels: seq<seq<File>>, nextFile: nat, l: nat, f: File) {
    nextFile <= f.number || (0 < l <= |levels| && f in levels[l - 1])
  }

  /** The files that a step adds have new numbers, but for a trivial move. */
  lemma StepAdds(sys: System, step: Step, sys': System)
    requires Inv(sys) && Next(sys, step, sys') && IsLogged(step)
    ensures EditOk(FilesOf(step)) && AddsFreshNumbers(sys.db.levels, FilesOf(step))
    ensures forall p :: p in FilesOf(step).added ==>
              p.1.number < sys'.db.nextFile && NewOrMoved(sys.db.levels, sys.db.nextFile, p.0, p.1)
  {
    hide TablesOk, AllRight, AllRecorded, Ordered, Installed, IsCompaction, EditOk, AddsFreshNumbers, Compacted, NumbersOk, OutputNumbersOk,
         ReplaceEdit, LevelsSet, LevelSet, SafeFlushLevel, FileOk, Level0Ok, InsertBatch;
    var levels := sys.db.levels;
    VersionLevelsOk(levels);
    match step
    case FlushStep(level, f) =>
      FlushEditOk(levels, level, f, sys.db.nextFile);
    case MoveStep(c) =>
      MoveFits(levels, c, sys.db.nextFile);
      CompactionMembers(levels, c);
      ReplaceEditOk(levels, c, c.inputs0);
      ReplaceAdds(c, c.inputs0);
    case CompactStep(c, outputs, next) =>
      OutputsAreNew(sys, c, outputs, next, sys');
      CompactionMembers(levels, c);
      ReplaceEditOk(levels, c, outputs);
      ReplaceAdds(c, outputs);
    case DiscardStep =>
      NothingAdded(levels);
  }

  lemma NothingAdded(levels: seq<seq<File>>)
    ensures EditOk(FileEdit({}, [])) && AddsFreshNumbers(levels, FileEdit({}, []))
  {
  }

  lemma ReplaceAdds(c: Compaction, outputs: seq<File>)
    ensures forall p :: p in ReplaceEdit(c, outputs).added ==> p.0 == c.level + 1 && p.1 in outputs
  {
  }

  lemma OutputsAreNew(sys: System, c: Compaction, outputs: seq<File>, next: nat, sys': System)
    requires Inv(sys) && Next(sys, CompactStep(c, outputs, next), sys')
    ensures OutputNumbersOk(sys.db.levels, c, outputs)
    ensures forall f :: f in outputs ==> sys.db.nextFile <= f.number < sys'.db.nextFile
  {
    hide TablesOk, AllRight, AllRecorded, Ordered, Installed, IsCompaction, NumbersOk, OutputNumbersOk, IsInputMerge, Flat, Kept;
    FreshNumbersOk(sys.db.levels, c, outputs, sys.db.nextFile, next);
  }

  /** So no edit adds a number to a level again. */
  lemma NotAddedAgain(edits: seq<VE.VersionEdit>, e: VE.VersionEdit, levels: seq<seq<File>>, nextFile: nat, load: VE.FileMeta -> File)
    requires AddedBelow(edits, nextFile, load) && AddedAbove(edits, levels, load)
    requires forall p :: p in M.FileEditOf(e, load).added ==> NewOrMoved(levels, nextFile, p.0, p.1)
    ensures M.NotAddedBefore(edits, e, load)
  {
    hide M.FileEditOf;
    forall i, q | 0 <= i < |edits| && q in M.FileEditOf(edits[i], load).added
      ensures q.1.number !in AddedNumbers(M.FileEditOf(e, load).added, q.0)
    {
      forall p | p in M.FileEditOf(e, load).added && p.0 == q.0
        ensures p.1.number != q.1.number
      {
        assert NewOrMoved(levels, nextFile, p.0, p.1);
      }
    }
  }

  lemma AddedBelowStill(edits: seq<VE.VersionEdit>, e: VE.VersionEdit, nextFile: nat, nextFile': nat, load: VE.FileMeta -> File)
    requires AddedBelow(edits, nextFile, load) && nextFile <= nextFile'
    requires forall p :: p in M.FileEditOf(e, load).added ==> p.1.number < nextFile'
    ensures AddedBelow(edits + [e], nextFile', load) && AddedBelow(edits, nextFile', load)
  {
    hide M.FileEditOf;
  }

  /** Files stay where they are or go one level down. */
  lemma OldAddedAbove(edits: seq<VE.VersionEdit>, edit: FileEdit, levels: seq<seq<File>>, nextFile: nat, levels': seq<seq<File>>,
                      load: VE.FileMeta -> File)
    requires AddedBelow(edits, nextFile, load) && AddedAbove(edits, levels, load) && Installed(levels, edit, levels')
    requires forall p :: p in edit.added ==> NewOrMoved(levels, nextFile, p.0, p.1)
    ensures AddedAbove(edits, levels', load)
  {
    hide M.FileEditOf, Gone, Ordered;
    forall i, p, l, f | 0 <= i < |edits| && p in M.FileEditOf(edits[i], load).added && 0 <= l < |levels'| && f in levels'[l] &&
                        p.1.number == f.number
      ensures p.0 <= l
    {
      assert LevelInstalled(levels[l], edit, l, levels'[l]);
      if (l, f) in edit.added {
        assert NewOrMoved(levels, nextFile, l, f);
      }
    }
  }

  /** A file is at the level to which it was just added. */
  lemma NewAddedAbove(edit: FileEdit, levels: seq<seq<File>>, levels': seq<seq<File>>, nextFile: nat, p: (nat, File), l: nat, f: File)
    requires Installed(levels, edit, levels') && NumbersOk(levels', nextFile)
    requires p in edit.added && p.0 < |levels| && l < |levels| && f in levels'[l] && p.1.number == f.number
    ensures p.0 == l
  {
    hide Gone, Ordered;
    assert LevelInstalled(levels[p.0], edit, p.0, levels'[p.0]);
    assert (p.0, p.1) in edit.added;
    assert p.1 in levels'[p.0];
  }

  lemma AddedAboveStill(edits: seq<VE.VersionEdit>, e: VE.VersionEdit, levels: seq<seq<File>>, nextFile: nat, levels': seq<seq<File>>,
                        nextFile': nat, load: VE.FileMeta -> File)
    requires AddedBelow(edits, nextFile, load) && AddedAbove(edits, levels, load)
    requires forall p :: p in M.FileEditOf(e, load).added ==> p.0 < |levels| && NewOrMoved(levels, nextFile, p.0, p.1)
    requires Installed(levels, M.FileEditOf(e, load), levels') && NumbersOk(levels', nextFile')
    ensures AddedAbove(edits + [e], levels', load)
  {
    hide M.FileEditOf, LevelInstalled, NumbersOk, NewOrMoved;
    OldAddedAbove(edits, M.FileEditOf(e, load), levels, nextFile, levels', load);
    forall i, p, l, f | 0 <= i < |edits + [e]| && p in M.FileEditOf((edits + [e])[i], load).added && 0 <= l < |levels'| && f in levels'[l] &&
                        p.1.number == f.number
      ensures p.0 <= l
    {
      if i == |edits| {
        NewAddedAbove(M.FileEditOf(e, load), levels, levels', nextFile', p, l, f);
      }
    }
  }

  lemma DescribedAbove(levels: seq<seq<File>>, n: nat, n': nat, load: VE.FileMeta -> File, describe: File -> VE.FileMeta)
    requires M.LevelsDescribed(levels, n, load, describe) && n <= n'
    ensures M.LevelsDescribed(levels, n', load, describe)
  {
    hide Ordered, VE.MetaFits, M.NumbersDistinct;
  }
}
