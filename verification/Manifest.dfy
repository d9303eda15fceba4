/** The descriptor log (db/version_set.cc: LogAndApply, WriteSnapshot, Recover): replaying what is left of it
    in one batch gives the version that the surviving edits gave one at a time. */
module Manifest {
  import opened Coding
  import opened Wrappers
  import opened Version
  import opened VersionBuilder
  import Log
  import LogRoundTrip
  import VE = VersionEdit


  function Loaded(added: seq<(nat, VE.FileMeta)>, load: VE.FileMeta -> File): (r: seq<(nat, File)>)
    ensures |r| == |added| && forall i :: 0 <= i < |r| ==> r[i] == (added[i].0, load(added[i].1))
  {
    if added == [] then [] else [(added[0].0, load(added[0].1))] + Loaded(added[1..], load)
  }

  /** The file changes of an edit; `load` finds the table that file metadata describes. */
  function FileEditOf(e: VE.VersionEdit, load: VE.FileMeta -> File): FileEdit {
    FileEdit((set p | p in e.deleted), Loaded(e.added, load))
  }

  function FileEdits(edits: seq<VE.VersionEdit>, load: VE.FileMeta -> File): (r: seq<FileEdit>)
    ensures |r| == |edits| && forall i :: 0 <= i < |r| ==> r[i] == FileEditOf(edits[i], load)
  {
    seq(|edits|, i requires 0 <= i < |edits| => FileEditOf(edits[i], load))
  }

  function Encoded(e: VE.VersionEdit): Bytes {
    VE.EncodeFields(VE.Fields(e))
  }

  function Records(edits: seq<VE.VersionEdit>): (r: seq<Bytes>)
    ensures |r| == |edits| && forall i :: 0 <= i < |r| ==> r[i] == Encoded(edits[i])
  {
    seq(|edits|, i requires 0 <= i < |edits| => Encoded(edits[i]))
  }

  const NO_FILES: seq<seq<File>> := [[], [], [], [], [], [], []]

  /** The numbers that an edit may carry. */
  datatype Number = Log | PrevLog | NextFile | Sequence

  function NumberIn(e: VE.VersionEdit, number: Number): Option<nat> {
    match number
    case Log => e.logNumber
    case PrevLog => e.prevLogNumber
    case NextFile => e.nextFile
    case Sequence => e.lastSequence
  }

  /** The last value that a list of edits gives to one of the numbers. */
  function LastOf(edits: seq<VE.VersionEdit>, number: Number): Option<nat> {
    if edits == [] then None
    else if NumberIn(edits[|edits| - 1], number).Some? then NumberIn(edits[|edits| - 1], number)
    else LastOf(edits[..|edits| - 1], number)
  }

  /** compact_pointer_: where the next compaction of each level starts, an encoded key or nothing. */
  const NO_POINTERS: seq<Bytes> := [[], [], [], [], [], [], []]

  function WithPointers(pointers: seq<Bytes>, changes: seq<(nat, Bytes)>): (r: seq<Bytes>)
    ensures |r| == |pointers|
  {
    if changes == [] then pointers else
      var last := changes[|changes| - 1];
      var front := WithPointers(pointers, changes[..|changes| - 1]);
      if last.0 < |pointers| then front[last.0 := last.1] else front
  }

  /** The compaction pointers after a list of edits. */
  function PointersOf(edits: seq<VE.VersionEdit>): (r: seq<Bytes>)
    ensures |r| == NUM_LEVELS
  {
    if edits == [] then NO_POINTERS
    else WithPointers(PointersOf(edits[..|edits| - 1]), edits[|edits| - 1].compactPointers)
  }

  /** The last change to a level's pointer. */
  function LastChange(changes: seq<(nat, Bytes)>, l: nat): Option<Bytes> {
    if changes == [] then None
    else if changes[|changes| - 1].0 == l then Some(changes[|changes| - 1].1)
    else LastChange(changes[..|changes| - 1], l)
  }

  lemma {:induction false} PointerAt(pointers: seq<Bytes>, changes: seq<(nat, Bytes)>, l: nat)
    requires l < |pointers|
    ensures WithPointers(pointers, changes)[l] == if LastChange(changes, l).Some? then LastChange(changes, l).value else pointers[l]
  {
    if changes != [] {
      PointerAt(pointers, changes[..|changes| - 1], l);
    }
  }

  /** Applying the same changes once more changes nothing. */
  lemma PointersTwice(pointers: seq<Bytes>, changes: seq<(nat, Bytes)>)
    ensures WithPointers(WithPointers(pointers, changes), changes) == WithPointers(pointers, changes)
  {
    hide WithPointers, LastChange;
    var once := WithPointers(pointers, changes);
    forall l | 0 <= l < |pointers|
      ensures WithPointers(once, changes)[l] == once[l]
    {
      PointerAt(pointers, changes, l);
      PointerAt(once, changes, l);
    }
  }

  /** The pointers that WriteSnapshot saves for the first `n` levels: those that are set. */
  function SnapshotPointers(pointers: seq<Bytes>, n: nat): (r: seq<(nat, Bytes)>)
    requires n <= |pointers|
    ensures forall i :: 0 <= i < |r| ==> r[i].0 < n && r[i].1 == pointers[r[i].0]
  {
    if n == 0 then [] else SnapshotPointers(pointers, n - 1) + if pointers[n - 1] == [] then [] else [(n - 1, pointers[n - 1])]
  }

  lemma NoChange(l: nat)
    ensures LastChange([], l) == None
  {
  }

  lemma LastChangeSnoc(changes: seq<(nat, Bytes)>, c: (nat, Bytes), l: nat)
    ensures LastChange(changes + [c], l) == if c.0 == l then Some(c.1) else LastChange(changes, l)
  {
    assert (changes + [c])[..|changes|] == changes;
  }

  lemma {:induction false} SnapshotHas(pointers: seq<Bytes>, n: nat, l: nat)
    requires n <= |pointers|
    ensures LastChange(SnapshotPointers(pointers, n), l) == if l < n && pointers[l] != [] then Some(pointers[l]) else None
  {
    hide LastChange;
    if n == 0 {
      NoChange(l);
    } else {
      SnapshotHas(pointers, n - 1, l);
      var front := SnapshotPointers(pointers, n - 1);
      LastChangeSnoc(front, (n - 1, pointers[n - 1]), l);
      assert front + [] == front;
    }
  }

  lemma SnapshotRestores(pointers: seq<Bytes>)
    requires |pointers| == NUM_LEVELS
    ensures WithPointers(NO_POINTERS, SnapshotPointers(pointers, NUM_LEVELS)) == pointers
  {
    hide WithPointers, SnapshotPointers, LastChange;
    var changes := SnapshotPointers(pointers, NUM_LEVELS);
    forall l | 0 <= l < NUM_LEVELS
      ensures WithPointers(NO_POINTERS, changes)[l] == pointers[l]
    {
      SnapshotHas(pointers, NUM_LEVELS, l);
      PointerAt(NO_POINTERS, changes, l);
      assert NO_POINTERS[l] == [];
    }
  }

  lemma SnapshotKeepsPointers(levels: seq<seq<File>>, pointers: seq<Bytes>, comparator: Bytes, describe: File -> VE.FileMeta)
    requires |pointers| == NUM_LEVELS
    ensures PointersOf([SnapshotEdit(levels, pointers, comparator, describe)]) == pointers
  {
    hide SnapshotFiles, WithPointers;
    var e := SnapshotEdit(levels, pointers, comparator, describe);
    SnapshotRestores(pointers);
    assert [e][..0] == [];
    assert PointersOf([e]) == WithPointers(NO_POINTERS, e.compactPointers);
  }

  ghost predicate Readable(e: VE.VersionEdit, comparator: Bytes) {
    VE.EditFits(e) && (e.comparator.Some? ==> e.comparator.value == comparator)
  }

  /** The edits of a descriptor log and the versions that they produced one after the other. */
  ghost predicate Chain(edits: seq<VE.VersionEdit>, versions: seq<seq<seq<File>>>, comparator: Bytes, load: VE.FileMeta -> File) {
    && (forall i :: 0 <= i < |edits| ==>
          Readable(edits[i], comparator) && EditOk(FileEditOf(edits[i], load)))
    && InstalledInTurn(versions, FileEdits(edits, load)) && versions[0] == NO_FILES
    && NumbersAddedOnce(NO_FILES, FileEdits(edits, load))
  }

  datatype Recovered =
    | Ok(levels: seq<seq<File>>, compactPointers: seq<Bytes>, manifestFile: nat, nextFile: nat, lastSequence: nat, logNumber: nat, prevLogNumber: nat)
    | Corruption(msg: string)
    | InvalidArgument

  /** What recovery must find from the edits that survived. */
  ghost predicate IsRecovered(r: Recovered, edits: seq<VE.VersionEdit>, levels: seq<seq<File>>) {
    var next, log, last, prev := LastOf(edits, NextFile), LastOf(edits, Number.Log), LastOf(edits, Sequence), LastOf(edits, PrevLog);
    if next.None? then r == Corruption("no meta-nextfile entry in descriptor")
    else if log.None? then r == Corruption("no meta-lognumber entry in descriptor")
    else if last.None? then r == Corruption("no last-sequence-number entry in descriptor")
    else r == Ok(levels, PointersOf(edits), next.value, next.value + 1, last.value, log.value, if prev.Some? then prev.value else 0)
  }

  datatype Scan = Edits(edits: seq<VE.VersionEdit>) | Failed(error: Recovered)

  /** One record after the edits so far: one more edit, or the error that ends the scan. */
  function ScanRecord(edits: seq<VE.VersionEdit>, record: Bytes, comparator: Bytes): (r: Scan)
    ensures r.Failed? ==> !r.error.Ok?
  {
    match VE.Decode(record, VE.EMPTY)
    case Corruption(msg) => Failed(Corruption(msg))
    case Ok(e) => if e.comparator.Some? && e.comparator.value != comparator then Failed(InvalidArgument) else Edits(edits + [e])
  }

  /** Recover's loop from position `p` of the file on: a report and a bad record end it, whichever comes first. */
  function ScanFrom(file: Bytes, p: nat, scan: Scan, comparator: Bytes): (r: Scan)
    requires p <= |file| && (scan.Failed? ==> !scan.error.Ok?)
    ensures r.Failed? ==> !r.error.Ok?
    decreases |file| - p
  {
    var r := Log.ReadFrom(file, p, true, [], false);
    var scan1 := if scan.Edits? && r.drops != [] then Failed(Corruption(r.drops[0].reason)) else scan;
    if r.record.None? || scan1.Failed? then scan1
    else ScanFrom(file, r.next, ScanRecord(scan1.edits, r.record.value, comparator), comparator)
  }

  function ScanOf(file: Bytes, comparator: Bytes): (r: Scan)
    ensures r.Failed? ==> !r.error.Ok?
  {
    ScanFrom(file, 0, Edits([]), comparator)
  }

  method ScanDescriptor(file: Bytes, comparator: Bytes) returns (scan: Scan)
    ensures scan == ScanOf(file, comparator)
  {
    hide Log.ReadFrom, ScanRecord, VE.Decode;
    var reader := new Log.Reader(file, true);
    scan := Edits([]);
    while true
      invariant reader.Valid() && reader.file == file && reader.checksum && fresh(reader)
      invariant scan.Failed? ==> !scan.error.Ok?
      invariant ScanFrom(file, 0, Edits([]), comparator) == ScanFrom(file, reader.Position(), scan, comparator)
      decreases |file| - reader.Position()
    {
      var reports := |reader.reported|;
      var record := reader.ReadRecord();
      if scan.Edits? && |reader.reported| > reports {
        scan := Failed(Corruption(reader.reported[reports].reason));
      }
      if record.None? || scan.Failed? {
        return;
      }
      scan := DecodeRecord(scan.edits, record.value, comparator);
    }
  }

  method DecodeRecord(edits: seq<VE.VersionEdit>, record: Bytes, comparator: Bytes) returns (scan: Scan)
    ensures scan == ScanRecord(edits, record, comparator)
  {
    hide VE.Decode;
    var decoded := VE.DecodeFrom(record);
    match decoded {
      case Corruption(msg) =>
        return Failed(Corruption(msg));
      case Ok(e) =>
        return if e.comparator.Some? && e.comparator.value != comparator then Failed(InvalidArgument) else Edits(edits + [e]);
    }
  }

  method LastNumber(edits: seq<VE.VersionEdit>, number: Number) returns (last: Option<nat>)
    ensures last == LastOf(edits, number)
  {
    last := None;
    for i := 0 to |edits|
      invariant last == LastOf(edits[..i], number)
    {
      assert edits[..i + 1][..i] == edits[..i];
      if NumberIn(edits[i], number).Some? {
        last := NumberIn(edits[i], number);
      }
    }
    assert edits[..|edits|] == edits;
  }

  method LastPointers(edits: seq<VE.VersionEdit>) returns (pointers: seq<Bytes>)
    ensures pointers == PointersOf(edits)
  {
    pointers := NO_POINTERS;
    for i := 0 to |edits|
      invariant pointers == PointersOf(edits[..i])
    {
      assert edits[..i + 1][..i] == edits[..i];
      pointers := ApplyPointers(pointers, edits[i].compactPointers);
    }
    assert edits[..|edits|] == edits;
  }

  /** Apply, the compaction pointers. */
  method ApplyPointers(pointers: seq<Bytes>, changes: seq<(nat, Bytes)>) returns (r: seq<Bytes>)
    ensures r == WithPointers(pointers, changes)
  {
    r := pointers;
    for i := 0 to |changes|
      invariant r == WithPointers(pointers, changes[..i])
    {
      assert changes[..i + 1][..i] == changes[..i];
      if changes[i].0 < |r| {
        r := r[changes[i].0 := changes[i].1];
      }
    }
    assert changes[..|changes|] == changes;
  }

  /** Recover: all edits go through one builder, and the last numbers win. */
  method Recover(file: Bytes, comparator: Bytes, load: VE.FileMeta -> File, ghost versions: seq<seq<seq<File>>>) returns (r: Recovered)
    requires ScanOf(file, comparator).Edits? ==> Chain(ScanOf(file, comparator).edits, versions, comparator, load)
    ensures var scan := ScanOf(file, comparator);
            if scan.Failed? then r == scan.error
            else |versions| == |scan.edits| + 1 && IsRecovered(r, scan.edits, versions[|scan.edits|])
  {
    hide ScanOf, Readable, EditOk, NumbersAddedOnce, LastOf, PointersOf;
    var scan := ScanDescriptor(file, comparator);
    if scan.Failed? {
      return scan.error;
    }
    var edits := scan.edits;
    var next := LastNumber(edits, NextFile);
    var log := LastNumber(edits, Number.Log);
    var last := LastNumber(edits, Sequence);
    var prev := LastNumber(edits, PrevLog);
    if next.None? {
      return Corruption("no meta-nextfile entry in descriptor");
    } else if log.None? {
      return Corruption("no meta-lognumber entry in descriptor");
    } else if last.None? {
      return Corruption("no last-sequence-number entry in descriptor");
    }
    var fileEdits := FileEdits(edits, load);
    var levels := ReplayEdits(NO_FILES, fileEdits, versions);
    var pointers := LastPointers(edits);
    return Ok(levels, pointers, next.value, next.value + 1, last.value, log.value, if prev.Some? then prev.value else 0);
  }

  lemma ReadableDecodes(e: VE.VersionEdit, comparator: Bytes)
    requires Readable(e, comparator)
    ensures VE.Decode(Encoded(e), VE.EMPTY) == VE.Ok(e)
  {
    hide VE.EditFits, VE.Decode, VE.EncodeFields, VE.Fields;
    VE.EditRoundTrip(e);
  }

  lemma ReadOne(file: Bytes, p: nat, records: seq<Bytes>)
    requires p <= |file| && Log.ReadAll(file, p, true) == (records, [])
    ensures var r := Log.ReadFrom(file, p, true, [], false);
            && r.drops == [] && (r.record.None? <==> records == [])
            && (records != [] ==> r.record.value == records[0] && Log.ReadAll(file, r.next, true) == (records[1..], []))
  {
    hide Log.ReadFrom;
    var r := Log.ReadFrom(file, p, true, [], false);
    if r.record.Some? {
      var rest := Log.ReadAll(file, r.next, true);
      assert ([r.record.value] + rest.0)[1..] == rest.0;
    }
  }

  lemma EditScans(found: seq<VE.VersionEdit>, e: VE.VersionEdit, comparator: Bytes)
    requires Readable(e, comparator)
    ensures ScanRecord(found, Encoded(e), comparator) == Edits(found + [e])
  {
    hide VE.Decode, Encoded, VE.EditFits;
    ReadableDecodes(e, comparator);
  }

  /** Without reports, the scan finds the edits that the records encode. */
  lemma {:induction false} ScanFindsEdits(file: Bytes, p: nat, found: seq<VE.VersionEdit>, edits: seq<VE.VersionEdit>, comparator: Bytes)
    requires p <= |file| && Log.ReadAll(file, p, true) == (Records(edits), [])
    requires forall i :: 0 <= i < |edits| ==> Readable(edits[i], comparator)
    ensures ScanFrom(file, p, Edits(found), comparator) == Edits(found + edits)
    decreases |edits|
  {
    hide Log.ReadFrom, Log.ReadAll, ScanRecord, Encoded, Readable;
    var r := Log.ReadFrom(file, p, true, [], false);
    ReadOne(file, p, Records(edits));
    if edits == [] {
      assert found + edits == found;
    } else {
      assert Records(edits)[1..] == Records(edits[1..]);
      EditScans(found, edits[0], comparator);
      ScanFindsEdits(file, r.next, found + [edits[0]], edits[1..], comparator);
      assert found + [edits[0]] + edits[1..] == found + edits;
    }
  }

  /** However the descriptor log was cut off, the edits that survived are read back. */
  lemma TornDescriptorScans(edits: seq<VE.VersionEdit>, versions: seq<seq<seq<File>>>, comparator: Bytes, load: VE.FileMeta -> File, t: nat)
    requires Chain(edits, versions, comparator, load) && t <= |Log.Written(Records(edits))|
    ensures var k := LogRoundTrip.Survived(Records(edits), t);
            && ScanOf(Log.Written(Records(edits))[..t], comparator) == Edits(edits[..k])
            && |versions| == |edits| + 1 && Chain(edits[..k], versions[..k + 1], comparator, load)
    ensures t == |Log.Written(Records(edits))| ==> LogRoundTrip.Survived(Records(edits), t) == |edits|
  {
    hide *;
    var records := Records(edits);
    var k := LogRoundTrip.Survived(records, t);
    LogRoundTrip.TornLogReadsBack(records, t, true);
    RecordsPrefix(edits, k);
    ChainPrefix(edits, versions, comparator, load, k);
    ChainReadable(edits[..k], versions[..k + 1], comparator, load);
    ScanFindsEdits(Log.Written(records)[..t], 0, [], edits[..k], comparator);
    StartOfScan(Log.Written(records)[..t], comparator);
    assert [] + edits[..k] == edits[..k];
  }

  lemma StartOfScan(file: Bytes, comparator: Bytes)
    ensures ScanOf(file, comparator) == ScanFrom(file, 0, Edits([]), comparator)
  {
    hide ScanFrom;
  }

  lemma RecordsPrefix(edits: seq<VE.VersionEdit>, k: nat)
    requires k <= |edits|
    ensures Records(edits)[..k] == Records(edits[..k])
  {
    hide Encoded;
  }

  lemma ChainReadable(edits: seq<VE.VersionEdit>, versions: seq<seq<seq<File>>>, comparator: Bytes, load: VE.FileMeta -> File)
    requires Chain(edits, versions, comparator, load)
    ensures forall i :: 0 <= i < |edits| ==> Readable(edits[i], comparator)
  {
    hide Readable, EditOk;
  }

  lemma ChainPrefix(edits: seq<VE.VersionEdit>, versions: seq<seq<seq<File>>>, comparator: Bytes, load: VE.FileMeta -> File, k: nat)
    requires Chain(edits, versions, comparator, load) && k <= |edits|
    ensures |versions| == |edits| + 1 && Chain(edits[..k], versions[..k + 1], comparator, load)
  {
    hide Readable, EditOk, Installed, AddedNumbers;
    assert FileEdits(edits[..k], load) == FileEdits(edits, load)[..k];
  }

  /** No two files of a level carry the same number. */
  ghost predicate NumbersDistinct(levels: seq<seq<File>>) {
    forall l, f, g :: 0 <= l < |levels| && f in levels[l] && g in levels[l] && f.number == g.number ==> f == g
  }

  /** The (level, file) pairs that WriteSnapshot adds for the first `n` levels. */
  function SnapshotFiles(levels: seq<seq<File>>, n: nat, describe: File -> VE.FileMeta): seq<(nat, VE.FileMeta)>
    requires n <= |levels|
  {
    if n == 0 then [] else SnapshotFiles(levels, n - 1, describe) + LevelFiles(levels[n - 1], n - 1, describe)
  }

  function LevelFiles(files: seq<File>, l: nat, describe: File -> VE.FileMeta): (r: seq<(nat, VE.FileMeta)>)
    ensures |r| == |files| && forall i :: 0 <= i < |r| ==> r[i] == (l, describe(files[i]))
  {
    if files == [] then [] else [(l, describe(files[0]))] + LevelFiles(files[1..], l, describe)
  }

  function SnapshotEdit(levels: seq<seq<File>>, pointers: seq<Bytes>, comparator: Bytes, describe: File -> VE.FileMeta): VE.VersionEdit
    requires |pointers| == NUM_LEVELS
  {
    VE.EMPTY.(comparator := Some(comparator), compactPointers := SnapshotPointers(pointers, NUM_LEVELS),
              added := SnapshotFiles(levels, |levels|, describe))
  }

  /** File metadata and tables correspond for the files of the levels. */
  ghost predicate Described(levels: seq<seq<File>>, nextFile: nat, load: VE.FileMeta -> File, describe: File -> VE.FileMeta) {
    forall l, f :: 0 <= l < |levels| && f in levels[l] ==>
      load(describe(f)) == f && f.number < nextFile && VE.MetaFits(describe(f))
  }

  lemma {:induction false} SnapshotFilesAre(levels: seq<seq<File>>, n: nat, load: VE.FileMeta -> File, describe: File -> VE.FileMeta, nextFile: nat)
    requires n <= |levels| && Described(levels, nextFile, load, describe)
    ensures forall l: nat, f :: (l, f) in Loaded(SnapshotFiles(levels, n, describe), load) <==> l < n && f in levels[l]
    ensures forall i :: 0 <= i < |SnapshotFiles(levels, n, describe)| ==>
              SnapshotFiles(levels, n, describe)[i].0 < n && VE.MetaFits(SnapshotFiles(levels, n, describe)[i].1)
  {
    hide Described, Loaded, LevelFiles, VE.MetaFits;
    if n > 0 {
      SnapshotFilesAre(levels, n - 1, load, describe, nextFile);
      LevelFilesAre(levels, n - 1, load, describe, nextFile);
      LoadedAppend(SnapshotFiles(levels, n - 1, describe), LevelFiles(levels[n - 1], n - 1, describe), load);
    } else {
      NothingLoaded(load);
    }
  }

  lemma NothingLoaded(load: VE.FileMeta -> File)
    ensures Loaded([], load) == []
  {
  }

  lemma LevelFilesAre(levels: seq<seq<File>>, n: nat, load: VE.FileMeta -> File, describe: File -> VE.FileMeta, nextFile: nat)
    requires n < |levels| && Described(levels, nextFile, load, describe)
    ensures var last := LevelFiles(levels[n], n, describe);
            && (forall i :: 0 <= i < |last| ==> last[i].0 == n && VE.MetaFits(last[i].1) && Loaded(last, load)[i] == (n, levels[n][i]))
            && (forall l: nat, f :: (l, f) in Loaded(last, load) <==> l == n && f in levels[n])
  {
    var last := LevelFiles(levels[n], n, describe);
    forall i | 0 <= i < |last|
      ensures Loaded(last, load)[i] == (n, levels[n][i]) && VE.MetaFits(last[i].1)
    {
      assert levels[n][i] in levels[n];
    }
    forall l: nat, f
      ensures (l, f) in Loaded(last, load) <==> l == n && f in levels[n]
    {
      if l == n && f in levels[n] {
        var i :| 0 <= i < |levels[n]| && levels[n][i] == f;
        assert Loaded(last, load)[i] == (l, f);
      }
    }
  }

  lemma LoadedAppend(a: seq<(nat, VE.FileMeta)>, b: seq<(nat, VE.FileMeta)>, load: VE.FileMeta -> File)
    ensures Loaded(a + b, load) == Loaded(a, load) + Loaded(b, load)
  {
  }

  lemma LoadedLevels(added: seq<(nat, VE.FileMeta)>, load: VE.FileMeta -> File)
    ensures |Loaded(added, load)| == |added| && forall i :: 0 <= i < |added| ==> Loaded(added, load)[i].0 == added[i].0
  {
  }

  ghost predicate NumbersApart(added: seq<(nat, File)>) {
    forall i, j :: 0 <= i < j < |added| && added[i].0 == added[j].0 ==> added[i].1.number != added[j].1.number
  }

  lemma ApartAppend(a: seq<(nat, File)>, b: seq<(nat, File)>, n: nat)
    requires NumbersApart(a) && NumbersApart(b)
    requires (forall i :: 0 <= i < |a| ==> a[i].0 < n) && forall i :: 0 <= i < |b| ==> b[i].0 == n
    ensures NumbersApart(a + b)
  {
    var c := a + b;
    forall i, j | 0 <= i < j < |c| && c[i].0 == c[j].0
      ensures c[i].1.number != c[j].1.number
    {
      if j < |a| {
      } else {
        assert c[j] == b[j - |a|];
        assert i >= |a|;
        assert c[i] == b[i - |a|];
      }
    }
  }

  lemma {:induction false} SnapshotLevels(levels: seq<seq<File>>, n: nat, describe: File -> VE.FileMeta)
    requires n <= |levels|
    ensures forall i :: 0 <= i < |SnapshotFiles(levels, n, describe)| ==> SnapshotFiles(levels, n, describe)[i].0 < n
  {
    if n > 0 {
      SnapshotLevels(levels, n - 1, describe);
    }
  }

  /** No number is added twice to one level by a snapshot. */
  lemma {:induction false} SnapshotNumbers(levels: seq<seq<File>>, n: nat, load: VE.FileMeta -> File, describe: File -> VE.FileMeta, nextFile: nat)
    requires n <= |levels| && Described(levels, nextFile, load, describe) && NumbersDistinct(levels)
    requires forall l :: 0 <= l < |levels| ==> Ordered(levels[l])
    ensures NumbersApart(Loaded(SnapshotFiles(levels, n, describe), load))
  {
    hide *;
    if n == 0 {
      NoSnapshotFiles(levels, load, describe);
    } else {
      SnapshotNumbers(levels, n - 1, load, describe, nextFile);
      SnapshotLevels(levels, n - 1, describe);
      var front, last := SnapshotFiles(levels, n - 1, describe), LevelFiles(levels[n - 1], n - 1, describe);
      SnapshotStep(levels, n, describe);
      LoadedAppend(front, last, load);
      LevelNumbers(levels, n - 1, load, describe, nextFile);
      LoadedLevels(front, load);
      ApartAppend(Loaded(front, load), Loaded(last, load), n - 1);
    }
  }

  lemma NoSnapshotFiles(levels: seq<seq<File>>, load: VE.FileMeta -> File, describe: File -> VE.FileMeta)
    ensures NumbersApart(Loaded(SnapshotFiles(levels, 0, describe), load))
  {
  }

  lemma SnapshotStep(levels: seq<seq<File>>, n: nat, describe: File -> VE.FileMeta)
    requires 0 < n <= |levels|
    ensures SnapshotFiles(levels, n, describe) == SnapshotFiles(levels, n - 1, describe) + LevelFiles(levels[n - 1], n - 1, describe)
  {
  }

  lemma LevelNumbers(levels: seq<seq<File>>, l: nat, load: VE.FileMeta -> File, describe: File -> VE.FileMeta, nextFile: nat)
    requires l < |levels| && Described(levels, nextFile, load, describe) && NumbersDistinct(levels) && Ordered(levels[l])
    ensures var last := Loaded(LevelFiles(levels[l], l, describe), load);
            && |last| == |levels[l]|
            && (forall i :: 0 <= i < |last| ==> last[i].0 == l)
            && NumbersApart(last)
  {
    hide Described;
    var files := levels[l];
    var last := Loaded(LevelFiles(files, l, describe), load);
    LevelFilesAre(levels, l, load, describe, nextFile);
    forall i, j | 0 <= i < j < |last|
      ensures files[i].number != files[j].number
    {
      assert ByKey(files[i], files[j]);
      assert files[i] in files && files[j] in files;
    }
  }

  /** A version with distinct numbers, and the snapshot record that describes it. */
  ghost predicate LevelsDescribed(levels: seq<seq<File>>, nextFile: nat, load: VE.FileMeta -> File, describe: File -> VE.FileMeta) {
    && |levels| == NUM_LEVELS && (forall l :: 0 <= l < NUM_LEVELS ==> Ordered(levels[l]))
    && NumbersDistinct(levels) && Described(levels, nextFile, load, describe)
  }

  predicate PointersFit(pointers: seq<Bytes>) {
    |pointers| == NUM_LEVELS && forall l :: 0 <= l < |pointers| ==> |pointers[l]| < U32
  }

  lemma {:induction false} ChangedPointersFit(pointers: seq<Bytes>, changes: seq<(nat, Bytes)>)
    requires PointersFit(pointers) && forall i :: 0 <= i < |changes| ==> |changes[i].1| < U32
    ensures PointersFit(WithPointers(pointers, changes))
  {
    if changes != [] {
      ChangedPointersFit(pointers, changes[..|changes| - 1]);
    }
  }

  /** The snapshot record is a descriptor log of the version that it describes. */
  lemma SnapshotIsChain(levels: seq<seq<File>>, pointers: seq<Bytes>, nextFile: nat, comparator: Bytes, load: VE.FileMeta -> File, describe: File -> VE.FileMeta)
    requires LevelsDescribed(levels, nextFile, load, describe) && |comparator| < U32 && PointersFit(pointers)
    ensures Chain([SnapshotEdit(levels, pointers, comparator, describe)], [NO_FILES, levels], comparator, load)
  {
    hide Readable, EditOk, Installed, LevelsDescribed, FileEditOf, SnapshotEdit;
    var e := SnapshotEdit(levels, pointers, comparator, describe);
    SnapshotReadable(levels, pointers, nextFile, comparator, load, describe);
    SnapshotInstalled(levels, pointers, nextFile, comparator, load, describe);
    OneEditAddsOnce(FileEditOf(e, load));
    assert FileEdits([e], load) == [FileEditOf(e, load)];
  }

  lemma OneEditAddsOnce(edit: FileEdit)
    ensures NumbersAddedOnce(NO_FILES, [edit])
  {
  }

  lemma SnapshotReadable(levels: seq<seq<File>>, pointers: seq<Bytes>, nextFile: nat, comparator: Bytes, load: VE.FileMeta -> File, describe: File -> VE.FileMeta)
    requires LevelsDescribed(levels, nextFile, load, describe) && |comparator| < U32 && PointersFit(pointers)
    ensures Readable(SnapshotEdit(levels, pointers, comparator, describe), comparator)
  {
    hide Ordered, Described, NumbersDistinct, SnapshotFiles, VE.MetaFits;
    SnapshotFilesAre(levels, |levels|, load, describe, nextFile);
  }

  lemma SnapshotInstalled(levels: seq<seq<File>>, pointers: seq<Bytes>, nextFile: nat, comparator: Bytes, load: VE.FileMeta -> File, describe: File -> VE.FileMeta)
    requires LevelsDescribed(levels, nextFile, load, describe) && PointersFit(pointers)
    ensures var edit := FileEditOf(SnapshotEdit(levels, pointers, comparator, describe), load);
            EditOk(edit) && Installed(NO_FILES, edit, levels)
  {
    hide Ordered, Described, NumbersDistinct, SnapshotFiles, Loaded, NumbersApart;
    var edit := FileEditOf(SnapshotEdit(levels, pointers, comparator, describe), load);
    SnapshotFilesAre(levels, |levels|, load, describe, nextFile);
    SnapshotNumbers(levels, |levels|, load, describe, nextFile);
    assert edit.deleted == {};
    forall l | 0 <= l < NUM_LEVELS
      ensures LevelInstalled(NO_FILES[l], edit, l, levels[l])
    {
      assert NO_FILES[l] == [];
    }
    forall p | p in edit.added
      ensures p.0 < NUM_LEVELS
    {
      assert (p.0, p.1) in edit.added;
    }
    ApartIsOk(edit);
  }

  lemma ApartIsOk(edit: FileEdit)
    requires edit.deleted == {} && NumbersApart(edit.added) && forall p :: p in edit.added ==> p.0 < NUM_LEVELS
    ensures EditOk(edit)
  {
  }

  /** One more edit, and the version that it gives. */
  lemma ExtendChain(edits: seq<VE.VersionEdit>, versions: seq<seq<seq<File>>>, comparator: Bytes, load: VE.FileMeta -> File,
                    e: VE.VersionEdit, levels: seq<seq<File>>)
    requires Chain(edits, versions, comparator, load) && |versions| == |edits| + 1
    requires Readable(e, comparator) && EditOk(FileEditOf(e, load)) && Installed(versions[|edits|], FileEditOf(e, load), levels)
    requires NotAddedBefore(edits, e, load)
    ensures Chain(edits + [e], versions + [levels], comparator, load)
  {
    hide Readable, EditOk, Installed, AddedNumbers, InstalledInTurn, NumbersAddedOnce, FileEditOf;
    var more := edits + [e];
    assert FileEdits(more, load) == FileEdits(edits, load) + [FileEditOf(e, load)];
    InstalledNext(versions, FileEdits(edits, load), FileEditOf(e, load), levels);
    AddedOnceNext(NO_FILES, FileEdits(edits, load), FileEditOf(e, load));
  }

  lemma InstalledNext(versions: seq<seq<seq<File>>>, edits: seq<FileEdit>, e: FileEdit, levels: seq<seq<File>>)
    requires InstalledInTurn(versions, edits) && Installed(versions[|edits|], e, levels)
    ensures InstalledInTurn(versions + [levels], edits + [e]) && (versions + [levels])[0] == versions[0]
  {
    hide Installed;
  }

  lemma AddedOnceNext(base: seq<seq<File>>, edits: seq<FileEdit>, e: FileEdit)
    requires NumbersAddedOnce(base, edits) && forall l :: 0 <= l < |base| ==> base[l] == []
    requires forall i, p :: 0 <= i < |edits| && p in edits[i].added ==> p.1.number !in AddedNumbers(e.added, p.0)
    ensures NumbersAddedOnce(base, edits + [e])
  {
    hide AddedNumbers;
  }

  /** No number that the edit adds to a level was added there before. */
  ghost predicate NotAddedBefore(edits: seq<VE.VersionEdit>, e: VE.VersionEdit, load: VE.FileMeta -> File) {
    forall i, p :: 0 <= i < |edits| && p in FileEditOf(edits[i], load).added ==> p.1.number !in AddedNumbers(FileEditOf(e, load).added, p.0)
  }

  /** The edit as LogAndApply writes it: with the log numbers, the next file number and the last sequence. */
  function Completed(edit: VE.VersionEdit, logNumber: nat, prevLogNumber: nat, nextFile: nat, lastSequence: nat): VE.VersionEdit {
    edit.(logNumber := if edit.logNumber.Some? then edit.logNumber else Some(logNumber),
          prevLogNumber := if edit.prevLogNumber.Some? then edit.prevLogNumber else Some(prevLogNumber),
          nextFile := Some(nextFile), lastSequence := Some(lastSequence))
  }

  /** What a caller of LogAndApply owes: the files it adds are new to their levels and have numbers that
      were given out, and the log number is between the current one and the next file number. */
  ghost predicate Applicable(edit: VE.VersionEdit, levels: seq<seq<File>>, logNumber: nat, nextFile: nat,
                             load: VE.FileMeta -> File, describe: File -> VE.FileMeta) {
    && VE.EditFits(edit) && edit.comparator.None? && EditOk(FileEditOf(edit, load))
    && (edit.logNumber.Some? ==> logNumber <= edit.logNumber.value < nextFile)
    && AddsFreshNumbers(levels, FileEditOf(edit, load))
    && forall i :: 0 <= i < |edit.added| ==>
         var m := edit.added[i].1; describe(load(m)) == m && load(m).number < nextFile
  }

  lemma AppliedIsDescribed(edit: VE.VersionEdit, levels: seq<seq<File>>, levels': seq<seq<File>>, logNumber: nat, nextFile: nat,
                           load: VE.FileMeta -> File, describe: File -> VE.FileMeta)
    requires LevelsDescribed(levels, nextFile, load, describe) && Applicable(edit, levels, logNumber, nextFile, load, describe)
    requires Installed(levels, FileEditOf(edit, load), levels')
    ensures LevelsDescribed(levels', nextFile, load, describe)
  {
    hide Ordered, Described, NumbersDistinct, EditOk, AddsFreshNumbers, FileEditOf, VE.EditFits, LevelInstalled;
    var e := FileEditOf(edit, load);
    forall l, f | 0 <= l < NUM_LEVELS && f in levels'[l]
      ensures Ordered(levels'[l]) && (f in levels[l] || (l, f) in e.added)
    {
      InstalledMembers(levels, e, levels', l, f);
    }
    forall l | 0 <= l < NUM_LEVELS
      ensures Ordered(levels'[l])
    {
      assert LevelInstalled(levels[l], e, l, levels'[l]);
      InstalledOrdered(levels[l], e, l, levels'[l]);
    }
    AppliedMetas(edit, levels, logNumber, nextFile, load, describe);
    DescribedAfter(levels, levels', e, nextFile, load, describe);
    DistinctAfter(levels, levels', e);
  }

  lemma InstalledOrdered(files: seq<File>, e: FileEdit, l: nat, files': seq<File>)
    requires LevelInstalled(files, e, l, files')
    ensures Ordered(files')
  {
  }

  lemma InstalledMembers(levels: seq<seq<File>>, e: FileEdit, levels': seq<seq<File>>, l: nat, f: File)
    requires Installed(levels, e, levels') && l < |levels| && f in levels'[l]
    ensures Ordered(levels'[l]) && (f in levels[l] || (l, f) in e.added)
  {
    assert LevelInstalled(levels[l], e, l, levels'[l]);
  }

  lemma AppliedMetas(edit: VE.VersionEdit, levels: seq<seq<File>>, logNumber: nat, nextFile: nat,
                     load: VE.FileMeta -> File, describe: File -> VE.FileMeta)
    requires Applicable(edit, levels, logNumber, nextFile, load, describe)
    ensures forall l: nat, f :: (l, f) in FileEditOf(edit, load).added ==>
              load(describe(f)) == f && f.number < nextFile && VE.MetaFits(describe(f))
  {
    hide VE.Ascending, VE.MetaFits, EditOk, AddsFreshNumbers;
    var added := FileEditOf(edit, load).added;
    forall l: nat, f | (l, f) in added
      ensures load(describe(f)) == f && f.number < nextFile && VE.MetaFits(describe(f))
    {
      var i :| 0 <= i < |added| && added[i] == (l, f);
      assert f == load(edit.added[i].1);
    }
  }

  lemma DescribedAfter(levels: seq<seq<File>>, levels': seq<seq<File>>, e: FileEdit, nextFile: nat,
                       load: VE.FileMeta -> File, describe: File -> VE.FileMeta)
    requires Described(levels, nextFile, load, describe) && |levels'| == |levels| == NUM_LEVELS
    requires forall l, f :: 0 <= l < NUM_LEVELS && f in levels'[l] ==> f in levels[l] || (l, f) in e.added
    requires forall l: nat, f :: (l, f) in e.added ==> load(describe(f)) == f && f.number < nextFile && VE.MetaFits(describe(f))
    ensures Described(levels', nextFile, load, describe)
  {
    hide VE.MetaFits;
  }

  lemma DistinctAfter(levels: seq<seq<File>>, levels': seq<seq<File>>, e: FileEdit)
    requires NumbersDistinct(levels) && EditOk(e) && AddsFreshNumbers(levels, e) && |levels'| == |levels| == NUM_LEVELS
    requires forall l, f :: 0 <= l < NUM_LEVELS && f in levels'[l] ==> f in levels[l] || (l, f) in e.added
    ensures NumbersDistinct(levels')
  {
    forall l, f, g | 0 <= l < NUM_LEVELS && f in levels'[l] && g in levels'[l] && f.number == g.number
      ensures f == g
    {
      NumberOnce(levels, e, l, f, g);
    }
  }

  lemma NumberOnce(levels: seq<seq<File>>, e: FileEdit, l: nat, f: File, g: File)
    requires NumbersDistinct(levels) && EditOk(e) && AddsFreshNumbers(levels, e) && l < |levels|
    requires (f in levels[l] || (l, f) in e.added) && (g in levels[l] || (l, g) in e.added) && f.number == g.number
    ensures f == g
  {
    assert f in levels[l] ==> forall p :: p in e.added && p.0 == l ==> f.number != p.1.number;
    assert g in levels[l] ==> forall p :: p in e.added && p.0 == l ==> g.number != p.1.number;
    if (l, f) in e.added && (l, g) in e.added {
      var i :| 0 <= i < |e.added| && e.added[i] == (l, f);
      var j :| 0 <= j < |e.added| && e.added[j] == (l, g);
      assert i == j;
    }
  }

  lemma CompletedKeepsFiles(edit: VE.VersionEdit, load: VE.FileMeta -> File, log: nat, prev: nat, next: nat, last: nat)
    requires VE.EditFits(edit) && edit.comparator.None? && log < U64 && prev < U64 && next < U64 && last < U64
    ensures var e := Completed(edit, log, prev, next, last);
            FileEditOf(e, load) == FileEditOf(edit, load) && forall comparator :: Readable(e, comparator)
  {
    hide VE.Ascending;
  }

  lemma LastOfSnoc(edits: seq<VE.VersionEdit>, e: VE.VersionEdit, number: Number)
    requires NumberIn(e, number).Some?
    ensures LastOf(edits + [e], number) == NumberIn(e, number)
  {
  }

  /** The version set: the current version, its numbers, and the descriptor log once there is one. */
  class VersionSet {
    const comparator: Bytes
    const load: VE.FileMeta -> File
    const describe: File -> VE.FileMeta
    var levels: seq<seq<File>>
    var compactPointers: seq<Bytes>
    var logNumber: nat
    var prevLogNumber: nat
    var nextFile: nat
    var lastSequence: nat
    var descriptor: Option<Bytes>
    /** The edits in the descriptor log and the versions they gave. */
    ghost var edits: seq<VE.VersionEdit>
    ghost var versions: seq<seq<seq<File>>>

    ghost predicate Valid()
      reads this
    {
      && LevelsDescribed(levels, nextFile, load, describe)
      && |comparator| < U32 && logNumber < U64 && prevLogNumber < U64 && PointersFit(compactPointers)
      && (descriptor.Some? ==>
            && PointersOf(edits) == compactPointers
            && descriptor.value == Log.Written(Records(edits))
            && Chain(edits, versions, comparator, load) && |versions| == |edits| + 1 && versions[|edits|] == levels)
    }

    constructor (comparator: Bytes, load: VE.FileMeta -> File, describe: File -> VE.FileMeta, levels: seq<seq<File>>, compactPointers: seq<Bytes>,
                 logNumber: nat, prevLogNumber: nat, nextFile: nat, lastSequence: nat)
      requires LevelsDescribed(levels, nextFile, load, describe)
      requires |comparator| < U32 && logNumber < U64 && prevLogNumber < U64 && PointersFit(compactPointers)
      ensures Valid() && descriptor.None? && this.levels == levels && this.compactPointers == compactPointers
      ensures this.comparator == comparator && this.load == load && this.describe == describe
      ensures this.logNumber == logNumber && this.prevLogNumber == prevLogNumber
      ensures this.nextFile == nextFile && this.lastSequence == lastSequence
    {
      this.comparator, this.load, this.describe, this.levels, this.compactPointers := comparator, load, describe, levels, compactPointers;
      this.logNumber, this.prevLogNumber, this.nextFile, this.lastSequence := logNumber, prevLogNumber, nextFile, lastSequence;
      descriptor := None;
      edits, versions := [], [];
    }

    /** What recovery would find in the descriptor log is the current state. */
    ghost predicate Saved()
      reads this
    {
      descriptor.Some? &&
      IsRecovered(Ok(levels, compactPointers, nextFile, nextFile + 1, lastSequence, logNumber, prevLogNumber), edits, levels)
    }

    /** A new descriptor log starts with a snapshot of the current version. */
    method WriteSnapshot()
      requires Valid() && descriptor.None?
      modifies `descriptor, `edits, `versions
      ensures Valid() && descriptor.Some? && versions == [NO_FILES, levels]
      ensures edits == [SnapshotEdit(levels, compactPointers, comparator, describe)]
    {
      hide LevelsDescribed, Chain, Log.Written, Log.Emit, VE.EncodeFields, VE.Fields, PointersOf, SnapshotEdit;
      SnapshotIsChain(levels, compactPointers, nextFile, comparator, load, describe);
      SnapshotKeepsPointers(levels, compactPointers, comparator, describe);
      var e := SnapshotEdit(levels, compactPointers, comparator, describe);
      edits, versions := [e], [NO_FILES, levels];
      FirstRecord(e);
      var file := AppendRecord([], e);
      descriptor := Some(file);
    }

    /** One edit: a new version, and a record of the completed edit. */
    method LogAndApply(edit: VE.VersionEdit)
      requires Valid() && Applicable(edit, levels, logNumber, nextFile, load, describe)
      requires nextFile < U64 && lastSequence < U64
      requires descriptor.Some? ==> NotAddedBefore(edits, edit, load)
      modifies this
      ensures Valid() && Installed(old(levels), FileEditOf(edit, load), levels)
      ensures nextFile == old(nextFile) && lastSequence == old(lastSequence)
      ensures logNumber == (if edit.logNumber.Some? then edit.logNumber.value else old(logNumber))
      ensures prevLogNumber == (if edit.prevLogNumber.Some? then edit.prevLogNumber.value else old(prevLogNumber))
      ensures compactPointers == WithPointers(old(compactPointers), edit.compactPointers)
      // what the descriptor log gains, a snapshot first if it is new
      ensures descriptor.Some? && edits == (if old(descriptor).Some? then old(edits) else [SnapshotEdit(old(levels), compactPointers, comparator, describe)]) +
                       [Completed(edit, old(logNumber), old(prevLogNumber), nextFile, lastSequence)]
      ensures versions == (if old(descriptor).Some? then old(versions) else [NO_FILES, old(levels)]) + [levels]
      // recovery from here finds this version, these pointers and these numbers
      ensures Saved()
    {
      hide LevelsDescribed, Applicable, Chain, Log.Written, NotAddedBefore, Installed, EditOk, AddsFreshNumbers, FileEditOf, Readable,
           Ordered, Records, IsRecovered, SnapshotEdit, PointersOf, WithPointers;
      ApplicableParts(edit, levels, logNumber, prevLogNumber, nextFile, load, describe);
      var e := Completed(edit, logNumber, prevLogNumber, nextFile, lastSequence);
      CompletedKeepsFiles(edit, load, logNumber, prevLogNumber, nextFile, lastSequence);
      var levels' := InstallEdit(levels, FileEditOf(e, load));
      AppliedIsDescribed(edit, levels, levels', logNumber, nextFile, load, describe);
      var pointers := ApplyPointers(compactPointers, edit.compactPointers);
      ChangesFit(edit, compactPointers);
      if descriptor.None? {
        PointersTwice(compactPointers, edit.compactPointers);
        compactPointers := pointers;
        WriteSnapshot();
        SnapshotAddsOther(edit, levels, pointers, logNumber, nextFile, comparator, load, describe);
      }
      PointersSnoc(edits, e);
      SameFiles(edits, edit, e, load);
      Install(e, levels', pointers);
    }

    /** The record is written, then the new version is installed. */
    method Install(e: VE.VersionEdit, levels': seq<seq<File>>, pointers: seq<Bytes>)
      requires Valid() && descriptor.Some? && LevelsDescribed(levels', nextFile, load, describe)
      requires Readable(e, comparator) && EditOk(FileEditOf(e, load)) && Installed(levels, FileEditOf(e, load), levels')
      requires NotAddedBefore(edits, e, load) && PointersFit(pointers) && PointersOf(edits + [e]) == pointers
      requires e.logNumber.Some? && e.prevLogNumber.Some? && e.nextFile == Some(nextFile) && e.lastSequence == Some(lastSequence)
      requires e.logNumber.value < U64 && e.prevLogNumber.value < U64
      modifies `descriptor, `edits, `versions, `levels, `compactPointers, `logNumber, `prevLogNumber
      ensures Valid() && levels == levels' && compactPointers == pointers && descriptor.Some?
      ensures edits == old(edits) + [e] && versions == old(versions) + [levels']
      ensures logNumber == e.logNumber.value && prevLogNumber == e.prevLogNumber.value
      ensures Saved()
    {
      hide LevelsDescribed, Chain, Log.Written, NotAddedBefore, Installed, EditOk, FileEditOf, LastOf, Readable, Log.Emit, Encoded,
           PointersOf;
      ExtendChain(edits, versions, comparator, load, e, levels');
      var file := AppendRecord(descriptor.value, e);
      AddRecord(edits, e);
      RecoveredAfter(edits, e);
      descriptor := Some(file);
      edits, versions := edits + [e], versions + [levels'];
      // Install the new version
      levels := levels';
      compactPointers := pointers;
      logNumber := e.logNumber.value;
      prevLogNumber := e.prevLogNumber.value;
    }
  }

  /** Opening again after a crash: whatever byte the descriptor log ends at, recovery finds the version,
      the pointers and the numbers after the last edit that survived whole. */
  method RecoverTorn(vs: VersionSet, t: nat) returns (r: Recovered)
    requires vs.Valid() && vs.descriptor.Some? && t <= |vs.descriptor.value|
    ensures var k := LogRoundTrip.Survived(Records(vs.edits), t);
            k <= |vs.edits| < |vs.versions| && IsRecovered(r, vs.edits[..k], vs.versions[k])
    // and nothing is lost when the log is whole
    ensures t == |vs.descriptor.value| && vs.Saved() ==>
              r == Ok(vs.levels, vs.compactPointers, vs.nextFile, vs.nextFile + 1, vs.lastSequence, vs.logNumber, vs.prevLogNumber)
  {
    hide LevelsDescribed, Chain, Log.Written, LogRoundTrip.Survived, ScanOf, PointersFit, PointersOf, LastOf, Records;
    TornDescriptorScans(vs.edits, vs.versions, vs.comparator, vs.load, t);
    ghost var k := LogRoundTrip.Survived(Records(vs.edits), t);
    assert k == |vs.edits| ==> vs.edits[..k] == vs.edits;
    r := Recover(vs.descriptor.value[..t], vs.comparator, vs.load, vs.versions[..k + 1]);
  }

  lemma ChangesFit(edit: VE.VersionEdit, pointers: seq<Bytes>)
    requires VE.EditFits(edit) && PointersFit(pointers)
    ensures PointersFit(WithPointers(pointers, edit.compactPointers))
  {
    hide VE.Ascending, VE.MetaFits;
    ChangedPointersFit(pointers, edit.compactPointers);
  }

  lemma PointersSnoc(edits: seq<VE.VersionEdit>, e: VE.VersionEdit)
    ensures PointersOf(edits + [e]) == WithPointers(PointersOf(edits), e.compactPointers)
  {
    hide WithPointers;
    assert (edits + [e])[..|edits|] == edits;
  }

  lemma RecoveredAfter(edits: seq<VE.VersionEdit>, e: VE.VersionEdit)
    requires e.logNumber.Some? && e.prevLogNumber.Some? && e.nextFile.Some? && e.lastSequence.Some?
    ensures LastOf(edits + [e], Number.Log) == e.logNumber && LastOf(edits + [e], PrevLog) == e.prevLogNumber
    ensures LastOf(edits + [e], NextFile) == e.nextFile && LastOf(edits + [e], Sequence) == e.lastSequence
  {
    hide LastOf;
    LastOfSnoc(edits, e, Number.Log);
    LastOfSnoc(edits, e, PrevLog);
    LastOfSnoc(edits, e, NextFile);
    LastOfSnoc(edits, e, Sequence);
  }

  method AppendRecord(file: Bytes, e: VE.VersionEdit) returns (file': Bytes)
    ensures file' == file + Log.Emit(|file| % Log.BLOCK_SIZE, Encoded(e), true)
  {
    hide VE.EncodeFields, VE.Fields, Log.Emit;
    var record := VE.EncodeTo(e);
    var writer := new Log.Writer(file);
    writer.AddRecord(record);
    return writer.dest;
  }

  lemma FirstRecord(e: VE.VersionEdit)
    ensures Log.Written(Records([e])) == Log.Emit(0, Encoded(e), true)
  {
    hide Encoded, Log.Emit;
    assert Records([e])[..0] == [];
  }

  lemma AddRecord(edits: seq<VE.VersionEdit>, e: VE.VersionEdit)
    ensures var file := Log.Written(Records(edits));
            Log.Written(Records(edits + [e])) == file + Log.Emit(|file| % Log.BLOCK_SIZE, Encoded(e), true)
  {
    hide Encoded, Log.Emit;
    assert Records(edits + [e])[..|edits|] == Records(edits);
  }

  lemma ApplicableParts(edit: VE.VersionEdit, levels: seq<seq<File>>, logNumber: nat, prevLogNumber: nat, nextFile: nat,
                        load: VE.FileMeta -> File, describe: File -> VE.FileMeta)
    requires LevelsDescribed(levels, nextFile, load, describe) && Applicable(edit, levels, logNumber, nextFile, load, describe)
    ensures |levels| == NUM_LEVELS && forall l :: 0 <= l < NUM_LEVELS ==> Ordered(levels[l])
    ensures EditOk(FileEditOf(edit, load)) && AddsFreshNumbers(levels, FileEditOf(edit, load)) && VE.EditFits(edit) && edit.comparator.None?
    ensures edit.logNumber.Some? ==> edit.logNumber.value < nextFile
    ensures edit.prevLogNumber.Some? ==> edit.prevLogNumber.value < U64
  {
    hide Ordered, Described, NumbersDistinct, EditOk, AddsFreshNumbers, VE.Ascending;
  }

  lemma SameFiles(edits: seq<VE.VersionEdit>, a: VE.VersionEdit, b: VE.VersionEdit, load: VE.FileMeta -> File)
    requires NotAddedBefore(edits, a, load) && FileEditOf(a, load) == FileEditOf(b, load)
    ensures NotAddedBefore(edits, b, load)
  {
    hide AddedNumbers, FileEditOf;
  }

  /** The snapshot adds the files of the levels, and the edit adds none of their numbers again. */
  lemma SnapshotAddsOther(edit: VE.VersionEdit, levels: seq<seq<File>>, pointers: seq<Bytes>, logNumber: nat, nextFile: nat, comparator: Bytes,
                          load: VE.FileMeta -> File, describe: File -> VE.FileMeta)
    requires LevelsDescribed(levels, nextFile, load, describe) && Applicable(edit, levels, logNumber, nextFile, load, describe)
    requires |pointers| == NUM_LEVELS
    ensures NotAddedBefore([SnapshotEdit(levels, pointers, comparator, describe)], edit, load)
  {
    hide Ordered, Described, NumbersDistinct, EditOk, VE.EditFits, Loaded, SnapshotFiles;
    SnapshotFilesAre(levels, |levels|, load, describe, nextFile);
    forall p | p in FileEditOf(SnapshotEdit(levels, pointers, comparator, describe), load).added
      ensures p.1.number !in AddedNumbers(FileEditOf(edit, load).added, p.0)
    {
      assert (p.0, p.1) in Loaded(SnapshotFiles(levels, |levels|, describe), load);
    }
  }
}
