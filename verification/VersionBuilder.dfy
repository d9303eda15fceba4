/** VersionSet::Builder (db/version_set.cc): applying edits to the files of a version. */
module VersionBuilder {
  import opened DbFormat
  import opened Version

  /** The file changes of a VersionEdit: (level, number) deleted, (level, file) added. */
  datatype FileEdit = FileEdit(deleted: set<(nat, nat)>, added: seq<(nat, File)>)

  /** BySmallestKey: by smallest key, ties by file number. */
  predicate ByKey(f: File, g: File) {
    Less(f.smallest, g.smallest) || (f.smallest == g.smallest && f.number < g.number)
  }

  ghost predicate Ordered(files: seq<File>) {
    forall i, j :: 0 <= i < j < |files| ==> ByKey(files[i], files[j])
  }

  lemma ByKeyTransitive(f: File, g: File, h: File)
    requires ByKey(f, g) && ByKey(g, h)
    ensures ByKey(f, h)
  {
  }

  /** Two files in order are different in the order, or not comparable and then the set keeps one. */
  predicate SamePlace(f: File, g: File) {
    !ByKey(f, g) && !ByKey(g, f)
  }

  /** std::set::insert. */
  function Insert(f: File, files: seq<File>): (r: seq<File>)
    requires Ordered(files)
    ensures Ordered(r)
    ensures forall g :: g in r ==> g == f || g in files
    ensures forall g :: g in files ==> g in r
    ensures (forall g :: g in files ==> !SamePlace(f, g)) ==> f in r
  {
    if files == [] then [f]
    else if ByKey(f, files[0]) then
      assert forall j :: 0 < j < |files| ==> ByKey(files[0], files[j]);
      [f] + files
    else if ByKey(files[0], f) then
      var rest := Insert(f, files[1..]);
      assert forall k :: 0 <= k < |rest| ==> rest[k] in rest;
      assert files == [files[0]] + files[1..];
      [files[0]] + rest
    else
      assert files[0] in files;
      files
  }

  /** An ordered list is determined by its members. */
  lemma {:induction false} OrderedUnique(a: seq<File>, b: seq<File>)
    requires Ordered(a) && Ordered(b)
    requires forall f :: f in a <==> f in b
    ensures a == b
  {
    if b != [] {
      assert b[0] in a;
    }
    if a != [] {
      assert a[0] in b;
      assert a[0] == b[0];
      forall f | f in a[1..]
        ensures f in b[1..]
      {
        assert f in a && f != a[0];
      }
      forall f | f in b[1..]
        ensures f in a[1..]
      {
        assert f in b && f != b[0];
      }
      OrderedUnique(a[1..], b[1..]);
    }
  }

  /** `r` is the level after the edit: base and added files, without the deleted numbers, in order. */
  ghost predicate IsSaved(base: seq<File>, added: seq<File>, deleted: set<nat>, r: seq<File>) {
    && Ordered(r)
    && forall f :: f in r <==> (f in base || f in added) && f.number !in deleted
  }

  ghost predicate NoCommonPlace(base: seq<File>, added: seq<File>) {
    forall f, g :: f in base && g in added ==> !SamePlace(f, g)
  }

  /** What is already saved comes before the file that is considered next. */
  ghost predicate SavedBefore(r: seq<File>, f: File) {
    forall g :: g in r ==> ByKey(g, f)
  }

  method MaybeAddFile(r: seq<File>, deleted: set<nat>, f: File) returns (r': seq<File>)
    requires Ordered(r) && SavedBefore(r, f)
    ensures Ordered(r')
    ensures forall g :: g in r' <==> g in r || (g == f && f.number !in deleted)
  {
    if f.number in deleted {
      // File is deleted: do nothing
      return r;
    }
    assert forall k :: 0 <= k < |r| ==> r[k] in r;
    return r + [f];
  }

  /** One level of SaveTo: the two ordered lists are merged, deleted files are left out. */
  method SaveLevel(base: seq<File>, added: seq<File>, deleted: set<nat>) returns (r: seq<File>)
    requires Ordered(base) && Ordered(added) && NoCommonPlace(base, added)
    ensures IsSaved(base, added, deleted, r)
  {
    hide ByKey, SamePlace, SavedBefore;
    r := [];
    var b := 0;
    for a := 0 to |added|
      invariant b <= |base|
      invariant Ordered(r)
      invariant forall f :: f in r <==> (f in base[..b] || f in added[..a]) && f.number !in deleted
      invariant b < |base| && 0 < a ==> ByKey(added[a - 1], base[b])
      invariant forall k, l :: 0 <= k < b && a <= l < |added| ==> ByKey(base[k], added[l])
    {
      // Add all smaller files listed in base
      while b < |base| && !ByKey(added[a], base[b])
        invariant b <= |base|
        invariant Ordered(r)
        invariant forall f :: f in r <==> (f in base[..b] || f in added[..a]) && f.number !in deleted
        invariant b < |base| && 0 < a ==> ByKey(added[a - 1], base[b])
        invariant forall k, l :: 0 <= k < b && a <= l < |added| ==> ByKey(base[k], added[l])
      {
        BaseComesNext(base, added, a, b, r);
        r := MaybeAddFile(r, deleted, base[b]);
        assert base[..b + 1] == base[..b] + [base[b]];
        b := b + 1;
      }
      AddedComesNext(base, added, a, b, r);
      r := MaybeAddFile(r, deleted, added[a]);
      assert added[..a + 1] == added[..a] + [added[a]];
    }
    // Add remaining base files
    while b < |base|
      invariant b <= |base|
      invariant Ordered(r)
      invariant forall f :: f in r <==> (f in base[..b] || f in added[..|added|]) && f.number !in deleted
      invariant b < |base| && 0 < |added| ==> ByKey(added[|added| - 1], base[b])
    {
      BaseIsLast(base, added, b, r);
      r := MaybeAddFile(r, deleted, base[b]);
      assert base[..b + 1] == base[..b] + [base[b]];
      b := b + 1;
    }
    assert base[..|base|] == base && added[..|added|] == added;
  }

  lemma BaseComesNext(base: seq<File>, added: seq<File>, a: nat, b: nat, r: seq<File>)
    requires Ordered(base) && Ordered(added) && NoCommonPlace(base, added)
    requires a < |added| && b < |base| && !ByKey(added[a], base[b])
    requires forall f :: f in r ==> f in base[..b] || f in added[..a]
    requires 0 < a ==> ByKey(added[a - 1], base[b])
    ensures SavedBefore(r, base[b])
    ensures b + 1 < |base| && 0 < a ==> ByKey(added[a - 1], base[b + 1])
    ensures forall l :: a <= l < |added| ==> ByKey(base[b], added[l])
  {
    BaseIsLast(base, added[..a], b, r);
    assert base[b] in base && added[a] in added;
    assert ByKey(base[b], added[a]);
  }

  lemma BaseIsLast(base: seq<File>, added: seq<File>, b: nat, r: seq<File>)
    requires Ordered(base) && Ordered(added) && b < |base|
    requires forall f :: f in r ==> f in base[..b] || f in added
    requires 0 < |added| ==> ByKey(added[|added| - 1], base[b])
    ensures SavedBefore(r, base[b])
    ensures b + 1 < |base| && 0 < |added| ==> ByKey(added[|added| - 1], base[b + 1])
  {
    forall g | g in r
      ensures ByKey(g, base[b])
    {
      if g in added {
        var k :| 0 <= k < |added| && added[k] == g;
        if k < |added| - 1 {
          ByKeyTransitive(g, added[|added| - 1], base[b]);
        }
      }
    }
  }

  lemma AddedComesNext(base: seq<File>, added: seq<File>, a: nat, b: nat, r: seq<File>)
    requires Ordered(added) && a < |added| && b <= |base|
    requires forall f :: f in r ==> f in base[..b] || f in added[..a]
    requires forall k :: 0 <= k < b ==> ByKey(base[k], added[a])
    ensures SavedBefore(r, added[a])
  {
  }

  function DeletedAt(edit: FileEdit, l: nat): set<nat> {
    set p | p in edit.deleted && p.0 == l :: p.1
  }

  ghost function AddedNumbers(added: seq<(nat, File)>, l: nat): set<nat> {
    set p | p in added && p.0 == l :: p.1.number
  }

  /** The numbers an edit takes away from a level: deleted, and not added by the same edit. */
  ghost function Gone(edit: FileEdit, l: nat): set<nat> {
    DeletedAt(edit, l) - AddedNumbers(edit.added, l)
  }

  /** Installing one edit: what a version holds afterwards, level by level. */
  ghost predicate Installed(levels: seq<seq<File>>, edit: FileEdit, levels': seq<seq<File>>) {
    && |levels'| == |levels|
    && forall l :: 0 <= l < |levels| ==> LevelInstalled(levels[l], edit, l, levels'[l])
  }

  ghost predicate LevelInstalled(files: seq<File>, edit: FileEdit, l: nat, files': seq<File>) {
    && Ordered(files')
    && forall f :: f in files' <==> (l, f) in edit.added || (f in files && f.number !in Gone(edit, l))
  }

  /** What an edit must satisfy: its levels exist and it adds no file number twice to a level. */
  ghost predicate EditOk(edit: FileEdit) {
    && (forall p :: p in edit.deleted ==> p.0 < NUM_LEVELS)
    && (forall p :: p in edit.added ==> p.0 < NUM_LEVELS)
    && (forall i, j :: 0 <= i < j < |edit.added| && edit.added[i].0 == edit.added[j].0 ==>
          edit.added[i].1.number != edit.added[j].1.number)
  }

  class Builder {
    const base: seq<seq<File>>
    var deleted: seq<set<nat>>
    var added: seq<seq<File>>

    ghost predicate Valid()
      reads this
    {
      && |base| == |deleted| == |added| == NUM_LEVELS
      && forall l :: 0 <= l < NUM_LEVELS ==> Ordered(added[l])
    }

    constructor (base: seq<seq<File>>)
      requires |base| == NUM_LEVELS
      ensures Valid() && this.base == base
      ensures forall l :: 0 <= l < NUM_LEVELS ==> deleted[l] == {} && added[l] == []
    {
      this.base := base;
      deleted := seq(NUM_LEVELS, _ => {});
      added := seq(NUM_LEVELS, _ => []);
    }

    /** No number the edit adds to a level was added there before. */
    ghost predicate Fresh(edit: FileEdit)
      requires Valid()
      reads this
    {
      forall l, f, p :: 0 <= l < NUM_LEVELS && f in added[l] && p in edit.added && p.0 == l ==> f.number != p.1.number
    }

    method Apply(edit: FileEdit)
      requires Valid() && EditOk(edit) && Fresh(edit)
      modifies this
      ensures Valid()
      ensures forall l :: 0 <= l < NUM_LEVELS ==>
                deleted[l] == (old(deleted[l]) + DeletedAt(edit, l)) - AddedNumbers(edit.added, l)
      ensures forall l, f :: 0 <= l < NUM_LEVELS ==> (f in added[l] <==> f in old(added[l]) || (l, f) in edit.added)
    {
      // Delete files
      ghost var before := deleted;
      deleted := seq(NUM_LEVELS, l requires 0 <= l < NUM_LEVELS && |deleted| == NUM_LEVELS reads this => deleted[l] + DeletedAt(edit, l));
      ghost var marked := deleted;
      // Add new files
      for i := 0 to |edit.added|
        invariant Valid()
        invariant forall l :: 0 <= l < NUM_LEVELS ==> deleted[l] == marked[l] - AddedNumbers(edit.added[..i], l)
        invariant forall l, f :: 0 <= l < NUM_LEVELS ==> (f in added[l] <==> f in old(added[l]) || (l, f) in edit.added[..i])
      {
        var level, f := edit.added[i].0, edit.added[i].1;
        assert edit.added[i] in edit.added;
        assert edit.added[..i + 1] == edit.added[..i] + [edit.added[i]];
        AddedNumbersStep(edit.added, i);
        forall g | g in added[level]
          ensures !SamePlace(f, g)
        {
          assert (level, g) in edit.added[..i] ==> g.number != f.number;
          SamePlaceSameNumber(f, g);
        }
        deleted := deleted[level := deleted[level] - {f.number}];
        added := added[level := Insert(f, added[level])];
      }
      assert edit.added[..|edit.added|] == edit.added;
    }

    method SaveTo() returns (levels: seq<seq<File>>)
      requires Valid()
      requires forall l :: 0 <= l < NUM_LEVELS ==> Ordered(base[l]) && NoCommonPlace(base[l], added[l])
      ensures |levels| == NUM_LEVELS
      ensures forall l :: 0 <= l < NUM_LEVELS ==> IsSaved(base[l], added[l], deleted[l], levels[l])
    {
      hide Ordered, NoCommonPlace, IsSaved;
      levels := [];
      for level := 0 to NUM_LEVELS
        invariant |levels| == level
        invariant forall l :: 0 <= l < level ==> IsSaved(base[l], added[l], deleted[l], levels[l])
      {
        var files := SaveLevel(base[level], added[level], deleted[level]);
        levels := levels + [files];
      }
    }
  }

  lemma SamePlaceSameNumber(f: File, g: File)
    requires f.number != g.number
    ensures !SamePlace(f, g)
  {
    LessIsLexicographic(f.smallest, g.smallest);
  }

  lemma AddedNumbersStep(added: seq<(nat, File)>, i: nat)
    requires i < |added|
    ensures forall l: nat :: AddedNumbers(added[..i + 1], l) ==
              AddedNumbers(added[..i], l) + if l == added[i].0 then {added[i].1.number} else {}
  {
    assert added[..i + 1] == added[..i] + [added[i]];
  }

  /** An edit adds no number that its level already has. */
  ghost predicate AddsFreshNumbers(levels: seq<seq<File>>, edit: FileEdit) {
    forall l, f, p :: 0 <= l < |levels| && f in levels[l] && p in edit.added && p.0 == l ==> f.number != p.1.number
  }

  /** LogAndApply's use of the builder: one edit on the current version. */
  method InstallEdit(levels: seq<seq<File>>, edit: FileEdit) returns (levels': seq<seq<File>>)
    requires |levels| == NUM_LEVELS && forall l :: 0 <= l < NUM_LEVELS ==> Ordered(levels[l])
    requires EditOk(edit) && AddsFreshNumbers(levels, edit)
    ensures Installed(levels, edit, levels')
  {
    var builder := new Builder(levels);
    builder.Apply(edit);
    forall l, f, g | 0 <= l < NUM_LEVELS && f in levels[l] && g in builder.added[l]
      ensures !SamePlace(f, g)
    {
      SamePlaceSameNumber(f, g);
    }
    levels' := builder.SaveTo();
    forall l | 0 <= l < NUM_LEVELS
      ensures LevelInstalled(levels[l], edit, l, levels'[l])
    {
      forall f | (l, f) in edit.added
        ensures f.number !in Gone(edit, l)
      {
        assert (l, f).1.number in AddedNumbers(edit.added, l);
      }
    }
  }

  /** The deleted numbers a builder remembers for a level after a list of edits. */
  ghost function BatchDeleted(edits: seq<FileEdit>, l: nat): set<nat> {
    if edits == [] then {} else
      var last := edits[|edits| - 1];
      (BatchDeleted(edits[..|edits| - 1], l) + DeletedAt(last, l)) - AddedNumbers(last.added, l)
  }

  ghost predicate BatchAdded(edits: seq<FileEdit>, l: nat, f: File) {
    exists i :: 0 <= i < |edits| && (l, f) in edits[i].added
  }

  /** No file number is added twice to one level, nor to a level of the base that has it. */
  ghost predicate NumbersAddedOnce(base: seq<seq<File>>, edits: seq<FileEdit>) {
    && (forall i, l, f :: 0 <= i < |edits| && 0 <= l < |base| && f in base[l] ==> f.number !in AddedNumbers(edits[i].added, l))
    && (forall i, j, p :: 0 <= i < j < |edits| && p in edits[i].added ==> p.1.number !in AddedNumbers(edits[j].added, p.0))
  }

  /** The versions that follow each other when the edits are installed one at a time. */
  ghost predicate InstalledInTurn(versions: seq<seq<seq<File>>>, edits: seq<FileEdit>) {
    && |versions| == |edits| + 1
    && forall i :: 0 <= i < |edits| ==> Installed(versions[i], edits[i], versions[i + 1])
  }

  /** One builder for all edits agrees with installing them one at a time, file by file. */
  lemma {:induction false} BatchMembers(versions: seq<seq<seq<File>>>, edits: seq<FileEdit>, l: nat, f: File)
    requires InstalledInTurn(versions, edits) && NumbersAddedOnce(versions[0], edits)
    requires l < |versions[0]|
    ensures |versions[|edits|]| == |versions[0]|
    ensures f in versions[|edits|][l] <==>
            (f in versions[0][l] || BatchAdded(edits, l, f)) && f.number !in BatchDeleted(edits, l)
  {
    if edits != [] {
      var n := |edits| - 1;
      var front, last := edits[..n], edits[n];
      assert InstalledInTurn(versions[..n + 1], front);
      BatchMembers(versions[..n + 1], front, l, f);
      assert LevelInstalled(versions[n][l], last, l, versions[n + 1][l]);
      assert BatchAdded(edits, l, f) <==> BatchAdded(front, l, f) || (l, f) in last.added;
      if (l, f) in last.added {
        assert (l, f).1.number in AddedNumbers(last.added, l);
      } else if f.number in AddedNumbers(last.added, l) {
        OldNumberNotAdded(versions, edits, l, f);
      }
    }
  }

  lemma OldNumberNotAdded(versions: seq<seq<seq<File>>>, edits: seq<FileEdit>, l: nat, f: File)
    requires edits != [] && |versions| == |edits| + 1 && NumbersAddedOnce(versions[0], edits) && l < |versions[0]|
    requires f.number in AddedNumbers(edits[|edits| - 1].added, l)
    ensures f !in versions[0][l] && !BatchAdded(edits[..|edits| - 1], l, f)
  {
  }

  /** Recover's use of the builder: all edits in one batch, saved once. */
  method ReplayEdits(base: seq<seq<File>>, edits: seq<FileEdit>, ghost versions: seq<seq<seq<File>>>) returns (levels: seq<seq<File>>)
    requires |base| == NUM_LEVELS && forall l :: 0 <= l < NUM_LEVELS ==> Ordered(base[l])
    requires forall i :: 0 <= i < |edits| ==> EditOk(edits[i])
    requires NumbersAddedOnce(base, edits)
    requires InstalledInTurn(versions, edits) && versions[0] == base
    ensures levels == versions[|edits|]
  {
    var builder := new Builder(base);
    for i := 0 to |edits|
      invariant builder.Valid()
      invariant forall l :: 0 <= l < NUM_LEVELS ==> builder.deleted[l] == BatchDeleted(edits[..i], l)
      invariant forall l, f :: 0 <= l < NUM_LEVELS ==> (f in builder.added[l] <==> BatchAdded(edits[..i], l, f))
    {
      forall l, f, p | 0 <= l < NUM_LEVELS && f in builder.added[l] && p in edits[i].added && p.0 == l
        ensures f.number != p.1.number
      {
        var k :| 0 <= k < i && (l, f) in edits[..i][k].added;
        assert (l, f) in edits[k].added;
        assert (l, f).1.number !in AddedNumbers(edits[i].added, (l, f).0);
        assert p.1.number in AddedNumbers(edits[i].added, l);
      }
      builder.Apply(edits[i]);
      assert edits[..i + 1][..i] == edits[..i];
      BatchAddedStep(edits, i);
    }
    assert edits[..|edits|] == edits;
    forall l, f, g | 0 <= l < NUM_LEVELS && f in base[l] && g in builder.added[l]
      ensures !SamePlace(f, g)
    {
      var k :| 0 <= k < |edits| && (l, g) in edits[k].added;
      assert (l, g).1.number in AddedNumbers(edits[k].added, l);
      SamePlaceSameNumber(f, g);
    }
    levels := builder.SaveTo();
    assert |levels| == |versions[|edits|]| by {
      VersionsSameLength(versions, edits, |edits|);
    }
    forall l | 0 <= l < NUM_LEVELS
      ensures levels[l] == versions[|edits|][l]
    {
      forall f
        ensures f in levels[l] <==> f in versions[|edits|][l]
      {
        BatchMembers(versions, edits, l, f);
      }
      assert IsSaved(base[l], builder.added[l], builder.deleted[l], levels[l]);
      if 0 < |edits| {
        assert Installed(versions[|edits| - 1], edits[|edits| - 1], versions[|edits|]);
      }
      OrderedUnique(levels[l], versions[|edits|][l]);
    }
  }

  lemma BatchAddedStep(edits: seq<FileEdit>, i: nat)
    requires i < |edits|
    ensures forall l: nat, f :: BatchAdded(edits[..i + 1], l, f) <==> BatchAdded(edits[..i], l, f) || (l, f) in edits[i].added
  {
    assert edits[..i + 1] == edits[..i] + [edits[i]];
  }

  lemma {:induction false} VersionsSameLength(versions: seq<seq<seq<File>>>, edits: seq<FileEdit>, n: nat)
    requires InstalledInTurn(versions, edits) && n <= |edits|
    ensures |versions[n]| == |versions[0]|
  {
    if n > 0 {
      VersionsSameLength(versions, edits, n - 1);
      assert Installed(versions[n - 1], edits[n - 1], versions[n]);
    }
  }
}
