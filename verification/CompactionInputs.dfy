/** Which files a compaction takes (db/version_set.cc). */
module CompactionInputs {
  import opened DbFormat
  import opened Wrappers
  import opened Version

  /** Byte limits derived from Options::max_file_size. */
  function MaxGrandParentOverlapBytes(maxFileSize: nat): nat {
    10 * maxFileSize
  }

  function ExpandedCompactionByteSizeLimit(maxFileSize: nat): nat {
    25 * maxFileSize
  }

  ghost predicate IsLargest(files: seq<File>, key: InternalKey) {
    (exists f :: f in files && f.largest == key) && forall f :: f in files ==> !Less(key, f.largest)
  }

  ghost predicate IsSmallest(files: seq<File>, key: InternalKey) {
    (exists f :: f in files && f.smallest == key) && forall f :: f in files ==> !Less(f.smallest, key)
  }

  method FindLargestKey(files: seq<File>) returns (largest: InternalKey)
    requires files != []
    ensures IsLargest(files, largest)
  {
    largest := files[0].largest;
    for i := 1 to |files|
      invariant IsLargest(files[..i], largest)
    {
      assert files[..i + 1] == files[..i] + [files[i]];
      if Less(largest, files[i].largest) {
        largest := files[i].largest;
        assert files[i] in files[..i + 1];
      }
    }
    assert files[..|files|] == files;
  }

  method GetRange(inputs: seq<File>) returns (smallest: InternalKey, largest: InternalKey)
    requires inputs != []
    ensures IsSmallest(inputs, smallest) && IsLargest(inputs, largest)
  {
    smallest, largest := inputs[0].smallest, inputs[0].largest;
    for i := 1 to |inputs|
      invariant IsSmallest(inputs[..i], smallest) && IsLargest(inputs[..i], largest)
    {
      assert inputs[..i + 1] == inputs[..i] + [inputs[i]];
      assert inputs[i] in inputs[..i + 1];
      if Less(inputs[i].smallest, smallest) {
        smallest := inputs[i].smallest;
      }
      if Less(largest, inputs[i].largest) {
        largest := inputs[i].largest;
      }
    }
    assert inputs[..|inputs|] == inputs;
  }

  /** `f` continues the entries of the user key at which the inputs end. */
  predicate IsBoundary(f: File, largest: InternalKey) {
    Less(largest, f.smallest) && f.smallest.user == largest.user
  }

  ghost predicate IsSmallestBoundary(files: seq<File>, largest: InternalKey, f: File) {
    f in files && IsBoundary(f, largest) && forall g :: g in files && IsBoundary(g, largest) ==> !Less(g.smallest, f.smallest)
  }

  method FindSmallestBoundaryFile(files: seq<File>, largest: InternalKey) returns (found: Option<File>)
    ensures found.None? ==> forall f :: f in files ==> !IsBoundary(f, largest)
    ensures found.Some? ==> IsSmallestBoundary(files, largest, found.value)
  {
    found := None;
    for i := 0 to |files|
      invariant found.None? ==> forall f :: f in files[..i] ==> !IsBoundary(f, largest)
      invariant found.Some? ==> IsSmallestBoundary(files[..i], largest, found.value)
    {
      assert files[..i + 1] == files[..i] + [files[i]];
      var f := files[i];
      if Less(largest, f.smallest) && f.smallest.user == largest.user {
        if found.None? || Less(f.smallest, found.value.smallest) {
          found := Some(f);
        }
      }
    }
    assert files[..|files|] == files;
  }

  /** Every file added to the inputs is the next boundary file of the inputs before it. */
  ghost predicate BoundaryChain(files: seq<File>, inputs: seq<File>, r: seq<File>) {
    && inputs <= r
    && forall i, key :: |inputs| <= i < |r| && IsLargest(r[..i], key) ==> IsSmallestBoundary(files, key, r[i])
  }

  ghost predicate NoBoundaryLeft(files: seq<File>, inputs: seq<File>) {
    forall key, f :: IsLargest(inputs, key) && f in files ==> !IsBoundary(f, key)
  }

  /** How many files start after `key`; the bound of the search strictly grows, so this falls. */
  ghost function StartsAfter(files: seq<File>, key: InternalKey): nat {
    if files == [] then 0 else (if Less(key, files[0].smallest) then 1 else 0) + StartsAfter(files[1..], key)
  }

  lemma {:induction false} StartsAfterFalls(files: seq<File>, key: InternalKey, key': InternalKey, f: File)
    requires f in files && Less(key, f.smallest) && !Less(key', f.smallest) && Less(key, key')
    ensures StartsAfter(files, key') < StartsAfter(files, key)
  {
    StartsAfterMonotone(files[1..], key, key');
    if files[0] != f {
      StartsAfterFalls(files[1..], key, key', f);
    }
  }

  lemma {:induction false} StartsAfterMonotone(files: seq<File>, key: InternalKey, key': InternalKey)
    requires Less(key, key')
    ensures StartsAfter(files, key') <= StartsAfter(files, key)
  {
    if files != [] {
      StartsAfterMonotone(files[1..], key, key');
    }
  }

  lemma LargestIsUnique(files: seq<File>, a: InternalKey, b: InternalKey)
    requires IsLargest(files, a) && IsLargest(files, b)
    ensures a == b
  {
    LessIsLexicographic(a, b);
  }

  method AddBoundaryInputs(levelFiles: seq<File>, inputs: seq<File>) returns (r: seq<File>)
    requires forall f :: f in levelFiles ==> FileOk(f)
    ensures BoundaryChain(levelFiles, inputs, r)
    ensures NoBoundaryLeft(levelFiles, r)
  {
    r := inputs;
    if inputs == [] {
      return;
    }
    var largest := FindLargestKey(inputs);
    var searching := true;
    while searching
      invariant BoundaryChain(levelFiles, inputs, r)
      invariant r != [] && IsLargest(r, largest)
      invariant !searching ==> forall f :: f in levelFiles ==> !IsBoundary(f, largest)
      decreases searching, StartsAfter(levelFiles, largest)
    {
      var found := FindSmallestBoundaryFile(levelFiles, largest);
      if found.Some? {
        var f := found.value;
        FileBounds(f);
        StartsAfterFalls(levelFiles, largest, f.largest, f);
        ExtendChain(levelFiles, inputs, r, largest, f);
        r := r + [f];
        largest := f.largest;
      } else {
        searching := false;
      }
    }
    forall key, f | IsLargest(r, key) && f in levelFiles
      ensures !IsBoundary(f, key)
    {
      LargestIsUnique(r, key, largest);
    }
  }

  lemma ExtendChain(files: seq<File>, inputs: seq<File>, r: seq<File>, largest: InternalKey, f: File)
    requires BoundaryChain(files, inputs, r) && IsLargest(r, largest) && FileOk(f)
    requires IsSmallestBoundary(files, largest, f)
    ensures BoundaryChain(files, inputs, r + [f])
    ensures IsLargest(r + [f], f.largest)
  {
    var r' := r + [f];
    FileBounds(f);
    assert f in r';
    forall g | g in r'
      ensures !Less(f.largest, g.largest)
    {
      assert g == f || g in r;
    }
    forall i, key | |inputs| <= i < |r'| && IsLargest(r'[..i], key)
      ensures IsSmallestBoundary(files, key, r'[i])
    {
      if i < |r| {
        assert r'[..i] == r[..i];
      } else {
        assert r'[..i] == r;
        LargestIsUnique(r, key, largest);
      }
    }
  }

  /** In a sorted level, a run of neighbouring files stays one when its boundary files are added. */
  lemma {:induction false} ChainIsSlice(files: seq<File>, inputs: seq<File>, r: seq<File>, a: nat)
    requires SortedLevel(files) && inputs != [] && a + |inputs| <= |files| && inputs == files[a..a + |inputs|]
    requires BoundaryChain(files, inputs, r)
    ensures a + |r| <= |files| && r == files[a..a + |r|]
    decreases |r|
  {
    hide SortedLevel, IsLargest, IsSmallestBoundary;
    if |r| > |inputs| {
      var n := |r| - 1;
      var s := r[..n];
      assert BoundaryChain(files, inputs, s) by {
        ChainPrefix(files, inputs, r, n);
      }
      ChainIsSlice(files, inputs, s, a);
      var last := files[a + n - 1];
      SliceLargest(files, a, a + n);
      assert IsSmallestBoundary(files, last.largest, r[n]);
      NextIsBoundary(files, a + n, r[n]);
      assert r == s + [r[n]];
      assert files[a..a + n + 1] == files[a..a + n] + [files[a + n]];
    }
  }

  lemma ChainPrefix(files: seq<File>, inputs: seq<File>, r: seq<File>, n: nat)
    requires BoundaryChain(files, inputs, r) && |inputs| <= n <= |r|
    ensures BoundaryChain(files, inputs, r[..n])
  {
    hide IsLargest, IsSmallestBoundary;
    forall i, key | |inputs| <= i < n && IsLargest(r[..n][..i], key)
      ensures IsSmallestBoundary(files, key, r[i])
    {
      assert r[..n][..i] == r[..i];
    }
  }

  lemma SliceLargest(files: seq<File>, a: nat, b: nat)
    requires SortedLevel(files) && a < b <= |files|
    ensures IsLargest(files[a..b], files[b - 1].largest)
  {
    LargestAscend(files);
    assert files[a..b][b - 1 - a] == files[b - 1];
    assert files[b - 1] in files[a..b];
    forall f | f in files[a..b]
      ensures !Less(files[b - 1].largest, f.largest)
    {
      var i :| 0 <= i < b - a && files[a..b][i] == f;
      assert f == files[a + i];
    }
  }

  lemma NextIsBoundary(files: seq<File>, b: nat, f: File)
    requires SortedLevel(files) && 0 < b <= |files|
    requires IsSmallestBoundary(files, files[b - 1].largest, f)
    ensures b < |files| && f == files[b]
  {
    var k :| 0 <= k < |files| && files[k] == f;
    FileBounds(files[k]);
    LargestAscend(files);
    assert b <= k;
    FileBounds(files[b]);
    assert Less(files[b - 1].largest, files[b].smallest);
    assert files[b] in files;
    assert b < k ==> Less(files[b].largest, f.smallest);
  }

  /** The inputs a compaction starts from: at level 0 all files of a closed range, deeper a run of
      neighbouring files. */
  ghost predicate IsStart(files: seq<File>, level: nat, inputs: seq<File>) {
    && inputs != []
    && if level == 0 then exists lo, hi :: Closed(files, lo, hi) && inputs == Overlapping(files, lo, hi)
       else exists a: nat :: IsSliceAt(files, inputs, a)
  }

  ghost predicate IsSliceAt(files: seq<File>, inputs: seq<File>, a: nat) {
    a + |inputs| <= |files| && inputs == files[a..a + |inputs|]
  }

  /** The inputs a compaction ends up with in its own level. */
  ghost predicate Chosen(files: seq<File>, level: nat, inputs: seq<File>) {
    IsStart(files, level, inputs) && NoBoundaryLeft(files, inputs)
  }

  ghost predicate LevelOk(files: seq<File>, level: nat) {
    && (forall f :: f in files ==> FileOk(f))
    && (level > 0 ==> SortedLevel(files))
  }

  lemma {:induction false} OverlappingMembers(files: seq<File>, lo: Option<UserKey>, hi: Option<UserKey>)
    ensures forall f :: f in Overlapping(files, lo, hi) <==> f in files && Overlaps(f, lo, hi)
  {
    if files != [] {
      OverlappingMembers(files[..|files| - 1], lo, hi);
      assert files == files[..|files| - 1] + [files[|files| - 1]];
    }
  }

  /** In a sorted level, the files overlapping a range are neighbours. */
  lemma OverlappingIsSlice(files: seq<File>, lo: Option<UserKey>, hi: Option<UserKey>) returns (a: nat, b: nat)
    requires SortedLevel(files)
    ensures a <= b <= |files| && Overlapping(files, lo, hi) == files[a..b]
    ensures forall k :: 0 <= k < |files| ==> (Overlaps(files[k], lo, hi) <==> a <= k < b)
  {
    a, b := OverlapInterval(files, lo, hi, |files|);
    OverlappingOfInterval(files, lo, hi, a, b, |files|);
    assert files[..|files|] == files;
  }

  lemma {:induction false} OverlapInterval(files: seq<File>, lo: Option<UserKey>, hi: Option<UserKey>, n: nat) returns (a: nat, b: nat)
    requires SortedLevel(files) && n <= |files|
    ensures a <= b <= n
    ensures forall k :: 0 <= k < n ==> (Overlaps(files[k], lo, hi) <==> a <= k < b)
  {
    hide SortedLevel, Overlaps;
    a, b := 0, 0;
    if n > 0 {
      a, b := OverlapInterval(files, lo, hi, n - 1);
      if Overlaps(files[n - 1], lo, hi) {
        if a == b {
          a, b := n - 1, n;
        } else {
          OverlapConvex(files, lo, hi, a, n - 1);
          b := n;
        }
      }
    }
  }

  lemma {:induction false} OverlappingOfInterval(files: seq<File>, lo: Option<UserKey>, hi: Option<UserKey>, a: nat, b: nat, n: nat)
    requires a <= b <= |files| && n <= |files|
    requires forall k :: 0 <= k < |files| ==> (Overlaps(files[k], lo, hi) <==> a <= k < b)
    ensures Overlapping(files[..n], lo, hi) == if n <= a then [] else if n <= b then files[a..n] else files[a..b]
  {
    hide Overlaps, Overlapping;
    if n == 0 {
      OverlappingNone(lo, hi);
    } else {
      OverlappingOfInterval(files, lo, hi, a, b, n - 1);
      OverlappingStep(files, lo, hi, n - 1);
      if a < n <= b {
        assert files[a..n] == files[a..n - 1] + [files[n - 1]];
      }
    }
  }

  lemma OverlappingNone(lo: Option<UserKey>, hi: Option<UserKey>)
    ensures Overlapping([], lo, hi) == []
  {
  }

  lemma OverlappingStep(files: seq<File>, lo: Option<UserKey>, hi: Option<UserKey>, n: nat)
    requires n < |files|
    ensures Overlapping(files[..n + 1], lo, hi) == Overlapping(files[..n], lo, hi) + if Overlaps(files[n], lo, hi) then [files[n]] else []
  {
    hide Overlaps;
    assert files[..n + 1][..n] == files[..n] && files[..n + 1][n] == files[n];
  }

  lemma OverlapConvex(files: seq<File>, lo: Option<UserKey>, hi: Option<UserKey>, i: nat, j: nat)
    requires SortedLevel(files) && i <= j < |files|
    requires Overlaps(files[i], lo, hi) && Overlaps(files[j], lo, hi)
    ensures forall k :: i <= k <= j ==> Overlaps(files[k], lo, hi)
  {
    LargestAscend(files);
    forall k | i <= k <= j
      ensures Overlaps(files[k], lo, hi)
    {
      FileBounds(files[k]);
      FileBounds(files[j]);
      assert k < j ==> Less(files[k].largest, files[j].smallest);
      assert i < k ==> Less(files[i].largest, files[k].largest);
    }
  }

  /** At level 0 a closed range has no boundary file outside it; deeper, a run of neighbours grows. */
  lemma BoundaryKeepsStart(files: seq<File>, level: nat, inputs: seq<File>, r: seq<File>)
    requires LevelOk(files, level) && IsStart(files, level, inputs) && BoundaryChain(files, inputs, r)
    ensures IsStart(files, level, r)
    ensures level == 0 ==> r == inputs
  {
    if level > 0 {
      var a: nat :| IsSliceAt(files, inputs, a);
      ChainIsSlice(files, inputs, r, a);
      assert IsSliceAt(files, r, a);
    } else {
      var lo, hi :| Closed(files, lo, hi) && inputs == Overlapping(files, lo, hi);
      if r != inputs {
        ClosedHasNoBoundary(files, inputs, r, lo, hi);
      }
    }
  }

  lemma ClosedHasNoBoundary(files: seq<File>, inputs: seq<File>, r: seq<File>, lo: Option<UserKey>, hi: Option<UserKey>)
    requires forall f :: f in files ==> FileOk(f)
    requires Closed(files, lo, hi) && inputs == Overlapping(files, lo, hi) && inputs != []
    requires BoundaryChain(files, inputs, r)
    ensures r == inputs
  {
    if |r| > |inputs| {
      LargestExists(inputs);
      var key :| IsLargest(inputs, key);
      assert r[..|inputs|] == inputs;
      var f := r[|inputs|];
      assert IsSmallestBoundary(files, key, f);
      OverlappingMembers(files, lo, hi);
      var g :| g in inputs && g.largest == key;
      var i :| 0 <= i < |files| && files[i] == g;
      assert Contains(lo, hi, files[i]);
      FileBounds(f);
      FileBounds(g);
      assert Overlaps(f, lo, hi);
    }
  }

  lemma {:induction false} LargestExists(files: seq<File>)
    requires files != []
    ensures exists key :: IsLargest(files, key)
  {
    var n := |files| - 1;
    var last := files[n].largest;
    assert files == files[..n] + [files[n]];
    assert files[n] in files;
    if n == 0 {
      assert IsLargest(files, last);
    } else {
      LargestExists(files[..n]);
      var key :| IsLargest(files[..n], key);
      assert IsLargest(files, if Less(key, last) then last else key);
    }
  }

  /** What GetOverlappingInputs returns is a start, when it is not empty. */
  lemma OverlappingIsStart(files: seq<File>, level: nat, inputs: seq<File>, lo: Option<UserKey>, hi: Option<UserKey>)
    requires LevelOk(files, level) && inputs == Overlapping(files, lo, hi) && inputs != []
    requires level == 0 ==> Closed(files, lo, hi)
    ensures IsStart(files, level, inputs)
  {
    if level > 0 {
      var a, b := OverlappingIsSlice(files, lo, hi);
      assert IsSliceAt(files, inputs, a);
    }
  }

  /** A picked compaction: its files at `level` and `level + 1`, and the files it overlaps below. */
  datatype Compaction = Compaction(level: nat, inputs0: seq<File>, inputs1: seq<File>, grandparents: seq<File>)

  /** The level + 1 inputs are all files there that overlap the level inputs' user keys. */
  ghost predicate TakesOverlap(files1: seq<File>, inputs0: seq<File>, inputs1: seq<File>) {
    exists smallest, largest ::
      && IsSmallest(inputs0, smallest) && IsLargest(inputs0, largest)
      && inputs1 == Overlapping(files1, Some(smallest.user), Some(largest.user))
  }

  /** A compaction that is safe to run: what SetupOtherInputs establishes. */
  ghost predicate IsCompaction(levels: seq<seq<File>>, c: Compaction) {
    && |levels| == NUM_LEVELS && c.level + 1 < NUM_LEVELS
    && Chosen(levels[c.level], c.level, c.inputs0)
    && TakesOverlap(levels[c.level + 1], c.inputs0, c.inputs1)
  }

  ghost predicate LevelsOk(levels: seq<seq<File>>) {
    |levels| == NUM_LEVELS && forall l :: 0 <= l < |levels| ==> LevelOk(levels[l], l)
  }

  method SetupOtherInputs(levels: seq<seq<File>>, level: nat, start: seq<File>, maxFileSize: nat)
    returns (c: Compaction, ghost base0: seq<File>, ghost base1: seq<File>)
    requires LevelsOk(levels) && level + 1 < NUM_LEVELS
    requires IsStart(levels[level], level, start)
    ensures c.level == level && IsCompaction(levels, c)
    // the files asked for are taken, with their boundary files and all they overlap
    ensures BoundaryChain(levels[level], start, base0) && NoBoundaryLeft(levels[level], base0)
    ensures TakesOverlap(levels[level + 1], base0, base1)
    ensures forall f :: f in base0 ==> f in c.inputs0
    // the inputs grow further only if level + 1 gives no more files and the total stays in bounds
    ensures || (c.inputs0 == base0 && c.inputs1 == base1)
            || (&& |base0| < |c.inputs0| && |c.inputs1| == |base1| && base1 != []
                && TotalFileSize(base1) + TotalFileSize(c.inputs0) < ExpandedCompactionByteSizeLimit(maxFileSize))
    ensures level + 2 < NUM_LEVELS ==> TakesOverlap(levels[level + 2], c.inputs0 + c.inputs1, c.grandparents)
  {
    hide FileOk, SortedLevel, IsStart, BoundaryChain, NoBoundaryLeft, IsLargest, IsSmallest, TakesOverlap, Closed;
    var files, files1 := levels[level], levels[level + 1];
    var inputs0 := AddBoundaryInputs(files, start);
    BoundaryKeepsStart(files, level, start, inputs0);
    StartMembers(files, level, inputs0);
    var smallest, largest := GetRange(inputs0);
    var inputs1, _, _ := GetOverlappingInputs(level + 1, files1, Some(smallest), Some(largest));
    RangeTakesOverlap(files1, inputs0, inputs1, smallest, largest);
    base0, base1 := inputs0, inputs1;
    // Get entire range covered by compaction
    var allStart, allLimit := GetRange(inputs0 + inputs1);
    // See if we can grow the number of inputs in "level" without
    // changing the number of "level+1" files we pick up.
    if inputs1 != [] {
      var expanded0, lo, hi := GetOverlappingInputs(level, files, Some(allStart), Some(allLimit));
      StartIsCovered(files, inputs0, inputs0 + inputs1, allStart, allLimit, lo, hi);
      OverlappingIsStart(files, level, expanded0, lo, hi);
      var grown0 := AddBoundaryInputs(files, expanded0);
      BoundaryKeepsStart(files, level, expanded0, grown0);
      ChainMembers(files, expanded0, grown0);
      if |grown0| > |inputs0| &&
         TotalFileSize(inputs1) + TotalFileSize(grown0) < ExpandedCompactionByteSizeLimit(maxFileSize) {
        var newStart, newLimit := GetRange(grown0);
        var expanded1, _, _ := GetOverlappingInputs(level + 1, files1, Some(newStart), Some(newLimit));
        RangeTakesOverlap(files1, grown0, expanded1, newStart, newLimit);
        if |expanded1| == |inputs1| {
          inputs0, inputs1 := grown0, expanded1;
          allStart, allLimit := GetRange(inputs0 + inputs1);
        }
      }
    }
    // Compute the set of grandparent files that overlap this compaction
    var grandparents := [];
    if level + 2 < NUM_LEVELS {
      var overlaps, _, _ := GetOverlappingInputs(level + 2, levels[level + 2], Some(allStart), Some(allLimit));
      grandparents := overlaps;
      RangeTakesOverlap(levels[level + 2], inputs0 + inputs1, grandparents, allStart, allLimit);
    }
    c := Compaction(level, inputs0, inputs1, grandparents);
  }

  lemma StartMembers(files: seq<File>, level: nat, inputs: seq<File>)
    requires IsStart(files, level, inputs)
    ensures inputs != [] && forall f :: f in inputs ==> f in files
  {
    if level == 0 {
      var lo, hi :| Closed(files, lo, hi) && inputs == Overlapping(files, lo, hi);
      OverlappingMembers(files, lo, hi);
    } else {
      var a: nat :| IsSliceAt(files, inputs, a);
      assert forall i :: 0 <= i < |inputs| ==> inputs[i] == files[a + i];
    }
  }

  lemma ChainMembers(files: seq<File>, inputs: seq<File>, r: seq<File>)
    requires BoundaryChain(files, inputs, r)
    ensures forall f :: f in inputs ==> f in r
  {
    assert forall i :: 0 <= i < |inputs| ==> inputs[i] == r[i];
  }

  lemma RangeTakesOverlap(files1: seq<File>, inputs0: seq<File>, inputs1: seq<File>, smallest: InternalKey, largest: InternalKey)
    requires IsSmallest(inputs0, smallest) && IsLargest(inputs0, largest)
    requires inputs1 == Overlapping(files1, Some(smallest.user), Some(largest.user))
    ensures TakesOverlap(files1, inputs0, inputs1)
  {
  }

  /** All inputs lie in the range of the whole compaction, so the wider search finds them again. */
  lemma StartIsCovered(files: seq<File>, inputs0: seq<File>, all: seq<File>, allStart: InternalKey, allLimit: InternalKey,
                       lo: Option<UserKey>, hi: Option<UserKey>)
    requires forall f :: f in files ==> FileOk(f)
    requires inputs0 != [] && (forall f :: f in inputs0 ==> f in files && f in all)
    requires IsSmallest(all, allStart) && IsLargest(all, allLimit)
    requires Within(Some(allStart.user), Some(allLimit.user), lo, hi)
    ensures forall f :: f in inputs0 ==> f in Overlapping(files, lo, hi)
    ensures Overlapping(files, lo, hi) != []
  {
    OverlappingMembers(files, lo, hi);
    forall f | f in inputs0
      ensures f in Overlapping(files, lo, hi)
    {
      FileBounds(f);
      assert Overlaps(f, lo, hi);
    }
    assert inputs0[0] in Overlapping(files, lo, hi);
  }

  /** IsTrivialMove: one file, nothing below it to merge with, and not too much two levels down. */
  predicate IsTrivialMove(c: Compaction, maxFileSize: nat) {
    |c.inputs0| == 1 && c.inputs1 == [] && TotalFileSize(c.grandparents) <= MaxGrandParentOverlapBytes(maxFileSize)
  }
}
