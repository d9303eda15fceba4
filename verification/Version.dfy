/** The files of a version and how they are searched (db/version_set.cc). */
module Version {
  import opened DbFormat
  import opened Wrappers

  const NUM_LEVELS := 7
  const MAX_MEM_COMPACT_LEVEL := 2

  /** FileMetaData, together with the entries its table holds. */
  datatype File = File(number: nat, size: nat, smallest: InternalKey, largest: InternalKey, entries: seq<Entry>)

  ghost predicate FileOk(f: File) {
    && f.entries != [] && Sorted(f.entries)
    && f.smallest == f.entries[0].key && f.largest == f.entries[|f.entries| - 1].key
    && forall i :: 0 <= i < |f.entries| ==> f.entries[i].key.sequence <= MAX_SEQUENCE
  }

  /** Levels 1 and up: files in key order, disjoint. */
  ghost predicate SortedLevel(files: seq<File>) {
    && (forall i :: 0 <= i < |files| ==> FileOk(files[i]))
    && (forall i, j :: 0 <= i < j < |files| ==> Less(files[i].largest, files[j].smallest))
  }

  lemma FileBounds(f: File)
    requires FileOk(f)
    ensures !Less(f.largest, f.smallest)
    ensures f.smallest.user <= f.largest.user
    ensures f.smallest.sequence <= MAX_SEQUENCE && f.largest.sequence <= MAX_SEQUENCE
    ensures forall x :: x in f.entries ==> !Less(x.key, f.smallest) && !Less(f.largest, x.key)
    ensures forall x :: x in f.entries ==> f.smallest.user <= x.key.user <= f.largest.user
  {
    assert |f.entries| > 1 ==> Less(f.entries[0].key, f.entries[|f.entries| - 1].key);
  }

  /** The index FindFile returns: the first file whose largest key is at or after `key`. */
  ghost predicate IsFindFile(files: seq<File>, key: InternalKey, r: nat) {
    && r <= |files|
    && (forall i :: 0 <= i < r ==> Less(files[i].largest, key))
    && (forall i :: r <= i < |files| ==> !Less(files[i].largest, key))
  }

  lemma LargestAscend(files: seq<File>)
    requires SortedLevel(files)
    ensures forall i, j :: 0 <= i < j < |files| ==> Less(files[i].largest, files[j].largest)
  {
    forall i, j | 0 <= i < j < |files|
      ensures Less(files[i].largest, files[j].largest)
    {
      FileBounds(files[j]);
    }
  }

  method FindFile(files: seq<File>, key: InternalKey) returns (right: nat)
    requires SortedLevel(files)
    ensures IsFindFile(files, key, right)
  {
    LargestAscend(files);
    var left := 0;
    right := |files|;
    while left < right
      invariant left <= right <= |files|
      invariant forall i :: 0 <= i < left ==> Less(files[i].largest, key)
      invariant forall i :: right <= i < |files| ==> !Less(files[i].largest, key)
    {
      var mid := (left + right) / 2;
      if Less(files[mid].largest, key) {
        left := mid + 1;
      } else {
        right := mid;
      }
    }
  }

  /** No bound (None) stands for the null pointer: before all keys, or after all keys. */
  predicate AfterFile(user: Option<UserKey>, f: File) {
    user.Some? && user.value > f.largest.user
  }

  predicate BeforeFile(user: Option<UserKey>, f: File) {
    user.Some? && user.value < f.smallest.user
  }

  predicate Overlaps(f: File, lo: Option<UserKey>, hi: Option<UserKey>) {
    !AfterFile(lo, f) && !BeforeFile(hi, f)
  }

  ghost predicate NoOverlap(files: seq<File>, lo: Option<UserKey>, hi: Option<UserKey>) {
    forall i :: 0 <= i < |files| ==> !Overlaps(files[i], lo, hi)
  }

  method SomeFileOverlapsRange(disjointSorted: bool, files: seq<File>, lo: Option<UserKey>, hi: Option<UserKey>) returns (b: bool)
    requires disjointSorted ==> SortedLevel(files)
    ensures b <==> !NoOverlap(files, lo, hi)
  {
    if !disjointSorted {
      // Need to check against all files
      for i := 0 to |files|
        invariant forall k :: 0 <= k < i ==> !Overlaps(files[k], lo, hi)
      {
        if !(AfterFile(lo, files[i]) || BeforeFile(hi, files[i])) {
          assert Overlaps(files[i], lo, hi);
          return true;
        }
      }
      return false;
    }
    var index := 0;
    if lo.Some? {
      // The earliest possible internal key for lo
      index := FindFile(files, LookupKey(lo.value, MAX_SEQUENCE));
    }
    OverlapIsFirst(files, lo, hi, index);
    if index >= |files| {
      return false;
    }
    return !BeforeFile(hi, files[index]);
  }

  /** In a sorted level, some file overlaps iff the first one not before `lo` does. */
  lemma OverlapIsFirst(files: seq<File>, lo: Option<UserKey>, hi: Option<UserKey>, index: nat)
    requires SortedLevel(files)
    requires lo.None? ==> index == 0
    requires lo.Some? ==> IsFindFile(files, LookupKey(lo.value, MAX_SEQUENCE), index)
    ensures NoOverlap(files, lo, hi) <==> index >= |files| || BeforeFile(hi, files[index])
  {
    forall i | 0 <= i < |files|
      ensures AfterFile(lo, files[i]) <==> i < index
    {
      FileBounds(files[i]);
      if lo.Some? {
        LookupKeyBound(files[i].largest, lo.value, MAX_SEQUENCE);
      }
    }
    if index < |files| {
      forall i | index < i < |files| && BeforeFile(hi, files[index])
        ensures BeforeFile(hi, files[i])
      {
        FileBounds(files[index]);
        assert Less(files[index].largest, files[i].smallest);
      }
      assert Overlaps(files[index], lo, hi) <==> !BeforeFile(hi, files[index]);
    }
  }

  function UserBound(key: Option<InternalKey>): Option<UserKey> {
    if key.None? then None else Some(key.value.user)
  }

  function Overlapping(files: seq<File>, lo: Option<UserKey>, hi: Option<UserKey>): seq<File> {
    if files == [] then [] else
      var rest := Overlapping(files[..|files| - 1], lo, hi);
      var f := files[|files| - 1];
      if Overlaps(f, lo, hi) then rest + [f] else rest
  }

  predicate Contains(lo: Option<UserKey>, hi: Option<UserKey>, f: File) {
    (lo.Some? ==> lo.value <= f.smallest.user) && (hi.Some? ==> f.largest.user <= hi.value)
  }

  /** A range that wholly contains every file it overlaps. */
  ghost predicate Closed(files: seq<File>, lo: Option<UserKey>, hi: Option<UserKey>) {
    forall i :: 0 <= i < |files| && Overlaps(files[i], lo, hi) ==> Contains(lo, hi, files[i])
  }

  predicate Within(lo: Option<UserKey>, hi: Option<UserKey>, lo': Option<UserKey>, hi': Option<UserKey>) {
    && (lo'.Some? ==> lo.Some? && lo'.value <= lo.value)
    && (hi'.Some? ==> hi.Some? && hi.value <= hi'.value)
  }

  /** [lo', hi'] is the least closed range around [lo, hi]. */
  ghost predicate IsLeastClosed(files: seq<File>, lo: Option<UserKey>, hi: Option<UserKey>,
                                lo': Option<UserKey>, hi': Option<UserKey>) {
    && Closed(files, lo', hi') && Within(lo, hi, lo', hi')
    && forall a, b :: Closed(files, a, b) && Within(lo, hi, a, b) ==> Within(lo', hi', a, b)
  }

  /** How many files start below `lo`, or end above `hi`: each restart of the scan lowers one of them. */
  ghost function StartsBelow(files: seq<File>, lo: Option<UserKey>): nat {
    if files == [] || lo.None? then 0
    else (if files[0].smallest.user < lo.value then 1 else 0) + StartsBelow(files[1..], lo)
  }

  ghost function EndsAbove(files: seq<File>, hi: Option<UserKey>): nat {
    if files == [] || hi.None? then 0
    else (if files[0].largest.user > hi.value then 1 else 0) + EndsAbove(files[1..], hi)
  }

  lemma {:induction false} StartsBelowShrinks(files: seq<File>, lo: UserKey, k: nat)
    requires k < |files| && files[k].smallest.user < lo
    ensures StartsBelow(files, Some(files[k].smallest.user)) < StartsBelow(files, Some(lo))
  {
    var f := files[k];
    StartsBelowMonotone(files[1..], f.smallest.user, lo);
    if 0 < k {
      assert files[1..][k - 1] == f;
      StartsBelowShrinks(files[1..], lo, k - 1);
    }
  }

  lemma {:induction false} StartsBelowMonotone(files: seq<File>, lo: UserKey, lo': UserKey)
    requires lo <= lo'
    ensures StartsBelow(files, Some(lo)) <= StartsBelow(files, Some(lo'))
  {
    if files != [] {
      StartsBelowMonotone(files[1..], lo, lo');
    }
  }

  lemma {:induction false} EndsAboveShrinks(files: seq<File>, hi: UserKey, k: nat)
    requires k < |files| && files[k].largest.user > hi
    ensures EndsAbove(files, Some(files[k].largest.user)) < EndsAbove(files, Some(hi))
  {
    var f := files[k];
    EndsAboveMonotone(files[1..], hi, f.largest.user);
    if 0 < k {
      assert files[1..][k - 1] == f;
      EndsAboveShrinks(files[1..], hi, k - 1);
    }
  }

  lemma {:induction false} EndsAboveMonotone(files: seq<File>, hi: UserKey, hi': UserKey)
    requires hi <= hi'
    ensures EndsAbove(files, Some(hi')) <= EndsAbove(files, Some(hi))
  {
    if files != [] {
      EndsAboveMonotone(files[1..], hi, hi');
    }
  }

  /** Every closed range around [lo, hi] is around [lo', hi'] too. */
  ghost predicate InEveryClosed(files: seq<File>, lo: Option<UserKey>, hi: Option<UserKey>, lo': Option<UserKey>, hi': Option<UserKey>) {
    forall a, b :: Closed(files, a, b) && Within(lo, hi, a, b) ==> Within(lo', hi', a, b)
  }

  /** All of a file that the range overlaps belongs to every closed range around it. */
  lemma OverlapBelongs(files: seq<File>, lo: Option<UserKey>, hi: Option<UserKey>, lo': Option<UserKey>, hi': Option<UserKey>, i: nat)
    requires InEveryClosed(files, lo, hi, lo', hi') && i < |files| && Overlaps(files[i], lo', hi')
    ensures lo'.Some? && files[i].smallest.user < lo'.value ==> InEveryClosed(files, lo, hi, Some(files[i].smallest.user), hi')
    ensures hi'.Some? && files[i].largest.user > hi'.value ==> InEveryClosed(files, lo, hi, lo', Some(files[i].largest.user))
  {
    forall a, b | Closed(files, a, b) && Within(lo, hi, a, b)
      ensures Contains(a, b, files[i])
    {
      assert Within(lo', hi', a, b);
      assert Overlaps(files[i], a, b);
    }
  }

  /** The first `n` files are in the range as far as they overlap it. */
  ghost predicate ClosedUpTo(files: seq<File>, n: nat, lo: Option<UserKey>, hi: Option<UserKey>) {
    forall k :: 0 <= k < n <= |files| && Overlaps(files[k], lo, hi) ==> Contains(lo, hi, files[k])
  }

  lemma ClosedAtEnd(files: seq<File>, lo: Option<UserKey>, hi: Option<UserKey>)
    requires ClosedUpTo(files, |files|, lo, hi)
    ensures Closed(files, lo, hi)
  {
  }

  lemma OverlappingStep(files: seq<File>, i: nat, lo: Option<UserKey>, hi: Option<UserKey>)
    requires i < |files|
    ensures Overlapping(files[..i + 1], lo, hi) == Overlapping(files[..i], lo, hi) + if Overlaps(files[i], lo, hi) then [files[i]] else []
    ensures Overlapping(files[..0], lo, hi) == []
  {
    assert files[..i + 1][..i] == files[..i];
  }

  /** Level 0 restarts the scan whenever a file widens the range; other levels filter once. */
  method GetOverlappingInputs(level: nat, files: seq<File>, begin: Option<InternalKey>, end: Option<InternalKey>)
    returns (inputs: seq<File>, ghost lo: Option<UserKey>, ghost hi: Option<UserKey>)
    ensures inputs == Overlapping(files, lo, hi)
    ensures level > 0 ==> lo == UserBound(begin) && hi == UserBound(end)
    ensures level == 0 ==> IsLeastClosed(files, UserBound(begin), UserBound(end), lo, hi)
  {
    hide Overlapping, InEveryClosed, Closed, StartsBelow, EndsAbove;
    inputs := [];
    var userBegin, userEnd := UserBound(begin), UserBound(end);
    NothingYet(files, userBegin, userEnd);
    var i := 0;
    while i < |files|
      invariant 0 <= i <= |files|
      invariant inputs == Overlapping(files[..i], userBegin, userEnd)
      invariant userBegin.Some? <==> begin.Some?
      invariant userEnd.Some? <==> end.Some?
      invariant level > 0 ==> userBegin == UserBound(begin) && userEnd == UserBound(end)
      invariant Within(UserBound(begin), UserBound(end), userBegin, userEnd)
      invariant level == 0 ==> ClosedUpTo(files, i, userBegin, userEnd)
      invariant InEveryClosed(files, UserBound(begin), UserBound(end), userBegin, userEnd)
      decreases StartsBelow(files, userBegin) + EndsAbove(files, userEnd), |files| - i
    {
      var f := files[i];
      OverlappingStep(files, i, userBegin, userEnd);
      i := i + 1;
      if begin.Some? && f.largest.user < userBegin.value {
        // "f" is completely before specified range; skip it
      } else if end.Some? && f.smallest.user > userEnd.value {
        // "f" is completely after specified range; skip it
      } else {
        inputs := inputs + [f];
        if level == 0 {
          OverlapBelongs(files, UserBound(begin), UserBound(end), userBegin, userEnd, i - 1);
          if begin.Some? && f.smallest.user < userBegin.value {
            StartsBelowShrinks(files, userBegin.value, i - 1);
            userBegin := Some(f.smallest.user);
            inputs := [];
            i := 0;
          } else if end.Some? && f.largest.user > userEnd.value {
            EndsAboveShrinks(files, userEnd.value, i - 1);
            userEnd := Some(f.largest.user);
            inputs := [];
            i := 0;
          }
          NothingYet(files, userBegin, userEnd);
        }
      }
    }
    assert files[..i] == files;
    lo, hi := userBegin, userEnd;
    if level == 0 {
      ClosedAtEnd(files, lo, hi);
      LeastClosed(files, UserBound(begin), UserBound(end), lo, hi);
    }
  }

  lemma NothingYet(files: seq<File>, lo: Option<UserKey>, hi: Option<UserKey>)
    ensures Overlapping(files[..0], lo, hi) == [] && InEveryClosed(files, lo, hi, lo, hi)
  {
  }

  lemma LeastClosed(files: seq<File>, lo: Option<UserKey>, hi: Option<UserKey>, lo': Option<UserKey>, hi': Option<UserKey>)
    requires Closed(files, lo', hi') && Within(lo, hi, lo', hi') && InEveryClosed(files, lo, hi, lo', hi')
    ensures IsLeastClosed(files, lo, hi, lo', hi')
  {
    hide Closed;
  }

  function TotalFileSize(files: seq<File>): nat {
    if files == [] then 0 else files[0].size + TotalFileSize(files[1..])
  }

  /** A memtable output may go to `level`: no file there or above overlaps its user keys. */
  ghost predicate SafeFlushLevel(levels: seq<seq<File>>, level: nat, lo: UserKey, hi: UserKey) {
    level == 0 || (level < |levels| && forall l :: 0 <= l <= level ==> NoOverlap(levels[l], Some(lo), Some(hi)))
  }

  method PickLevelForMemTableOutput(levels: seq<seq<File>>, lo: UserKey, hi: UserKey, maxGrandparentBytes: nat) returns (level: nat)
    requires |levels| == NUM_LEVELS
    requires forall l :: 1 <= l < |levels| ==> SortedLevel(levels[l])
    ensures level <= MAX_MEM_COMPACT_LEVEL
    ensures SafeFlushLevel(levels, level, lo, hi)
    // and no deeper than it must be: the next level overlaps, or too many bytes below it do
    ensures || (level == 0 && !NoOverlap(levels[0], Some(lo), Some(hi)))
            || level == MAX_MEM_COMPACT_LEVEL
            || !NoOverlap(levels[level + 1], Some(lo), Some(hi))
            || TotalFileSize(Overlapping(levels[level + 2], Some(lo), Some(hi))) > maxGrandparentBytes
  {
    level := 0;
    var overlap := SomeFileOverlapsRange(false, levels[0], Some(lo), Some(hi));
    if !overlap {
      var start := InternalKey(lo, MAX_SEQUENCE, TypeValue);
      var limit := InternalKey(hi, 0, TypeDeletion);
      while level < MAX_MEM_COMPACT_LEVEL
        invariant 0 <= level <= MAX_MEM_COMPACT_LEVEL
        invariant forall l :: 0 <= l <= level ==> NoOverlap(levels[l], Some(lo), Some(hi))
      {
        overlap := SomeFileOverlapsRange(true, levels[level + 1], Some(lo), Some(hi));
        if overlap {
          break;
        }
        if level + 2 < NUM_LEVELS {
          var overlaps, _, _ := GetOverlappingInputs(level + 2, levels[level + 2], Some(start), Some(limit));
          if TotalFileSize(overlaps) > maxGrandparentBytes {
            break;
          }
        }
        level := level + 1;
      }
    }
  }
}
