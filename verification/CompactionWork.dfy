/** The compaction loop and its drop rules (db/db_impl.cc, and IsBaseLevelForKey and
    ShouldStopBefore of db/version_set.cc). */
module CompactionWork {
  import opened DbFormat
  import opened Wrappers
  import opened View
  import opened Version
  import opened VersionGet
  import opened CompactionInputs
  import opened Merger

  /** No file of a level below the output level covers the user key. */
  ghost predicate BaseLevel(levels: seq<seq<File>>, level: nat, user: UserKey) {
    forall l, i :: level + 2 <= l < |levels| && 0 <= i < |levels[l]| ==>
      !(levels[l][i].smallest.user <= user <= levels[l][i].largest.user)
  }

  /** last_sequence_for_key when entry `i` is handled. */
  function LastSequenceForKey(es: seq<Entry>, i: nat): nat
    requires i < |es|
  {
    if i > 0 && es[i - 1].key.user == es[i].key.user then es[i - 1].key.sequence else MAX_SEQUENCE
  }

  /** The two drop rules: hidden by a newer entry every snapshot sees, or an obsolete tombstone. */
  ghost predicate Dropped(levels: seq<seq<File>>, level: nat, smallest: nat, es: seq<Entry>, i: nat)
    requires i < |es|
  {
    || LastSequenceForKey(es, i) <= smallest
    || (es[i].key.kind.TypeDeletion? && es[i].key.sequence <= smallest && BaseLevel(levels, level, es[i].key.user))
  }

  /** The entries kept among the first `n`. */
  ghost function Kept(levels: seq<seq<File>>, level: nat, smallest: nat, es: seq<Entry>, n: nat): seq<Entry>
    requires n <= |es|
  {
    if n == 0 then [] else
      var front := Kept(levels, level, smallest, es, n - 1);
      if Dropped(levels, level, smallest, es, n - 1) then front else front + [es[n - 1]]
  }

  lemma {:induction false} KeptMembers(levels: seq<seq<File>>, level: nat, smallest: nat, es: seq<Entry>, n: nat)
    requires n <= |es|
    ensures forall x :: x in Kept(levels, level, smallest, es, n) <==>
              exists i :: 0 <= i < n && es[i] == x && !Dropped(levels, level, smallest, es, i)
  {
    hide Dropped;
    if n > 0 {
      KeptMembers(levels, level, smallest, es, n - 1);
    }
  }

  lemma {:induction false} KeptSorted(levels: seq<seq<File>>, level: nat, smallest: nat, es: seq<Entry>, n: nat)
    requires Sorted(es) && n <= |es|
    ensures Sorted(Kept(levels, level, smallest, es, n))
  {
    if n > 0 {
      KeptSorted(levels, level, smallest, es, n - 1);
      KeptMembers(levels, level, smallest, es, n - 1);
      var front := Kept(levels, level, smallest, es, n - 1);
      forall k | 0 <= k < |front|
        ensures Less(front[k].key, es[n - 1].key)
      {
        assert front[k] in front;
      }
    }
  }

  /** No two entries of the database carry the same sequence number. */
  ghost predicate UniqueSequences(entries: set<Entry>) {
    forall x, y :: x in entries && y in entries && x.key.sequence == y.key.sequence ==> x == y
  }

  /** After an entry every snapshot sees, the rest of its user key is dropped. */
  lemma {:induction false} DroppedBehind(levels: seq<seq<File>>, level: nat, smallest: nat, es: seq<Entry>, i: nat, j: nat)
    requires Sorted(es) && i < j < |es| && es[i].key.user == es[j].key.user && es[i].key.sequence <= smallest
    ensures Dropped(levels, level, smallest, es, j)
  {
    LessIsLexicographic(es[j - 1].key, es[j].key);
    if i < j - 1 {
      LessIsLexicographic(es[i].key, es[j - 1].key);
    }
  }

  /** Entry `i` is a tombstone dropped as obsolete (rule B, not rule A). */
  ghost predicate DroppedTombstone(levels: seq<seq<File>>, level: nat, smallest: nat, es: seq<Entry>, i: nat)
    requires i < |es|
  {
    && smallest < LastSequenceForKey(es, i)
    && es[i].key.kind.TypeDeletion? && es[i].key.sequence <= smallest
    && BaseLevel(levels, level, es[i].key.user)
  }

  /** Dropping tombstone `i` lets the value `y` reappear: `y` is the newest uncompacted entry the
      tombstone hid, and no uncompacted entry every snapshot sees is newer than the tombstone. */
  ghost predicate Resurrects(levels: seq<seq<File>>, level: nat, smallest: nat, es: seq<Entry>, rest: set<Entry>, i: nat, y: Entry)
    ensures Resurrects(levels, level, smallest, es, rest, i, y) ==> i < |es|
  {
    && i < |es| && DroppedTombstone(levels, level, smallest, es, i)
    && (forall x :: x in rest && x.key.user == es[i].key.user && x.key.sequence <= smallest ==> x.key.sequence < es[i].key.sequence)
    && y in rest && y.key.kind.TypeValue? && Sees(y, es[i].key.user, es[i].key.sequence)
    && (forall x :: x in rest && Sees(x, es[i].key.user, es[i].key.sequence) ==> x.key.sequence <= y.key.sequence)
  }

  ghost predicate PreservesView(before: set<Entry>, after: set<Entry>, smallest: nat) {
    forall user, s, a :: smallest <= s && Answer(before, user, s, a) ==> Answer(after, user, s, a)
  }

  ghost function EntriesAfter(levels: seq<seq<File>>, level: nat, smallest: nat, es: seq<Entry>, rest: set<Entry>): set<Entry> {
    EntrySet(Kept(levels, level, smallest, es, |es|)) + rest
  }

  /** Compaction preserves meaning exactly when it resurrects nothing: every snapshot at or above the
      smallest one then gets the same answer for every user key from what is kept. */
  lemma DropRulesExact(levels: seq<seq<File>>, level: nat, smallest: nat, es: seq<Entry>, rest: set<Entry>)
    requires Sorted(es) && EntrySet(es) !! rest && UniqueSequences(EntrySet(es) + rest)
    requires smallest < MAX_SEQUENCE
    ensures PreservesView(EntrySet(es) + rest, EntriesAfter(levels, level, smallest, es, rest), smallest) <==>
            forall i: nat, y :: !Resurrects(levels, level, smallest, es, rest, i, y)
  {
    hide Answer;
    var before := EntrySet(es) + rest;
    var after := EntriesAfter(levels, level, smallest, es, rest);
    if forall i: nat, y :: !Resurrects(levels, level, smallest, es, rest, i, y) {
      forall user, s, a | smallest <= s && Answer(before, user, s, a)
        ensures Answer(after, user, s, a)
      {
        NothingResurrected(levels, level, smallest, es, rest, user, s, a);
      }
    }
    forall i: nat, y | Resurrects(levels, level, smallest, es, rest, i, y)
      ensures !PreservesView(before, after, smallest)
    {
      Resurrected(levels, level, smallest, es, rest, i, y);
      assert Answer(before, es[i].key.user, smallest, None) && !Answer(after, es[i].key.user, smallest, None);
    }
  }

  lemma NothingAdded(levels: seq<seq<File>>, level: nat, smallest: nat, es: seq<Entry>, rest: set<Entry>)
    ensures EntriesAfter(levels, level, smallest, es, rest) <= EntrySet(es) + rest
  {
    hide Kept, Dropped;
    KeptMembers(levels, level, smallest, es, |es|);
  }

  lemma NewestDropped(levels: seq<seq<File>>, level: nat, smallest: nat, es: seq<Entry>, rest: set<Entry>, e: Entry)
    ensures e !in EntriesAfter(levels, level, smallest, es, rest) ==> e !in rest
  {
    hide Kept;
  }

  lemma NothingResurrected(levels: seq<seq<File>>, level: nat, smallest: nat, es: seq<Entry>, rest: set<Entry>,
                           user: UserKey, s: nat, a: Option<Value>)
    requires Sorted(es) && UniqueSequences(EntrySet(es) + rest)
    requires smallest < MAX_SEQUENCE && smallest <= s
    requires forall i: nat, y :: !Resurrects(levels, level, smallest, es, rest, i, y)
    requires Answer(EntrySet(es) + rest, user, s, a)
    ensures Answer(EntriesAfter(levels, level, smallest, es, rest), user, s, a)
  {
    hide Resurrects, DroppedTombstone, EntriesAfter, UniqueSequences, Sorted;
    var before := EntrySet(es) + rest;
    var after := EntriesAfter(levels, level, smallest, es, rest);
    NothingAdded(levels, level, smallest, es, rest);
    if !NoneSeen(before, user, s) {
      NewestExists(before, user, s);
      var e :| Newest(before, user, s, e);
      NewestDropped(levels, level, smallest, es, rest, e);
      if e in after {
        assert Newest(after, user, s, e);
      } else {
        var i := DroppedNewest(levels, level, smallest, es, rest, user, s, e);
        forall y | Newest(after, user, s, y)
          ensures y.key.kind.TypeDeletion?
        {
          NewestAfterIsTombstone(levels, level, smallest, es, rest, user, s, i, y);
        }
      }
    }
  }

  /** If the newest visible entry is dropped, it is dropped as an obsolete tombstone. */
  lemma DroppedNewest(levels: seq<seq<File>>, level: nat, smallest: nat, es: seq<Entry>, rest: set<Entry>,
                      user: UserKey, s: nat, e: Entry) returns (i: nat)
    requires Sorted(es) && UniqueSequences(EntrySet(es) + rest)
    requires smallest < MAX_SEQUENCE && smallest <= s
    requires Newest(EntrySet(es) + rest, user, s, e)
    requires e !in EntriesAfter(levels, level, smallest, es, rest)
    ensures i < |es| && es[i] == e && e.key.kind.TypeDeletion? && DroppedTombstone(levels, level, smallest, es, i)
  {
    hide Kept, BaseLevel;
    KeptMembers(levels, level, smallest, es, |es|);
    assert forall k :: 0 <= k < |es| ==> es[k] in EntrySet(es) + rest;
    var k :| 0 <= k < |es| && es[k] == e;
    i := k;
    assert Dropped(levels, level, smallest, es, i);
    if LastSequenceForKey(es, i) <= smallest {
      LessIsLexicographic(es[i - 1].key, es[i].key);
      assert false;
    }
  }

  /** No kept entry of the tombstone's user key is visible to a snapshot that saw the tombstone. */
  lemma KeptNotSeen(levels: seq<seq<File>>, level: nat, smallest: nat, es: seq<Entry>, rest: set<Entry>,
                    user: UserKey, s: nat, i: nat)
    requires Sorted(es) && UniqueSequences(EntrySet(es) + rest)
    requires smallest < MAX_SEQUENCE && smallest <= s
    requires i < |es| && DroppedTombstone(levels, level, smallest, es, i) && es[i].key.user == user
    requires forall x :: x in EntrySet(es) && Sees(x, user, s) ==> x.key.sequence <= es[i].key.sequence
    ensures NoneSeen(EntrySet(Kept(levels, level, smallest, es, |es|)), user, s)
  {
    hide Kept, BaseLevel;
    KeptMembers(levels, level, smallest, es, |es|);
    assert forall k :: 0 <= k < |es| ==> es[k] in EntrySet(es) + rest;
    forall x | x in EntrySet(Kept(levels, level, smallest, es, |es|))
      ensures !Sees(x, user, s)
    {
      var j :| 0 <= j < |es| && es[j] == x && !Dropped(levels, level, smallest, es, j);
      if Sees(x, user, s) {
        if j < i {
          LessIsLexicographic(es[j].key, es[i].key);
        } else if i < j {
          DroppedBehind(levels, level, smallest, es, i, j);
        }
      }
    }
  }

  lemma NewestAfterIsTombstone(levels: seq<seq<File>>, level: nat, smallest: nat, es: seq<Entry>, rest: set<Entry>,
                               user: UserKey, s: nat, i: nat, y: Entry)
    requires Sorted(es) && UniqueSequences(EntrySet(es) + rest)
    requires smallest < MAX_SEQUENCE && smallest <= s
    requires i < |es| && DroppedTombstone(levels, level, smallest, es, i)
    requires Newest(EntrySet(es) + rest, user, s, es[i]) && es[i] !in rest
    requires Newest(EntriesAfter(levels, level, smallest, es, rest), user, s, y)
    requires !Resurrects(levels, level, smallest, es, rest, i, y)
    ensures y.key.kind.TypeDeletion?
  {
    hide Kept, BaseLevel;
    assert forall x :: x in rest || x in EntrySet(es) ==> x in EntrySet(es) + rest;
    KeptNotSeen(levels, level, smallest, es, rest, user, s, i);
    assert y in rest;
  }

  lemma Resurrected(levels: seq<seq<File>>, level: nat, smallest: nat, es: seq<Entry>, rest: set<Entry>, i: nat, y: Entry)
    requires Sorted(es) && EntrySet(es) !! rest && UniqueSequences(EntrySet(es) + rest)
    requires smallest < MAX_SEQUENCE && Resurrects(levels, level, smallest, es, rest, i, y)
    ensures Answer(EntrySet(es) + rest, es[i].key.user, smallest, None)
    ensures !Answer(EntriesAfter(levels, level, smallest, es, rest), es[i].key.user, smallest, None)
  {
    hide Kept, BaseLevel;
    var user := es[i].key.user;
    assert forall k :: 0 <= k < |es| ==> es[k] in EntrySet(es) + rest;
    forall x | x in EntrySet(es) && Sees(x, user, smallest)
      ensures x.key.sequence <= es[i].key.sequence
    {
      var j :| 0 <= j < |es| && es[j] == x;
      SeenAtOrBehind(es, smallest, i, j);
    }
    assert Newest(EntrySet(es) + rest, user, smallest, es[i]);
    KeptNotSeen(levels, level, smallest, es, rest, user, smallest, i);
    assert Newest(EntriesAfter(levels, level, smallest, es, rest), user, smallest, y);
  }

  lemma SeenAtOrBehind(es: seq<Entry>, smallest: nat, i: nat, j: nat)
    requires Sorted(es) && i < |es| && j < |es| && es[i].key.user == es[j].key.user
    requires smallest < LastSequenceForKey(es, i) && es[j].key.sequence <= smallest
    ensures es[j].key.sequence <= es[i].key.sequence
  {
    if j < i {
      LessIsLexicographic(es[j].key, es[i].key);
      LessIsLexicographic(es[i - 1].key, es[i].key);
      if j < i - 1 {
        LessIsLexicographic(es[j].key, es[i - 1].key);
      }
    } else if i < j {
      LessIsLexicographic(es[i].key, es[j].key);
    }
  }

  /** Why the largest sequence number must stay out of reach: it would drop every entry. */
  lemma {:induction false} MaxSnapshotDropsAll(levels: seq<seq<File>>, level: nat, smallest: nat, es: seq<Entry>, n: nat)
    requires MAX_SEQUENCE <= smallest && n <= |es|
    requires forall i :: 0 <= i < |es| ==> es[i].key.sequence <= MAX_SEQUENCE
    ensures Kept(levels, level, smallest, es, n) == []
  {
    if n > 0 {
      MaxSnapshotDropsAll(levels, level, smallest, es, n - 1);
    }
  }

  /** level_ptrs_: one position per level, moved forward only, for keys asked in ascending order. */
  class BaseLevelCursor {
    const levels: seq<seq<File>>
    const level: nat
    var ptrs: seq<nat>
    /** The largest key asked so far; None before the first question. */
    ghost var asked: Option<UserKey>

    ghost predicate PtrOk(l: nat, ptr: nat, bound: Option<UserKey>)
      requires l < |levels|
    {
      && ptr <= |levels[l]|
      && (bound.None? ==> ptr == 0)
      && (bound.Some? ==> forall i :: 0 <= i < ptr ==> levels[l][i].largest.user < bound.value)
    }

    ghost predicate Valid()
      reads this
    {
      && |ptrs| == |levels| && level + 1 < |levels|
      && (forall l :: level + 2 <= l < |levels| ==> SortedLevel(levels[l]))
      && (forall l :: 0 <= l < |levels| ==> PtrOk(l, ptrs[l], asked))
    }

    constructor (levels: seq<seq<File>>, level: nat)
      requires level + 1 < |levels|
      requires forall l :: level + 2 <= l < |levels| ==> SortedLevel(levels[l])
      ensures Valid() && this.levels == levels && this.level == level && asked == None
    {
      this.levels := levels;
      this.level := level;
      ptrs := seq(|levels|, _ => 0);
      asked := None;
    }

    /** The moving positions answer like a scan of all files of the deeper levels. */
    method IsBaseLevelForKey(user: UserKey) returns (base: bool)
      requires Valid()
      requires asked.Some? ==> asked.value <= user
      modifies this
      ensures Valid() && asked == Some(user)
      ensures base <==> BaseLevel(levels, level, user)
    {
      asked := Some(user);
      for l := level + 2 to |levels|
        invariant Valid() && asked == Some(user)
        invariant forall m, i :: level + 2 <= m < l && 0 <= i < |levels[m]| ==>
                    !(levels[m][i].smallest.user <= user <= levels[m][i].largest.user)
      {
        var covered := AdvanceLevel(l, user);
        if covered {
          return false;
        }
      }
      return true;
    }

    method AdvanceLevel(l: nat, user: UserKey) returns (covered: bool)
      requires Valid() && asked == Some(user) && level + 2 <= l < |levels|
      modifies this
      ensures Valid() && asked == Some(user)
      ensures covered <==> exists i :: 0 <= i < |levels[l]| && levels[l][i].smallest.user <= user <= levels[l][i].largest.user
    {
      var files := levels[l];
      assert PtrOk(l, ptrs[l], asked);
      while ptrs[l] < |files|
        invariant Valid() && asked == Some(user)
        invariant PtrOk(l, ptrs[l], asked)
        decreases |files| - ptrs[l]
      {
        var f := files[ptrs[l]];
        if user <= f.largest.user {
          // We've advanced far enough
          FilesFrom(files, ptrs[l], user);
          return f.smallest.user <= user;
        }
        ptrs := ptrs[l := ptrs[l] + 1];
      }
      return false;
    }
  }

  /** Past the first file that does not end before the key, a file covers the key only if this one does. */
  lemma FilesFrom(files: seq<File>, p: nat, user: UserKey)
    requires SortedLevel(files) && p < |files| && user <= files[p].largest.user
    ensures forall i :: p < i < |files| && files[i].smallest.user <= user ==> files[p].smallest.user <= user
  {
    FileBounds(files[p]);
    assert forall i :: p < i < |files| ==> Less(files[p].largest, files[i].smallest);
  }

  /** ShouldStopBefore: where to end an output so that it overlaps few grandparent bytes. */
  class GrandparentCursor {
    const files: seq<File>
    const limit: nat
    var index: nat
    var seenKey: bool
    var overlappedBytes: nat

    constructor (files: seq<File>, limit: nat)
      ensures index == 0 && this.files == files && this.limit == limit
    {
      this.files := files;
      this.limit := limit;
      index, seenKey, overlappedBytes := 0, false, 0;
    }

    method ShouldStopBefore(key: InternalKey) returns (stop: bool)
      requires index <= |files|
      modifies this
      ensures old(index) <= index <= |files| && seenKey
      // the cursor passes exactly the grandparents that end before the key
      ensures forall i :: old(index) <= i < index ==> Less(files[i].largest, key)
      ensures index < |files| ==> !Less(files[index].largest, key)
      // their sizes add up, once the output has begun, until the limit is exceeded
      ensures var bytes := old(overlappedBytes) + if old(seenKey) then TotalFileSize(files[old(index)..index]) else 0;
              stop == (bytes > limit) && overlappedBytes == if stop then 0 else bytes
    {
      ghost var start := index;
      while index < |files| && Less(files[index].largest, key)
        invariant start <= index <= |files|
        invariant seenKey == old(seenKey)
        invariant forall i :: start <= i < index ==> Less(files[i].largest, key)
        invariant overlappedBytes == old(overlappedBytes) + if old(seenKey) then TotalFileSize(files[start..index]) else 0
      {
        if seenKey {
          overlappedBytes := overlappedBytes + files[index].size;
        }
        TotalFileSizeSnoc(files[start..index], files[index]);
        assert files[start..index + 1] == files[start..index] + [files[index]];
        index := index + 1;
      }
      seenKey := true;
      if overlappedBytes > limit {
        overlappedBytes := 0;
        return true;
      }
      return false;
    }
  }

  lemma {:induction false} TotalFileSizeSnoc(files: seq<File>, f: File)
    ensures TotalFileSize(files + [f]) == TotalFileSize(files) + f.size
  {
    if files == [] {
      assert [f][1..] == [];
    } else {
      TotalFileSizeSnoc(files[1..], f);
      assert (files + [f])[1..] == files[1..] + [f];
    }
  }

  /** The entries of a list of files, in order. */
  ghost function Flat(files: seq<File>): seq<Entry> {
    if files == [] then [] else Flat(files[..|files| - 1]) + files[|files| - 1].entries
  }

  /** Output files: not empty, bounds right, numbered freshly and in order. */
  ghost predicate OutputsOk(files: seq<File>, first: nat, next: nat) {
    && (forall i :: 0 <= i < |files| ==>
          && files[i].entries != []
          && files[i].smallest == files[i].entries[0].key
          && files[i].largest == files[i].entries[|files[i].entries| - 1].key
          && first <= files[i].number < next)
    && (forall i, j :: 0 <= i < j < |files| ==> files[i].number < files[j].number)
  }

  lemma OutputsBelow(files: seq<File>, first: nat, next: nat)
    requires OutputsOk(files, first, next)
    ensures OutputsOk(files, first, next + 1) && forall i :: 0 <= i < |files| ==> files[i].number < next
  {
  }

  /** The outputs of a running compaction: finished files and the table being built, if any. */
  class CompactionOutputs {
    const tableSize: seq<Entry> -> nat
    ghost const first: nat
    var nextFileNumber: nat
    var outputs: seq<File>
    var building: bool
    var number: nat
    var smallest: InternalKey
    var largest: InternalKey
    var entries: seq<Entry>

    ghost predicate Valid()
      reads this
      ensures Valid() ==> OutputsOk(outputs, first, nextFileNumber) && first <= nextFileNumber
    {
      && OutputsOk(outputs, first, nextFileNumber)
      && first <= nextFileNumber
      && (building ==>
            && entries != [] && smallest == entries[0].key && largest == entries[|entries| - 1].key
            && first <= number < nextFileNumber
            && forall i :: 0 <= i < |outputs| ==> outputs[i].number < number)
    }

    ghost function Written(): seq<Entry>
      reads this
    {
      Flat(outputs) + if building then entries else []
    }

    constructor (nextFileNumber: nat, tableSize: seq<Entry> -> nat)
      ensures Valid() && Written() == [] && first == nextFileNumber && !building
    {
      this.tableSize := tableSize;
      this.first := nextFileNumber;
      this.nextFileNumber := nextFileNumber;
      outputs := [];
      building := false;
      number := 0;
      smallest := InternalKey(0.0, 0, TypeDeletion);
      largest := InternalKey(0.0, 0, TypeDeletion);
      entries := [];
    }

    /** OpenCompactionOutputFile if necessary, then Add. */
    method Add(e: Entry)
      requires Valid()
      modifies this
      ensures Valid() && building
      ensures Written() == old(Written()) + [e]
    {
      hide OutputsOk, Flat;
      OutputsBelow(outputs, first, nextFileNumber);
      if !building {
        number := nextFileNumber;
        nextFileNumber := nextFileNumber + 1;
        entries := [];
        building := true;
      }
      if entries == [] {
        smallest := e.key;
      }
      largest := e.key;
      entries := entries + [e];
      assert Written() == old(Written()) + [e];
    }

    lemma AllWritten()
      ensures !building ==> Written() == Flat(outputs)
    {
    }

    /** FinishCompactionOutputFile. */
    method Finish()
      requires Valid() && building
      modifies this
      ensures Valid() && !building
      ensures Written() == old(Written())
    {
      var f := File(number, tableSize(entries), smallest, largest, entries);
      assert (outputs + [f])[..|outputs|] == outputs;
      outputs := outputs + [f];
      building := false;
    }
  }

  /** The loop variables that decide what is dropped. */
  class DropState {
    const baseLevels: BaseLevelCursor
    const smallestSnapshot: nat
    var currentUserKey: Option<UserKey>
    var lastSequenceForKey: nat

    /** The state before entry `i` is handled. */
    ghost predicate At(es: seq<Entry>, i: nat)
      reads this, baseLevels
    {
      && i <= |es| && baseLevels.Valid()
      && (i == 0 ==> currentUserKey == None && baseLevels.asked == None)
      && (0 < i ==> currentUserKey == Some(es[i - 1].key.user) && lastSequenceForKey == es[i - 1].key.sequence)
      && (0 < i && baseLevels.asked.Some? ==> baseLevels.asked.value <= es[i - 1].key.user)
    }

    constructor (levels: seq<seq<File>>, level: nat, smallestSnapshot: nat, ghost es: seq<Entry>)
      requires level + 1 < |levels|
      requires forall l :: level + 2 <= l < |levels| ==> SortedLevel(levels[l])
      ensures At(es, 0) && fresh(baseLevels)
      ensures baseLevels.levels == levels && baseLevels.level == level && this.smallestSnapshot == smallestSnapshot
    {
      var cursor := new BaseLevelCursor(levels, level);
      baseLevels := cursor;
      this.smallestSnapshot := smallestSnapshot;
      currentUserKey := None;
      lastSequenceForKey := MAX_SEQUENCE;
    }

    method ShouldDrop(e: Entry, ghost es: seq<Entry>, ghost i: nat) returns (drop: bool)
      requires Sorted(es) && i < |es| && e == es[i] && At(es, i)
      modifies this, baseLevels
      ensures At(es, i + 1)
      ensures drop <==> Dropped(baseLevels.levels, baseLevels.level, smallestSnapshot, es, i)
    {
      hide BaseLevel, BaseLevelCursor.Valid;
      assert 0 < i ==> Less(es[i - 1].key, es[i].key);
      if currentUserKey != Some(e.key.user) {
        // First occurrence of this user key
        currentUserKey := Some(e.key.user);
        lastSequenceForKey := MAX_SEQUENCE;
      }
      drop := false;
      if lastSequenceForKey <= smallestSnapshot {
        // Hidden by an newer entry for same user key
        drop := true;
      } else if e.key.kind.TypeDeletion? && e.key.sequence <= smallestSnapshot {
        drop := baseLevels.IsBaseLevelForKey(e.key.user);
      }
      lastSequenceForKey := e.key.sequence;
    }
  }

  /** One round of the compaction loop. */
  method HandleEntry(keys: DropState, grandparents: GrandparentCursor, out: CompactionOutputs, maxFileSize: nat,
                     e: Entry, ghost es: seq<Entry>, ghost i: nat)
    requires keys.At(es, i) && out.Valid() && grandparents.index <= |grandparents.files|
    requires Sorted(es) && i < |es| && e == es[i]
    modifies keys, keys.baseLevels, grandparents, out
    ensures keys.At(es, i + 1) && out.Valid() && grandparents.index <= |grandparents.files|
    ensures out.Written() == old(out.Written()) +
              if Dropped(keys.baseLevels.levels, keys.baseLevels.level, keys.smallestSnapshot, es, i) then [] else [e]
  {
    hide *;
    var stop := grandparents.ShouldStopBefore(e.key);
    if stop && out.building {
      out.Finish();
    }
    var drop := keys.ShouldDrop(e, es, i);
    if !drop {
      out.Add(e);
      // Close output file if it is big enough
      if out.tableSize(out.entries) >= maxFileSize {
        out.Finish();
      }
    }
  }

  /** DoCompactionWork: what is written to the outputs is exactly what the drop rules keep of the
      merged inputs, in order. */
  method DoCompactionWork(levels: seq<seq<File>>, c: Compaction, smallestSnapshot: nat, maxFileSize: nat,
                          tableSize: seq<Entry> -> nat, nextFileNumber: nat, input: MergingIterator)
    returns (outputs: seq<File>, next: nat)
    requires input.Ok() && LevelsOk(levels) && c.level + 1 < NUM_LEVELS
    modifies input, input.children
    ensures Flat(outputs) == Kept(levels, c.level, smallestSnapshot, input.merged, |input.merged|)
    ensures OutputsOk(outputs, nextFileNumber, next) && nextFileNumber <= next
  {
    hide *;
    ghost var es := input.merged;
    DeeperLevelsSorted(levels, c.level);
    var keys := new DropState(levels, c.level, smallestSnapshot, es);
    var grandparents := new GrandparentCursor(c.grandparents, MaxGrandParentOverlapBytes(maxFileSize));
    var out := new CompactionOutputs(nextFileNumber, tableSize);
    input.SeekToFirst();
    KeptStart(levels, c.level, smallestSnapshot, es);
    while input.Valid()
      invariant input.Ok() && out.Valid() && keys.At(es, input.at)
      invariant grandparents.index <= |grandparents.files|
      invariant out.Written() == Kept(levels, c.level, smallestSnapshot, es, input.at)
      decreases |es| - input.at
    {
      KeptStep(levels, c.level, smallestSnapshot, es, input.at);
      HandleEntry(keys, grandparents, out, maxFileSize, input.Current(), es, input.at);
      input.Next();
    }
    if out.building {
      out.Finish();
    }
    out.AllWritten();
    return out.outputs, out.nextFileNumber;
  }

  lemma DeeperLevelsSorted(levels: seq<seq<File>>, level: nat)
    requires LevelsOk(levels)
    ensures |levels| == NUM_LEVELS && forall l :: level + 2 <= l < |levels| ==> SortedLevel(levels[l])
  {
  }

  lemma KeptStart(levels: seq<seq<File>>, level: nat, smallest: nat, es: seq<Entry>)
    ensures Kept(levels, level, smallest, es, 0) == []
  {
  }

  lemma KeptStep(levels: seq<seq<File>>, level: nat, smallest: nat, es: seq<Entry>, i: nat)
    requires i < |es|
    ensures Kept(levels, level, smallest, es, i + 1) ==
            Kept(levels, level, smallest, es, i) + if Dropped(levels, level, smallest, es, i) then [] else [es[i]]
  {
  }
}