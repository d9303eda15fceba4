/** Point lookups in a version: Version::Get with its early exit (db/version_set.cc). */
module VersionGet {
  import opened DbFormat
  import opened Wrappers
  import opened View
  import opened Version

  ghost function EntrySet(es: seq<Entry>): set<Entry> {
    set x | x in es
  }

  ghost function LevelSet(files: seq<File>): set<Entry> {
    set i, x | 0 <= i < |files| && x in files[i].entries :: x
  }

  ghost function LevelsSet(levels: seq<seq<File>>): set<Entry> {
    set l, x | 0 <= l < |levels| && x in LevelSet(levels[l]) :: x
  }

  /** Entries of one user key in `a` are all newer than those in `b`. */
  ghost predicate NewerThan(a: set<Entry>, b: set<Entry>) {
    forall x, y :: x in a && y in b && x.key.user == y.key.user ==> x.key.sequence > y.key.sequence
  }

  ghost predicate Level0Ok(files: seq<File>) {
    && (forall i :: 0 <= i < |files| ==> FileOk(files[i]))
    && (forall i, j :: 0 <= i < j < |files| ==> files[i].number != files[j].number)
    && (forall i, j :: 0 <= i < |files| && 0 <= j < |files| && files[i].number > files[j].number ==>
          NewerThan(EntrySet(files[i].entries), EntrySet(files[j].entries)))
  }

  /** What every step keeps: levels in order, newer entries of a user key in smaller levels. */
  ghost predicate VersionOk(levels: seq<seq<File>>) {
    && |levels| == NUM_LEVELS
    && Level0Ok(levels[0])
    && (forall l :: 1 <= l < |levels| ==> SortedLevel(levels[l]))
    && (forall l, m :: 0 <= l < m < |levels| ==> NewerThan(LevelSet(levels[l]), LevelSet(levels[m])))
  }

  ghost predicate Descending(files: seq<File>) {
    forall i, j :: 0 <= i < j < |files| ==> files[i].number >= files[j].number
  }

  /** std::sort by NewestFirst. */
  function NewestFirst(files: seq<File>): (r: seq<File>)
    ensures Descending(r)
    ensures forall f :: f in r <==> f in files
  {
    if files == [] then [] else InsertNewest(files[0], NewestFirst(files[1..]))
  }

  function InsertNewest(f: File, files: seq<File>): (r: seq<File>)
    requires Descending(files)
    ensures Descending(r)
    ensures forall g :: g in r <==> g == f || g in files
  {
    if files == [] || f.number >= files[0].number then
      [f] + files
    else
      var rest := InsertNewest(f, files[1..]);
      assert forall k :: 0 <= k < |rest| ==> rest[k] in rest;
      [files[0]] + rest
  }

  /** The first entry at or after the lookup key, if it has the user key. */
  function FirstSeen(run: seq<Entry>, user: UserKey, s: nat): Option<Entry> {
    var p := LowerBound(run, LookupKey(user, s));
    if p < |run| && run[p].key.user == user then Some(run[p]) else None
  }

  /** Table lookup and SaveValue. */
  method SearchTable(f: File, user: UserKey, s: nat) returns (found: Option<Entry>)
    requires FileOk(f)
    ensures found == FirstSeen(f.entries, user, s)
    ensures found.Some? ==> Newest(EntrySet(f.entries), user, s, found.value)
    ensures found.None? ==> NoneSeen(EntrySet(f.entries), user, s)
  {
    var p := LowerBound(f.entries, LookupKey(user, s));
    RunNewest(f.entries, user, s, p);
    if p < |f.entries| && f.entries[p].key.user == user {
      return Some(f.entries[p]);
    }
    return None;
  }

  method SearchLevel0(files: seq<File>, user: UserKey, s: nat) returns (found: Option<Entry>)
    requires Level0Ok(files)
    ensures found.Some? ==> Newest(LevelSet(files), user, s, found.value)
    ensures found.None? ==> NoneSeen(LevelSet(files), user, s)
  {
    // Find all files that overlap user_key and process them in order from newest to oldest.
    var tmp := [];
    for i := 0 to |files|
      invariant forall f :: f in tmp <==> f in files[..i] && f.smallest.user <= user <= f.largest.user
    {
      if files[i].smallest.user <= user <= files[i].largest.user {
        tmp := tmp + [files[i]];
      }
    }
    assert files[..|files|] == files;
    found := SearchNewestFirst(files, NewestFirst(tmp), user, s);
  }

  method SearchNewestFirst(ghost files: seq<File>, sorted: seq<File>, user: UserKey, s: nat) returns (found: Option<Entry>)
    requires Level0Ok(files) && Descending(sorted)
    requires forall f :: f in sorted <==> f in files && f.smallest.user <= user <= f.largest.user
    ensures found.Some? ==> Newest(LevelSet(files), user, s, found.value)
    ensures found.None? ==> NoneSeen(LevelSet(files), user, s)
  {
    hide Descending, Level0Ok, FileOk, LevelSet, Newest, NoneSeen;
    for i := 0 to |sorted|
      invariant forall k :: 0 <= k < i ==> NoneSeen(EntrySet(sorted[k].entries), user, s)
    {
      Level0FileOk(files, sorted[i]);
      found := SearchTable(sorted[i], user, s);
      if found.Some? {
        FoundInLevel0(files, sorted, i, user, s, found.value);
        return;
      }
    }
    NotFoundInLevel0(files, sorted, user, s);
    return None;
  }

  lemma Level0FileOk(files: seq<File>, f: File)
    requires Level0Ok(files) && f in files
    ensures FileOk(f)
  {
  }

  lemma OlderFile(files: seq<File>, f: File, g: File, x: Entry, y: Entry)
    requires Level0Ok(files) && f in files && g in files && f.number >= g.number
    requires x in f.entries && y in g.entries && x.key.user == y.key.user
    ensures f == g || x.key.sequence > y.key.sequence
  {
    var i :| 0 <= i < |files| && files[i] == f;
    var j :| 0 <= j < |files| && files[j] == g;
    if f.number > g.number {
      assert NewerThan(EntrySet(files[i].entries), EntrySet(files[j].entries));
      assert x in EntrySet(f.entries) && y in EntrySet(g.entries);
    } else {
      assert i == j;
    }
  }

  lemma FoundInLevel0(files: seq<File>, sorted: seq<File>, i: nat, user: UserKey, s: nat, e: Entry)
    requires Level0Ok(files) && i < |sorted| && Descending(sorted)
    requires forall f :: f in sorted <==> f in files && f.smallest.user <= user <= f.largest.user
    requires forall k :: 0 <= k < i ==> NoneSeen(EntrySet(sorted[k].entries), user, s)
    requires Newest(EntrySet(sorted[i].entries), user, s, e)
    ensures Newest(LevelSet(files), user, s, e)
  {
    hide Level0Ok;
    var f := sorted[i];
    var a :| 0 <= a < |files| && files[a] == f;
    assert e in files[a].entries;
    forall x | x in LevelSet(files) && Sees(x, user, s)
      ensures x.key.sequence <= e.key.sequence
    {
      var b :| 0 <= b < |files| && x in files[b].entries;
      var g := files[b];
      Level0FileOk(files, g);
      FileBounds(g);
      var k :| 0 <= k < |sorted| && sorted[k] == g;
      assert x in EntrySet(g.entries);
      assert i <= k;
      OlderFile(files, f, g, e, x);
    }
  }

  lemma NotFoundInLevel0(files: seq<File>, sorted: seq<File>, user: UserKey, s: nat)
    requires Level0Ok(files)
    requires forall f :: f in sorted <==> f in files && f.smallest.user <= user <= f.largest.user
    requires forall k :: 0 <= k < |sorted| ==> NoneSeen(EntrySet(sorted[k].entries), user, s)
    ensures NoneSeen(LevelSet(files), user, s)
  {
    hide Level0Ok;
    forall x | x in LevelSet(files)
      ensures !Sees(x, user, s)
    {
      var b :| 0 <= b < |files| && x in files[b].entries;
      Level0FileOk(files, files[b]);
      FileBounds(files[b]);
      assert x in EntrySet(files[b].entries);
    }
  }

  method SearchSortedLevel(files: seq<File>, user: UserKey, s: nat) returns (found: Option<Entry>)
    requires SortedLevel(files)
    ensures found.Some? ==> Newest(LevelSet(files), user, s, found.value)
    ensures found.None? ==> NoneSeen(LevelSet(files), user, s)
  {
    var ikey := LookupKey(user, s);
    // Binary search to find earliest index whose largest key >= ikey.
    var index := FindFile(files, ikey);
    SeenOnlyInFound(files, user, s, index);
    if index >= |files| {
      return None;
    }
    if user < files[index].smallest.user {
      // All of the file is past any data for user_key
      FileBounds(files[index]);
      return None;
    }
    found := SearchTable(files[index], user, s);
    if found.None? {
      assert NoneSeen(EntrySet(files[index].entries), user, s);
    }
  }

  /** A sorted level holds the newest visible entry of a user key in the file FindFile returns. */
  lemma SeenOnlyInFound(files: seq<File>, user: UserKey, s: nat, index: nat)
    requires SortedLevel(files) && IsFindFile(files, LookupKey(user, s), index)
    ensures forall x :: x in LevelSet(files) && Sees(x, user, s) ==> index < |files|
    ensures index < |files| ==>
              (forall e :: Newest(EntrySet(files[index].entries), user, s, e) ==> Newest(LevelSet(files), user, s, e))
    ensures index < |files| && NoneSeen(EntrySet(files[index].entries), user, s) ==> NoneSeen(LevelSet(files), user, s)
  {
    forall x | x in LevelSet(files) && Sees(x, user, s)
      ensures index < |files|
      ensures x in files[index].entries ||
              exists y :: y in EntrySet(files[index].entries) && Sees(y, user, s) && x.key.sequence <= y.key.sequence
    {
      var b :| 0 <= b < |files| && x in files[b].entries;
      SeenAtOrAfter(files, user, s, index, b, x);
    }
  }

  lemma SeenAtOrAfter(files: seq<File>, user: UserKey, s: nat, index: nat, b: nat, x: Entry)
    requires SortedLevel(files) && IsFindFile(files, LookupKey(user, s), index)
    requires b < |files| && x in files[b].entries && Sees(x, user, s)
    ensures index < |files|
    ensures x in files[index].entries ||
            exists y :: y in EntrySet(files[index].entries) && Sees(y, user, s) && x.key.sequence <= y.key.sequence
  {
    FileBounds(files[b]);
    LookupKeyBound(x.key, user, s);
    LookupKeyBound(files[b].largest, user, s);
    assert index <= b;
    var f := files[index];
    FileBounds(f);
    LookupKeyBound(f.largest, user, s);
    if index < b {
      assert Less(f.largest, files[b].smallest);
      var y := f.entries[|f.entries| - 1];
      LessIsLexicographic(f.largest, files[b].smallest);
      LessIsLexicographic(x.key, files[b].smallest);
      assert y in EntrySet(f.entries);
      assert Sees(y, user, s) && x.key.sequence <= y.key.sequence;
    }
  }

  /** Version::Get: levels are searched in order and the first hit ends the search. */
  method Get(levels: seq<seq<File>>, user: UserKey, s: nat) returns (found: Option<Entry>)
    requires VersionOk(levels)
    ensures found.Some? ==> Newest(LevelsSet(levels), user, s, found.value)
    ensures found.None? ==> NoneSeen(LevelsSet(levels), user, s)
  {
    for level := 0 to NUM_LEVELS
      invariant forall l :: 0 <= l < level ==> NoneSeen(LevelSet(levels[l]), user, s)
    {
      if level == 0 {
        found := SearchLevel0(levels[0], user, s);
      } else {
        found := SearchSortedLevel(levels[level], user, s);
      }
      if found.Some? {
        FirstLevelWins(levels, level, user, s, found.value);
        return;
      }
    }
    return None;
  }

  lemma FirstLevelWins(levels: seq<seq<File>>, level: nat, user: UserKey, s: nat, e: Entry)
    requires VersionOk(levels) && level < |levels|
    requires forall l :: 0 <= l < level ==> NoneSeen(LevelSet(levels[l]), user, s)
    requires Newest(LevelSet(levels[level]), user, s, e)
    ensures Newest(LevelsSet(levels), user, s, e)
  {
    hide LevelSet, Level0Ok, SortedLevel;
    assert e in LevelSet(levels[level]);
    forall x | x in LevelsSet(levels) && Sees(x, user, s)
      ensures x.key.sequence <= e.key.sequence
    {
      var l :| 0 <= l < |levels| && x in LevelSet(levels[l]);
      assert level <= l;
    }
  }
}
