/** Building the merging iterator over memtables and files (db/db_impl.cc NewInternalIterator,
    db/version_set.cc AddIterators and MakeInputIterator). */
module InternalIterator {
  import opened DbFormat
  import opened Version
  import opened VersionGet
  import opened CompactionWork
  import opened LevelReplace
  import opened Merger

  /** Runs that can be merged: sorted, and no key in two of them. */
  ghost predicate Mergeable(runs: seq<seq<Entry>>) {
    && (forall c :: 0 <= c < |runs| ==> Sorted(runs[c]))
    && (forall c, d :: 0 <= c < d < |runs| ==> NoCommonKey(runs[c], runs[d]))
  }

  ghost predicate NoCommonKey(a: seq<Entry>, b: seq<Entry>) {
    forall x, y :: x in a && y in b ==> x.key != y.key
  }

  ghost function RunsSet(runs: seq<seq<Entry>>): set<Entry> {
    set c, x | 0 <= c < |runs| && x in runs[c] :: x
  }

  lemma {:induction false} InsertRun(merged: seq<Entry>, run: seq<Entry>) returns (r: seq<Entry>)
    requires Sorted(merged) && Sorted(run) && NoCommonKey(merged, run)
    ensures Sorted(r) && forall x :: x in r <==> x in merged || x in run
  {
    if run == [] {
      r := merged;
    } else {
      var n := |run| - 1;
      var e := run[n];
      assert run == run[..n] + [e];
      var q := InsertRun(merged, run[..n]);
      assert e in run;
      forall x | x in q
        ensures x.key != e.key
      {
        if x in run[..n] {
          var i :| 0 <= i < n && run[i] == x;
          assert Less(run[i].key, run[n].key);
        }
      }
      var p := LowerBound(q, e.key);
      r := q[..p] + [e] + q[p..];
      InsertAtSorted(q, e, p);
      assert q == q[..p] + q[p..];
      assert forall x :: x in q <==> x in q[..p] || x in q[p..];
    }
  }

  /** Mergeable runs have a merge, and it holds exactly their entries. */
  lemma {:induction false} MergeExists(runs: seq<seq<Entry>>) returns (merged: seq<Entry>)
    requires Mergeable(runs)
    ensures Sorted(merged) && EntrySet(merged) == RunsSet(runs)
  {
    if runs == [] {
      merged := [];
    } else {
      var n := |runs| - 1;
      var front := MergeExists(runs[..n]);
      assert forall c :: 0 <= c < n ==> runs[..n][c] == runs[c];
      forall x, y | x in front && y in runs[n]
        ensures x.key != y.key
      {
        assert x in RunsSet(runs[..n]);
        var c :| 0 <= c < n && x in runs[..n][c];
        assert NoCommonKey(runs[c], runs[n]);
      }
      merged := InsertRun(front, runs[n]);
      forall x
        ensures x in merged <==> x in RunsSet(runs)
      {
        if x in RunsSet(runs) {
          var c :| 0 <= c < |runs| && x in runs[c];
          assert c < n ==> x in runs[..n][c];
          assert c < n ==> x in RunsSet(runs[..n]);
          assert x in front || x in runs[n];
        }
        if x in front {
          assert x in RunsSet(runs[..n]);
          var c :| 0 <= c < n && x in runs[..n][c];
          assert x in runs[c];
        }
      }
    }
  }

  lemma RunEntryMerged(runs: seq<seq<Entry>>, merged: seq<Entry>, c: nat, i: nat)
    requires EntrySet(merged) == RunsSet(runs) && c < |runs| && i < |runs[c]|
    ensures runs[c][i] in merged
  {
    assert runs[c][i] in runs[c];
    assert runs[c][i] in RunsSet(runs);
    assert runs[c][i] in EntrySet(merged);
  }

  lemma MergedInRun(runs: seq<seq<Entry>>, merged: seq<Entry>, m: nat)
    requires EntrySet(merged) == RunsSet(runs) && m < |merged|
    ensures exists c :: 0 <= c < |runs| && merged[m] in runs[c]
  {
    assert merged[m] in EntrySet(merged);
    assert merged[m] in RunsSet(runs);
  }

  lemma KeysDiffer(a: seq<Entry>, b: seq<Entry>, i: nat, j: nat)
    requires NoCommonKey(a, b) && i < |a| && j < |b|
    ensures a[i] != b[j]
  {
    assert a[i] in a && b[j] in b;
  }

  lemma MergeIsMerge(runs: seq<seq<Entry>>, merged: seq<Entry>)
    requires Mergeable(runs) && Sorted(merged) && EntrySet(merged) == RunsSet(runs)
    ensures IsMerge(runs, merged) && Disjoint(runs)
  {
    hide Sorted, NoCommonKey, EntrySet, RunsSet;
    forall c, i | 0 <= c < |runs| && 0 <= i < |runs[c]|
      ensures runs[c][i] in merged
    {
      RunEntryMerged(runs, merged, c, i);
    }
    forall m | 0 <= m < |merged|
      ensures exists c :: 0 <= c < |runs| && merged[m] in runs[c]
    {
      MergedInRun(runs, merged, m);
    }
    forall c, d, i, j | 0 <= c < d < |runs| && 0 <= i < |runs[c]| && 0 <= j < |runs[d]|
      ensures runs[c][i] != runs[d][j]
    {
      KeysDiffer(runs[c], runs[d], i, j);
    }
    assert forall c :: 0 <= c < |runs| ==> Sorted(runs[c]);
    assert forall c, i :: 0 <= c < |runs| && 0 <= i < |runs[c]| ==> runs[c][i] in merged;
    assert forall m :: 0 <= m < |merged| ==> exists c :: 0 <= c < |runs| && merged[m] in runs[c];
    assert IsMerge(runs, merged);
  }

  /** Without children, or with one, the merge is empty or that child's run: the merging iterator moves as the
      empty iterator or the child itself, which NewMergingIterator returns then. */
  lemma ShortcutsAgree(runs: seq<seq<Entry>>, merged: seq<Entry>)
    requires Mergeable(runs) && Sorted(merged) && EntrySet(merged) == RunsSet(runs)
    ensures |runs| == 0 ==> merged == []
    ensures |runs| == 1 ==> merged == runs[0]
  {
    hide Sorted, EntrySet, RunsSet;
    if merged != [] {
      MergedInRun(runs, merged, 0);
    }
    if |runs| == 1 {
      forall x
        ensures x in merged <==> x in runs[0]
      {
        if x in runs[0] {
          var i :| 0 <= i < |runs[0]| && runs[0][i] == x;
          RunEntryMerged(runs, merged, 0, i);
        }
        if x in merged {
          var m :| 0 <= m < |merged| && merged[m] == x;
          MergedInRun(runs, merged, m);
        }
      }
      SortedUnique(merged, runs[0]);
    }
  }

  /** NewMergingIterator over fresh child iterators, one per run. */
  method MakeMergingIterator(runs: seq<seq<Entry>>) returns (iter: MergingIterator)
    requires Mergeable(runs)
    ensures fresh(iter) && fresh(iter.children) && iter.Ok() && !iter.Valid()
    ensures EntrySet(iter.merged) == RunsSet(runs)
  {
    hide IsMerge, Disjoint, Sorted, NoCommonKey, EntrySet, RunsSet;
    var children: seq<Cursor> := [];
    for i := 0 to |runs|
      invariant |children| == i && fresh(children)
      invariant forall c :: 0 <= c < i ==> children[c].entries == runs[c]
      invariant forall c, d :: 0 <= c < d < i ==> children[c] != children[d]
    {
      var child := new Cursor(runs[i]);
      children := children + [child];
    }
    ghost var merged := MergeExists(runs);
    MergeIsMerge(runs, merged);
    assert seq(|children|, c requires 0 <= c < |children| => children[c].entries) == runs;
    iter := new MergingIterator(children, merged);
  }

  /** A sorted level read file after file is one sorted run: the concatenating iterator's view. */
  lemma {:induction false} LevelRunSorted(files: seq<File>)
    requires SortedLevel(files)
    ensures Sorted(Flat(files))
    ensures forall x :: x in Flat(files) <==> x in LevelSet(files)
  {
    hide LevelSet;
    FlatMembers(files);
    if files != [] {
      var n := |files| - 1;
      var front, last := files[..n], files[n];
      LevelRunSorted(front);
      FileBounds(last);
      forall i, j | 0 <= i < |Flat(front)| && 0 <= j < |last.entries|
        ensures Less(Flat(front)[i].key, last.entries[j].key)
      {
        assert Flat(front)[i] in Flat(front);
        var f := LevelSetFile(front, Flat(front)[i]);
        var k :| 0 <= k < n && front[k] == f;
        assert files[k] == f;
        FileBounds(f);
        assert Less(files[k].largest, last.smallest);
        assert last.entries[j] in last.entries;
      }
      assert Flat(files) == Flat(front) + last.entries;
    }
  }

  method ConcatFiles(files: seq<File>) returns (run: seq<Entry>)
    ensures run == Flat(files)
  {
    run := [];
    for i := 0 to |files|
      invariant run == Flat(files[..i])
    {
      run := run + files[i].entries;
      assert files[..i + 1][..i] == files[..i];
    }
    assert files[..|files|] == files;
  }
}
