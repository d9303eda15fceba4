/** Child iterators and the merging iterator over them (table/merger.cc). */
module Merger {
  import opened DbFormat

  /** An iterator over one sorted run. As in the program's iterators over a list, "not valid" is
      one position, past the end, and stepping back from the first entry leads there too. */
  class Cursor {
    const entries: seq<Entry>
    var pos: nat

    constructor (entries: seq<Entry>)
      ensures this.entries == entries && !Valid()
    {
      this.entries := entries;
      pos := |entries|;
    }

    predicate Valid()
      reads this
    {
      pos < |entries|
    }

    function Key(): InternalKey
      requires Valid()
      reads this
    {
      entries[pos].key
    }

    method SeekToFirst()
      modifies this
      ensures pos == 0
    {
      pos := 0;
    }

    method SeekToLast()
      modifies this
      ensures pos == if |entries| == 0 then 0 else |entries| - 1
    {
      pos := if |entries| == 0 then 0 else |entries| - 1;
    }

    method Seek(target: InternalKey)
      requires Sorted(entries)
      modifies this
      ensures IsLowerBound(entries, target, pos)
    {
      pos := 0;
      while pos < |entries| && Less(entries[pos].key, target)
        invariant pos <= |entries|
        invariant forall i :: 0 <= i < pos ==> Less(entries[i].key, target)
      {
        pos := pos + 1;
      }
    }

    method Next()
      requires Valid()
      modifies this
      ensures pos == old(pos) + 1
    {
      pos := pos + 1;
    }

    method Prev()
      requires Valid()
      modifies this
      ensures pos == if old(pos) == 0 then |entries| else old(pos) - 1
    {
      pos := if pos == 0 then |entries| else pos - 1;
    }
  }

  /** `merged` is the sorted merge of the runs, which share no internal key. */
  ghost predicate IsMerge(runs: seq<seq<Entry>>, merged: seq<Entry>) {
    && Sorted(merged)
    && (forall c :: 0 <= c < |runs| ==> Sorted(runs[c]))
    && (forall c, i :: 0 <= c < |runs| && 0 <= i < |runs[c]| ==> runs[c][i] in merged)
    && (forall m :: 0 <= m < |merged| ==> exists c :: 0 <= c < |runs| && merged[m] in runs[c])
  }

  ghost predicate Disjoint(runs: seq<seq<Entry>>) {
    forall c, d, i, j :: 0 <= c < d < |runs| && 0 <= i < |runs[c]| && 0 <= j < |runs[d]| ==> runs[c][i] != runs[d][j]
  }

  lemma MergeIsSorted(runs: seq<seq<Entry>>, merged: seq<Entry>)
    requires IsMerge(runs, merged)
    ensures Sorted(merged) && forall c :: 0 <= c < |runs| ==> Sorted(runs[c])
  {
  }

  /** Every merged entry stands in some run. */
  lemma Owner(runs: seq<seq<Entry>>, merged: seq<Entry>, m: nat) returns (c: nat, i: nat)
    requires IsMerge(runs, merged) && m < |merged|
    ensures c < |runs| && i < |runs[c]| && runs[c][i] == merged[m]
  {
    var e := merged[m];
    assert e in merged;
    c :| 0 <= c < |runs| && e in runs[c];
    i :| 0 <= i < |runs[c]| && runs[c][i] == e;
  }

  /** Every entry of a run stands in the merged list. */
  lemma Rank(runs: seq<seq<Entry>>, merged: seq<Entry>, c: nat, i: nat) returns (j: nat)
    requires IsMerge(runs, merged) && c < |runs| && i < |runs[c]|
    ensures j < |merged| && merged[j] == runs[c][i]
  {
    assert runs[c][i] in merged;
    j :| 0 <= j < |merged| && merged[j] == runs[c][i];
  }

  /** `p` splits a run exactly where `m` splits the merged list. */
  ghost predicate AtCut(es: seq<Entry>, p: nat, merged: seq<Entry>, m: nat) {
    && p <= |es| && m <= |merged|
    && forall i, j :: 0 <= i < |es| && 0 <= j < |merged| && es[i] == merged[j] ==> (i < p <==> j < m)
  }

  /** The position of a child that stands on the last entry before the cut `m`. */
  ghost predicate BeforeCut(es: seq<Entry>, pos: nat, merged: seq<Entry>, m: nat) {
    if pos == |es| then AtCut(es, 0, merged, m) else pos < |es| && AtCut(es, pos + 1, merged, m)
  }

  /** The children of the merging iterator at one moment: runs and positions. */
  ghost predicate AllAtCut(runs: seq<seq<Entry>>, pos: seq<nat>, merged: seq<Entry>, m: nat) {
    |pos| == |runs| && forall c :: 0 <= c < |runs| ==> AtCut(runs[c], pos[c], merged, m)
  }

  ghost predicate AllBeforeCut(runs: seq<seq<Entry>>, pos: seq<nat>, merged: seq<Entry>, m: nat) {
    |pos| == |runs| && forall c :: 0 <= c < |runs| ==> BeforeCut(runs[c], pos[c], merged, m)
  }

  /** The merged entry at a cut stands at its own child's position. */
  lemma CutHolder(runs: seq<seq<Entry>>, pos: seq<nat>, merged: seq<Entry>, m: nat) returns (c: nat)
    requires IsMerge(runs, merged) && AllAtCut(runs, pos, merged, m) && m < |merged|
    ensures c < |runs| && pos[c] < |runs[c]| && runs[c][pos[c]] == merged[m]
  {
    hide IsMerge;
    MergeIsSorted(runs, merged);
    var i;
    c, i := Owner(runs, merged, m);
    assert AtCut(runs[c], pos[c], merged, m);
    var j := Rank(runs, merged, c, pos[c]);
    assert m <= j;
    assert i == pos[c];
  }

  /** The smallest current key over all children is the merged entry at the cut. */
  lemma SmallestIsCut(runs: seq<seq<Entry>>, pos: seq<nat>, merged: seq<Entry>, m: nat, s: nat)
    requires IsMerge(runs, merged) && AllAtCut(runs, pos, merged, m)
    requires s < |runs| && pos[s] < |runs[s]|
    requires forall c :: 0 <= c < |runs| && pos[c] < |runs[c]| ==> !Less(runs[c][pos[c]].key, runs[s][pos[s]].key)
    ensures m < |merged| && runs[s][pos[s]] == merged[m]
  {
    hide IsMerge;
    MergeIsSorted(runs, merged);
    assert AtCut(runs[s], pos[s], merged, m);
    var j := Rank(runs, merged, s, pos[s]);
    var c := CutHolder(runs, pos, merged, m);
    assert j == m;
  }

  /** The merged entry before a cut stands at its own child's position. */
  lemma CutPredecessor(runs: seq<seq<Entry>>, pos: seq<nat>, merged: seq<Entry>, m: nat) returns (c: nat)
    requires IsMerge(runs, merged) && AllBeforeCut(runs, pos, merged, m) && 0 < m <= |merged|
    ensures c < |runs| && pos[c] < |runs[c]| && runs[c][pos[c]] == merged[m - 1]
  {
    hide IsMerge;
    MergeIsSorted(runs, merged);
    var i;
    c, i := Owner(runs, merged, m - 1);
    assert BeforeCut(runs[c], pos[c], merged, m);
    var j := Rank(runs, merged, c, pos[c]);
    assert j <= m - 1;
    assert i == pos[c];
  }

  /** The largest current key over all children is the merged entry before the cut. */
  lemma LargestIsBeforeCut(runs: seq<seq<Entry>>, pos: seq<nat>, merged: seq<Entry>, m: nat, s: nat)
    requires IsMerge(runs, merged) && AllBeforeCut(runs, pos, merged, m)
    requires s < |runs| && pos[s] < |runs[s]|
    requires forall c :: 0 <= c < |runs| && pos[c] < |runs[c]| ==> !Less(runs[s][pos[s]].key, runs[c][pos[c]].key)
    ensures 0 < m && runs[s][pos[s]] == merged[m - 1]
  {
    hide IsMerge;
    MergeIsSorted(runs, merged);
    assert BeforeCut(runs[s], pos[s], merged, m);
    var j := Rank(runs, merged, s, pos[s]);
    var c := CutPredecessor(runs, pos, merged, m);
    assert j == m - 1;
  }

  lemma NoneAtCut(runs: seq<seq<Entry>>, pos: seq<nat>, merged: seq<Entry>, m: nat)
    requires IsMerge(runs, merged) && AllAtCut(runs, pos, merged, m) && m <= |merged|
    requires forall c :: 0 <= c < |runs| ==> |runs[c]| <= pos[c]
    ensures m == |merged|
  {
    if m < |merged| {
      var c := CutHolder(runs, pos, merged, m);
    }
  }

  lemma NoneBeforeCut(runs: seq<seq<Entry>>, pos: seq<nat>, merged: seq<Entry>, m: nat)
    requires IsMerge(runs, merged) && AllBeforeCut(runs, pos, merged, m) && m <= |merged|
    requires forall c :: 0 <= c < |runs| ==> |runs[c]| <= pos[c]
    ensures m == 0
  {
    if 0 < m {
      var c := CutPredecessor(runs, pos, merged, m);
    }
  }

  /** A child sought to the key at which the merged list is cut is cut there too. */
  lemma LowerBoundIsCut(es: seq<Entry>, merged: seq<Entry>, target: InternalKey, m: nat, p: nat)
    requires IsLowerBound(merged, target, m) && IsLowerBound(es, target, p)
    ensures AtCut(es, p, merged, m)
  {
  }

  /** Moving the cut over one entry moves exactly the child that holds it. */
  lemma CutStep(es: seq<Entry>, merged: seq<Entry>, m: nat, p: nat)
    requires Sorted(es) && Sorted(merged) && m < |merged| && AtCut(es, p, merged, m)
    requires p < |es| && es[p] != merged[m] ==> es[p] in merged
    ensures AtCut(es, if p < |es| && es[p] == merged[m] then p + 1 else p, merged, m + 1)
  {
    if p < |es| {
      var j :| 0 <= j < |merged| && merged[j] == es[p];
      assert m <= j;
    }
  }

  /** Moving the cut back over one entry moves exactly the child that holds it. */
  lemma CutBack(es: seq<Entry>, merged: seq<Entry>, m: nat, p: nat)
    requires Sorted(es) && Sorted(merged) && m < |merged| && AtCut(es, p, merged, m + 1)
    requires 0 < p ==> es[p - 1] in merged
    ensures AtCut(es, if 0 < p && es[p - 1] == merged[m] then p - 1 else p, merged, m)
  {
    if 0 < p {
      var j :| 0 <= j < |merged| && merged[j] == es[p - 1];
      assert j <= m;
    }
  }

  /** From the cut, one step back (from past the end: to the last entry) stands before the cut. */
  lemma StepBeforeCut(es: seq<Entry>, p: nat, merged: seq<Entry>, m: nat)
    requires AtCut(es, p, merged, m)
    ensures p < |es| ==> BeforeCut(es, if p == 0 then |es| else p - 1, merged, m)
    ensures p == |es| ==> BeforeCut(es, if |es| == 0 then 0 else |es| - 1, merged, m)
  {
  }

  /** Stepping the child that holds the merged entry moves every child over that entry. */
  lemma CutAdvance(runs: seq<seq<Entry>>, pos: seq<nat>, pos': seq<nat>, merged: seq<Entry>, m: nat, cur: nat)
    requires IsMerge(runs, merged) && Disjoint(runs) && AllAtCut(runs, pos, merged, m) && m < |merged|
    requires cur < |runs| && pos[cur] < |runs[cur]| && runs[cur][pos[cur]] == merged[m]
    requires pos' == pos[cur := pos[cur] + 1]
    ensures AllAtCut(runs, pos', merged, m + 1)
  {
    hide IsMerge, AtCut;
    MergeIsSorted(runs, merged);
    forall c | 0 <= c < |runs|
      ensures AtCut(runs[c], pos'[c], merged, m + 1)
    {
      if pos[c] < |runs[c]| {
        var j := Rank(runs, merged, c, pos[c]);
      }
      assert pos[c] <= |runs[c]| by { AtCutBound(runs[c], pos[c], merged, m); }
      CutStep(runs[c], merged, m, pos[c]);
    }
  }

  lemma AtCutBound(es: seq<Entry>, p: nat, merged: seq<Entry>, m: nat)
    requires AtCut(es, p, merged, m)
    ensures p <= |es| && m <= |merged|
  {
  }

  /** Stepping back the child that holds the merged entry moves every child back over it. */
  lemma CutRetreat(runs: seq<seq<Entry>>, pos: seq<nat>, pos': seq<nat>, merged: seq<Entry>, m: nat, cur: nat)
    requires IsMerge(runs, merged) && Disjoint(runs) && AllBeforeCut(runs, pos, merged, m + 1) && m < |merged|
    requires cur < |runs| && pos[cur] < |runs[cur]| && runs[cur][pos[cur]] == merged[m]
    requires pos' == pos[cur := if pos[cur] == 0 then |runs[cur]| else pos[cur] - 1]
    ensures AllBeforeCut(runs, pos', merged, m)
  {
    hide IsMerge, AtCut;
    MergeIsSorted(runs, merged);
    forall c | 0 <= c < |runs|
      ensures BeforeCut(runs[c], pos'[c], merged, m)
    {
      assert BeforeCut(runs[c], pos[c], merged, m + 1);
      var p := if pos[c] == |runs[c]| then 0 else pos[c] + 1;
      if 0 < p {
        var j := Rank(runs, merged, c, p - 1);
      }
      CutBack(runs[c], merged, m, p);
    }
  }

  /** A child that holds the merged entry at the cut is the only one with that key. */
  lemma OneHolder(runs: seq<seq<Entry>>, merged: seq<Entry>, m: nat, c: nat, p: nat, d: nat, q: nat)
    requires IsMerge(runs, merged) && Disjoint(runs) && m < |merged|
    requires c < |runs| && p < |runs[c]| && runs[c][p] == merged[m]
    requires d < |runs| && q < |runs[d]| && runs[d][q].key == merged[m].key
    ensures c == d
  {
    hide IsMerge;
    MergeIsSorted(runs, merged);
    var j := Rank(runs, merged, d, q);
    assert j == m;
  }

  /** Standing before the cut `m` is, for every child but the holder, standing before the next one. */
  lemma HoldersBeforeNextCut(runs: seq<seq<Entry>>, pos: seq<nat>, merged: seq<Entry>, m: nat, cur: nat)
    requires IsMerge(runs, merged) && Disjoint(runs) && |pos| == |runs| && m < |merged|
    requires cur < |runs| && pos[cur] < |runs[cur]| && runs[cur][pos[cur]] == merged[m]
    requires forall c :: 0 <= c < |runs| && c != cur ==> BeforeCut(runs[c], pos[c], merged, m)
    ensures AllBeforeCut(runs, pos, merged, m + 1)
  {
    hide IsMerge, AtCut;
    MergeIsSorted(runs, merged);
    forall c | 0 <= c < |runs|
      ensures BeforeCut(runs[c], pos[c], merged, m + 1)
    {
      var p := if c == cur then pos[c] else if pos[c] == |runs[c]| then 0 else pos[c] + 1;
      if c == cur {
        HolderAtCut(runs[c], pos[c], merged, m);
      }
      if p < |runs[c]| {
        var j := Rank(runs, merged, c, p);
      }
      CutStep(runs[c], merged, m, p);
    }
  }

  lemma HolderAtCut(es: seq<Entry>, p: nat, merged: seq<Entry>, m: nat)
    requires Sorted(es) && Sorted(merged) && m < |merged| && p < |es| && es[p] == merged[m]
    ensures AtCut(es, p, merged, m)
  {
  }

  lemma KeyIsBound(merged: seq<Entry>, m: nat)
    requires Sorted(merged) && m < |merged|
    ensures IsLowerBound(merged, merged[m].key, m)
  {
  }

  /** A child goes to its first entry at or after `key`. */
  method SeekToCut(child: Cursor, key: InternalKey, ghost merged: seq<Entry>, ghost m: nat)
    requires Sorted(child.entries) && IsLowerBound(merged, key, m)
    modifies child
    ensures AtCut(child.entries, child.pos, merged, m)
  {
    hide Sorted, AtCut;
    child.Seek(key);
    LowerBoundIsCut(child.entries, merged, key, m, child.pos);
  }

  /** A child goes to its last entry before `key`. */
  method SeekBefore(child: Cursor, key: InternalKey, ghost merged: seq<Entry>, ghost m: nat)
    requires Sorted(child.entries) && IsLowerBound(merged, key, m)
    modifies child
    ensures BeforeCut(child.entries, child.pos, merged, m)
  {
    hide Sorted, AtCut;
    child.Seek(key);
    LowerBoundIsCut(child.entries, merged, key, m, child.pos);
    StepBeforeCut(child.entries, child.pos, merged, m);
    if child.Valid() {
      child.Prev();
    } else {
      child.SeekToLast();
    }
  }

  /** MergingIterator: one cursor over the sorted merge of all children, in both directions. */
  class MergingIterator {
    const children: seq<Cursor>
    /** Index of current_ among the children; -1 stands for the null pointer. */
    var current: int
    var forward: bool
    ghost const merged: seq<Entry>
    /** Where the iterator stands in `merged`; |merged| when it is not valid. */
    ghost var at: nat

    ghost function Runs(): (r: seq<seq<Entry>>)
      ensures |r| == |children| && forall c :: 0 <= c < |r| ==> r[c] == children[c].entries
    {
      seq(|children|, c requires 0 <= c < |children| => children[c].entries)
    }

    ghost function Positions(): (r: seq<nat>)
      reads children
      ensures |r| == |children| && forall c :: 0 <= c < |r| ==> r[c] == children[c].pos
    {
      seq(|children|, c requires 0 <= c < |children| reads children => children[c].pos)
    }

    /** The children are distinct objects over runs that share no key, and `merged` is their merge. */
    ghost predicate Shape() {
      && (forall c, d :: 0 <= c < d < |children| ==> children[c] != children[d])
      && IsMerge(Runs(), merged)
      && Disjoint(Runs())
    }

    ghost predicate Ok()
      reads this, children
      ensures Ok() ==> Sorted(merged) && at <= |merged| && (Valid() <==> at < |merged|)
    {
      && Shape()
      && -1 <= current < |children|
      && at <= |merged|
      && (current == -1 <==> at == |merged|)
      && (current != -1 ==>
            && children[current].Valid()
            && children[current].entries[children[current].pos] == merged[at]
            && (forward ==> AllAtCut(Runs(), Positions(), merged, at))
            && (!forward ==> AllBeforeCut(Runs(), Positions(), merged, at + 1)))
    }

    constructor (children: seq<Cursor>, ghost merged: seq<Entry>)
      requires forall c, d :: 0 <= c < d < |children| ==> children[c] != children[d]
      requires var runs := seq(|children|, c requires 0 <= c < |children| => children[c].entries);
               IsMerge(runs, merged) && Disjoint(runs)
      ensures Ok() && this.children == children && this.merged == merged && !Valid()
    {
      this.children := children;
      this.merged := merged;
      current := -1;
      forward := true;
      at := |merged|;
      new;
      assert Runs() == seq(|children|, c requires 0 <= c < |children| => children[c].entries);
    }

    predicate Valid()
      reads this
    {
      current != -1
    }

    function Current(): (e: Entry)
      requires Ok() && Valid()
      reads this, children
      ensures at < |merged| && e == merged[at]
    {
      children[current].entries[children[current].pos]
    }

    /** The scan of FindSmallest; -1 when no child is valid. */
    method SmallestChild() returns (smallest: int)
      ensures -1 <= smallest < |children|
      ensures smallest == -1 ==> forall c :: 0 <= c < |children| ==> !children[c].Valid()
      ensures smallest != -1 ==>
                children[smallest].Valid() &&
                forall c :: 0 <= c < |children| && children[c].Valid() ==> !Less(children[c].Key(), children[smallest].Key())
    {
      smallest := -1;
      var i := 0;
      while i < |children|
        invariant 0 <= i <= |children|
        invariant -1 <= smallest < i
        invariant smallest == -1 ==> forall c :: 0 <= c < i ==> !children[c].Valid()
        invariant smallest != -1 ==>
                    children[smallest].Valid() &&
                    forall c :: 0 <= c < i && children[c].Valid() ==> !Less(children[c].Key(), children[smallest].Key())
      {
        var child := children[i];
        if child.Valid() && (smallest == -1 || Less(child.Key(), children[smallest].Key())) {
          smallest := i;
        }
        i := i + 1;
      }
    }

    /** The scan of FindLargest, from the last child down; -1 when no child is valid. */
    method LargestChild() returns (largest: int)
      ensures -1 <= largest < |children|
      ensures largest == -1 ==> forall c :: 0 <= c < |children| ==> !children[c].Valid()
      ensures largest != -1 ==>
                children[largest].Valid() &&
                forall c :: 0 <= c < |children| && children[c].Valid() ==> !Less(children[largest].Key(), children[c].Key())
    {
      largest := -1;
      var i := |children| - 1;
      while i >= 0
        invariant -1 <= i < |children|
        invariant largest == -1 || i < largest < |children|
        invariant largest == -1 ==> forall c :: i < c < |children| ==> !children[c].Valid()
        invariant largest != -1 ==>
                    children[largest].Valid() &&
                    forall c :: i < c < |children| && children[c].Valid() ==> !Less(children[largest].Key(), children[c].Key())
      {
        var child := children[i];
        if child.Valid() && (largest == -1 || Less(children[largest].Key(), child.Key())) {
          largest := i;
        }
        i := i - 1;
      }
    }

    method FindSmallest(ghost m: nat)
      requires Shape() && m <= |merged|
      requires AllAtCut(Runs(), Positions(), merged, m)
      modifies this
      ensures Ok() && at == m && forward
    {
      hide Disjoint, IsMerge, AtCut, BeforeCut, AllAtCut, AllBeforeCut;
      current := SmallestChild();
      at := m;
      forward := true;
      ghost var runs, pos := Runs(), Positions();
      if current != -1 {
        SmallestIsCut(runs, pos, merged, m, current);
      } else {
        NoneAtCut(runs, pos, merged, m);
      }
    }

    method FindLargest(ghost m: nat)
      requires Shape() && m <= |merged|
      requires AllBeforeCut(Runs(), Positions(), merged, m)
      modifies this
      ensures Ok() && at == (if m == 0 then |merged| else m - 1) && !forward
    {
      hide Disjoint, IsMerge, AtCut, BeforeCut, AllAtCut, AllBeforeCut;
      current := LargestChild();
      at := if m == 0 then |merged| else m - 1;
      forward := false;
      ghost var runs, pos := Runs(), Positions();
      if current != -1 {
        LargestIsBeforeCut(runs, pos, merged, m, current);
        assert AllBeforeCut(Runs(), Positions(), merged, at + 1);
      } else {
        NoneBeforeCut(runs, pos, merged, m);
      }
    }

    method SeekToFirst()
      requires Ok()
      modifies this, children
      ensures Ok() && at == 0
    {
      hide Disjoint;
      var i := 0;
      while i < |children|
        invariant 0 <= i <= |children|
        invariant forall c :: 0 <= c < i ==> children[c].pos == 0
      {
        children[i].SeekToFirst();
        i := i + 1;
      }
      FindSmallest(0);
    }

    method SeekToLast()
      requires Ok()
      modifies this, children
      ensures Ok() && at == if |merged| == 0 then 0 else |merged| - 1
    {
      hide Disjoint;
      var i := 0;
      while i < |children|
        invariant 0 <= i <= |children|
        invariant forall c :: 0 <= c < i ==>
                    children[c].pos == if |children[c].entries| == 0 then 0 else |children[c].entries| - 1
      {
        children[i].SeekToLast();
        i := i + 1;
      }
      FindLargest(|merged|);
    }

    method Seek(target: InternalKey)
      requires Ok()
      modifies this, children
      ensures Ok() && IsLowerBound(merged, target, at)
    {
      hide Disjoint, IsMerge, AtCut;
      MergeIsSorted(Runs(), merged);
      ghost var m := LowerBound(merged, target);
      var i := 0;
      while i < |children|
        invariant 0 <= i <= |children|
        invariant forall c :: 0 <= c < i ==> AtCut(children[c].entries, children[c].pos, merged, m)
      {
        children[i].Seek(target);
        LowerBoundIsCut(children[i].entries, merged, target, m, children[i].pos);
        i := i + 1;
      }
      FindSmallest(m);
    }

    /** The direction switch of Next: every other child goes to its first entry after key(). */
    method TurnForward()
      requires Ok() && Valid() && !forward
      modifies this, children
      ensures Ok() && Valid() && forward && at == old(at) && current == old(current)
    {
      hide Disjoint, IsMerge, AtCut, Sorted, IsLowerBound;
      var key := children[current].Key();
      ghost var runs := Runs();
      MergeIsSorted(runs, merged);
      KeyIsBound(merged, at);
      HolderAtCut(children[current].entries, children[current].pos, merged, at);
      var i := 0;
      while i < |children|
        invariant 0 <= i <= |children|
        invariant children[current].pos == old(children[current].pos)
        invariant forall c :: 0 <= c < i || c == current ==> AtCut(children[c].entries, children[c].pos, merged, at)
        modifies children
      {
        if i != current {
          SeekToCut(children[i], key, merged, at);
          if children[i].Valid() && key == children[i].Key() {
            // Never taken: no two children share a key.
            OneHolder(runs, merged, at, current, children[current].pos, i, children[i].pos);
            assert false;
          }
        }
        i := i + 1;
      }
      forward := true;
    }

    /** The direction switch of Prev: every other child goes to its last entry before key(). */
    method TurnBackward()
      requires Ok() && Valid() && forward
      modifies this, children
      ensures Ok() && Valid() && !forward && at == old(at) && current == old(current)
    {
      hide Disjoint, IsMerge, AtCut, BeforeCut, AllAtCut, Sorted, IsLowerBound;
      var key := children[current].Key();
      ghost var runs := Runs();
      MergeIsSorted(runs, merged);
      KeyIsBound(merged, at);
      var i := 0;
      while i < |children|
        invariant 0 <= i <= |children|
        invariant children[current].pos == old(children[current].pos)
        invariant forall c :: 0 <= c < i && c != current ==> BeforeCut(children[c].entries, children[c].pos, merged, at)
        modifies children
      {
        if i != current {
          SeekBefore(children[i], key, merged, at);
        }
        i := i + 1;
      }
      forward := false;
      HoldersBeforeNextCut(runs, Positions(), merged, at, current);
    }

    /** Next on current_ alone. */
    method AdvanceCurrent()
      requires Ok() && Valid() && forward
      modifies children
      ensures AllAtCut(Runs(), Positions(), merged, at + 1)
    {
      hide Disjoint, IsMerge, AtCut, BeforeCut, AllAtCut, AllBeforeCut;
      ghost var before := Positions();
      children[current].Next();
      assert Positions() == before[current := before[current] + 1];
      CutAdvance(Runs(), before, Positions(), merged, at, current);
    }

    /** Prev on current_ alone. */
    method RetreatCurrent()
      requires Ok() && Valid() && !forward
      modifies children
      ensures AllBeforeCut(Runs(), Positions(), merged, at)
    {
      hide Disjoint, IsMerge, AtCut, BeforeCut, AllAtCut, AllBeforeCut;
      ghost var before := Positions();
      ghost var stepped := if before[current] == 0 then |children[current].entries| else before[current] - 1;
      children[current].Prev();
      assert Positions() == before[current := stepped];
      CutRetreat(Runs(), before, Positions(), merged, at, current);
    }

    method Next()
      requires Ok() && Valid()
      modifies this, children
      ensures Ok() && at == old(at) + 1
    {
      hide Disjoint, IsMerge, AllAtCut, AllBeforeCut;
      if !forward {
        TurnForward();
      }
      AdvanceCurrent();
      FindSmallest(at + 1);
    }

    method Prev()
      requires Ok() && Valid()
      modifies this, children
      ensures Ok() && at == if old(at) == 0 then |merged| else old(at) - 1
    {
      hide Disjoint, IsMerge, AllAtCut, AllBeforeCut;
      if forward {
        TurnBackward();
      }
      RetreatCurrent();
      FindLargest(at);
    }
  }
}
