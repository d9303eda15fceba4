/** The user-facing iterator (db/db_iter.cc): one entry per live user key at a sequence number. */
module DbIter {
  import opened DbFormat
  import opened Wrappers
  import opened View
  import opened VersionGet
  import opened CompactionWork
  import opened Merger

  predicate Visible(e: Entry, s: nat) {
    e.key.sequence <= s
  }

  /** Entry `i` is what the iterator may show: the newest visible entry of its user key, and a value. */
  ghost predicate Shown(es: seq<Entry>, s: nat, i: int) {
    && 0 <= i < |es|
    && Visible(es[i], s) && es[i].key.kind.TypeValue?
    && forall j :: 0 <= j < i && es[j].key.user == es[i].key.user ==> !Visible(es[j], s)
  }

  ghost predicate NoneShown(es: seq<Entry>, s: nat, lo: int, hi: int) {
    forall i :: lo <= i < hi ==> !Shown(es, s, i)
  }

  /** The first shown entry at or after `from`; |es| when there is none. */
  ghost predicate IsNextShown(es: seq<Entry>, s: nat, from: nat, i: nat) {
    i <= |es| && NoneShown(es, s, from, i) && (i < |es| ==> from <= i && Shown(es, s, i))
  }

  /** The last shown entry before `until`; |es| when there is none. */
  ghost predicate IsPrevShown(es: seq<Entry>, s: nat, until: nat, i: nat) {
    if i == |es| then NoneShown(es, s, 0, until) else i < until && Shown(es, s, i) && NoneShown(es, s, i + 1, until)
  }

  /** What FindNextUserEntry knows at internal position `p` when it looks for the first shown entry
      at or after `from`; `skip` is the user key it is skipping, if any. */
  ghost predicate SkipState(es: seq<Entry>, s: nat, p: nat, from: nat, skip: Option<UserKey>) {
    && p <= |es|
    && NoneShown(es, s, from, p)
    // entries that were already yielded are skipped
    && (forall q :: p <= q < from && q < |es| ==>
          skip.Some? && es[q].key.user <= skip.value && (Visible(es[q], s) ==> es[q].key.kind.TypeValue?))
    // skipped entries are not shown
    && (skip.Some? ==> forall q :: p <= q < |es| && from <= q && es[q].key.user <= skip.value ==> !Shown(es, s, q))
    // an entry hidden by an earlier one is skipped
    && (forall j, q :: 0 <= j < p <= q < |es| && Visible(es[j], s) && es[j].key.user == es[q].key.user ==>
          skip.Some? && es[q].key.user <= skip.value)
  }

  lemma SkipDeletion(es: seq<Entry>, s: nat, p: nat, from: nat, skip: Option<UserKey>)
    requires Sorted(es) && SkipState(es, s, p, from, skip)
    requires p < |es| && Visible(es[p], s) && es[p].key.kind.TypeDeletion?
    ensures SkipState(es, s, p + 1, from, Some(es[p].key.user))
  {
    forall q | p + 1 <= q < |es| && from <= q && es[q].key.user <= es[p].key.user
      ensures !Shown(es, s, q)
    {
      assert Less(es[p].key, es[q].key);
    }
    forall j, q | 0 <= j < p + 1 <= q < |es| && Visible(es[j], s) && es[j].key.user == es[q].key.user
      ensures es[q].key.user <= es[p].key.user
    {
      if j < p {
        assert Less(es[j].key, es[p].key);
      }
    }
  }

  lemma SkipHidden(es: seq<Entry>, s: nat, p: nat, from: nat, skip: Option<UserKey>)
    requires SkipState(es, s, p, from, skip) && p < |es|
    requires Visible(es[p], s) ==> skip.Some? && es[p].key.user <= skip.value
    ensures SkipState(es, s, p + 1, from, skip)
  {
    assert from <= p ==> !Shown(es, s, p);
  }

  lemma SkipStop(es: seq<Entry>, s: nat, p: nat, from: nat, skip: Option<UserKey>)
    requires SkipState(es, s, p, from, skip) && p < |es|
    requires Visible(es[p], s) && es[p].key.kind.TypeValue?
    requires !(skip.Some? && es[p].key.user <= skip.value)
    ensures from <= p && Shown(es, s, p)
  {
  }

  lemma SkipStateNoneShown(es: seq<Entry>, s: nat, p: nat, from: nat, skip: Option<UserKey>)
    requires SkipState(es, s, p, from, skip)
    ensures NoneShown(es, s, from, p)
  {
  }

  /** What FindPrevUserEntry knows when all entries from `b` on were scanned: `c` is the entry whose
      key and value are saved, if any, and the shown entry wanted is the last one before `until`. */
  ghost predicate PrevState(es: seq<Entry>, s: nat, b: nat, until: nat, c: Option<nat>) {
    && b <= until <= |es|
    && (c.None? ==> NoneShown(es, s, b, until))
    && (c.Some? ==>
          && b <= c.value < until
          && Visible(es[c.value], s) && es[c.value].key.kind.TypeValue?
          && (forall q :: b <= q < c.value ==> !Visible(es[q], s))
          && NoneShown(es, s, c.value + 1, until))
  }

  lemma PrevInvisible(es: seq<Entry>, s: nat, b: nat, until: nat, c: Option<nat>)
    requires PrevState(es, s, b, until, c) && 0 < b && !Visible(es[b - 1], s)
    ensures PrevState(es, s, b - 1, until, c)
  {
  }

  lemma PrevVisible(es: seq<Entry>, s: nat, b: nat, until: nat, c: Option<nat>)
    requires Sorted(es) && PrevState(es, s, b, until, c) && 0 < b && Visible(es[b - 1], s)
    requires c.Some? ==> !(es[b - 1].key.user < es[c.value].key.user)
    ensures PrevState(es, s, b - 1, until, if es[b - 1].key.kind.TypeDeletion? then None else Some(b - 1))
  {
    if c.Some? {
      assert Less(es[b - 1].key, es[c.value].key);
      assert es[b - 1].key.user == es[c.value].key.user;
      assert !Shown(es, s, c.value);
      assert NoneShown(es, s, b, until);
    }
    assert es[b - 1].key.kind.TypeDeletion? ==> !Shown(es, s, b - 1);
  }

  /** The saved entry is shown once an entry of a smaller user key, or the front, is reached. */
  lemma PrevStop(es: seq<Entry>, s: nat, b: nat, until: nat, c: nat)
    requires Sorted(es) && PrevState(es, s, b, until, Some(c))
    requires 0 < b ==> es[b - 1].key.user < es[c].key.user
    ensures c < |es| && IsPrevShown(es, s, until, c)
    ensures forall q :: b <= q < |es| && es[q].key.user < es[c].key.user ==> !Visible(es[q], s)
  {
    assert forall j :: 0 <= j < b - 1 ==> Less(es[j].key, es[b - 1].key);
    assert forall q :: c < q < |es| ==> Less(es[c].key, es[q].key);
  }

  lemma PrevStateNoneShown(es: seq<Entry>, s: nat, until: nat)
    requires PrevState(es, s, 0, until, None)
    ensures IsPrevShown(es, s, until, |es|)
  {
  }

  lemma IsPrevShownShown(es: seq<Entry>, s: nat, until: nat, i: nat)
    requires IsPrevShown(es, s, until, i) && i < |es|
    ensures Shown(es, s, i)
  {
  }

  lemma UsersAscend(es: seq<Entry>)
    requires Sorted(es)
    ensures forall i, j :: 0 <= i <= j < |es| ==> es[i].key.user <= es[j].key.user
  {
    assert forall i, j :: 0 <= i < j < |es| ==> Less(es[i].key, es[j].key);
  }

  lemma SeekStart(es: seq<Entry>, s: nat, target: UserKey, p: nat)
    requires Sorted(es) && IsLowerBound(es, LookupKey(target, s), p)
    ensures SkipState(es, s, p, p, None)
    ensures forall i :: 0 <= i < p && Shown(es, s, i) ==> es[i].key.user < target
    ensures forall i :: p <= i < |es| ==> target <= es[i].key.user
  {
    forall i | 0 <= i < |es|
      ensures i < p <==> es[i].key.user < target || (es[i].key.user == target && !Visible(es[i], s))
    {
      LookupKeyBound(es[i].key, target, s);
    }
  }

  /** Next starts at `b` with the key just shown as the key to skip. */
  lemma NextStart(es: seq<Entry>, s: nat, b: nat, cur: nat)
    requires Sorted(es) && Shown(es, s, cur)
    requires b <= |es| && (b != cur ==> 0 < b ==> es[b - 1].key.user < es[cur].key.user)
    requires forall q :: b <= q < |es| && es[q].key.user < es[cur].key.user ==> !Visible(es[q], s)
    ensures b <= cur
    ensures SkipState(es, s, b, cur + 1, Some(es[cur].key.user))
  {
    UsersAscend(es);
  }

  /** Prev starts with everything from `b` up to the entry just shown invisible or hidden. */
  lemma PrevStart(es: seq<Entry>, s: nat, b: nat, cur: nat)
    requires Sorted(es) && Shown(es, s, cur) && b <= cur
    requires forall q :: b <= q < cur && es[q].key.user < es[cur].key.user ==> !Visible(es[q], s)
    ensures PrevState(es, s, b, cur, None)
  {
    forall q | b <= q < cur
      ensures !Shown(es, s, q)
    {
      assert Less(es[q].key, es[cur].key);
    }
  }

  /** The live pairs among the first `n` entries, in key order: what a user is meant to iterate over. */
  ghost function Live(es: seq<Entry>, s: nat, n: nat): seq<(UserKey, Value)>
    requires n <= |es|
  {
    if n == 0 then [] else
      var front := Live(es, s, n - 1);
      if Shown(es, s, n - 1) then front + [(es[n - 1].key.user, es[n - 1].value)] else front
  }

  lemma {:induction false} LivePrefix(es: seq<Entry>, s: nat, i: nat, n: nat)
    requires i <= n <= |es|
    ensures Live(es, s, i) <= Live(es, s, n)
    ensures NoneShown(es, s, i, n) ==> Live(es, s, i) == Live(es, s, n)
  {
    hide Shown;
    if i < n {
      LivePrefix(es, s, i, n - 1);
    }
  }

  /** The pair of a shown entry stands at the entry's rank. */
  lemma LiveAt(es: seq<Entry>, s: nat, i: nat)
    requires i < |es| && Shown(es, s, i)
    ensures |Live(es, s, i)| < |Live(es, s, |es|)|
    ensures Live(es, s, |es|)[|Live(es, s, i)|] == (es[i].key.user, es[i].value)
    ensures |Live(es, s, i + 1)| == |Live(es, s, i)| + 1
  {
    hide Shown;
    LivePrefix(es, s, i + 1, |es|);
  }

  lemma {:induction false} LiveOrigin(es: seq<Entry>, s: nat, n: nat, k: nat) returns (i: nat)
    requires n <= |es| && k < |Live(es, s, n)|
    ensures i < n && Shown(es, s, i) && |Live(es, s, i)| == k && Live(es, s, n)[k] == (es[i].key.user, es[i].value)
  {
    hide Shown;
    if Shown(es, s, n - 1) && k == |Live(es, s, n - 1)| {
      i := n - 1;
    } else {
      i := LiveOrigin(es, s, n - 1, k);
    }
  }

  lemma LiveAscends(es: seq<Entry>, s: nat)
    requires Sorted(es)
    ensures forall a, b :: 0 <= a < b < |Live(es, s, |es|)| ==> Live(es, s, |es|)[a].0 < Live(es, s, |es|)[b].0
  {
    var live := Live(es, s, |es|);
    forall a, b | 0 <= a < b < |live|
      ensures live[a].0 < live[b].0
    {
      var i := LiveOrigin(es, s, |es|, a);
      var j := LiveOrigin(es, s, |es|, b);
      if j < i {
        LivePrefix(es, s, j, i);
      }
      assert i < j && Less(es[i].key, es[j].key);
    }
  }

  /** The live pairs are exactly the answers: no deleted, hidden or too-new entry, and none missing. */
  lemma LiveIsAnswer(es: seq<Entry>, s: nat, user: UserKey, v: Value)
    requires Sorted(es) && UniqueSequences(EntrySet(es))
    ensures (user, v) in Live(es, s, |es|) <==> Answer(EntrySet(es), user, s, Some(v))
  {
    var live := Live(es, s, |es|);
    if (user, v) in live {
      var k :| 0 <= k < |live| && live[k] == (user, v);
      var i := LiveOrigin(es, s, |es|, k);
      ShownIsNewest(es, s, i);
      forall e | Newest(EntrySet(es), user, s, e)
        ensures e == es[i]
      {
      }
    }
    if Answer(EntrySet(es), user, s, Some(v)) {
      NewestExists(EntrySet(es), user, s);
      var e :| Newest(EntrySet(es), user, s, e);
      var i :| 0 <= i < |es| && es[i] == e;
      NewestIsShown(es, s, i);
      LiveAt(es, s, i);
    }
  }

  lemma ShownIsNewest(es: seq<Entry>, s: nat, i: nat)
    requires Sorted(es) && i < |es| && Shown(es, s, i)
    ensures Newest(EntrySet(es), es[i].key.user, s, es[i])
  {
    forall x | x in EntrySet(es) && Sees(x, es[i].key.user, s)
      ensures x.key.sequence <= es[i].key.sequence
    {
      var j :| 0 <= j < |es| && es[j] == x;
      assert i < j ==> Less(es[i].key, es[j].key);
      LessIsLexicographic(es[i].key, es[j].key);
    }
  }

  lemma NewestIsShown(es: seq<Entry>, s: nat, i: nat)
    requires Sorted(es) && UniqueSequences(EntrySet(es)) && i < |es|
    requires Newest(EntrySet(es), es[i].key.user, s, es[i]) && es[i].key.kind.TypeValue?
    ensures Shown(es, s, i)
  {
    forall j | 0 <= j < i && es[j].key.user == es[i].key.user
      ensures !Visible(es[j], s)
    {
      assert es[j] in EntrySet(es) && Less(es[j].key, es[i].key);
      LessIsLexicographic(es[j].key, es[i].key);
    }
  }

  /** Two runs hold the same entries as far as a reader at `s` sees. */
  ghost predicate SameVisible(es: seq<Entry>, es': seq<Entry>, s: nat) {
    forall x :: Visible(x, s) ==> (x in es <==> x in es')
  }

  /** What is shown in one is shown in the other. */
  lemma ShownStays(es: seq<Entry>, es': seq<Entry>, s: nat, i: nat) returns (j: nat)
    requires Sorted(es) && Sorted(es') && SameVisible(es, es', s) && Shown(es, s, i)
    ensures j < |es'| && es'[j] == es[i] && Shown(es', s, j)
  {
    hide Less;
    assert es[i] in es;
    j :| 0 <= j < |es'| && es'[j] == es[i];
    forall k | 0 <= k < j && es'[k].key.user == es'[j].key.user
      ensures !Visible(es'[k], s)
    {
      if Visible(es'[k], s) {
        assert es'[k] in es';
        var m :| 0 <= m < |es| && es[m] == es'[k];
        StandsEarlier(es, m, i);
      }
    }
  }

  lemma StandsEarlier(es: seq<Entry>, m: nat, i: nat)
    requires Sorted(es) && m < |es| && i < |es| && Less(es[m].key, es[i].key)
    ensures m < i
  {
  }

  lemma LiveStaysIn(es: seq<Entry>, es': seq<Entry>, s: nat, p: (UserKey, Value))
    requires Sorted(es) && Sorted(es') && SameVisible(es, es', s) && p in Live(es, s, |es|)
    ensures p in Live(es', s, |es'|)
  {
    hide Shown, Sorted, SameVisible, Live;
    var k :| 0 <= k < |Live(es, s, |es|)| && Live(es, s, |es|)[k] == p;
    var i := LiveOrigin(es, s, |es|, k);
    var j := ShownStays(es, es', s, i);
    LiveAt(es', s, j);
  }

  lemma {:induction false} AscendingUnique(a: seq<(UserKey, Value)>, b: seq<(UserKey, Value)>)
    requires forall i, j :: 0 <= i < j < |a| ==> a[i].0 < a[j].0
    requires forall i, j :: 0 <= i < j < |b| ==> b[i].0 < b[j].0
    requires forall p :: p in a <==> p in b
    ensures a == b
  {
    if b != [] {
      assert b[0] in a;
    }
    if a != [] {
      assert a[0] in b;
      assert a[0] == b[0];
      forall p
        ensures p in a[1..] <==> p in b[1..]
      {
        assert p in a <==> p == a[0] || p in a[1..];
        assert p in b <==> p == b[0] || p in b[1..];
      }
      AscendingUnique(a[1..], b[1..]);
    }
  }

  /** Entries that a reader does not see, wherever they come to stand, leave its live pairs as they are. */
  lemma LiveStays(es: seq<Entry>, es': seq<Entry>, s: nat)
    requires Sorted(es) && Sorted(es') && SameVisible(es, es', s)
    ensures Live(es', s, |es'|) == Live(es, s, |es|)
  {
    hide Shown, Sorted, Live;
    forall p
      ensures p in Live(es, s, |es|) <==> p in Live(es', s, |es'|)
    {
      if p in Live(es, s, |es|) {
        LiveStaysIn(es, es', s, p);
      }
      if p in Live(es', s, |es'|) {
        LiveStaysIn(es', es, s, p);
      }
    }
    LiveAscends(es, s);
    LiveAscends(es', s);
    AscendingUnique(Live(es, s, |es|), Live(es', s, |es'|));
  }

  /** Moving to the next shown entry moves one place on in the list of live pairs. */
  lemma NextRank(es: seq<Entry>, s: nat, from: nat, i: nat)
    requires from <= |es| && IsNextShown(es, s, from, i)
    ensures |Live(es, s, i)| == |Live(es, s, from)|
  {
    hide Shown;
    LivePrefix(es, s, if from <= i then from else i, if from <= i then i else from);
  }

  lemma PrevRank(es: seq<Entry>, s: nat, until: nat, i: nat)
    requires until <= |es| && IsPrevShown(es, s, until, i)
    ensures |Live(es, s, i)| == if |Live(es, s, until)| == 0 then |Live(es, s, |es|)| else |Live(es, s, until)| - 1
  {
    hide Shown;
    if i < |es| {
      LiveAt(es, s, i);
      LivePrefix(es, s, i + 1, until);
    } else {
      LivePrefix(es, s, 0, until);
    }
  }

  lemma SeekRank(es: seq<Entry>, s: nat, target: UserKey, i: nat)
    requires Sorted(es) && i <= |es| && (i < |es| ==> Shown(es, s, i) && target <= es[i].key.user)
    requires forall q :: 0 <= q < i && Shown(es, s, q) ==> es[q].key.user < target
    ensures forall k :: 0 <= k < |Live(es, s, |es|)| ==> (k < |Live(es, s, i)| <==> Live(es, s, |es|)[k].0 < target)
  {
    var live := Live(es, s, |es|);
    LiveAscends(es, s);
    forall k | 0 <= k < |live|
      ensures k < |Live(es, s, i)| <==> live[k].0 < target
    {
      var q := LiveOrigin(es, s, |es|, k);
      if q < i {
        LivePrefix(es, s, q + 1, i);
        LiveAt(es, s, q);
      } else {
        LivePrefix(es, s, i, q);
        LiveAt(es, s, i);
      }
    }
  }

  class DBIter {
    const iter: MergingIterator
    const sequence: nat
    /** saved_key_; None while it is cleared or only a temporary. */
    var savedKey: Option<UserKey>
    var savedValue: Value
    var forward: bool
    var valid: bool
    /** Which shown entry the iterator stands on; |merged| when it is not valid. */
    ghost var cur: nat

    ghost predicate Ok()
      reads this, iter, iter.children
    {
      && iter.Ok()
      && cur <= |iter.merged|
      && (valid <==> cur < |iter.merged|)
      && (valid ==> Shown(iter.merged, sequence, cur))
      && (valid && forward ==> iter.Valid() && iter.at == cur)
      && (valid && !forward ==> ReverseState(Below()))
    }

    /** The list the user iterates over, and the place in it; past the end when not valid. */
    ghost function LivePairs(): seq<(UserKey, Value)> {
      Live(iter.merged, sequence, |iter.merged|)
    }

    ghost function Position(): nat
      requires cur <= |iter.merged|
      reads this
    {
      |Live(iter.merged, sequence, cur)|
    }

    /** Key and value are those at the iterator's place in the list. */
    lemma ShowsLivePair()
      requires Ok()
      ensures valid <==> Position() < |LivePairs()|
      ensures valid ==> (Key(), Value()) == LivePairs()[Position()]
    {
      hide Live, Shown, IsMerge, Disjoint, AllAtCut, AllBeforeCut, Sorted;
      if valid {
        LiveAt(iter.merged, sequence, cur);
      }
    }

    /** Entries before this index lie before the internal iterator or under it. */
    ghost function Below(): (b: nat)
      requires iter.Ok()
      reads this, iter, iter.children
      ensures b <= |iter.merged|
    {
      if iter.Valid() then iter.at + 1 else 0
    }

    /** Moving backwards: the internal iterator stands before all visible entries of key(), and
        whatever lies between is invisible. */
    ghost predicate ReverseState(b: nat)
      requires cur < |iter.merged| && b <= |iter.merged|
      reads this
    {
      var es := iter.merged;
      && savedKey == Some(es[cur].key.user)
      && savedValue == es[cur].value
      && (0 < b ==> es[b - 1].key.user < es[cur].key.user)
      && (forall q :: b <= q < |es| && es[q].key.user < es[cur].key.user ==> !Visible(es[q], sequence))
    }

    constructor (iter: MergingIterator, sequence: nat)
      requires iter.Ok()
      ensures Ok() && this.iter == iter && this.sequence == sequence && !valid
    {
      this.iter := iter;
      this.sequence := sequence;
      savedKey := None;
      savedValue := "";
      forward := true;
      valid := false;
      cur := |iter.merged|;
    }

    function Key(): (k: UserKey)
      requires Ok() && valid
      reads this, iter, iter.children
      ensures k == iter.merged[cur].key.user
    {
      if forward then iter.Current().key.user else savedKey.value
    }

    function Value(): (v: Value)
      requires Ok() && valid
      reads this, iter, iter.children
      ensures v == iter.merged[cur].value
    {
      if forward then iter.Current().value else savedValue
    }

    method FindNextUserEntry(skipping: bool, ghost from: nat)
      requires iter.Ok() && iter.Valid() && forward
      requires skipping ==> savedKey.Some?
      requires SkipState(iter.merged, sequence, iter.at, from, if skipping then savedKey else None)
      modifies this, iter, iter.children
      ensures Ok() && forward && IsNextShown(iter.merged, sequence, from, cur)
    {
      hide SkipState, Shown, NoneShown, Sorted, MergingIterator.Ok;
      ghost var es := iter.merged;
      var skip := skipping;
      while iter.Valid()
        invariant iter.Ok() && forward
        invariant skip ==> savedKey.Some?
        invariant SkipState(es, sequence, iter.at, from, if skip then savedKey else None)
        decreases |es| - iter.at
      {
        var e := iter.Current();
        ghost var p := iter.at;
        if e.key.sequence <= sequence {
          if e.key.kind.TypeDeletion? {
            SkipDeletion(es, sequence, p, from, if skip then savedKey else None);
            savedKey := Some(e.key.user);
            skip := true;
          } else if skip && e.key.user <= savedKey.value {
            // Entry hidden
            SkipHidden(es, sequence, p, from, savedKey);
          } else {
            SkipStop(es, sequence, p, from, if skip then savedKey else None);
            SkipStateNoneShown(es, sequence, p, from, if skip then savedKey else None);
            valid := true;
            savedKey := None;
            cur := iter.at;
            return;
          }
        } else {
          SkipHidden(es, sequence, p, from, if skip then savedKey else None);
        }
        iter.Next();
      }
      SkipStateNoneShown(es, sequence, iter.at, from, if skip then savedKey else None);
      savedKey := None;
      valid := false;
      cur := |es|;
    }

    method FindPrevUserEntry(ghost until: nat)
      requires iter.Ok() && !forward
      requires PrevState(iter.merged, sequence, Below(), until, None)
      modifies this, iter, iter.children
      ensures Ok() && IsPrevShown(iter.merged, sequence, until, cur)
    {
      hide PrevState, Shown, NoneShown, IsPrevShown, Sorted, MergingIterator.Ok;
      ghost var es := iter.merged;
      var valueType := TypeDeletion;
      ghost var c: Option<nat> := None;
      while iter.Valid()
        invariant iter.Ok() && !forward
        invariant PrevState(es, sequence, Below(), until, c)
        invariant valueType.TypeValue? <==> c.Some?
        invariant c.Some? ==> c.value < |es| && savedKey == Some(es[c.value].key.user) && savedValue == es[c.value].value
        decreases Below()
      {
        var e := iter.Current();
        ghost var b := Below();
        if e.key.sequence <= sequence {
          if !valueType.TypeDeletion? && e.key.user < savedKey.value {
            // We encountered a non-deleted value in entries for previous keys
            break;
          }
          PrevVisible(es, sequence, b, until, c);
          valueType := e.key.kind;
          if valueType.TypeDeletion? {
            savedKey := None;
            savedValue := "";
            c := None;
          } else {
            savedKey := Some(e.key.user);
            savedValue := e.value;
            c := Some(b - 1);
          }
        } else {
          PrevInvisible(es, sequence, b, until, c);
        }
        iter.Prev();
        assert Below() == b - 1;
      }
      if valueType.TypeDeletion? {
        // End
        PrevStateNoneShown(es, sequence, until);
        valid := false;
        savedKey := None;
        savedValue := "";
        forward := true;
        cur := |es|;
      } else {
        PrevStop(es, sequence, Below(), until, c.value);
        valid := true;
        cur := c.value;
        IsPrevShownShown(es, sequence, until, cur);
      }
    }

    method SeekToFirst()
      requires iter.Ok()
      modifies this, iter, iter.children
      ensures Ok() && IsNextShown(iter.merged, sequence, 0, cur)
      ensures Position() == 0
    {
      hide MergingIterator.Ok;
      forward := true;
      savedValue := "";
      iter.SeekToFirst();
      if iter.Valid() {
        FindNextUserEntry(false, 0);
      } else {
        valid := false;
        cur := |iter.merged|;
      }
      NextRank(iter.merged, sequence, 0, cur);
    }

    /** Lands on the first live user key at or after `target`. */
    method Seek(target: UserKey)
      requires iter.Ok()
      modifies this, iter, iter.children
      ensures Ok()
      ensures forall i :: 0 <= i < cur && Shown(iter.merged, sequence, i) ==> iter.merged[i].key.user < target
      ensures valid ==> target <= iter.merged[cur].key.user
      ensures forall k :: 0 <= k < |LivePairs()| ==> (k < Position() <==> LivePairs()[k].0 < target)
    {
      hide MergingIterator.Ok;
      forward := true;
      savedValue := "";
      savedKey := None;
      iter.Seek(LookupKey(target, sequence));
      SeekStart(iter.merged, sequence, target, iter.at);
      if iter.Valid() {
        ghost var from := iter.at;
        FindNextUserEntry(false, from);
      } else {
        valid := false;
        cur := |iter.merged|;
      }
      SeekRank(iter.merged, sequence, target, cur);
    }

    method SeekToLast()
      requires iter.Ok()
      modifies this, iter, iter.children
      ensures Ok() && IsPrevShown(iter.merged, sequence, |iter.merged|, cur)
      ensures Position() == if LivePairs() == [] then 0 else |LivePairs()| - 1
    {
      hide MergingIterator.Ok;
      forward := false;
      savedValue := "";
      iter.SeekToLast();
      FindPrevUserEntry(|iter.merged|);
      PrevRank(iter.merged, sequence, |iter.merged|, cur);
    }

    /** The direction switch of Next: advance into the range of entries for key(). The iterator is
        valid afterwards, since the entry just shown lies at or after this position. */
    method TurnForward()
      requires Ok() && valid && !forward
      modifies this, iter, iter.children
      ensures iter.Ok() && iter.Valid() && forward
      ensures cur == old(cur) && savedKey == old(savedKey) && iter.at == old(Below())
    {
      hide MergingIterator.Ok, Sorted;
      NextStart(iter.merged, sequence, Below(), cur);
      forward := true;
      if !iter.Valid() {
        iter.SeekToFirst();
      } else {
        iter.Next();
      }
      assert iter.Valid();
    }

    method Next()
      requires Ok() && valid
      modifies this, iter, iter.children
      ensures Ok() && IsNextShown(iter.merged, sequence, old(cur) + 1, cur)
      ensures Position() == old(Position()) + 1
    {
      hide MergingIterator.Ok, Sorted, SkipState, IsNextShown, Shown;
      ghost var b := if forward then cur else Below();
      UsersAscend(iter.merged);
      NextStart(iter.merged, sequence, b, cur);
      if !forward {
        TurnForward();
      } else {
        savedKey := Some(iter.Current().key.user);
      }
      LiveAt(iter.merged, sequence, cur);
      FindNextUserEntry(true, cur + 1);
      NextRank(iter.merged, sequence, old(cur) + 1, cur);
    }

    method Prev()
      requires Ok() && valid
      modifies this, iter, iter.children
      ensures Ok() && IsPrevShown(iter.merged, sequence, old(cur), cur)
      ensures Position() == if old(Position()) == 0 then |LivePairs()| else old(Position()) - 1
    {
      hide MergingIterator.Ok, IsPrevShown, PrevState, Live, NoneShown, Shown;
      ghost var es := iter.merged;
      if forward {
        // Scan backwards until the key changes.
        savedKey := Some(iter.Current().key.user);
        while true
          invariant cur == old(cur) < |es| && forward
          invariant iter.Ok() && iter.Valid() && iter.at <= cur
          invariant savedKey == Some(es[cur].key.user)
          invariant forall q :: iter.at <= q <= cur ==> es[q].key.user == es[cur].key.user
          decreases iter.at
        {
          iter.Prev();
          if !iter.Valid() {
            PrevStart(es, sequence, 0, cur);
            PrevStateNoneShown(es, sequence, cur);
            valid := false;
            savedKey := None;
            savedValue := "";
            cur := |es|;
            PrevRank(es, sequence, old(cur), cur);
            return;
          }
          if iter.Current().key.user < savedKey.value {
            break;
          }
        }
        forward := false;
      }
      PrevStart(es, sequence, Below(), cur);
      FindPrevUserEntry(cur);
      PrevRank(es, sequence, old(cur), cur);
    }
  }
}
