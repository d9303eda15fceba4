/** One shard of the cache (util/cache.cc, class LRUCache). */
module Lru {
  import opened Coding
  import opened HandleTable

  // Circular doubly linked lists

  /** Entry `i` of the ring of a list head and `s`, the head being at both ends. */
  function RingAt(head: nat, s: seq<nat>, i: int): nat {
    if 0 <= i < |s| then s[i] else head
  }

  ghost predicate Distinct(s: seq<nat>) {
    forall i, j :: 0 <= i < j < |s| ==> s[i] != s[j]
  }

  /** From the head `next` leads through `s` back to the head, and `prev` the other way round. */
  ghost predicate Ring(next: map<nat, nat>, prev: map<nat, nat>, head: nat, s: seq<nat>) {
    && head !in s && Distinct(s)
    && head in next && head in prev && (forall e :: e in s ==> e in next && e in prev)
    && (forall i :: -1 <= i < |s| ==> next[RingAt(head, s, i)] == RingAt(head, s, i + 1))
    && (forall i :: 0 <= i <= |s| ==> prev[RingAt(head, s, i)] == RingAt(head, s, i - 1))
  }

  /** Where `e` is in `s`. */
  function IndexIn(s: seq<nat>, e: nat): (k: nat)
    requires e in s
    ensures k < |s| && s[k] == e
  {
    if s[0] == e then 0 else 1 + IndexIn(s[1..], e)
  }

  function Without(s: seq<nat>, e: nat): (r: seq<nat>) {
    if e in s then
      var k := IndexIn(s, e);
      s[..k] + s[k + 1..]
    else s
  }

  lemma WithoutMembers(s: seq<nat>, e: nat)
    requires Distinct(s)
    ensures Distinct(Without(s, e)) && forall x :: x in Without(s, e) <==> x in s && x != e
    ensures |Without(s, e)| == if e in s then |s| - 1 else |s|
  {
    if e in s {
      var k := IndexIn(s, e);
      DroppedMembers(s, k);
      DistinctWithout(s, k);
    }
  }

  lemma DistinctWithout(s: seq<nat>, k: nat)
    requires Distinct(s) && k < |s|
    ensures Distinct(s[..k] + s[k + 1..])
  {
    var r := s[..k] + s[k + 1..];
    assert forall j :: 0 <= j < |r| ==> r[j] == s[if j < k then j else j + 1];
  }

  /** Around the entry that is taken out. */
  lemma RingWithout(head: nat, s: seq<nat>, e: nat, j: int)
    requires e in s && -1 <= j <= |s| - 1
    ensures
      var r, k := Without(s, e), IndexIn(s, e);
      |r| == |s| - 1 && RingAt(head, r, j) == RingAt(head, s, if j < k then j else j + 1)
  {
    hide IndexIn;
  }

  /** The two stores of LRU_Remove. */
  lemma RingRemove(next: map<nat, nat>, prev: map<nat, nat>, head: nat, s: seq<nat>, e: nat)
    requires Ring(next, prev, head, s) && e in s
    ensures e in next && e in prev && next[e] in s + [head] && prev[e] in s + [head] && next[e] != e
    ensures Ring(next[prev[e] := next[e]], prev[next[e] := prev[e]], head, Without(s, e))
  {
    hide Without;
    var k: int := IndexIn(s, e);
    var r := Without(s, e);
    WithoutMembers(s, e);
    assert e == RingAt(head, s, k);
    var before, after := RingAt(head, s, k - 1), RingAt(head, s, k + 1);
    assert prev[e] == before && next[e] == after;
    RingApartUp(head, s, k, k + 1);
    var next', prev' := next[before := after], prev[after := before];
    forall j: int | -1 <= j < |r|
      ensures next'[RingAt(head, r, j)] == RingAt(head, r, j + 1)
    {
      RingWithout(head, s, e, j);
      RingWithout(head, s, e, j + 1);
      if j != k - 1 {
        RingApart(head, s, if j < k then j else j + 1, k - 1);
      }
    }
    forall j: int | 0 <= j <= |r|
      ensures prev'[RingAt(head, r, j)] == RingAt(head, r, j - 1)
    {
      RingWithout(head, s, e, j);
      RingWithout(head, s, e, j - 1);
      if j != k {
        RingApartUp(head, s, if j < k then j else j + 1, k + 1);
      }
    }
  }

  /** The entries of a ring are different, the head counted once. */
  lemma RingApart(head: nat, s: seq<nat>, i: int, j: int)
    requires head !in s && Distinct(s) && -1 <= i < |s| && -1 <= j < |s| && i != j
    ensures RingAt(head, s, i) != RingAt(head, s, j)
  {
    assert i >= 0 ==> s[i] in s;
    assert j >= 0 ==> s[j] in s;
  }

  lemma RingApartUp(head: nat, s: seq<nat>, i: int, j: int)
    requires head !in s && Distinct(s) && 0 <= i <= |s| && 0 <= j <= |s| && i != j
    ensures RingAt(head, s, i) != RingAt(head, s, j)
  {
    assert i < |s| ==> s[i] in s;
    assert j < |s| ==> s[j] in s;
  }

  /** The four stores of LRU_Append: just before the head is the newest end. */
  lemma RingAppend(next: map<nat, nat>, prev: map<nat, nat>, head: nat, s: seq<nat>, e: nat)
    requires Ring(next, prev, head, s) && e != head && e !in s
    ensures
      var last := prev[head];
      && last in s + [head] && last != e
      && Ring(next[e := head][last := e], prev[e := last][head := e], head, s + [e])
  {
    var last := prev[head];
    assert head == RingAt(head, s, |s|) && last == RingAt(head, s, |s| - 1);
    var r := s + [e];
    assert forall j :: -1 <= j < |s| ==> RingAt(head, r, j) == RingAt(head, s, j);
    assert RingAt(head, r, |s|) == e && RingAt(head, r, |s| + 1) == head;
    var next', prev' := next[e := head][last := e], prev[e := last][head := e];
    forall j | -1 <= j < |r|
      ensures next'[RingAt(head, r, j)] == RingAt(head, r, j + 1)
    {
      if j < |s| - 1 {
        RingApart(head, s, j, |s| - 1);
        assert j >= 0 ==> s[j] in s;
        assert RingAt(head, s, j + 1) == RingAt(head, r, j + 1);
      }
    }
    forall j | 0 <= j <= |r|
      ensures prev'[RingAt(head, r, j)] == RingAt(head, r, j - 1)
    {
      if j < |s| {
        assert s[j] in s;
      }
    }
  }

  /** A ring is not touched by stores to other entries. */
  lemma RingKept(next: map<nat, nat>, prev: map<nat, nat>, next': map<nat, nat>, prev': map<nat, nat>, head: nat, s: seq<nat>)
    requires Ring(next, prev, head, s)
    requires forall e :: e in s + [head] ==> e in next' && e in prev' && next'[e] == next[e] && prev'[e] == prev[e]
    ensures Ring(next', prev', head, s)
  {
    assert head in s + [head];
    assert forall e :: e in s ==> e in s + [head];
    assert forall i :: 0 <= i < |s| ==> s[i] in s;
    forall i | -1 <= i <= |s|
      ensures RingAt(head, s, i) in s + [head]
    {
    }
  }

  // The state of the cache

  const LRU: nat := 1
  const IN_USE: nat := 2

  function Charges(handles: Memory, s: seq<nat>): nat
    requires forall e :: e in s ==> e in handles
  {
    if s == [] then 0 else Charges(handles, s[..|s| - 1]) + handles[s[|s| - 1]].charge
  }

  lemma {:induction false} ChargesOfTwo(handles: Memory, a: seq<nat>, b: seq<nat>)
    requires forall e :: e in a + b ==> e in handles
    ensures (forall e :: e in a ==> e in handles) && (forall e :: e in b ==> e in handles)
    ensures Charges(handles, a + b) == Charges(handles, a) + Charges(handles, b)
    decreases |b|
  {
    assert forall e :: e in a ==> e in a + b;
    assert forall e :: e in b ==> e in a + b;
    if b == [] {
      assert a + b == a;
    } else {
      assert (a + b)[..|a + b| - 1] == a + b[..|b| - 1];
      ChargesOfTwo(handles, a, b[..|b| - 1]);
    }
  }

  lemma ChargesWithout(handles: Memory, s: seq<nat>, e: nat)
    requires (forall x :: x in s ==> x in handles) && e in s
    ensures forall x :: x in Without(s, e) ==> x in handles
    ensures Charges(handles, s) == Charges(handles, Without(s, e)) + handles[e].charge
  {
    var k := IndexIn(s, e);
    assert s == s[..k] + ([e] + s[k + 1..]);
    ChargesOfTwo(handles, s[..k], [e] + s[k + 1..]);
    ChargesOfTwo(handles, [e], s[k + 1..]);
    assert forall x :: x in s[..k] + s[k + 1..] ==> x in s;
    ChargesOfTwo(handles, s[..k], s[k + 1..]);
    assert [e][..0] == [];
  }

  lemma {:induction false} ChargesKept(handles: Memory, handles': Memory, s: seq<nat>)
    requires forall e :: e in s ==> e in handles && e in handles' && handles'[e] == handles[e]
    ensures Charges(handles', s) == Charges(handles, s)
    decreases |s|
  {
    if s != [] {
      ChargesKept(handles, handles', s[..|s| - 1]);
    }
  }

  /** Two rings, and no entry in both. */
  ghost predicate Lists(next: map<nat, nat>, prev: map<nat, nat>, lru: seq<nat>, inUse: seq<nat>) {
    && Ring(next, prev, LRU, lru) && Ring(next, prev, IN_USE, inUse)
    && (forall e :: e in lru ==> e !in inUse) && LRU !in inUse && IN_USE !in lru
  }

  /**
   * A reference for each handle given out and one for the cache: 1 for an entry on the LRU list, 2 or more
   * for one in use, and at least 1 for one that has left the cache and is not yet released.
   */
  ghost predicate Counts(handles: Memory, refs: map<nat, nat>, inCache: set<nat>, held: multiset<nat>, lru: seq<nat>, inUse: seq<nat>)
    ensures Counts(handles, refs, inCache, held, lru, inUse) ==>
      && (forall e :: e in lru ==> e in refs && refs[e] == 1)
      && (forall e :: e in inUse ==> e in refs && refs[e] >= 2)
  {
    && refs.Keys == handles.Keys && inCache <= handles.Keys
    && (forall e :: e in inCache <==> e in lru || e in inUse)
    && (forall e :: e in handles ==> refs[e] == held[e] + (if e in inCache then 1 else 0) && refs[e] > 0)
    && (forall e :: e in lru ==> held[e] == 0)
    && (forall e :: e in inUse ==> held[e] > 0)
    && (forall e :: e in held ==> e in handles)
  }

  /** Counts, but for one reference to `e` too many: in the cache it is still on the in-use list. */
  ghost predicate CountsBut(handles: Memory, refs: map<nat, nat>, inCache: set<nat>, held: multiset<nat>, lru: seq<nat>, inUse: seq<nat>, owed: nat) {
    && refs.Keys == handles.Keys && inCache <= handles.Keys && owed in handles
    && (forall e :: e in inCache <==> e in lru || e in inUse)
    && (forall e :: e in handles ==> refs[e] == held[e] + (if e in inCache then 1 else 0) + (if e == owed then 1 else 0) && refs[e] > 0)
    && (forall e :: e in lru ==> held[e] == 0 && e != owed)
    && (forall e :: e in inUse && e != owed ==> held[e] > 0)
    && (forall e :: e in held ==> e in handles)
  }

  /** `usage` is the sum of the charges on the two lists. */
  ghost predicate Adds(handles: Memory, usage: nat, lru: seq<nat>, inUse: seq<nat>) {
    && (forall e :: e in lru ==> e in handles) && (forall e :: e in inUse ==> e in handles)
    && usage == Charges(handles, lru) + Charges(handles, inUse)
  }

  /** Every address ever given out is alive or had its deleter run, once. */
  ghost predicate Ledger(handles: Memory, deleted: seq<nat>, top: nat) {
    && (forall e :: e in handles ==> IN_USE < e < top)
    && Distinct(deleted) && (forall e :: e in deleted ==> IN_USE < e < top && e !in handles)
    && (forall e :: IN_USE < e < top ==> e in handles || e in deleted)
    && IN_USE < top
  }

  lemma ListsRemove(next: map<nat, nat>, prev: map<nat, nat>, lru: seq<nat>, inUse: seq<nat>, e: nat)
    requires Lists(next, prev, lru, inUse) && (e in lru || e in inUse)
    ensures e in next && e in prev && next[e] != e
    ensures Lists(next[prev[e] := next[e]], prev[next[e] := prev[e]], Without(lru, e), Without(inUse, e))
  {
    hide Ring;
    RingDistinct(next, prev, LRU, lru);
    RingDistinct(next, prev, IN_USE, inUse);
    WithoutMembers(lru, e);
    WithoutMembers(inUse, e);
    if e in lru {
      RingRemove(next, prev, LRU, lru, e);
      RingKept(next, prev, next[prev[e] := next[e]], prev[next[e] := prev[e]], IN_USE, inUse);
    } else {
      RingRemove(next, prev, IN_USE, inUse, e);
      RingKept(next, prev, next[prev[e] := next[e]], prev[next[e] := prev[e]], LRU, lru);
    }
  }

  lemma LeftOut(next: map<nat, nat>, prev: map<nat, nat>, lru: seq<nat>, inUse: seq<nat>, e: nat)
    requires Lists(next, prev, lru, inUse)
    ensures e !in Without(lru, e) && e !in Without(inUse, e)
  {
    hide Ring;
    RingDistinct(next, prev, LRU, lru);
    RingDistinct(next, prev, IN_USE, inUse);
    WithoutMembers(lru, e);
    WithoutMembers(inUse, e);
  }

  lemma RingDistinct(next: map<nat, nat>, prev: map<nat, nat>, head: nat, s: seq<nat>)
    requires Ring(next, prev, head, s)
    ensures Distinct(s) && head !in s && head in next && head in prev
    ensures forall e :: e in s + [head] ==> e in next && e in prev
  {
  }

  lemma ListsAppend(next: map<nat, nat>, prev: map<nat, nat>, lru: seq<nat>, inUse: seq<nat>, head: nat, e: nat)
    requires Lists(next, prev, lru, inUse) && e !in lru && e !in inUse && e > IN_USE && head in {LRU, IN_USE}
    ensures head in prev && prev[head] != e
    ensures
      var next', prev' := next[e := head][prev[head] := e], prev[e := prev[head]][head := e];
      Lists(next', prev', if head == LRU then lru + [e] else lru, if head == IN_USE then inUse + [e] else inUse)
  {
    hide Ring;
    RingDistinct(next, prev, LRU, lru);
    RingDistinct(next, prev, IN_USE, inUse);
    if head == LRU {
      RingAppend(next, prev, LRU, lru, e);
      RingKept(next, prev, next[e := head][prev[head] := e], prev[e := prev[head]][head := e], IN_USE, inUse);
    } else {
      RingAppend(next, prev, IN_USE, inUse, e);
      RingKept(next, prev, next[e := head][prev[head] := e], prev[e := prev[head]][head := e], LRU, lru);
    }
  }

  /** A cached entry gets one more handle: from the LRU list it moves to the in-use list. */
  lemma RefMoves(handles: Memory, refs: map<nat, nat>, inCache: set<nat>, held: multiset<nat>, lru: seq<nat>, inUse: seq<nat>,
                 usage: nat, deleted: seq<nat>, top: nat, next: map<nat, nat>, prev: map<nat, nat>, e: nat)
    requires Lists(next, prev, lru, inUse) && Counts(handles, refs, inCache, held, lru, inUse) && Ledger(handles, deleted, top)
    requires Adds(handles, usage, lru, inUse) && e in inCache
    ensures e in refs && (refs[e] == 1 <==> e in lru) && e > IN_USE
    ensures e in lru ==> e !in inUse && Without(inUse, e) == inUse && e !in Without(lru, e)
    ensures e !in lru ==> Without(lru, e) == lru
    ensures
      var lru', inUse' := Without(lru, e), if e in lru then inUse + [e] else inUse;
      && Adds(handles, usage, lru', inUse')
      && Counts(handles, refs[e := refs[e] + 1], inCache, held + multiset{e}, lru', inUse')
  {
    hide Ring, Without, Adds;
    RingDistinct(next, prev, LRU, lru);
    WithoutMembers(lru, e);
    if e in lru {
      NotIn(inUse, e);
      AddsMoved(handles, usage, lru, inUse, e);
    } else {
      NotIn(lru, e);
    }
    RefCounts(handles, refs, inCache, held, lru, inUse, e);
  }

  lemma RefCounts(handles: Memory, refs: map<nat, nat>, inCache: set<nat>, held: multiset<nat>, lru: seq<nat>, inUse: seq<nat>, e: nat)
    requires Counts(handles, refs, inCache, held, lru, inUse) && e in inCache && Distinct(lru)
    ensures Counts(handles, refs[e := refs[e] + 1], inCache, held + multiset{e}, Without(lru, e), if e in lru then inUse + [e] else inUse)
  {
    hide Without, Distinct;
    WithoutMembers(lru, e);
    assert forall x :: (held + multiset{e})[x] == held[x] + if x == e then 1 else 0;
    assert e in lru ==> forall x :: x in inUse + [e] <==> x in inUse || x == e;
  }

  lemma AddsMoved(handles: Memory, usage: nat, a: seq<nat>, b: seq<nat>, e: nat)
    requires Adds(handles, usage, a, b) && e in a && Distinct(a)
    ensures Adds(handles, usage, Without(a, e), b + [e])
  {
    hide Without;
    WithoutMembers(a, e);
    ChargesWithout(handles, a, e);
    ChargesOfTwo(handles, b, [e]);
    assert [e][..0] == [];
  }

  /** An entry taken out of the cache, whose reference is still to be dropped. */
  lemma EraseOwes(handles: Memory, refs: map<nat, nat>, inCache: set<nat>, held: multiset<nat>, lru: seq<nat>, inUse: seq<nat>,
                  usage: nat, next: map<nat, nat>, prev: map<nat, nat>, e: nat)
    requires Lists(next, prev, lru, inUse) && Counts(handles, refs, inCache, held, lru, inUse) && Adds(handles, usage, lru, inUse) && e in inCache
    ensures e in handles && handles[e].charge <= usage && (e in lru || e in inUse)
    ensures Adds(handles, usage - handles[e].charge, Without(lru, e), Without(inUse, e))
    ensures CountsBut(handles, refs, inCache - {e}, held, Without(lru, e), Without(inUse, e), e)
  {
    hide Ring, Without, Adds;
    RingDistinct(next, prev, LRU, lru);
    RingDistinct(next, prev, IN_USE, inUse);
    if e in lru {
      NotIn(inUse, e);
    } else {
      NotIn(lru, e);
    }
    AddsLess(handles, usage, lru, inUse, e);
    EraseCounts(handles, refs, inCache, held, lru, inUse, e);
  }

  lemma AddsLess(handles: Memory, usage: nat, a: seq<nat>, b: seq<nat>, e: nat)
    requires Adds(handles, usage, a, b) && Distinct(a) && Distinct(b)
    requires (e in a && Without(b, e) == b) || (e in b && Without(a, e) == a)
    ensures e in handles && handles[e].charge <= usage && Adds(handles, usage - handles[e].charge, Without(a, e), Without(b, e))
  {
    hide Without, Distinct;
    if e in a && Without(b, e) == b {
      ChargesWithout(handles, a, e);
    } else {
      ChargesWithout(handles, b, e);
    }
  }

  lemma EraseCounts(handles: Memory, refs: map<nat, nat>, inCache: set<nat>, held: multiset<nat>, lru: seq<nat>, inUse: seq<nat>, e: nat)
    requires Counts(handles, refs, inCache, held, lru, inUse) && e in inCache && Distinct(lru) && Distinct(inUse)
    ensures CountsBut(handles, refs, inCache - {e}, held, Without(lru, e), Without(inUse, e), e)
  {
    hide Without, Distinct;
    WithoutMembers(lru, e);
    WithoutMembers(inUse, e);
  }

  /** A new entry with one handle, not cached. */
  lemma Allocated(handles: Memory, refs: map<nat, nat>, inCache: set<nat>, held: multiset<nat>, lru: seq<nat>, inUse: seq<nat>,
                  usage: nat, deleted: seq<nat>, top: nat, h: Handle)
    requires Counts(handles, refs, inCache, held, lru, inUse) && Ledger(handles, deleted, top) && Adds(handles, usage, lru, inUse)
    ensures top !in handles && top !in inCache && top !in lru && top !in inUse && top > IN_USE
    ensures forall e :: e in inCache ==> e in handles && e != top
    ensures Counts(handles[top := h], refs[top := 1], inCache, held + multiset{top}, lru, inUse)
    ensures Ledger(handles[top := h], deleted, top + 1) && Adds(handles[top := h], usage, lru, inUse)
  {
    assert top !in handles && top !in held;
    AddsKept(handles, handles[top := h], usage, lru, inUse);
    hide Adds, Distinct;
    assert forall x :: (held + multiset{top})[x] == held[x] + if x == top then 1 else 0;
  }

  lemma AddsKept(handles: Memory, handles': Memory, usage: nat, lru: seq<nat>, inUse: seq<nat>)
    requires Adds(handles, usage, lru, inUse)
    requires forall e :: e in lru || e in inUse ==> e in handles' && handles'[e] == handles[e]
    ensures Adds(handles', usage, lru, inUse)
  {
    ChargesKept(handles, handles', lru);
    ChargesKept(handles, handles', inUse);
  }

  /** It enters the cache, in use. */
  lemma Cached(handles: Memory, refs: map<nat, nat>, inCache: set<nat>, held: multiset<nat>, lru: seq<nat>, inUse: seq<nat>, usage: nat, e: nat)
    requires Counts(handles, refs, inCache, held, lru, inUse) && Adds(handles, usage, lru, inUse) && e in handles && e !in inCache
    ensures e in refs && Counts(handles, refs[e := refs[e] + 1], inCache + {e}, held, lru, inUse + [e])
    ensures Adds(handles, usage + handles[e].charge, lru, inUse + [e])
  {
    assert forall x :: x in inUse + [e] <==> x in inUse || x == e;
    ChargesOfTwo(handles, inUse, [e]);
    assert [e][..0] == [];
  }

  lemma Oldest(next: map<nat, nat>, prev: map<nat, nat>, lru: seq<nat>, inUse: seq<nat>)
    requires Lists(next, prev, lru, inUse)
    ensures LRU in next && (next[LRU] == LRU <==> lru == [])
    ensures lru != [] ==> next[LRU] == lru[0] && lru[0] in lru && Without(lru, lru[0]) == lru[1..] && lru[0] !in inUse
  {
    assert RingAt(LRU, lru, -1) == LRU && next[LRU] == RingAt(LRU, lru, 0);
    assert lru != [] ==> lru[0] in lru && lru[0] != LRU;
  }

  /** Handles are left, whether the entry is cached or not. */
  lemma UnrefStays(handles: Memory, refs: map<nat, nat>, inCache: set<nat>, held: multiset<nat>, lru: seq<nat>, inUse: seq<nat>, e: nat)
    requires CountsBut(handles, refs, inCache, held, lru, inUse, e)
    ensures e in refs && refs[e] > 0
    ensures refs[e] - 1 == 0 <==> held[e] == 0 && e !in inCache
    ensures e in inCache && refs[e] - 1 == 1 <==> held[e] == 0 && e in inCache
    ensures held[e] > 0 ==> Counts(handles, refs[e := refs[e] - 1], inCache, held, lru, inUse)
  {
  }

  /** The last handle of a cached entry. */
  lemma UnrefMoves(handles: Memory, refs: map<nat, nat>, inCache: set<nat>, held: multiset<nat>, lru: seq<nat>, inUse: seq<nat>,
                   usage: nat, deleted: seq<nat>, top: nat, next: map<nat, nat>, prev: map<nat, nat>, e: nat)
    requires CountsBut(handles, refs, inCache, held, lru, inUse, e) && Ledger(handles, deleted, top) && Lists(next, prev, lru, inUse)
    requires Adds(handles, usage, lru, inUse) && held[e] == 0 && e in inCache
    ensures e in refs && e > IN_USE && e in inUse && e !in lru && Without(lru, e) == lru && e !in Without(inUse, e)
    ensures Adds(handles, usage, lru + [e], Without(inUse, e))
    ensures Counts(handles, refs[e := 1], inCache, held, lru + [e], Without(inUse, e))
  {
    hide Ring, Without;
    RingDistinct(next, prev, IN_USE, inUse);
    WithoutMembers(inUse, e);
    NotIn(lru, e);
    ChargesWithout(handles, inUse, e);
    ChargesOfTwo(handles, lru, [e]);
    assert [e][..0] == [];
  }

  /** The last reference. */
  lemma UnrefFrees(handles: Memory, refs: map<nat, nat>, inCache: set<nat>, held: multiset<nat>, lru: seq<nat>, inUse: seq<nat>,
                   usage: nat, deleted: seq<nat>, top: nat, e: nat)
    requires CountsBut(handles, refs, inCache, held, lru, inUse, e) && Ledger(handles, deleted, top)
    requires Adds(handles, usage, lru, inUse) && held[e] == 0 && e !in inCache
    ensures Counts(handles - {e}, refs - {e}, inCache, held, lru, inUse) && forall x :: x in inCache ==> x in handles && x != e
    ensures Ledger(handles - {e}, deleted + [e], top) && Adds(handles - {e}, usage, lru, inUse)
  {
    ChargesKept(handles, handles - {e}, lru);
    ChargesKept(handles, handles - {e}, inUse);
    hide CountsBut, Adds;
    assert forall x :: x in deleted + [e] <==> x in deleted || x == e;
    assert forall i :: 0 <= i < |deleted| ==> deleted[i] in deleted;
  }

  class LRUCache {
    var capacity: nat
    var usage: nat
    var handles: Memory
    var refs: map<nat, nat>
    var inCache: set<nat>
    var next: map<nat, nat>
    var prev: map<nat, nat>
    const table: Table
    /** The allocator: addresses from `top` on are free. */
    var top: nat
    /** The entries whose deleter has run, in that order. */
    var deleted: seq<nat>
    ghost var lru: seq<nat>
    ghost var inUse: seq<nat>
    /** The handles that clients have yet to release. */
    ghost var held: multiset<nat>

    ghost predicate Valid()
      reads this, table
    {
      && Lists(next, prev, lru, inUse) && Counts(handles, refs, inCache, held, lru, inUse) && Ledger(handles, deleted, top)
      && Adds(handles, usage, lru, inUse)
      && table.Valid(handles) && table.elements == inCache
    }

    /** Valid, but for a reference to `e` that is about to be dropped, and so for the list it is on. */
    ghost predicate Owes(e: nat)
      reads this, table
    {
      && Lists(next, prev, lru, inUse) && CountsBut(handles, refs, inCache, held, lru, inUse, e) && Ledger(handles, deleted, top)
      && Adds(handles, usage, lru, inUse)
      && table.Valid(handles) && table.elements == inCache
    }

    constructor (capacity: nat)
      ensures Valid() && this.capacity == capacity && usage == 0 && fresh(table)
      ensures lru == inUse == deleted == [] && held == multiset{} && handles == map[]
    {
      this.capacity, usage := capacity, 0;
      handles, refs, inCache := map[], map[], {};
      next, prev := map[LRU := LRU, IN_USE := IN_USE], map[LRU := LRU, IN_USE := IN_USE];
      table := new Table();
      top, deleted := IN_USE + 1, [];
      lru, inUse, held := [], [], multiset{};
    }

    /** LRU_Remove. */
    method LruRemove(e: nat)
      requires e in next && e in prev && next[e] != e
      modifies `next, `prev
      ensures next == old(next)[old(prev)[e] := old(next)[e]] && prev == old(prev)[old(next)[e] := old(prev)[e]]
    {
      prev := prev[next[e] := prev[e]];
      next := next[prev[e] := next[e]];
    }

    /** LRU_Append. */
    method LruAppend(list: nat, e: nat)
      requires list in prev && prev[list] != e && list != e
      modifies `next, `prev
      ensures next == old(next)[e := list][old(prev)[list] := e] && prev == old(prev)[e := old(prev)[list]][list := e]
    {
      next := next[e := list];
      prev := prev[e := prev[list]];
      next := next[prev[e] := e];
      prev := prev[next[e] := e];
    }

    /** LRU_Remove and LRU_Append: to the newest end of a list. */
    method Move(e: nat, head: nat)
      requires Lists(next, prev, lru, inUse) && (e in lru || e in inUse) && e > IN_USE && head in {LRU, IN_USE}
      modifies `next, `prev, `lru, `inUse
      ensures Lists(next, prev, lru, inUse)
      ensures lru == if head == LRU then Without(old(lru), e) + [e] else Without(old(lru), e)
      ensures inUse == if head == IN_USE then Without(old(inUse), e) + [e] else Without(old(inUse), e)
    {
      hide Lists, Without;
      LeftOut(next, prev, lru, inUse, e);
      ListsRemove(next, prev, lru, inUse, e);
      LruRemove(e);
      lru, inUse := Without(lru, e), Without(inUse, e);
      ListsAppend(next, prev, lru, inUse, head, e);
      LruAppend(head, e);
      if head == LRU {
        lru := lru + [e];
      } else {
        inUse := inUse + [e];
      }
    }

    /** Ref, for a handle that is given out. */
    method Ref(e: nat)
      requires Valid() && e in inCache
      modifies `refs, `next, `prev, `lru, `inUse, `held
      ensures Valid() && held == old(held) + multiset{e}
      ensures lru == Without(old(lru), e)
      ensures inUse == if e in old(lru) then old(inUse) + [e] else old(inUse)
    {
      hide Lists, Counts, CountsBut, Ledger, Adds, Table.Valid, Without;
      RefMoves(handles, refs, inCache, held, lru, inUse, usage, deleted, top, next, prev, e);
      if refs[e] == 1 && e in inCache {
        Move(e, IN_USE);
      }
      refs := refs[e := refs[e] + 1];
      held := held + multiset{e};
    }

    /**
     * Unref: the last reference frees the entry, and the last but the cache's own moves it to the newest end
     * of the LRU list.
     */
    method Unref(e: nat)
      requires Owes(e)
      modifies `refs, `handles, `next, `prev, `deleted, `lru, `inUse
      ensures Valid()
      ensures
        if held[e] > 0 then handles == old(handles) && deleted == old(deleted) && lru == old(lru) && inUse == old(inUse)
        else if e in inCache then handles == old(handles) && deleted == old(deleted) && lru == old(lru) + [e] && inUse == Without(old(inUse), e)
        else handles == old(handles) - {e} && deleted == old(deleted) + [e] && lru == old(lru) && inUse == old(inUse)
    {
      hide Lists, Counts, CountsBut, Ledger, Adds, Table.Valid, Without;
      UnrefStays(handles, refs, inCache, held, lru, inUse, e);
      refs := refs[e := refs[e] - 1];
      if refs[e] == 0 {
        UnrefFrees(handles, old(refs), inCache, held, lru, inUse, usage, deleted, top, e);
        TableKept(table, handles, handles - {e});
        deleted := deleted + [e];
        handles := handles - {e};
        assert refs - {e} == old(refs) - {e};
        refs := refs - {e};
      } else if e in inCache && refs[e] == 1 {
        UnrefMoves(handles, old(refs), inCache, held, lru, inUse, usage, deleted, top, next, prev, e);
        Move(e, LRU);
      }
    }

    /** FinishErase: the entry is already out of the table. */
    method FinishErase(e: nat) returns (erased: bool)
      requires Lists(next, prev, lru, inUse) && Counts(handles, refs, inCache, held, lru, inUse) && Ledger(handles, deleted, top)
      requires Adds(handles, usage, lru, inUse) && table.Valid(handles) && table.elements == inCache - {e}
      requires e == NIL || e in inCache
      modifies `refs, `handles, `inCache, `usage, `next, `prev, `deleted, `lru, `inUse
      ensures Valid() && (erased <==> e != NIL)
      ensures lru == Without(old(lru), e) && inUse == Without(old(inUse), e) && inCache == old(inCache) - {e}
      ensures e == NIL ==> usage == old(usage) && handles == old(handles) && deleted == old(deleted)
      ensures e != NIL ==>
        && e in old(handles) && usage == old(usage) - old(handles)[e].charge
        && (held[e] > 0 ==> handles == old(handles) && deleted == old(deleted))
        && (held[e] == 0 ==> handles == old(handles) - {e} && deleted == old(deleted) + [e])
    {
      hide Lists, Counts, CountsBut, Ledger, Adds, Table.Valid, Without;
      NilNotCached(handles, refs, inCache, held, lru, inUse, deleted, top);
      if e != NIL {
        EraseOwes(handles, refs, inCache, held, lru, inUse, usage, next, prev, e);
        ListsRemove(next, prev, lru, inUse, e);
        LruRemove(e);
        lru, inUse := Without(lru, e), Without(inUse, e);
        inCache := inCache - {e};
        usage := usage - handles[e].charge;
        Unref(e);
      }
      return e != NIL;
    }

    /** Lookup: the entry of this key, if one is cached, with a handle to it. */
    method Lookup(key: seq<Byte>, hash: nat) returns (e: nat)
      requires Valid()
      modifies `refs, `next, `prev, `lru, `inUse, `held
      ensures Valid()
      ensures e == NIL ==> forall x :: x in inCache ==> x in handles && !Matches(handles[x], key, hash)
      ensures e == NIL ==> held == old(held) && lru == old(lru) && inUse == old(inUse)
      ensures e != NIL ==> e in inCache && e in handles && Matches(handles[e], key, hash) && held == old(held) + multiset{e}
      ensures e != NIL ==> lru == Without(old(lru), e) && inUse == if e in old(lru) then old(inUse) + [e] else old(inUse)
    {
      hide Lists, Counts, Ledger, Adds, Linked, Holds, Without;
      e := table.Lookup(handles, key, hash);
      if e != NIL {
        Ref(e);
      }
    }

    /** Release of a handle that was given out and not yet released. */
    method Release(e: nat)
      requires Valid() && held[e] > 0
      modifies `refs, `handles, `next, `prev, `deleted, `lru, `inUse, `held
      ensures Valid() && held == old(held) - multiset{e}
      ensures
        if held[e] > 0 then handles == old(handles) && deleted == old(deleted) && lru == old(lru) && inUse == old(inUse)
        else if e in inCache then handles == old(handles) && deleted == old(deleted) && lru == old(lru) + [e] && inUse == Without(old(inUse), e)
        else handles == old(handles) - {e} && deleted == old(deleted) + [e] && lru == old(lru) && inUse == old(inUse)
    {
      hide Lists, Ledger, Adds, Table.Valid, Without;
      held := held - multiset{e};
      assert forall x :: held[x] == old(held)[x] - if x == e then 1 else 0;
      Unref(e);
    }

    /**
     * Insert: the entry comes in use, the one of the same key leaves the cache, and then the oldest entries
     * without handles go, no more of them than it takes to get within capacity. With no capacity at all
     * nothing is cached.
     */
    method Insert(key: seq<Byte>, hash: nat, value: int, charge: nat) returns (e: nat, ghost dup: nat, ghost evicted: nat)
      requires Valid()
      modifies this, table
      ensures Valid() && capacity == old(capacity)
      ensures e == old(top) && e in handles && handles[e] == Handle(key, hash, value, charge) && held == old(held) + multiset{e}
      ensures capacity == 0 ==> dup == NIL && e !in inCache
      ensures capacity > 0 ==> e in inCache
      ensures capacity > 0 && dup == NIL ==> forall x :: x in old(inCache) ==> x in old(handles) && !Matches(old(handles)[x], key, hash)
      ensures dup != NIL ==> dup in old(inCache) && dup in old(handles) && Matches(old(handles)[dup], key, hash) && dup !in inCache
      ensures inUse == Without(if capacity > 0 then old(inUse) + [e] else old(inUse), dup)
      ensures
        var rest := Without(old(lru), dup);
        && evicted <= |rest| && lru == rest[evicted..]
        && deleted == old(deleted) + (if dup != NIL && old(held)[dup] == 0 then [dup] else []) + rest[..evicted]
        && (usage <= capacity || lru == [])
        && (evicted > 0 ==> rest[evicted - 1] in old(handles) && usage + old(handles)[rest[evicted - 1]].charge > capacity)
    {
      hide *;
      NilOut();
      e := Allocate(Handle(key, hash, value, charge));
      dup := NIL;
      if capacity > 0 {
        dup := PutIn(e);
      }
      evicted := EvictToCapacity(e);
    }

    /** The part of Insert that evicts; the new entry has a handle and is in no danger. */
    method EvictToCapacity(ghost e: nat) returns (ghost evicted: nat)
      requires Valid() && held[e] > 0
      modifies `refs, `handles, `inCache, `usage, `next, `prev, `deleted, `lru, `inUse, table
      ensures Valid() && inUse == old(inUse) && e in handles && e in old(handles) && handles[e] == old(handles)[e]
      ensures (e in inCache <==> e in old(inCache)) && inCache <= old(inCache)
      ensures evicted <= |old(lru)| && lru == old(lru)[evicted..] && deleted == old(deleted) + old(lru)[..evicted]
      ensures usage <= capacity || lru == []
      ensures evicted > 0 ==>
        old(lru)[evicted - 1] in old(handles) && old(lru)[evicted - 1] != e && usage + old(handles)[old(lru)[evicted - 1]].charge > capacity
    {
      hide *;
      evicted := 0;
      HeldStays(e);
      OldestHere();
      while usage > capacity && next[LRU] != LRU
        invariant Valid() && LRU in next && (next[LRU] != LRU <==> lru != [])
        invariant inUse == old(inUse) && e in handles && (e in inCache <==> e in old(inCache)) && inCache <= old(inCache)
        invariant evicted <= |old(lru)| && lru == old(lru)[evicted..] && deleted == old(deleted) + old(lru)[..evicted]
        invariant forall x :: x in handles ==> x in old(handles) && handles[x] == old(handles)[x]
        invariant evicted > 0 ==>
          old(lru)[evicted - 1] in old(handles) && old(lru)[evicted - 1] != e && usage + old(handles)[old(lru)[evicted - 1]].charge > capacity
        decreases |lru|
      {
        HeldStays(e);
        EvictOldest();
        evicted := evicted + 1;
        OldestHere();
      }
    }

    /** The part of Insert that makes the entry, with one reference for the returned handle. */
    method Allocate(h: Handle) returns (e: nat)
      requires Valid()
      modifies `handles, `refs, `held, `top
      ensures Valid() && e == old(top) && e !in old(handles) && e !in inCache && e > IN_USE
      ensures handles == old(handles)[e := h] && held == old(held) + multiset{e} && held[e] == 1
    {
      hide Lists, Counts, Ledger, Adds, Table.Valid;
      Allocated(handles, refs, inCache, held, lru, inUse, usage, deleted, top, h);
      Unheld(handles, refs, inCache, held, lru, inUse, deleted, top);
      TableKept(table, handles, handles[top := h]);
      e := top;
      top := top + 1;
      handles := handles[e := h];
      refs := refs[e := 1];
      held := held + multiset{e};
    }

    /** The part of Insert that puts the entry in the cache, in the place of any entry of the same key. */
    method PutIn(e: nat) returns (ghost dup: nat)
      requires Valid() && e in handles && e !in inCache && e > IN_USE && held[e] > 0
      modifies this`refs, this`handles, this`inCache, this`usage, this`next, this`prev, this`deleted, this`lru, this`inUse, table
      ensures Valid()
      ensures dup == NIL ==> forall x :: x in old(inCache) ==> x in old(handles) && !Matches(old(handles)[x], old(handles)[e].key, old(handles)[e].hash)
      ensures dup != NIL ==> dup in old(inCache) && dup in old(handles) && Matches(old(handles)[dup], old(handles)[e].key, old(handles)[e].hash)
      ensures inCache == old(inCache) + {e} - {dup} && dup != e
      ensures lru == Without(old(lru), dup) && inUse == Without(old(inUse) + [e], dup)
      ensures handles == if dup != NIL && held[dup] == 0 then old(handles) - {dup} else old(handles)
      ensures deleted == if dup != NIL && held[dup] == 0 then old(deleted) + [dup] else old(deleted)
    {
      hide Lists, Counts, Ledger, Adds, Table.Valid, Without;
      Cached(handles, refs, inCache, held, lru, inUse, usage, e);
      NotListed(handles, refs, inCache, held, lru, inUse, e);
      ListsAppend(next, prev, lru, inUse, IN_USE, e);
      refs := refs[e := refs[e] + 1];
      inCache := inCache + {e};
      LruAppend(IN_USE, e);
      inUse := inUse + [e];
      usage := usage + handles[e].charge;
      var replaced := table.Insert(handles, e);
      dup := replaced;
      var erased := FinishErase(replaced);
    }

    lemma NilOut()
      requires Valid()
      ensures Without(lru, NIL) == lru && Without(inUse, NIL) == inUse && NIL !in inCache && top > IN_USE && forall e :: e in handles ==> e != NIL
      ensures Without(inUse + [top], NIL) == inUse + [top]
    {
      NilNotCached(handles, refs, inCache, held, lru, inUse, deleted, top);
      NotIn(inUse + [top], NIL);
    }

    /** An entry with a handle is alive and not on the LRU list. */
    lemma HeldStays(e: nat)
      requires Valid() && held[e] > 0
      ensures e in handles && e !in lru
      ensures forall x :: x in lru ==> x in handles
    {
    }

    /** Erase. */
    method Erase(key: seq<Byte>, hash: nat) returns (ghost e: nat)
      requires Valid()
      modifies this, table
      ensures Valid() && held == old(held)
      ensures e == NIL ==> forall x :: x in old(inCache) ==> x in old(handles) && !Matches(old(handles)[x], key, hash)
      ensures e != NIL ==> e in old(inCache) && e in old(handles) && Matches(old(handles)[e], key, hash)
      ensures inCache == old(inCache) - {e} && lru == Without(old(lru), e) && inUse == Without(old(inUse), e)
      ensures deleted == if e != NIL && held[e] == 0 then old(deleted) + [e] else old(deleted)
    {
      hide Lists, Counts, Ledger, Adds, Linked, Holds, Without;
      var r := table.Remove(handles, key, hash);
      e := r;
      var erased := FinishErase(r);
    }

    /** One round of the evicting loops of Insert and Prune: the oldest entry of the LRU list goes. */
    method EvictOldest()
      requires Valid() && lru != []
      modifies `refs, `handles, `inCache, `usage, `next, `prev, `deleted, `lru, `inUse, table
      ensures Valid() && lru == old(lru)[1..] && inUse == old(inUse)
      ensures deleted == old(deleted) + [old(lru)[0]] && handles == old(handles) - {old(lru)[0]}
      ensures old(lru)[0] in old(handles) && usage == old(usage) - old(handles)[old(lru)[0]].charge
      ensures inCache == old(inCache) - {old(lru)[0]}
    {
      hide Lists, Ledger, Adds, Linked, Holds, Without;
      Oldest(next, prev, lru, inUse);
      NotIn(inUse, lru[0]);
      OldestCached(handles, refs, inCache, held, lru, inUse, deleted, top);
      var e := next[LRU];
      var r := table.Remove(handles, handles[e].key, handles[e].hash);
      OnlyMatch(old(table.list), old(table.nextHash), old(table.chains), old(table.elements), handles, e, r);
      var erased := FinishErase(r);
    }

    lemma OldestHere()
      requires Valid()
      ensures LRU in next && (next[LRU] == LRU <==> lru == [])
    {
      hide Counts, Ledger, Adds, Table.Valid;
      Oldest(next, prev, lru, inUse);
    }

    /** Prune. */
    method Prune()
      requires Valid()
      modifies this, table
      ensures Valid() && lru == [] && inUse == old(inUse) && held == old(held)
      ensures deleted == old(deleted) + old(lru)
    {
      hide *;
      ghost var base, n := lru, 0;
      OldestHere();
      while next[LRU] != LRU
        invariant Valid() && LRU in next && (next[LRU] != LRU <==> lru != [])
        invariant n <= |base| && lru == base[n..] && deleted == old(deleted) + base[..n]
        invariant inUse == old(inUse) && held == old(held)
        decreases |lru|
      {
        EvictOldest();
        n := n + 1;
        OldestHere();
      }
    }

    /**
     * The destructor, called with no handle out on a cached entry: every entry on the list is passed to its
     * deleter once, and none is looked at after that.
     */
    method Destroy()
      requires Valid() && inUse == []
      modifies `handles, `refs, `inCache, `deleted
      ensures deleted == old(deleted) + lru && inCache == {} && Distinct(deleted)
      ensures forall e :: e in handles <==> e in old(handles) && e !in lru
    {
      hide LRUCache.Valid, Distinct, Ring, Walked, RingAt;
      ghost var n := 0;
      WalkStarts();
      var e := next[LRU];
      while e != LRU
        invariant n <= |lru| && e == RingAt(LRU, lru, n) && Ring(next, prev, LRU, lru)
        invariant deleted == old(deleted) + lru[..n]
        invariant Walked(old(handles), handles, refs, inCache, lru, n)
        decreases |lru| - n
      {
        WalkStep(next, prev, lru, n);
        WalkedStep(old(handles), handles, refs, inCache, lru, n);
        assert lru[..n + 1] == lru[..n] + [e];
        var following := next[e];
        inCache := inCache - {e};
        refs := refs[e := refs[e] - 1];
        if refs[e] == 0 {
          deleted := deleted + [e];
          handles, refs := handles - {e}, refs - {e};
        }
        e := following;
        n := n + 1;
      }
      WalkEnds(next, prev, lru, n);
      WalkedAll(old(handles), handles, refs, inCache, lru);
      assert lru[..n] == lru;
    }

    lemma WalkStarts()
      requires Valid() && inUse == []
      ensures LRU in next && next[LRU] == RingAt(LRU, lru, 0) && Ring(next, prev, LRU, lru)
      ensures Walked(handles, handles, refs, inCache, lru, 0) && Distinct(deleted + lru)
    {
      hide Table.Valid, Adds;
      assert next[RingAt(LRU, lru, -1)] == RingAt(LRU, lru, 0);
      DistinctBoth(deleted, lru);
    }
  }

  lemma DistinctBoth(a: seq<nat>, b: seq<nat>)
    requires Distinct(a) && Distinct(b) && forall e :: e in a ==> e !in b
    ensures Distinct(a + b)
  {
    assert forall i :: 0 <= i < |a| ==> a[i] in a;
    assert forall i :: 0 <= i < |b| ==> b[i] in b;
  }

  /** The first `n` entries of the list are freed. */
  ghost predicate Walked(before: Memory, handles: Memory, refs: map<nat, nat>, inCache: set<nat>, lru: seq<nat>, n: nat) {
    && n <= |lru| && refs.Keys == handles.Keys
    && (forall x :: x in handles <==> x in before && x !in lru[..n])
    && (forall x :: x in inCache <==> x in lru && x !in lru[..n])
    && (forall x :: x in lru && x !in lru[..n] ==> x in refs && refs[x] == 1)
  }

  lemma WalkedStep(before: Memory, handles: Memory, refs: map<nat, nat>, inCache: set<nat>, lru: seq<nat>, n: nat)
    requires n < |lru| && Walked(before, handles, refs, inCache, lru, n) && lru[n] !in lru[..n]
    ensures lru[n] in refs && refs[lru[n]] == 1
    ensures Walked(before, handles - {lru[n]}, refs[lru[n] := 0] - {lru[n]}, inCache - {lru[n]}, lru, n + 1)
  {
    assert lru[..n + 1] == lru[..n] + [lru[n]];
    assert forall x :: x in lru[..n + 1] <==> x in lru[..n] || x == lru[n];
  }

  lemma WalkedAll(before: Memory, handles: Memory, refs: map<nat, nat>, inCache: set<nat>, lru: seq<nat>)
    requires Walked(before, handles, refs, inCache, lru, |lru|)
    ensures inCache == {} && forall e :: e in handles <==> e in before && e !in lru
  {
    assert lru[..|lru|] == lru;
  }

  lemma WalkStep(next: map<nat, nat>, prev: map<nat, nat>, lru: seq<nat>, n: nat)
    requires Ring(next, prev, LRU, lru) && n <= |lru| && RingAt(LRU, lru, n) != LRU
    ensures n < |lru| && RingAt(LRU, lru, n) == lru[n] && lru[n] !in lru[..n] && lru[n] in next && next[lru[n]] == RingAt(LRU, lru, n + 1)
  {
    assert RingAt(LRU, lru, n) == lru[n];
  }

  lemma WalkEnds(next: map<nat, nat>, prev: map<nat, nat>, lru: seq<nat>, n: nat)
    requires Ring(next, prev, LRU, lru) && n <= |lru| && RingAt(LRU, lru, n) == LRU
    ensures n == |lru|
  {
    assert forall j :: 0 <= j < |lru| ==> lru[j] in lru && lru[j] != LRU;
  }

  lemma Unheld(handles: Memory, refs: map<nat, nat>, inCache: set<nat>, held: multiset<nat>, lru: seq<nat>, inUse: seq<nat>, deleted: seq<nat>, top: nat)
    requires Counts(handles, refs, inCache, held, lru, inUse) && Ledger(handles, deleted, top)
    ensures held[top] == 0
  {
    assert top !in held;
  }

  lemma NotListed(handles: Memory, refs: map<nat, nat>, inCache: set<nat>, held: multiset<nat>, lru: seq<nat>, inUse: seq<nat>, e: nat)
    requires Counts(handles, refs, inCache, held, lru, inUse) && e !in inCache
    ensures e !in lru && e !in inUse
  {
  }

  lemma OldestCached(handles: Memory, refs: map<nat, nat>, inCache: set<nat>, held: multiset<nat>, lru: seq<nat>, inUse: seq<nat>, deleted: seq<nat>, top: nat)
    requires Counts(handles, refs, inCache, held, lru, inUse) && Ledger(handles, deleted, top) && lru != []
    ensures lru[0] in inCache && lru[0] in handles && held[lru[0]] == 0 && lru[0] != NIL
  {
    assert lru[0] in lru;
  }

  lemma NilNotCached(handles: Memory, refs: map<nat, nat>, inCache: set<nat>, held: multiset<nat>, lru: seq<nat>, inUse: seq<nat>, deleted: seq<nat>, top: nat)
    requires Counts(handles, refs, inCache, held, lru, inUse) && Ledger(handles, deleted, top)
    ensures NIL !in inCache && Without(lru, NIL) == lru && Without(inUse, NIL) == inUse
  {
    NotIn(lru, NIL);
    NotIn(inUse, NIL);
  }

  lemma NotIn(s: seq<nat>, e: nat)
    requires e !in s
    ensures Without(s, e) == s
  {
  }

  /** A search of the table for the key of one of its elements finds that element. */
  lemma OnlyMatch(list: seq<nat>, nextHash: map<nat, nat>, chains: seq<seq<nat>>, elements: set<nat>, handles: Memory, e: nat, r: nat)
    requires Linked(handles, list, nextHash, chains) && Holds(handles, chains, elements) && e in elements && e in handles
    requires r == NIL ==> forall x :: x in elements ==> x in handles && !Matches(handles[x], handles[e].key, handles[e].hash)
    requires r != NIL ==> r in elements && r in handles && Matches(handles[r], handles[e].key, handles[e].hash)
    ensures r == e
  {
    hide Linked, Holds;
    assert Matches(handles[e], handles[e].key, handles[e].hash);
    if r != e {
      KeysApart(handles, list, nextHash, chains, elements, r, e);
    }
  }
}
