/** The hash table of the cache (util/cache.cc, class HandleTable): buckets of entries linked through `next_hash`. */
module HandleTable {
  import opened Coding
  import opened Wrappers

  /** The parts of an LRUHandle that never change. Addresses are numbers, and NIL is nullptr. */
  datatype Handle = Handle(key: seq<Byte>, hash: nat, value: int, charge: nat)

  const NIL: nat := 0

  type Memory = map<nat, Handle>

  predicate Matches(h: Handle, key: seq<Byte>, hash: nat) {
    h.hash == hash && h.key == key
  }

  // Masks

  function And(a: nat, b: nat): nat
    decreases a
  {
    if a == 0 || b == 0 then 0 else (if a % 2 == 1 && b % 2 == 1 then 1 else 0) + 2 * And(a / 2, b / 2)
  }

  predicate PowerOfTwo(n: nat) {
    n == 1 || (n > 0 && n % 2 == 0 && PowerOfTwo(n / 2))
  }

  /** `hash & (length - 1)` is meant as this. */
  function BucketOf(hash: nat, length: nat): (b: nat)
    requires length > 0
    ensures b < length
  {
    hash % length
  }

  lemma AndHalf(a: nat, m: nat)
    requires m > 0
    ensures And(a, 2 * m - 1) == a % 2 + 2 * And(a / 2, m - 1)
  {
    assert (2 * m - 1) / 2 == m - 1 && (2 * m - 1) % 2 == 1;
    if a == 0 {
      assert And(0, m - 1) == 0;
    }
  }

  /** Masking with a power of two less one takes the remainder. */
  lemma {:induction false} MaskIsRemainder(hash: nat, n: nat)
    requires PowerOfTwo(n)
    ensures And(hash, n - 1) == BucketOf(hash, n)
    decreases n
  {
    if n > 1 {
      var m := n / 2;
      MaskIsRemainder(hash / 2, m);
      hide BucketOf, And;
      AndHalf(hash, m);
      HalfRemainder(hash, m);
    }
  }

  lemma HalfRemainder(a: nat, m: nat)
    requires m > 0
    ensures BucketOf(a, 2 * m) == a % 2 + 2 * BucketOf(a / 2, m)
  {
    var half := a / 2;
    var q, r := half / m, half % m;
    Division(half, m);
    assert m * q * 2 == (2 * m) * q;
    Remainder(a, 2 * m, q, a % 2 + 2 * r);
  }

  lemma Division(a: nat, m: nat)
    requires m > 0
    ensures a == m * (a / m) + a % m && a % m < m
  {
  }

  lemma ProductGrows(n: nat, d: int)
    ensures d >= 1 ==> n * d >= n
    ensures d <= -1 ==> n * d <= -(n as int)
  {
    if d >= 1 {
      assert n * (d - 1) >= 0;
    } else if d <= -1 {
      assert n * (-d - 1) >= 0;
    }
  }

  lemma Remainder(a: nat, n: nat, q: nat, r: nat)
    requires n > 0 && a == n * q + r && r < n
    ensures a % n == r
  {
    Division(a, n);
    var d := a / n - q;
    assert n * d == n * (a / n) - n * q;
    ProductGrows(n, d);
  }

  // Chains

  function At(c: seq<nat>, i: nat): nat {
    if i < |c| then c[i] else NIL
  }

  /** Following `next_hash` from `p` passes through `c` and ends in nullptr. */
  ghost predicate Chain(nextHash: map<nat, nat>, p: nat, c: seq<nat>) {
    && p == At(c, 0)
    && forall i :: 0 <= i < |c| ==> c[i] != NIL && c[i] in nextHash && nextHash[c[i]] == At(c, i + 1)
  }

  /** The chain of a bucket: entries of that bucket, of pairwise different keys. */
  ghost predicate Bucket(handles: Memory, c: seq<nat>, b: nat, length: nat)
    requires length > 0
  {
    && (forall i :: 0 <= i < |c| ==> c[i] in handles && BucketOf(handles[c[i]].hash, length) == b)
    && (forall i, j :: 0 <= i < j < |c| ==> !Matches(handles[c[i]], handles[c[j]].key, handles[c[j]].hash))
  }

  lemma ChainKept(nextHash: map<nat, nat>, nextHash': map<nat, nat>, p: nat, c: seq<nat>)
    requires Chain(nextHash, p, c) && forall e :: e in c ==> e in nextHash' && nextHash'[e] == nextHash[e]
    ensures Chain(nextHash', p, c)
  {
    hide At;
    forall i | 0 <= i < |c|
      ensures c[i] in nextHash' && nextHash'[c[i]] == At(c, i + 1)
    {
      assert c[i] in c;
    }
  }

  lemma ApartInBucket(handles: Memory, c: seq<nat>, b: nat, length: nat, i: nat, j: nat)
    requires length > 0 && Bucket(handles, c, b, length) && i < |c| && j < |c| && c[i] == c[j]
    ensures i == j
  {
    if i != j {
      assert Matches(handles[c[i]], handles[c[j]].key, handles[c[j]].hash);
    }
  }

  /** `next_hash` with `p` stored at the slot that leads to entry `i` of `c`. */
  function Stored(nextHash: map<nat, nat>, c: seq<nat>, i: nat, p: nat): map<nat, nat>
    requires i <= |c|
  {
    if i == 0 then nextHash else nextHash[c[i - 1] := p]
  }

  /** The part of a chain before a slot, once something else is stored there. */
  lemma ChainFront(nextHash: map<nat, nat>, p: nat, c: seq<nat>, i: nat, first: nat, k: nat)
    requires k < i <= |c| && Chain(nextHash, p, c) && (forall j, k :: 0 <= j < k < |c| ==> c[j] != c[k])
    ensures c[k] != NIL && c[k] in Stored(nextHash, c, i, first)
    ensures Stored(nextHash, c, i, first)[c[k]] == if k == i - 1 then first else c[k + 1]
  {
    if k < i - 1 {
      assert c[k] != c[i - 1];
    }
  }

  lemma SplicedFront(nextHash: map<nat, nat>, nextHash': map<nat, nat>, p: nat, c: seq<nat>, i: nat, tail: seq<nat>, k: nat)
    requires k < i <= |c| && Chain(nextHash, p, c) && (forall j, k :: 0 <= j < k < |c| ==> c[j] != c[k])
    requires forall e :: e in c[..i] ==> e in nextHash' && nextHash'[e] == Stored(nextHash, c, i, At(tail, 0))[e]
    ensures c[k] != NIL && c[k] in nextHash' && nextHash'[c[k]] == At(c[..i] + tail, k + 1)
  {
    hide Stored, Chain;
    ChainFront(nextHash, p, c, i, At(tail, 0), k);
    assert c[..i][k] == c[k] && c[..i][k] in c[..i];
    assert At(c[..i] + tail, k + 1) == if k == i - 1 then At(tail, 0) else c[k + 1];
  }

  lemma SplicedTail(nextHash': map<nat, nat>, front: seq<nat>, tail: seq<nat>, k: nat)
    requires Chain(nextHash', At(tail, 0), tail) && |front| <= k < |front + tail|
    ensures var c := front + tail; c[k] != NIL && c[k] in nextHash' && nextHash'[c[k]] == At(c, k + 1)
  {
    assert (front + tail)[k] == tail[k - |front|];
    assert At(front + tail, k + 1) == At(tail, k - |front| + 1);
  }

  /** Storing the tail of another chain at a slot: what was before it stays. */
  lemma ChainSpliced(nextHash: map<nat, nat>, nextHash': map<nat, nat>, p: nat, c: seq<nat>, i: nat, tail: seq<nat>)
    requires i <= |c| && Chain(nextHash, p, c) && (forall j, k :: 0 <= j < k < |c| ==> c[j] != c[k])
    requires forall e :: e in c[..i] ==> e in nextHash' && nextHash'[e] == Stored(nextHash, c, i, At(tail, 0))[e]
    requires Chain(nextHash', At(tail, 0), tail)
    ensures Chain(nextHash', if i == 0 then At(tail, 0) else p, c[..i] + tail)
  {
    hide Stored;
    var c' := c[..i] + tail;
    assert At(c', 0) == if i == 0 then At(tail, 0) else At(c, 0);
    forall k | 0 <= k < |c'|
      ensures c'[k] != NIL && c'[k] in nextHash' && nextHash'[c'[k]] == At(c', k + 1)
    {
      if k < i {
        SplicedFront(nextHash, nextHash', p, c, i, tail, k);
        assert c'[k] == c[k];
      } else {
        SplicedTail(nextHash', c[..i], tail, k);
      }
    }
  }

  /** Where a pointer to an entry is stored: in a bucket, or in the entry before it. */
  datatype Slot = InBucket(b: nat) | NextOf(e: nat)

  ghost predicate Linked(handles: Memory, list: seq<nat>, nextHash: map<nat, nat>, chains: seq<seq<nat>>)
    ensures Linked(handles, list, nextHash, chains) ==> |chains| == |list| > 0
  {
    && PowerOfTwo(|list|) && |chains| == |list| > 0
    && (forall b :: 0 <= b < |list| ==> Chain(nextHash, list[b], chains[b]))
    && (forall b :: 0 <= b < |list| ==> Bucket(handles, chains[b], b, |list|))
  }

  /** The chains hold exactly `elements`, each in the bucket of its hash. */
  ghost predicate Holds(handles: Memory, chains: seq<seq<nat>>, elements: set<nat>) {
    && (forall b, e :: 0 <= b < |chains| && e in chains[b] ==> e in elements)
    && (forall e :: e in elements ==> |chains| > 0 && e in handles && e in chains[BucketOf(handles[e].hash, |chains|)])
  }

  lemma ElementsAreApart(handles: Memory, list: seq<nat>, nextHash: map<nat, nat>, chains: seq<seq<nat>>, a: nat, b: nat, e: nat)
    requires Linked(handles, list, nextHash, chains) && a < |list| && b < |list| && e in chains[a] && e in chains[b]
    ensures a == b
  {
    hide BucketOf, Chain, PowerOfTwo;
    assert Bucket(handles, chains[a], a, |list|) && Bucket(handles, chains[b], b, |list|);
  }

  /** One bucket changes, and in `next_hash` only the entries of its chain, old or new. */
  lemma BucketChanged(handles: Memory, list: seq<nat>, nextHash: map<nat, nat>, chains: seq<seq<nat>>,
                      list': seq<nat>, nextHash': map<nat, nat>, b: nat, c': seq<nat>)
    requires Linked(handles, list, nextHash, chains) && b < |list|
    requires |list'| == |list| && forall a :: 0 <= a < |list| && a != b ==> list'[a] == list[a]
    requires Chain(nextHash', list'[b], c') && Bucket(handles, c', b, |list|)
    requires forall e :: e in nextHash && e !in chains[b] && e !in c' ==> e in nextHash' && nextHash'[e] == nextHash[e]
    ensures Linked(handles, list', nextHash', chains[b := c'])
  {
    hide BucketOf, PowerOfTwo;
    forall a | 0 <= a < |list| && a != b
      ensures Chain(nextHash', list'[a], chains[a])
    {
      assert Chain(nextHash, list[a], chains[a]) && Bucket(handles, chains[a], a, |list|);
      forall e | e in chains[a]
        ensures e in nextHash' && nextHash'[e] == nextHash[e]
      {
        if e in chains[b] {
          ElementsAreApart(handles, list, nextHash, chains, a, b, e);
        }
      }
      ChainKept(nextHash, nextHash', list[a], chains[a]);
    }
  }

  lemma HoldsChanged(handles: Memory, chains: seq<seq<nat>>, elements: set<nat>, b: nat, c': seq<nat>, elements': set<nat>)
    requires Holds(handles, chains, elements) && b < |chains|
    requires forall e :: e in c' ==> e in handles && BucketOf(handles[e].hash, |chains|) == b
    requires forall e :: e in elements' <==> (e in elements && e !in chains[b]) || e in c'
    requires forall a, e :: 0 <= a < |chains| && a != b && e in chains[a] ==> e !in chains[b]
    ensures Holds(handles, chains[b := c'], elements')
  {
    hide BucketOf;
  }

  lemma ChainIsDistinct(handles: Memory, list: seq<nat>, nextHash: map<nat, nat>, chains: seq<seq<nat>>, b: nat)
    requires Linked(handles, list, nextHash, chains) && b < |list|
    ensures |chains| == |list| && Chain(nextHash, list[b], chains[b]) && Bucket(handles, chains[b], b, |list|)
    ensures forall j, k :: 0 <= j < k < |chains[b]| ==> chains[b][j] != chains[b][k]
    ensures forall a, e :: 0 <= a < |list| && a != b && e in chains[a] ==> e !in chains[b]
  {
    hide BucketOf, PowerOfTwo, Chain;
    forall j, k | 0 <= j < k < |chains[b]|
      ensures chains[b][j] != chains[b][k]
    {
      if chains[b][j] == chains[b][k] {
        ApartInBucket(handles, chains[b], b, |list|, j, k);
      }
    }
    forall a, e | 0 <= a < |list| && a != b && e in chains[a]
      ensures e !in chains[b]
    {
      if e in chains[b] {
        ElementsAreApart(handles, list, nextHash, chains, a, b, e);
      }
    }
  }

  /** The chain after entry `i` of bucket `b` was replaced by `h`, or `h` put at the end. */
  function WithEntry(c: seq<nat>, i: nat, h: nat): seq<nat>
    requires i <= |c|
  {
    c[..i] + ([h] + c[if i < |c| then i + 1 else i..])
  }

  /** The two stores of Insert. */
  lemma EntryLinked(handles: Memory, list: seq<nat>, nextHash: map<nat, nat>, chains: seq<seq<nat>>,
                    b: nat, i: nat, h: nat, list': seq<nat>, nextHash': map<nat, nat>)
    requires Linked(handles, list, nextHash, chains) && b < |list| && i <= |chains[b]|
    requires h in handles && h != NIL && h !in chains[b] && BucketOf(handles[h].hash, |list|) == b
    requires forall j :: 0 <= j < |chains[b]| && j != i ==> !Matches(handles[chains[b][j]], handles[h].key, handles[h].hash)
    requires list' == if i == 0 then list[b := h] else list
    requires nextHash' == Stored(nextHash[h := At(chains[b], i + 1)], chains[b], i, h)
    ensures Linked(handles, list', nextHash', chains[b := WithEntry(chains[b], i, h)])
  {
    hide BucketOf, Linked, Chain, Bucket;
    ChainIsDistinct(handles, list, nextHash, chains, b);
    var c := chains[b];
    EntryChain(nextHash, nextHash', list[b], c, i, h);
    EntryBucket(handles, c, b, |list|, i, h);
    assert |list'| == |list|;
    BucketChanged(handles, list, nextHash, chains, list', nextHash', b, WithEntry(c, i, h));
  }

  lemma EntryChain(nextHash: map<nat, nat>, nextHash': map<nat, nat>, p: nat, c: seq<nat>, i: nat, h: nat)
    requires i <= |c| && Chain(nextHash, p, c) && (forall j, k :: 0 <= j < k < |c| ==> c[j] != c[k]) && h != NIL && h !in c
    requires nextHash' == Stored(nextHash[h := At(c, i + 1)], c, i, h)
    ensures Chain(nextHash', if i == 0 then h else p, WithEntry(c, i, h))
    ensures forall e :: e in nextHash && e !in c && e !in WithEntry(c, i, h) ==> e in nextHash' && nextHash'[e] == nextHash[e]
  {
    EntryTail(nextHash, nextHash', p, c, i, h);
    hide Chain;
    var tail := [h] + c[if i < |c| then i + 1 else i..];
    forall e | e in c[..i]
      ensures e in nextHash' && nextHash'[e] == Stored(nextHash, c, i, h)[e]
    {
      InChain(nextHash, p, c, e);
    }
    ChainSpliced(nextHash, nextHash', p, c, i, tail);
    assert h == WithEntry(c, i, h)[i];
    assert i > 0 ==> c[i - 1] in c;
  }

  lemma InChain(nextHash: map<nat, nat>, p: nat, c: seq<nat>, e: nat)
    requires Chain(nextHash, p, c) && e in c
    ensures e in nextHash && e != NIL
  {
  }

  lemma EntryTail(nextHash: map<nat, nat>, nextHash': map<nat, nat>, p: nat, c: seq<nat>, i: nat, h: nat)
    requires i <= |c| && Chain(nextHash, p, c) && (forall j, k :: 0 <= j < k < |c| ==> c[j] != c[k]) && h != NIL && h !in c
    requires nextHash' == Stored(nextHash[h := At(c, i + 1)], c, i, h)
    ensures Chain(nextHash', h, [h] + c[if i < |c| then i + 1 else i..])
  {
    var tail := [h] + c[if i < |c| then i + 1 else i..];
    forall k | 0 <= k < |tail|
      ensures tail[k] != NIL && tail[k] in nextHash' && nextHash'[tail[k]] == At(tail, k + 1)
    {
      if k == 0 {
        EntryTailFront(nextHash, p, c, i, h);
      } else {
        EntryTailAt(nextHash, p, c, i, h, k);
      }
    }
  }

  /** The new entry points to what follows the one that it replaces. */
  lemma EntryTailFront(nextHash: map<nat, nat>, p: nat, c: seq<nat>, i: nat, h: nat)
    requires i <= |c| && Chain(nextHash, p, c) && h !in c
    ensures var tail := [h] + c[if i < |c| then i + 1 else i..];
            var nextHash' := Stored(nextHash[h := At(c, i + 1)], c, i, h);
            h in nextHash' && nextHash'[h] == At(tail, 1)
  {
    hide Chain;
    assert i > 0 ==> c[i - 1] in c;
  }

  lemma EntryTailAt(nextHash: map<nat, nat>, p: nat, c: seq<nat>, i: nat, h: nat, k: nat)
    requires i <= |c| && Chain(nextHash, p, c) && (forall j, k :: 0 <= j < k < |c| ==> c[j] != c[k]) && h !in c
    requires 0 < k && i + k < |c|
    ensures var nextHash' := Stored(nextHash[h := At(c, i + 1)], c, i, h);
            c[i + k] != NIL && c[i + k] in nextHash' && nextHash'[c[i + k]] == At(c, i + k + 1)
  {
    assert c[i + k] in c && c[i + k] != h;
    assert i > 0 ==> c[i - 1] != c[i + k];
  }

  lemma EntryBucket(handles: Memory, c: seq<nat>, b: nat, length: nat, i: nat, h: nat)
    requires length > 0 && Bucket(handles, c, b, length) && i <= |c| && h in handles && BucketOf(handles[h].hash, length) == b
    requires forall j :: 0 <= j < |c| && j != i ==> !Matches(handles[c[j]], handles[h].key, handles[h].hash)
    ensures Bucket(handles, WithEntry(c, i, h), b, length)
  {
    hide BucketOf;
    var c' := WithEntry(c, i, h);
    assert |c'| == if i < |c| then |c| else |c| + 1;
    assert forall k :: 0 <= k < |c'| ==> c'[k] == if k == i then h else c[k];
  }

  /** Entry `i` of a chain has this key, or there is none and `i` is the end. */
  ghost predicate Found(handles: Memory, c: seq<nat>, key: seq<Byte>, hash: nat, i: nat) {
    && i <= |c|
    && (forall j :: 0 <= j < |c| ==> c[j] in handles)
    && (forall j :: 0 <= j < |c| ==> (j == i <==> Matches(handles[c[j]], key, hash)))
  }

  ghost predicate NoMatchBefore(handles: Memory, c: seq<nat>, key: seq<Byte>, hash: nat, i: nat) {
    && i <= |c|
    && (forall j :: 0 <= j < |c| ==> c[j] in handles)
    && (forall j :: 0 <= j < i ==> !Matches(handles[c[j]], key, hash))
  }

  lemma ChainStarts(nextHash: map<nat, nat>, p: nat, c: seq<nat>)
    requires Chain(nextHash, p, c)
    ensures p == At(c, 0)
  {
  }

  lemma ChainAt(nextHash: map<nat, nat>, p: nat, c: seq<nat>, i: nat)
    requires Chain(nextHash, p, c) && i <= |c| && At(c, i) != NIL
    ensures i < |c| && c[i] in nextHash && nextHash[c[i]] == At(c, i + 1)
  {
  }

  lemma ChainEnds(nextHash: map<nat, nat>, p: nat, c: seq<nat>)
    requires Chain(nextHash, p, c)
    ensures forall i :: 0 <= i < |c| ==> c[i] != NIL
  {
  }

  lemma BucketIn(handles: Memory, c: seq<nat>, b: nat, length: nat)
    requires length > 0 && Bucket(handles, c, b, length)
    ensures forall i :: 0 <= i < |c| ==> c[i] in handles
  {
    hide BucketOf, Matches;
  }

  /** A search that stopped at a match or at the end found what there is to find. */
  lemma FoundAt(handles: Memory, c: seq<nat>, b: nat, length: nat, key: seq<Byte>, hash: nat, i: nat)
    requires length > 0 && Bucket(handles, c, b, length) && NoMatchBefore(handles, c, key, hash, i)
    requires i < |c| ==> Matches(handles[c[i]], key, hash)
    ensures Found(handles, c, key, hash, i)
  {
    hide BucketOf;
    forall j | i < j < |c|
      ensures !Matches(handles[c[j]], key, hash)
    {
      assert !Matches(handles[c[i]], handles[c[j]].key, handles[c[j]].hash);
    }
  }

  /** What a search of the right bucket says of the whole table. */
  lemma FoundInTable(handles: Memory, list: seq<nat>, nextHash: map<nat, nat>, chains: seq<seq<nat>>, elements: set<nat>, key: seq<Byte>, hash: nat, i: nat)
    requires Linked(handles, list, nextHash, chains) && Holds(handles, chains, elements)
    requires Found(handles, chains[BucketOf(hash, |list|)], key, hash, i)
    ensures NIL !in elements && forall x :: x in elements ==> x in handles
    ensures
      var e := At(chains[BucketOf(hash, |list|)], i);
      if e == NIL then i == |chains[BucketOf(hash, |list|)]| && forall x :: x in elements ==> !Matches(handles[x], key, hash)
      else i < |chains[BucketOf(hash, |list|)]| && e in elements && Matches(handles[e], key, hash)
  {
    hide BucketOf, PowerOfTwo, Bucket;
    var c := chains[BucketOf(hash, |list|)];
    assert Chain(nextHash, list[BucketOf(hash, |list|)], c);
    assert i < |c| ==> c[i] in c;
    forall x | x in elements
      ensures x != NIL && (Matches(handles[x], key, hash) ==> x in c)
    {
      var a := BucketOf(handles[x].hash, |list|);
      assert Chain(nextHash, list[a], chains[a]) && x in chains[a];
    }
  }

  lemma EntryMembers(c: seq<nat>, i: nat, h: nat)
    requires i <= |c| && forall j, k :: 0 <= j < k < |c| ==> c[j] != c[k]
    ensures forall e :: e in WithEntry(c, i, h) <==> e == h || (e in c && !(i < |c| && e == c[i]))
    ensures NIL !in c ==> forall e :: e in WithEntry(c, i, h) <==> e == h || (e in c && e != At(c, i))
  {
    var c' := WithEntry(c, i, h);
    assert forall k :: 0 <= k < |c'| ==> c'[k] == if k == i then h else c[k];
    assert forall k :: 0 <= k < |c| && k != i ==> c[k] == c'[k] && c'[k] in c';
    assert c'[i] == h && h in c';
    hide WithEntry;
  }

  lemma ChainHeld(handles: Memory, chains: seq<seq<nat>>, elements: set<nat>, b: nat)
    requires Holds(handles, chains, elements) && b < |chains|
    ensures forall e :: e in chains[b] ==> e in elements && e in handles
  {
    hide BucketOf;
  }

  lemma EntryHeld(handles: Memory, list: seq<nat>, nextHash: map<nat, nat>, chains: seq<seq<nat>>, elements: set<nat>, i: nat, h: nat)
    requires Linked(handles, list, nextHash, chains) && Holds(handles, chains, elements) && h in handles && NIL !in elements
    requires i <= |chains[BucketOf(handles[h].hash, |list|)]|
    ensures
      var b := BucketOf(handles[h].hash, |list|);
      Holds(handles, chains[b := WithEntry(chains[b], i, h)], elements - {At(chains[b], i)} + {h})
  {
    hide BucketOf, Linked, Holds, WithEntry;
    var b := BucketOf(handles[h].hash, |list|);
    ChainIsDistinct(handles, list, nextHash, chains, b);
    var c := chains[b];
    var c' := WithEntry(c, i, h);
    var elements' := elements - {At(c, i)} + {h};
    ChainHeld(handles, chains, elements, b);
    EntryMembers(c, i, h);
    assert i < |c| ==> c[i] in c;
    assert forall e :: e in c ==> e in elements && e in handles && BucketOf(handles[e].hash, |chains|) == b;
    HoldsChanged(handles, chains, elements, b, c', elements');
  }

  /** The store of Remove. */
  lemma EntryUnlinked(handles: Memory, list: seq<nat>, nextHash: map<nat, nat>, chains: seq<seq<nat>>,
                      b: nat, i: nat, list': seq<nat>, nextHash': map<nat, nat>)
    requires Linked(handles, list, nextHash, chains) && b < |list| && i < |chains[b]|
    requires list' == if i == 0 then list[b := At(chains[b], 1)] else list
    requires nextHash' == Stored(nextHash, chains[b], i, At(chains[b], i + 1))
    ensures Linked(handles, list', nextHash', chains[b := chains[b][..i] + chains[b][i + 1..]])
  {
    hide BucketOf, Linked, Chain;
    ChainIsDistinct(handles, list, nextHash, chains, b);
    var c := chains[b];
    ChainCut(nextHash, nextHash', list[b], c, i);
    var c' := c[..i] + c[i + 1..];
    assert forall k :: 0 <= k < |c'| ==> c'[k] == c[if k < i then k else k + 1];
    BucketChanged(handles, list, nextHash, chains, list', nextHash', b, c');
  }

  lemma ChainCut(nextHash: map<nat, nat>, nextHash': map<nat, nat>, p: nat, c: seq<nat>, i: nat)
    requires i < |c| && Chain(nextHash, p, c) && (forall j, k :: 0 <= j < k < |c| ==> c[j] != c[k])
    requires nextHash' == Stored(nextHash, c, i, At(c, i + 1))
    ensures Chain(nextHash', if i == 0 then At(c, 1) else p, c[..i] + c[i + 1..])
    ensures forall e :: e in nextHash && e !in c ==> e in nextHash' && nextHash'[e] == nextHash[e]
  {
    var tail := c[i + 1..];
    assert At(tail, 0) == At(c, i + 1);
    forall k | 0 <= k < |tail|
      ensures tail[k] != NIL && tail[k] in nextHash' && nextHash'[tail[k]] == At(tail, k + 1)
    {
      assert tail[k] == c[i + 1 + k];
    }
    ChainSpliced(nextHash, nextHash', p, c, i, tail);
  }

  lemma DroppedMembers(c: seq<nat>, i: nat)
    requires i < |c| && forall j, k :: 0 <= j < k < |c| ==> c[j] != c[k]
    ensures c[i] in c && forall e :: e in c[..i] + c[i + 1..] <==> e in c && e != c[i]
  {
    var c' := c[..i] + c[i + 1..];
    assert forall k :: 0 <= k < |c'| ==> c'[k] == c[if k < i then k else k + 1];
    assert forall k :: 0 <= k < i ==> c[k] == c'[k];
    assert forall k :: i < k < |c| ==> c[k] == c'[k - 1];
  }

  lemma EntryDropped(handles: Memory, list: seq<nat>, nextHash: map<nat, nat>, chains: seq<seq<nat>>, elements: set<nat>, b: nat, i: nat)
    requires Linked(handles, list, nextHash, chains) && Holds(handles, chains, elements) && b < |list| && i < |chains[b]|
    ensures Holds(handles, chains[b := chains[b][..i] + chains[b][i + 1..]], elements - {chains[b][i]})
  {
    hide BucketOf, Linked, Holds;
    ChainIsDistinct(handles, list, nextHash, chains, b);
    var c := chains[b];
    var c' := c[..i] + c[i + 1..];
    ChainHeld(handles, chains, elements, b);
    DroppedMembers(c, i);
    hide Bucket;
    assert forall e :: e in c ==> BucketOf(handles[e].hash, |chains|) == b;
    HoldsChanged(handles, chains, elements, b, c', elements - {c[i]});
  }

  // Moving the entries to a larger table

  /** The smallest power of two from 4 on that is at least `elems`. */
  method NewLength(elems: nat) returns (newLength: nat)
    ensures PowerOfTwo(newLength) && newLength >= 4 && newLength >= elems
  {
    newLength := 4;
    assert PowerOfTwo(2);
    while newLength < elems
      invariant PowerOfTwo(newLength) && newLength >= 4
    {
      newLength := newLength * 2;
    }
  }

  /**
   * The buckets before `i` are moved, those after it are as they were; of bucket `i` all is still to be
   * moved, or, while it is walked, the `rest` that starts at `h`.
   */
  ghost predicate Moving(handles: Memory, list: seq<nat>, before: map<nat, nat>, chains: seq<seq<nat>>, elements: set<nat>,
                         nextHash: map<nat, nat>, newList: seq<nat>, newChains: seq<seq<nat>>, moved: set<nat>,
                         i: nat, walk: Option<(nat, seq<nat>)>)
  {
    && Linked(handles, list, before, chains) && Holds(handles, chains, elements)
    && Linked(handles, newList, nextHash, newChains) && Holds(handles, newChains, moved)
    && moved <= elements
    && (forall a :: (if walk.Some? then i + 1 else i) <= a < |list| ==> Chain(nextHash, list[a], chains[a]))
    && (forall e :: e in elements && BucketOf(handles[e].hash, |list|) < i ==> e in moved)
    && (forall e :: e in moved ==> BucketOf(handles[e].hash, |list|) < i + if walk.Some? then 1 else 0)
    && (walk.Some? ==>
          var (h, rest) := walk.value;
          && i < |list| && |rest| <= |chains[i]| && rest == chains[i][|chains[i]| - |rest|..] && Chain(nextHash, h, rest)
          && (forall e :: e in chains[i] ==> (e in moved <==> e !in rest)))
  }

  lemma MovingStarts(handles: Memory, list: seq<nat>, nextHash: map<nat, nat>, chains: seq<seq<nat>>, elements: set<nat>, newList: seq<nat>, newChains: seq<seq<nat>>)
    requires Linked(handles, list, nextHash, chains) && Holds(handles, chains, elements)
    requires PowerOfTwo(|newList|) && |newChains| == |newList| > 0
    requires forall b :: 0 <= b < |newList| ==> newList[b] == NIL && newChains[b] == []
    ensures Moving(handles, list, nextHash, chains, elements, nextHash, newList, newChains, {}, 0, None)
  {
    hide BucketOf, PowerOfTwo;
  }

  lemma MovingBucket(handles: Memory, list: seq<nat>, before: map<nat, nat>, chains: seq<seq<nat>>, elements: set<nat>,
                     nextHash: map<nat, nat>, newList: seq<nat>, newChains: seq<seq<nat>>, moved: set<nat>, i: nat)
    requires i < |list| == |chains| && Moving(handles, list, before, chains, elements, nextHash, newList, newChains, moved, i, None)
    ensures Moving(handles, list, before, chains, elements, nextHash, newList, newChains, moved, i, Some((list[i], chains[i])))
  {
    hide BucketOf, PowerOfTwo, Holds, Chain;
    ChainIsDistinct(handles, list, before, chains, i);
    hide Linked;
    assert chains[i] == chains[i][0..];
    assert forall e :: e in chains[i] ==> BucketOf(handles[e].hash, |list|) == i;
  }

  lemma ChainPrepended(nextHash: map<nat, nat>, p: nat, c: seq<nat>, h: nat)
    requires Chain(nextHash, p, c) && h != NIL && h !in c
    ensures Chain(nextHash[h := p], h, [h] + c)
  {
    var c' := [h] + c;
    forall k | 0 <= k < |c'|
      ensures c'[k] != NIL && c'[k] in nextHash[h := p] && nextHash[h := p][c'[k]] == At(c', k + 1)
    {
      if k > 0 {
        assert c'[k] == c[k - 1] && c[k - 1] in c;
      }
    }
  }

  /** An entry of a new key put in front of its bucket. */
  lemma Prepended(handles: Memory, list: seq<nat>, nextHash: map<nat, nat>, chains: seq<seq<nat>>, elements: set<nat>, h: nat)
    requires Linked(handles, list, nextHash, chains) && Holds(handles, chains, elements)
    requires h in handles && h != NIL && h !in elements
    requires forall x :: x in elements ==> x in handles && !Matches(handles[h], handles[x].key, handles[x].hash)
    ensures
      var b := BucketOf(handles[h].hash, |list|);
      && |chains| == |list|
      && Linked(handles, list[b := h], nextHash[h := list[b]], chains[b := [h] + chains[b]])
      && Holds(handles, chains[b := [h] + chains[b]], elements + {h})
  {
    hide BucketOf, Linked, Holds, Chain;
    var b := BucketOf(handles[h].hash, |list|);
    ChainIsDistinct(handles, list, nextHash, chains, b);
    ChainHeld(handles, chains, elements, b);
    var c := chains[b];
    ChainPrepended(nextHash, list[b], c, h);
    assert forall k :: 0 <= k < |c| ==> c[k] in c;
    BucketChanged(handles, list, nextHash, chains, list[b := h], nextHash[h := list[b]], b, [h] + c);
    HoldsChanged(handles, chains, elements, b, [h] + c, elements + {h});
  }

  lemma KeysApart(handles: Memory, list: seq<nat>, nextHash: map<nat, nat>, chains: seq<seq<nat>>, elements: set<nat>, x: nat, y: nat)
    requires Linked(handles, list, nextHash, chains) && Holds(handles, chains, elements) && x in elements && y in elements && x != y
    ensures x in handles && y in handles && !Matches(handles[x], handles[y].key, handles[y].hash)
  {
    hide BucketOf, Chain, PowerOfTwo;
    var b := BucketOf(handles[x].hash, |list|);
    assert Bucket(handles, chains[b], b, |list|);
    if y in chains[b] {
      var i :| 0 <= i < |chains[b]| && chains[b][i] == x;
      var j :| 0 <= j < |chains[b]| && chains[b][j] == y;
      assert i < j || j < i;
    }
  }

  lemma MovingStep(handles: Memory, list: seq<nat>, before: map<nat, nat>, chains: seq<seq<nat>>, elements: set<nat>,
                   nextHash: map<nat, nat>, newList: seq<nat>, newChains: seq<seq<nat>>, moved: set<nat>, i: nat, h: nat, rest: seq<nat>)
    requires Moving(handles, list, before, chains, elements, nextHash, newList, newChains, moved, i, Some((h, rest))) && h != NIL
    ensures rest != [] && h in handles && h in nextHash && h !in moved && |newChains| == |newList| > 0
    ensures
      var b := BucketOf(handles[h].hash, |newList|);
      Moving(handles, list, before, chains, elements, nextHash[h := newList[b]], newList[b := h], newChains[b := [h] + newChains[b]],
             moved + {h}, i, Some((nextHash[h], rest[1..])))
  {
    hide BucketOf, Linked, Holds, Chain, Bucket, Matches;
    ChainIsDistinct(handles, list, before, chains, i);
    ChainHeld(handles, chains, elements, i);
    HeadOfRest(nextHash, h, rest, chains[i]);
    forall x | x in moved
      ensures x in handles && !Matches(handles[h], handles[x].key, handles[x].hash)
    {
      KeysApart(handles, list, before, chains, elements, h, x);
    }
    Prepended(handles, newList, nextHash, newChains, moved, h);
    var b := BucketOf(handles[h].hash, |newList|);
    var nextHash' := nextHash[h := newList[b]];
    assert BucketOf(handles[h].hash, |list|) == i by {
      BucketHolds(handles, list, before, chains, i, h);
    }
    forall a | i < a < |list|
      ensures Chain(nextHash', list[a], chains[a])
    {
      ChainIsDistinct(handles, list, before, chains, a);
      ChainIn(nextHash, list[a], chains[a]);
      ChainKept(nextHash, nextHash', list[a], chains[a]);
    }
    RestMoves(nextHash, nextHash', h, rest, chains[i]);
  }

  lemma BucketHolds(handles: Memory, list: seq<nat>, nextHash: map<nat, nat>, chains: seq<seq<nat>>, b: nat, e: nat)
    requires Linked(handles, list, nextHash, chains) && b < |list| && e in chains[b]
    ensures e in handles && BucketOf(handles[e].hash, |list|) == b
  {
    hide BucketOf, Chain, PowerOfTwo;
    assert Bucket(handles, chains[b], b, |list|);
  }

  lemma ChainIn(nextHash: map<nat, nat>, p: nat, c: seq<nat>)
    requires Chain(nextHash, p, c)
    ensures forall e :: e in c ==> e in nextHash
  {
  }

  lemma HeadOfRest(nextHash: map<nat, nat>, h: nat, rest: seq<nat>, c: seq<nat>)
    requires h != NIL && Chain(nextHash, h, rest) && |rest| <= |c| && rest == c[|c| - |rest|..]
    ensures rest != [] && h in nextHash && h == rest[0] && h in rest && h in c
  {
    assert h == rest[0] == c[|c| - |rest|];
  }

  lemma RestMoves(nextHash: map<nat, nat>, nextHash': map<nat, nat>, h: nat, rest: seq<nat>, c: seq<nat>)
    requires h != NIL && Chain(nextHash, h, rest) && |rest| <= |c| && rest == c[|c| - |rest|..]
    requires (forall j, k :: 0 <= j < k < |c| ==> c[j] != c[k]) && (forall e :: e in nextHash && e != h ==> e in nextHash' && nextHash'[e] == nextHash[e])
    ensures rest != [] && h in nextHash && Chain(nextHash', nextHash[h], rest[1..]) && rest[1..] == c[|c| - |rest| + 1..]
    ensures forall e :: e in rest <==> e == h || e in rest[1..]
    ensures h !in rest[1..]
  {
    var k := |c| - |rest|;
    assert h == rest[0] == c[k];
    assert forall j :: 0 < j < |rest| ==> rest[j] == c[k + j] && rest[j] == rest[1..][j - 1];
    assert nextHash[h] == At(rest, 1) == At(rest[1..], 0);
    forall j | 0 <= j < |rest[1..]|
      ensures rest[1..][j] != NIL && rest[1..][j] in nextHash' && nextHash'[rest[1..][j]] == At(rest[1..], j + 1)
    {
      assert rest[1..][j] == rest[j + 1];
      assert At(rest, j + 2) == At(rest[1..], j + 1);
    }
  }

  lemma ChainOfNil(nextHash: map<nat, nat>, c: seq<nat>)
    requires Chain(nextHash, NIL, c)
    ensures c == []
  {
  }

  lemma MovingNext(handles: Memory, list: seq<nat>, before: map<nat, nat>, chains: seq<seq<nat>>, elements: set<nat>,
                   nextHash: map<nat, nat>, newList: seq<nat>, newChains: seq<seq<nat>>, moved: set<nat>, i: nat, rest: seq<nat>)
    requires Moving(handles, list, before, chains, elements, nextHash, newList, newChains, moved, i, Some((NIL, rest)))
    ensures Moving(handles, list, before, chains, elements, nextHash, newList, newChains, moved, i + 1, None)
  {
    hide BucketOf, Linked, Chain, Holds;
    ChainOfNil(nextHash, rest);
    EachInItsBucket(handles, chains, elements);
    EachInItsBucket(handles, newChains, moved);
  }

  lemma EachInItsBucket(handles: Memory, chains: seq<seq<nat>>, elements: set<nat>)
    requires Holds(handles, chains, elements)
    ensures forall e :: e in elements ==> |chains| > 0 && e in handles && e in chains[BucketOf(handles[e].hash, |chains|)]
  {
    hide BucketOf;
  }

  lemma MovingEnds(handles: Memory, list: seq<nat>, before: map<nat, nat>, chains: seq<seq<nat>>, elements: set<nat>,
                   nextHash: map<nat, nat>, newList: seq<nat>, newChains: seq<seq<nat>>, moved: set<nat>)
    requires Moving(handles, list, before, chains, elements, nextHash, newList, newChains, moved, |list|, None)
    ensures moved == elements && Linked(handles, newList, nextHash, newChains) && Holds(handles, newChains, elements)
  {
    hide Chain, Bucket, PowerOfTwo;
  }

  class Table {
    var list: seq<nat>
    var elems: nat
    var nextHash: map<nat, nat>
    ghost var chains: seq<seq<nat>>
    ghost var elements: set<nat>

    /** The table holds exactly `elements`, each findable by its key, and counts them. */
    ghost predicate Valid(handles: Memory)
      reads this
    {
      Linked(handles, list, nextHash, chains) && Holds(handles, chains, elements) && elems == |elements|
    }

    /** Resize of nothing: four empty buckets. */
    constructor ()
      ensures Valid(map[]) && elements == {}
    {
      list, elems, nextHash := [NIL, NIL, NIL, NIL], 0, map[];
      chains, elements := [[], [], [], []], {};
      assert PowerOfTwo(2);
    }

    /** The slot that leads to entry `i` of bucket `b`, or to its end. */
    ghost predicate Leads(slot: Slot, b: nat, i: nat)
      reads this
    {
      && b < |chains| == |list| && i <= |chains[b]|
      && slot == (if i == 0 then InBucket(b) else NextOf(chains[b][i - 1]))
      && (slot.NextOf? ==> slot.e in nextHash)
    }

    function Deref(slot: Slot): nat
      requires slot.InBucket? ==> slot.b < |list|
      requires slot.NextOf? ==> slot.e in nextHash
      reads this
    {
      if slot.InBucket? then list[slot.b] else nextHash[slot.e]
    }

    method Store(slot: Slot, p: nat)
      requires slot.InBucket? ==> slot.b < |list|
      modifies `list, `nextHash
      ensures slot.InBucket? ==> list == old(list)[slot.b := p] && nextHash == old(nextHash)
      ensures slot.NextOf? ==> nextHash == old(nextHash)[slot.e := p] && list == old(list)
    {
      if slot.InBucket? {
        list := list[slot.b := p];
      } else {
        nextHash := nextHash[slot.e := p];
      }
    }

    /** FindPointer: the slot of the entry with this key, or the trailing slot of its bucket. */
    method FindPointer(handles: Memory, key: seq<Byte>, hash: nat) returns (slot: Slot, ghost i: nat)
      requires Linked(handles, list, nextHash, chains)
      ensures Leads(slot, BucketOf(hash, |list|), i)
      ensures Deref(slot) == At(chains[BucketOf(hash, |list|)], i)
      ensures Found(handles, chains[BucketOf(hash, |list|)], key, hash, i)
    {
      hide BucketOf, And, PowerOfTwo, Matches, Chain, Bucket, Found;
      MaskIsRemainder(hash, |list|);
      slot, i := InBucket(And(hash, |list| - 1)), 0;
      ghost var b := BucketOf(hash, |list|);
      ghost var c := chains[b];
      assert Chain(nextHash, list[b], c) && Bucket(handles, c, b, |list|);
      ChainStarts(nextHash, list[b], c);
      BucketIn(handles, c, b, |list|);
      while Deref(slot) != NIL && !Matches(handles[Deref(slot)], key, hash)
        invariant Leads(slot, b, i) && Deref(slot) == At(c, i)
        invariant NoMatchBefore(handles, c, key, hash, i)
        decreases |c| - i
      {
        ChainAt(nextHash, list[b], c, i);
        slot := NextOf(Deref(slot));
        i := i + 1;
      }
      ChainEnds(nextHash, list[b], c);
      FoundAt(handles, c, b, |list|, key, hash, i);
    }

    /** Lookup. */
    method Lookup(handles: Memory, key: seq<Byte>, hash: nat) returns (e: nat)
      requires Valid(handles)
      ensures e != NIL ==> e in elements && e in handles && Matches(handles[e], key, hash)
      ensures e == NIL ==> forall x :: x in elements ==> x in handles && !Matches(handles[x], key, hash)
    {
      hide BucketOf, Linked, Holds, Found;
      var slot;
      ghost var i;
      slot, i := FindPointer(handles, key, hash);
      FoundInTable(handles, list, nextHash, chains, elements, key, hash, i);
      e := Deref(slot);
    }

    /** Insert: over the entry of the same key, which is returned, or at the end of the bucket. */
    method Insert(handles: Memory, h: nat) returns (replaced: nat)
      requires Valid(handles) && h in handles && h != NIL && h !in elements
      modifies this
      ensures Valid(handles)
      ensures replaced == NIL ==> forall x :: x in old(elements) ==> x in handles && !Matches(handles[x], handles[h].key, handles[h].hash)
      ensures replaced != NIL ==> replaced in old(elements) && replaced in handles && Matches(handles[replaced], handles[h].key, handles[h].hash)
      ensures elements == old(elements) - {replaced} + {h}
    {
      hide BucketOf, PowerOfTwo, Linked, Holds, WithEntry;
      var slot;
      ghost var i;
      slot, i := FindPointer(handles, handles[h].key, handles[h].hash);
      ghost var b := BucketOf(handles[h].hash, |list|);
      ghost var c := chains[b];
      FoundInTable(handles, list, nextHash, chains, elements, handles[h].key, handles[h].hash, i);
      assert Chain(nextHash, list[b], c) by {
        ChainIsDistinct(handles, list, nextHash, chains, b);
      }
      replaced := Deref(slot);
      nextHash := nextHash[h := if replaced == NIL then NIL else nextHash[replaced]];
      Store(slot, h);
      EntryLinked(handles, old(list), old(nextHash), chains, b, i, h, list, nextHash);
      EntryHeld(handles, old(list), old(nextHash), chains, elements, i, h);
      chains := chains[b := WithEntry(c, i, h)];
      elements := elements - {replaced} + {h};
      if replaced == NIL {
        elems := elems + 1;
        if elems > |list| {
          Resize(handles);
        }
      }
    }

    /** Remove. */
    method Remove(handles: Memory, key: seq<Byte>, hash: nat) returns (result: nat)
      requires Valid(handles)
      modifies this
      ensures Valid(handles)
      ensures result == NIL ==> forall x :: x in old(elements) ==> x in handles && !Matches(handles[x], key, hash)
      ensures result != NIL ==> result in old(elements) && result in handles && Matches(handles[result], key, hash)
      ensures elements == old(elements) - {result}
    {
      hide BucketOf, PowerOfTwo, Linked, Holds;
      var slot;
      ghost var i;
      slot, i := FindPointer(handles, key, hash);
      ghost var b := BucketOf(hash, |list|);
      ghost var c := chains[b];
      FoundInTable(handles, list, nextHash, chains, elements, key, hash, i);
      result := Deref(slot);
      if result != NIL {
        ChainIsDistinct(handles, list, nextHash, chains, b);
        Store(slot, nextHash[result]);
        EntryUnlinked(handles, old(list), old(nextHash), chains, b, i, list, nextHash);
        EntryDropped(handles, old(list), old(nextHash), chains, elements, b, i);
        elems := elems - 1;
        chains := chains[b := c[..i] + c[i + 1..]];
        elements := elements - {result};
      }
    }

    /** Resize: every entry is moved to a table of twice as many buckets or more; the elements stay the same. */
    method Resize(handles: Memory)
      requires Valid(handles)
      modifies this
      ensures Valid(handles) && elements == old(elements)
      ensures |list| >= elems
    {
      hide BucketOf, And, PowerOfTwo, Linked, Holds, Chain, Moving;
      ghost var before := nextHash;
      var newLength := NewLength(elems);
      var newList: seq<nat> := seq(newLength, _ => NIL);
      ghost var newChains: seq<seq<nat>> := seq(newLength, _ => []);
      ghost var moved: set<nat> := {};
      MovingStarts(handles, list, nextHash, chains, elements, newList, newChains);
      var count := 0;
      var i := 0;
      while i < |list|
        invariant list == old(list) && chains == old(chains) && elements == old(elements) && elems == |elements|
        invariant i <= |list| == |chains| && |newList| == newLength && count == |moved|
        invariant Moving(handles, list, before, chains, elements, nextHash, newList, newChains, moved, i, None)
      {
        ghost var rest := chains[i];
        var h := list[i];
        MovingBucket(handles, list, before, chains, elements, nextHash, newList, newChains, moved, i);
        while h != NIL
          invariant list == old(list) && chains == old(chains) && elements == old(elements) && elems == |elements|
          invariant |newList| == newLength && count == |moved|
          invariant Moving(handles, list, before, chains, elements, nextHash, newList, newChains, moved, i, Some((h, rest)))
          decreases |rest|
        {
          MovingStep(handles, list, before, chains, elements, nextHash, newList, newChains, moved, i, h, rest);
          MaskIsRemainder(handles[h].hash, newLength);
          var next := nextHash[h];
          var b := And(handles[h].hash, newLength - 1);
          nextHash := nextHash[h := newList[b]];
          newList := newList[b := h];
          newChains := newChains[b := [h] + newChains[b]];
          moved := moved + {h};
          rest := rest[1..];
          h := next;
          count := count + 1;
        }
        MovingNext(handles, list, before, chains, elements, nextHash, newList, newChains, moved, i, rest);
        i := i + 1;
      }
      MovingEnds(handles, list, before, chains, elements, nextHash, newList, newChains, moved);
      assert count == elems;
      list := newList;
      chains := newChains;
    }
  }

  /** The table looks only at its own elements. */
  lemma TableKept(t: Table, handles: Memory, handles': Memory)
    requires t.Valid(handles) && forall e :: e in t.elements ==> e in handles && e in handles' && handles'[e] == handles[e]
    ensures t.Valid(handles')
  {
    hide BucketOf, PowerOfTwo, Chain;
    forall b | 0 <= b < |t.list|
      ensures Bucket(handles', t.chains[b], b, |t.list|)
    {
      assert Bucket(handles, t.chains[b], b, |t.list|);
      assert forall i :: 0 <= i < |t.chains[b]| ==> t.chains[b][i] in t.chains[b];
    }
  }
}
