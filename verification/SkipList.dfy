/** The skip list under a memtable (db/skiplist.h): one writer that publishes nodes pointer by pointer,
    and searches that may run in between. Nodes live in an arena and are named by their place in it. */
module SkipList {
  import opened DbFormat
  import opened Wrappers

  const MAX_HEIGHT: nat := 12
  /** The head node comes first in the arena; its key is never looked at. */
  const HEAD: nat := 0

  /** The comparator of a memtable: entries are compared by their internal keys. */
  predicate Before(a: Entry, b: Entry) {
    Less(a.key, b.key)
  }

  lemma BeforeLaws(a: Entry, b: Entry, c: Entry)
    ensures !Before(a, a)
    ensures Before(a, b) && Before(b, c) ==> Before(a, c)
    ensures Before(a, b) || Before(b, a) || a.key == b.key
  {
    LessIsLexicographic(a.key, b.key);
  }

  /** No key of the list is equal to `key`. */
  ghost predicate Fresh(keys: set<Entry>, key: Entry) {
    forall k :: k in keys ==> k.key != key.key
  }

  const NO_KEY := Entry(InternalKey(0.0, 0, TypeDeletion), "")

  datatype Node = Node(key: Entry, next: seq<Option<nat>>)

  datatype Memory = Memory(nodes: seq<Node>, maxHeight: nat)

  /** One store to a next pointer. */
  function Store(m: Memory, x: nat, level: nat, v: Option<nat>): Memory
    requires x < |m.nodes| && level < |m.nodes[x].next|
  {
    m.(nodes := m.nodes[x := m.nodes[x].(next := m.nodes[x].next[level := v])])
  }

  ghost predicate StoredAt(m: Memory, m': Memory, x: nat, level: nat, v: Option<nat>) {
    x < |m.nodes| && level < |m.nodes[x].next| && m' == Store(m, x, level, v)
  }

  /** What a search may see change at once: one pointer, one node that was not there, or the height. */
  ghost predicate OneStore(m: Memory, m': Memory) {
    || (exists x: nat, level: nat, v :: StoredAt(m, m', x, level, v))
    || (|m'.nodes| == |m.nodes| + 1 && m' == m.(nodes := m.nodes + [m'.nodes[|m.nodes|]]))
    || (m.maxHeight < m'.maxHeight && m' == m.(maxHeight := m'.maxHeight))
  }

  /** The two stores that link a node in: to its own pointer, then to its predecessor's. */
  ghost predicate LinksIn(m: Memory, own: Memory, m': Memory, x: nat, level: nat, prev: nat) {
    && prev < |m.nodes| && level < |m.nodes[prev].next|
    && StoredAt(m, own, x, level, m.nodes[prev].next[level]) && StoredAt(own, m', prev, level, Some(x))
  }

  ghost predicate InArena(m: Memory, level: nat, chain: seq<nat>) {
    && chain != [] && chain[0] == HEAD
    && forall i :: 0 <= i < |chain| ==> chain[i] < |m.nodes| && level < |m.nodes[chain[i]].next|
  }

  /** The node that follows place `i` of a chain. */
  function After(chain: seq<nat>, i: nat): Option<nat>
    requires i < |chain|
  {
    if i + 1 < |chain| then Some(chain[i + 1]) else None
  }

  ghost predicate Linked(m: Memory, level: nat, chain: seq<nat>)
    requires InArena(m, level, chain)
  {
    forall i :: 0 <= i < |chain| ==> m.nodes[chain[i]].next[level] == After(chain, i)
  }

  ghost predicate Distinct(chain: seq<nat>) {
    forall i, j :: 0 <= i < j < |chain| ==> chain[i] != chain[j]
  }

  ghost predicate Ascends(m: Memory, chain: seq<nat>)
    requires forall i :: 0 <= i < |chain| ==> chain[i] < |m.nodes|
  {
    forall i, j :: 0 < i < j < |chain| ==> Before(m.nodes[chain[i]].key, m.nodes[chain[j]].key)
  }

  /** The chain of a level: from the head along the level's pointers to null, in key order. */
  ghost predicate ChainOk(m: Memory, level: nat, chain: seq<nat>) {
    InArena(m, level, chain) && Linked(m, level, chain) && Distinct(chain) && Ascends(m, chain)
  }

  ghost predicate Nested(upper: seq<nat>, lower: seq<nat>) {
    forall x :: x in upper ==> x in lower
  }

  /** Every level's chain is in order and a part of the chain below; levels not in use are empty. */
  ghost predicate WellLinked(m: Memory, chains: seq<seq<nat>>) {
    && |chains| == MAX_HEIGHT && 1 <= m.maxHeight <= MAX_HEIGHT
    && (forall l :: 0 <= l < MAX_HEIGHT ==> ChainOk(m, l, chains[l]))
    && (forall l, k :: 0 <= l < k < MAX_HEIGHT ==> Nested(chains[k], chains[l]))
    && (forall l :: m.maxHeight <= l < MAX_HEIGHT ==> chains[l] == [HEAD])
  }

  /** What the writer may do between two moments: nodes stay, keep their keys, and stay in their chains. */
  ghost predicate Grows(m: Memory, chains: seq<seq<nat>>, m': Memory, chains': seq<seq<nat>>) {
    && |m.nodes| <= |m'.nodes| && |chains| == |chains'|
    && (forall x :: 0 <= x < |m.nodes| ==> m'.nodes[x].key == m.nodes[x].key)
    && (forall l, x :: 0 <= l < |chains| && x in chains[l] ==> x in chains'[l])
  }

  /** `key` falls between the neighbours `prev` and `next` of the bottom chain. */
  ghost predicate IsCut(m: Memory, chain: seq<nat>, key: Entry, prev: nat, next: Option<nat>) {
    exists p :: CutAt(m, chain, key, p, prev, next)
  }

  ghost predicate CutAt(m: Memory, chain: seq<nat>, key: Entry, p: nat, prev: nat, next: Option<nat>) {
    && p < |chain| && chain[p] == prev
    && next == (if p + 1 < |chain| then Some(chain[p + 1]) else None)
    && (forall i :: 0 < i <= p ==> chain[i] < |m.nodes| && Before(m.nodes[chain[i]].key, key))
    && (forall i :: p < i < |chain| ==> chain[i] < |m.nodes| && !Before(m.nodes[chain[i]].key, key))
  }

  /** The last node of a chain before `key`. */
  ghost predicate IsPrev(m: Memory, chain: seq<nat>, key: Entry, prev: nat) {
    exists next :: IsCut(m, chain, key, prev, next)
  }

  /** A search in progress, or where it ended. */
  datatype Search = At(x: nat, level: nat) | Ended(prev: nat, next: Option<nat>)

  /** One step of FindGreaterOrEqual and FindLessThan: a single load. */
  function SearchStep(m: Memory, key: Entry, s: Search): Search
    requires s.At? ==> s.x < |m.nodes| && s.level < |m.nodes[s.x].next|
    requires s.At? && m.nodes[s.x].next[s.level].Some? ==> m.nodes[s.x].next[s.level].value < |m.nodes|
  {
    if s.Ended? then s else
      var next := m.nodes[s.x].next[s.level];
      if next.Some? && Before(m.nodes[next.value].key, key) then At(next.value, s.level)
      else if s.level == 0 then Ended(s.x, next)
      else At(s.x, s.level - 1)
  }

  /** Where a search stands: on a node of its level's chain, before the key. */
  ghost predicate SearchOk(m: Memory, chains: seq<seq<nat>>, key: Entry, s: Search) {
    s.At? ==>
      && s.level < |chains| && s.x in chains[s.level]
      && s.x < |m.nodes| && (s.x == HEAD || Before(m.nodes[s.x].key, key))
  }

  lemma SearchStarts(m: Memory, chains: seq<seq<nat>>, key: Entry)
    requires WellLinked(m, chains)
    ensures SearchOk(m, chains, key, At(HEAD, m.maxHeight - 1))
  {
  }

  lemma ChainPointer(m: Memory, level: nat, chain: seq<nat>, x: nat) returns (p: nat)
    requires ChainOk(m, level, chain) && x in chain
    ensures p < |chain| && chain[p] == x && x < |m.nodes| && level < |m.nodes[x].next|
    ensures x == HEAD ==> p == 0
    ensures m.nodes[x].next[level] == if p + 1 < |chain| then Some(chain[p + 1]) else None
    ensures m.nodes[x].next[level].Some? ==> m.nodes[x].next[level].value < |m.nodes| && m.nodes[x].next[level].value in chain
  {
    p :| 0 <= p < |chain| && chain[p] == x;
  }

  /** One step keeps the search on its chain, and a search that ends has cut the bottom chain as it is
      at that very load. */
  lemma SearchStepOk(m: Memory, chains: seq<seq<nat>>, key: Entry, s: Search)
    requires WellLinked(m, chains) && SearchOk(m, chains, key, s) && s.At?
    ensures s.x < |m.nodes| && s.level < |m.nodes[s.x].next|
    ensures m.nodes[s.x].next[s.level].Some? ==> m.nodes[s.x].next[s.level].value < |m.nodes|
    ensures var s' := SearchStep(m, key, s);
            && SearchOk(m, chains, key, s')
            && (s'.Ended? ==> IsCut(m, chains[0], key, s'.prev, s'.next))
  {
    hide Linked, Distinct, Ascends, InArena, IsCut;
    var chain := chains[s.level];
    assert ChainOk(m, s.level, chain);
    var p := ChainPointer(m, s.level, chain, s.x);
    var next := m.nodes[s.x].next[s.level];
    if !(next.Some? && Before(m.nodes[next.value].key, key)) && s.level == 0 {
      hide WellLinked;
      CutHere(m, chain, key, p, next);
    }
  }

  /** A node before the key whose successor is not. */
  lemma CutHere(m: Memory, chain: seq<nat>, key: Entry, p: nat, next: Option<nat>)
    requires ChainOk(m, 0, chain) && p < |chain| && next == (if p + 1 < |chain| then Some(chain[p + 1]) else None)
    requires chain[p] == HEAD ==> p == 0
    requires chain[p] < |m.nodes| && (chain[p] == HEAD || Before(m.nodes[chain[p]].key, key))
    requires next.Some? ==> next.value < |m.nodes| && !Before(m.nodes[next.value].key, key)
    ensures IsCut(m, chain, key, chain[p], next)
  {
    hide Before, Linked;
    CutByOrder(m, chain, key, p);
    assert CutAt(m, chain, key, p, chain[p], next);
  }

  /** In an ascending chain the neighbours of the cut decide for all. */
  lemma CutByOrder(m: Memory, chain: seq<nat>, key: Entry, p: nat)
    requires p < |chain| && (forall i :: 0 <= i < |chain| ==> chain[i] < |m.nodes|) && Ascends(m, chain)
    requires p == 0 || Before(m.nodes[chain[p]].key, key)
    requires p + 1 < |chain| ==> !Before(m.nodes[chain[p + 1]].key, key)
    ensures forall i :: 0 < i <= p ==> Before(m.nodes[chain[i]].key, key)
    ensures forall i :: p < i < |chain| ==> !Before(m.nodes[chain[i]].key, key)
  {
    hide Before;
    forall i | 0 < i < |chain|
      ensures if i <= p then Before(m.nodes[chain[i]].key, key) else !Before(m.nodes[chain[i]].key, key)
    {
      if i < p {
        BeforeLaws(m.nodes[chain[i]].key, m.nodes[chain[p]].key, key);
      } else if p + 1 < i {
        BeforeLaws(m.nodes[chain[p + 1]].key, m.nodes[chain[i]].key, key);
      }
    }
  }

  /** The writer does not disturb a search. */
  lemma SearchSurvives(m: Memory, chains: seq<seq<nat>>, m': Memory, chains': seq<seq<nat>>, key: Entry, s: Search)
    requires SearchOk(m, chains, key, s) && Grows(m, chains, m', chains')
    ensures SearchOk(m', chains', key, s)
  {
  }

  /** A moment: memory, and its chains. */
  datatype Moment = Moment(memory: Memory, chains: seq<seq<nat>>)

  /** The writer's run, store by store: no two stores fall between neighbouring moments. */
  ghost predicate History(moments: seq<Moment>) {
    && (forall i :: 0 <= i < |moments| ==> WellLinked(moments[i].memory, moments[i].chains))
    && (forall i :: 0 <= i < |moments| - 1 ==>
          && OneStore(moments[i].memory, moments[i + 1].memory)
          && Grows(moments[i].memory, moments[i].chains, moments[i + 1].memory, moments[i + 1].chains))
  }

  /** A search among the writer's stores: at every moment it makes a step or waits. */
  ghost predicate Interleaved(moments: seq<Moment>, key: Entry, searches: seq<Search>) {
    && |moments| == |searches| > 0
    && moments[0].memory.maxHeight > 0 && searches[0] == At(HEAD, moments[0].memory.maxHeight - 1)
    && forall i :: 0 <= i < |searches| - 1 ==> searches[i + 1] == searches[i] || Stepped(moments[i].memory, key, searches[i], searches[i + 1])
  }

  ghost predicate Stepped(m: Memory, key: Entry, s: Search, s': Search) {
    && s.At? && s.x < |m.nodes| && s.level < |m.nodes[s.x].next|
    && (m.nodes[s.x].next[s.level].Some? ==> m.nodes[s.x].next[s.level].value < |m.nodes|)
    && s' == SearchStep(m, key, s)
  }

  lemma {:induction false} SearchStaysOk(moments: seq<Moment>, key: Entry, searches: seq<Search>, i: nat)
    requires History(moments) && Interleaved(moments, key, searches) && i < |moments|
    ensures SearchOk(moments[i].memory, moments[i].chains, key, searches[i])
  {
    hide WellLinked, SearchOk, Grows, OneStore;
    if i == 0 {
      assert WellLinked(moments[0].memory, moments[0].chains);
      SearchStarts(moments[0].memory, moments[0].chains, key);
    } else {
      SearchStaysOk(moments, key, searches, i - 1);
      var a, b := moments[i - 1], moments[i];
      assert WellLinked(a.memory, a.chains);
      assert Grows(a.memory, a.chains, b.memory, b.chains);
      if searches[i] != searches[i - 1] {
        SearchStepOk(a.memory, a.chains, key, searches[i - 1]);
      }
      SearchSurvives(a.memory, a.chains, b.memory, b.chains, key, searches[i]);
    }
  }

  /** Linearizability: a search returns the neighbours of its key in the bottom chain as of its last
      load, and every key that was in the list when the search began, or came in before that load, is
      in that chain. */
  lemma SearchIsLinearizable(moments: seq<Moment>, key: Entry, searches: seq<Search>, i: nat)
    requires History(moments) && Interleaved(moments, key, searches)
    requires i + 1 < |searches| && searches[i].At? && searches[i + 1].Ended?
    ensures IsCut(moments[i].memory, moments[i].chains[0], key, searches[i + 1].prev, searches[i + 1].next)
    ensures forall j :: 0 <= j <= i ==> Keys(moments[j].memory, moments[j].chains[0]) <= Keys(moments[i].memory, moments[i].chains[0])
  {
    hide SearchOk, Grows, OneStore, IsCut, Keys, ChainOk, Nested;
    assert WellLinked(moments[i].memory, moments[i].chains);
    SearchStaysOk(moments, key, searches, i);
    SearchStepOk(moments[i].memory, moments[i].chains, key, searches[i]);
    forall j | 0 <= j <= i
      ensures Keys(moments[j].memory, moments[j].chains[0]) <= Keys(moments[i].memory, moments[i].chains[0])
    {
      KeysGrow(moments, j, i);
    }
  }

  /** The keys in a chain. */
  ghost function Keys(m: Memory, chain: seq<nat>): set<Entry> {
    set i | 0 < i < |chain| && chain[i] < |m.nodes| :: m.nodes[chain[i]].key
  }

  lemma {:induction false} KeysGrow(moments: seq<Moment>, j: nat, i: nat)
    requires History(moments) && j <= i < |moments|
    ensures |moments[j].chains| == |moments[i].chains| == MAX_HEIGHT
    ensures Keys(moments[j].memory, moments[j].chains[0]) <= Keys(moments[i].memory, moments[i].chains[0])
  {
    hide WellLinked, Grows, History, Keys, ChainOk;
    MomentOk(moments, i);
    WellLinkedBottom(moments[i].memory, moments[i].chains);
    if j < i {
      KeysGrow(moments, j, i - 1);
      MomentOk(moments, i - 1);
      KeysStep(moments[i - 1], moments[i]);
    }
  }

  lemma MomentOk(moments: seq<Moment>, i: nat)
    requires History(moments) && i < |moments|
    ensures WellLinked(moments[i].memory, moments[i].chains)
    ensures i > 0 ==> Grows(moments[i - 1].memory, moments[i - 1].chains, moments[i].memory, moments[i].chains)
  {
    hide WellLinked, Grows, OneStore;
    if i > 0 {
      assert moments[i - 1 + 1] == moments[i];
    }
  }

  lemma WellLinkedBottom(m: Memory, chains: seq<seq<nat>>)
    requires WellLinked(m, chains)
    ensures |chains| == MAX_HEIGHT && ChainOk(m, 0, chains[0])
  {
  }

  lemma KeysStep(a: Moment, b: Moment)
    requires WellLinked(a.memory, a.chains) && WellLinked(b.memory, b.chains)
    requires Grows(a.memory, a.chains, b.memory, b.chains)
    ensures Keys(a.memory, a.chains[0]) <= Keys(b.memory, b.chains[0])
  {
    WellLinkedBottom(a.memory, a.chains);
    WellLinkedBottom(b.memory, b.chains);
    hide WellLinked;
    forall k | k in Keys(a.memory, a.chains[0])
      ensures k in Keys(b.memory, b.chains[0])
    {
      var i :| 0 < i < |a.chains[0]| && a.chains[0][i] < |a.memory.nodes| && a.memory.nodes[a.chains[0][i]].key == k;
      var x := a.chains[0][i];
      assert x in a.chains[0];
      var q :| 0 <= q < |b.chains[0]| && b.chains[0][q] == x;
      assert q != 0;
    }
  }

  // The writer

  /** A store to one level's pointer leaves the chains of the other levels alone. */
  lemma StoreElsewhere(m: Memory, x: nat, level: nat, v: Option<nat>, k: nat, chain: seq<nat>)
    requires x < |m.nodes| && level < |m.nodes[x].next| && ChainOk(m, k, chain)
    requires k != level || x !in chain
    ensures ChainOk(Store(m, x, level, v), k, chain)
  {
  }

  function Spliced(chain: seq<nat>, p: nat, x: nat): (c: seq<nat>)
    requires p < |chain|
    ensures |c| == |chain| + 1
    ensures forall i :: 0 <= i < |c| ==> c[i] == if i <= p then chain[i] else if i == p + 1 then x else chain[i - 1]
  {
    chain[..p + 1] + [x] + chain[p + 1..]
  }

  lemma StoreKeeps(m: Memory, a: nat, level: nat, v: Option<nat>)
    requires a < |m.nodes| && level < |m.nodes[a].next|
    ensures var m' := Store(m, a, level, v);
            && |m'.nodes| == |m.nodes| && m'.maxHeight == m.maxHeight
            && (forall y :: 0 <= y < |m.nodes| ==> m'.nodes[y].key == m.nodes[y].key && |m'.nodes[y].next| == |m.nodes[y].next|)
            && (forall y :: 0 <= y < |m.nodes| && y != a ==> m'.nodes[y] == m.nodes[y])
            && m'.nodes[a].next[level] == v
            && (forall k :: 0 <= k < |m.nodes[a].next| && k != level ==> m'.nodes[a].next[k] == m.nodes[a].next[k])
  {
  }

  /** Publishing a node behind its predecessor splices it into the chain of that level. */
  lemma PublishSplices(m: Memory, level: nat, chain: seq<nat>, p: nat, x: nat)
    requires ChainOk(m, level, chain) && p < |chain|
    requires x < |m.nodes| && level < |m.nodes[x].next| && x !in chain
    requires m.nodes[x].next[level] == m.nodes[chain[p]].next[level]
    requires forall i :: 0 < i <= p ==> Before(m.nodes[chain[i]].key, m.nodes[x].key)
    requires forall i :: p < i < |chain| ==> Before(m.nodes[x].key, m.nodes[chain[i]].key)
    ensures ChainOk(Store(m, chain[p], level, Some(x)), level, Spliced(chain, p, x))
  {
    hide Store, Linked, Distinct, Ascends;
    var m', c := Store(m, chain[p], level, Some(x)), Spliced(chain, p, x);
    StoreKeeps(m, chain[p], level, Some(x));
    forall i | 0 <= i < |c|
      ensures c[i] < |m'.nodes| && level < |m'.nodes[c[i]].next| && m'.nodes[c[i]].next[level] == After(c, i)
    {
      SplicedPointer(m, level, chain, p, x, i);
    }
    SplicedOrder(m, m', chain, p, x);
    LinkedFrom(m', level, c);
  }

  lemma LinkedFrom(m: Memory, level: nat, c: seq<nat>)
    requires c != [] && c[0] == HEAD && Distinct(c)
    requires forall i :: 0 <= i < |c| ==> c[i] < |m.nodes| && level < |m.nodes[c[i]].next| && m.nodes[c[i]].next[level] == After(c, i)
    requires Ascends(m, c)
    ensures ChainOk(m, level, c)
  {
    hide Ascends, Distinct;
  }

  lemma SplicedOrder(m: Memory, m': Memory, chain: seq<nat>, p: nat, x: nat)
    requires p < |chain| && x < |m.nodes| && x !in chain && Distinct(chain)
    requires (forall i :: 0 <= i < |chain| ==> chain[i] < |m.nodes|) && Ascends(m, chain)
    requires forall i :: 0 < i <= p ==> Before(m.nodes[chain[i]].key, m.nodes[x].key)
    requires forall i :: p < i < |chain| ==> Before(m.nodes[x].key, m.nodes[chain[i]].key)
    requires |m'.nodes| == |m.nodes| && forall y :: 0 <= y < |m.nodes| ==> m'.nodes[y].key == m.nodes[y].key
    ensures var c := Spliced(chain, p, x);
            Distinct(c) && (forall i :: 0 <= i < |c| ==> c[i] < |m'.nodes|) && Ascends(m', c)
  {
    hide Before, Ascends;
    SplicedDistinct(chain, p, x);
    SplicedAscends(m, m', chain, p, x);
  }

  lemma SplicedDistinct(chain: seq<nat>, p: nat, x: nat)
    requires p < |chain| && x !in chain && Distinct(chain)
    ensures Distinct(Spliced(chain, p, x))
  {
  }

  lemma SplicedAscends(m: Memory, m': Memory, chain: seq<nat>, p: nat, x: nat)
    requires p < |chain| && x < |m.nodes|
    requires (forall i :: 0 <= i < |chain| ==> chain[i] < |m.nodes|) && Ascends(m, chain)
    requires forall i :: 0 < i <= p ==> Before(m.nodes[chain[i]].key, m.nodes[x].key)
    requires forall i :: p < i < |chain| ==> Before(m.nodes[x].key, m.nodes[chain[i]].key)
    requires |m'.nodes| == |m.nodes| && forall y :: 0 <= y < |m.nodes| ==> m'.nodes[y].key == m.nodes[y].key
    ensures var c := Spliced(chain, p, x);
            (forall i :: 0 <= i < |c| ==> c[i] < |m'.nodes|) && Ascends(m', c)
  {
    hide Before;
  }

  lemma SplicedPointer(m: Memory, level: nat, chain: seq<nat>, p: nat, x: nat, i: nat)
    requires ChainOk(m, level, chain) && p < |chain|
    requires x < |m.nodes| && level < |m.nodes[x].next| && x !in chain
    requires m.nodes[x].next[level] == m.nodes[chain[p]].next[level]
    requires i <= |chain|
    ensures var m', c := Store(m, chain[p], level, Some(x)), Spliced(chain, p, x);
            c[i] < |m'.nodes| && level < |m'.nodes[c[i]].next| && m'.nodes[c[i]].next[level] == After(c, i)
  {
    hide Store, Ascends;
    var c := Spliced(chain, p, x);
    StoreKeeps(m, chain[p], level, Some(x));
    assert m.nodes[chain[p]].next[level] == After(chain, p);
    if i < p {
      assert c[i] == chain[i] != chain[p];
      assert c[i + 1] == chain[i + 1];
    } else if i == p {
      assert c[i] == chain[p] && c[i + 1] == x;
    } else if i == p + 1 {
      assert c[i] == x != chain[p];
    } else {
      assert c[i] == chain[i - 1] != chain[p];
    }
  }

  lemma {:induction false} ExtendHistory(moments: seq<Moment>, next: Moment)
    requires History(moments) && moments != [] && WellLinked(next.memory, next.chains)
    requires var last := moments[|moments| - 1];
             OneStore(last.memory, next.memory) && Grows(last.memory, last.chains, next.memory, next.chains)
    ensures History(moments + [next])
  {
    hide WellLinked, Grows, OneStore;
  }

  lemma PublishKeeps(m: Memory, chains: seq<seq<nat>>, level: nat, p: nat, x: nat)
    requires WellLinked(m, chains) && level < m.maxHeight && p < |chains[level]|
    requires x < |m.nodes| && level < |m.nodes[x].next|
    requires x !in chains[level] && forall l :: 0 <= l < level ==> x in chains[l]
    requires m.nodes[x].next[level] == m.nodes[chains[level][p]].next[level]
    requires forall i :: 0 < i <= p ==> Before(m.nodes[chains[level][i]].key, m.nodes[x].key)
    requires forall i :: p < i < |chains[level]| ==> Before(m.nodes[x].key, m.nodes[chains[level][i]].key)
    ensures var chain := chains[level];
            var m', chains' := Store(m, chain[p], level, Some(x)), chains[level := Spliced(chain, p, x)];
            WellLinked(m', chains') && Grows(m, chains, m', chains')
  {
    hide ChainOk, Store, Spliced;
    var chain := chains[level];
    ChainInArena(m, level, chain, p);
    var m', chains' := Store(m, chain[p], level, Some(x)), chains[level := Spliced(chain, p, x)];
    StoreKeeps(m, chain[p], level, Some(x));
    PublishSplices(m, level, chain, p, x);
    forall l | 0 <= l < MAX_HEIGHT && l != level
      ensures ChainOk(m', l, chains'[l])
    {
      StoreElsewhere(m, chain[p], level, Some(x), l, chains[l]);
    }
    SplicedMembers(chain, p, x);
    forall l, k | 0 <= l < k < MAX_HEIGHT
      ensures Nested(chains'[k], chains'[l])
    {
      assert Nested(chains[k], chains[l]);
    }
  }

  lemma ChainInArena(m: Memory, level: nat, chain: seq<nat>, p: nat)
    requires ChainOk(m, level, chain) && p < |chain|
    ensures chain[p] < |m.nodes| && level < |m.nodes[chain[p]].next|
    ensures m.nodes[chain[p]].next[level] == After(chain, p)
  {
  }

  lemma SplicedMembers(chain: seq<nat>, p: nat, x: nat)
    requires p < |chain|
    ensures forall y :: y in Spliced(chain, p, x) <==> y == x || y in chain
  {
    assert chain == chain[..p + 1] + chain[p + 1..];
  }

  /** A store to a pointer of a node that its level does not know yet. */
  lemma PrivateStoreKeeps(m: Memory, chains: seq<seq<nat>>, x: nat, level: nat, v: Option<nat>)
    requires WellLinked(m, chains) && x < |m.nodes| && level < |m.nodes[x].next| && level < MAX_HEIGHT && x !in chains[level]
    ensures var m' := Store(m, x, level, v); WellLinked(m', chains) && Grows(m, chains, m', chains)
  {
    hide ChainOk, Store;
    var m' := Store(m, x, level, v);
    StoreKeeps(m, x, level, v);
    forall l | 0 <= l < MAX_HEIGHT
      ensures ChainOk(m', l, chains[l])
    {
      StoreElsewhere(m, x, level, v, l, chains[l]);
    }
  }

  /** A new node that no level knows yet. */
  lemma NewNodeKeeps(m: Memory, chains: seq<seq<nat>>, node: Node)
    requires WellLinked(m, chains)
    ensures var m' := m.(nodes := m.nodes + [node]); WellLinked(m', chains) && Grows(m, chains, m', chains)
    ensures forall l :: 0 <= l < MAX_HEIGHT ==> |m.nodes| !in chains[l]
  {
    hide Nested;
    var m' := m.(nodes := m.nodes + [node]);
    forall l | 0 <= l < MAX_HEIGHT
      ensures ChainOk(m', l, chains[l]) && |m.nodes| !in chains[l]
    {
      assert ChainOk(m, l, chains[l]);
    }
  }

  lemma RaiseKeeps(m: Memory, chains: seq<seq<nat>>, height: nat)
    requires WellLinked(m, chains) && m.maxHeight <= height <= MAX_HEIGHT
    ensures var m' := m.(maxHeight := height); WellLinked(m', chains) && Grows(m, chains, m', chains)
  {
    hide Nested;
    var m' := m.(maxHeight := height);
    forall l | 0 <= l < MAX_HEIGHT
      ensures ChainOk(m', l, chains[l])
    {
      assert ChainOk(m, l, chains[l]);
    }
  }

  class SkipList {
    var nodes: seq<Node>
    var maxHeight: nat
    ghost var chains: seq<seq<nat>>

    ghost function Now(): Moment
      reads this
    {
      Moment(Memory(nodes, maxHeight), chains)
    }

    ghost predicate Valid()
      reads this
    {
      WellLinked(Memory(nodes, maxHeight), chains)
    }

    ghost function Contents(): set<Entry>
      requires Valid()
      reads this
    {
      Keys(Memory(nodes, maxHeight), chains[0])
    }

    constructor ()
      ensures Valid() && Contents() == {} && History([Now()])
    {
      nodes := [Node(NO_KEY, seq(MAX_HEIGHT, _ => None))];
      maxHeight := 1;
      chains := seq(MAX_HEIGHT, _ => [HEAD]);
    }

    predicate KeyIsAfterNode(key: Entry, n: Option<nat>)
      requires n.Some? ==> n.value < |nodes|
      reads this
    {
      n.Some? && Before(nodes[n.value].key, key)
    }

    /** The last node before `key` on every level in use, and the first one at or after it. */
    method FindGreaterOrEqual(key: Entry) returns (prev: seq<nat>, node: Option<nat>)
      requires Valid()
      ensures |prev| == MAX_HEIGHT
      ensures forall l :: 0 <= l < maxHeight ==> IsPrev(Memory(nodes, maxHeight), chains[l], key, prev[l])
      ensures IsCut(Memory(nodes, maxHeight), chains[0], key, prev[0], node)
    {
      hide IsCut, IsPrev, Nested, Distinct, Ascends, Linked, Remaining;
      ghost var m := Memory(nodes, maxHeight);
      prev := seq(MAX_HEIGHT, _ => HEAD);
      var x: nat, level: nat := HEAD, maxHeight - 1;
      while true
        invariant |prev| == MAX_HEIGHT && 0 <= level < maxHeight
        invariant SearchOk(m, chains, key, At(x, level))
        invariant forall l :: level < l < maxHeight ==> IsPrev(m, chains[l], key, prev[l])
        decreases level, Remaining(chains[level], x)
      {
        ghost var p := ChainPointer(m, level, chains[level], x);
        SearchStepOk(m, chains, key, At(x, level));
        var next := nodes[x].next[level];
        if KeyIsAfterNode(key, next) {
          // Keep searching in this list
          RemainingShrinks(chains[level], p);
          x := next.value;
        } else {
          prev := prev[level := x];
          LevelCut(m, level, chains[level], key, p);
          if level == 0 {
            return prev, next;
          }
          // Switch to next list
          level := level - 1;
        }
      }
    }

    method Contains(key: Entry) returns (found: bool)
      requires Valid()
      ensures found <==> !Fresh(Contents(), key)
    {
      hide Nested, Distinct, Ascends, Linked;
      ghost var m := Memory(nodes, maxHeight);
      var prev, node := FindGreaterOrEqual(key);
      CutDecides(m, chains[0], key, prev[0], node);
      return node.Some? && nodes[node.value].key.key == key.key;
    }

    /** FindLessThan(key): the last node before `key`, by the same search without `prev`. */
    method FindLessThan(key: Entry) returns (x: nat)
      requires Valid()
      ensures IsPrev(Memory(nodes, maxHeight), chains[0], key, x)
    {
      hide IsCut, IsPrev, Nested, Distinct, Ascends, Linked, Remaining;
      ghost var m := Memory(nodes, maxHeight);
      x := HEAD;
      var level: nat := maxHeight - 1;
      while true
        invariant 0 <= level < maxHeight
        invariant SearchOk(m, chains, key, At(x, level))
        decreases level, Remaining(chains[level], x)
      {
        ghost var p := ChainPointer(m, level, chains[level], x);
        SearchStepOk(m, chains, key, At(x, level));
        var next := nodes[x].next[level];
        if next.None? || !Before(nodes[next.value].key, key) {
          LevelCut(m, level, chains[level], key, p);
          if level == 0 {
            return x;
          }
          // Switch to next list
          level := level - 1;
        } else {
          RemainingShrinks(chains[level], p);
          x := next.value;
        }
      }
    }

    /** FindLast: the last node of the bottom chain. */
    method FindLast() returns (x: nat)
      requires Valid()
      ensures chains[0] != [] && x == chains[0][|chains[0]| - 1]
    {
      hide Nested, Distinct, Ascends, Linked, Remaining;
      ghost var m := Memory(nodes, maxHeight);
      x := HEAD;
      var level: nat := maxHeight - 1;
      while true
        invariant 0 <= level < maxHeight && x in chains[level]
        decreases level, Remaining(chains[level], x)
      {
        ghost var p := ChainPointer(m, level, chains[level], x);
        var next := nodes[x].next[level];
        if next.None? {
          if level == 0 {
            return x;
          }
          // Switch to next list
          assert Nested(chains[level], chains[level - 1]);
          InLowerChain(chains[level], chains[level - 1], x);
          level := level - 1;
        } else {
          RemainingShrinks(chains[level], p);
          x := next.value;
        }
      }
    }

    /** SetNext: one store. */
    method SetNext(x: nat, level: nat, v: Option<nat>)
      requires x < |nodes| && level < |nodes[x].next|
      modifies `nodes
      ensures Memory(nodes, maxHeight) == Store(old(Memory(nodes, maxHeight)), x, level, v)
    {
      nodes := nodes[x := nodes[x].(next := nodes[x].next[level := v])];
    }

    /** Round `i` of Insert's loop: the node's own pointer, then the one that publishes it. */
    method LinkLevel(x: nat, i: nat, prev: nat, ghost key: Entry, ghost moments: seq<Moment>) returns (ghost moments': seq<Moment>)
      requires Valid() && History(moments) && moments != [] && moments[|moments| - 1] == Now()
      requires x < |nodes| && i < |nodes[x].next| && i < maxHeight && nodes[x].key == key
      requires IsPrev(Memory(nodes, maxHeight), chains[i], key, prev) && Fresh(Keys(Memory(nodes, maxHeight), chains[i]), key)
      requires x !in chains[i] && forall l :: 0 <= l < i ==> x in chains[l]
      modifies this
      ensures Valid() && maxHeight == old(maxHeight) && |nodes| == old(|nodes|)
      ensures History(moments') && moments <= moments' && moments'[|moments'| - 1] == Now()
      ensures forall y :: 0 <= y < |nodes| ==> nodes[y].key == old(nodes[y].key) && |nodes[y].next| == old(|nodes[y].next|)
      ensures forall l :: 0 <= l < MAX_HEIGHT && l != i ==> chains[l] == old(chains[l])
      ensures forall y :: y in chains[i] <==> y == x || y in old(chains[i])
      ensures |moments'| == |moments| + 2
              && LinksIn(old(Memory(nodes, maxHeight)), moments'[|moments|].memory, Memory(nodes, maxHeight), x, i, prev)
    {
      hide WellLinked, Grows, History, Keys, IsPrev;
      ghost var m := Memory(nodes, maxHeight);
      ghost var p := PrevPlace(m, chains, i, key, prev);
      var v := nodes[prev].next[i];
      PrivateStoreKeeps(m, chains, x, i, v);
      StoreKeeps(m, x, i, v);
      SetNext(x, i, v);
      assert StoredAt(m, Memory(nodes, maxHeight), x, i, v);
      ghost var own := Memory(nodes, maxHeight);
      ExtendHistory(moments, Now());
      moments' := moments + [Now()];
      PublishKeeps(own, chains, i, p, x);
      StoreKeeps(own, prev, i, Some(x));
      SplicedMembers(chains[i], p, x);
      SetNext(prev, i, Some(x));
      assert StoredAt(own, Memory(nodes, maxHeight), prev, i, Some(x));
      chains := chains[i := Spliced(chains[i], p, x)];
      ExtendHistory(moments', Now());
      moments' := moments' + [Now()];
    }

    /** The node and the room for it: a raised height and a node that no level knows yet. */
    method Prepare(key: Entry, height: nat, ghost moments: seq<Moment>) returns (x: nat, ghost moments': seq<Moment>)
      requires Valid() && 1 <= height <= MAX_HEIGHT
      requires History(moments) && moments != [] && moments[|moments| - 1] == Now()
      modifies `nodes, `maxHeight
      ensures Valid() && x == old(|nodes|) && nodes == old(nodes) + [Node(key, seq(height, _ => None))]
      ensures height <= maxHeight && old(maxHeight) <= maxHeight
      ensures History(moments') && moments <= moments' && moments'[|moments'| - 1] == Now()
      ensures forall l :: 0 <= l < MAX_HEIGHT ==> x !in chains[l]
    {
      hide WellLinked, Grows, History;
      moments' := moments;
      if height > maxHeight {
        RaiseKeeps(Memory(nodes, maxHeight), chains, height);
        maxHeight := height;
        ExtendHistory(moments', Now());
        moments' := moments' + [Now()];
      }
      NewNodeKeeps(Memory(nodes, maxHeight), chains, Node(key, seq(height, _ => None)));
      x := |nodes|;
      nodes := nodes + [Node(key, seq(height, _ => None))];
      ExtendHistory(moments', Now());
      moments' := moments' + [Now()];
    }

    /** The predecessors of a new key on the levels of its node: on levels that are not in use yet, the head. */
    method FindPredecessors(key: Entry, height: nat) returns (prev: seq<nat>)
      requires Valid() && Fresh(Contents(), key) && 1 <= height <= MAX_HEIGHT
      ensures |prev| == MAX_HEIGHT
      ensures var m := Memory(nodes, maxHeight);
              forall l :: 0 <= l < height ==>
                && IsPrev(m, chains[l], key, prev[l]) && Fresh(Keys(m, chains[l]), key)
                && forall i :: 0 <= i < |chains[l]| ==> chains[l][i] < |nodes|
    {
      hide IsPrev, Keys, ChainOk, Nested, Grows;
      ghost var m := Memory(nodes, maxHeight);
      var node;
      prev, node := FindGreaterOrEqual(key);
      if height > maxHeight {
        for i := maxHeight to height
          invariant |prev| == MAX_HEIGHT
          invariant forall l :: 0 <= l < maxHeight ==> IsPrev(m, chains[l], key, prev[l])
          invariant forall l :: maxHeight <= l < i ==> prev[l] == HEAD
        {
          prev := prev[i := HEAD];
        }
      }
      forall l | 0 <= l < height
        ensures IsPrev(m, chains[l], key, prev[l]) && Fresh(Keys(m, chains[l]), key)
        ensures forall i :: 0 <= i < |chains[l]| ==> chains[l][i] < |nodes|
      {
        KeysNested(m, chains, key, l);
        if m.maxHeight <= l {
          HeadIsPrev(m, key, chains[l]);
        }
      }
    }

    /** Insert: the list holds one key more, and the writer's run goes on store by store to there,
        well linked and growing after each. */
    method Insert(key: Entry, height: nat, ghost moments: seq<Moment>) returns (ghost moments': seq<Moment>)
      requires Valid() && Fresh(Contents(), key) && 1 <= height <= MAX_HEIGHT
      requires History(moments) && moments != [] && moments[|moments| - 1] == Now()
      modifies this
      ensures Valid() && Contents() == old(Contents()) + {key}
      ensures History(moments') && moments <= moments' && moments'[|moments'| - 1] == Now()
    {
      hide History, IsPrev, Keys, ChainOk, Nested, Grows;
      ghost var m0, chains0 := Memory(nodes, maxHeight), chains;
      var prev: seq<nat> := FindPredecessors(key, height);
      var x;
      x, moments' := Prepare(key, height, moments);
      for i := 0 to height
        invariant Valid() && height <= maxHeight && |nodes| == x + 1 && nodes[x].key == key && |nodes[x].next| == height
        invariant forall y :: 0 <= y < x ==> nodes[y].key == m0.nodes[y].key
        invariant forall l :: 0 <= l < i ==> x in chains[l]
        invariant forall l :: i <= l < MAX_HEIGHT ==> chains[l] == chains0[l]
        invariant i > 0 ==> forall y :: y in chains[0] <==> y == x || y in chains0[0]
        invariant History(moments') && moments <= moments' && moments'[|moments'| - 1] == Now()
      {
        PlacesKept(m0, Memory(nodes, maxHeight), chains0[i], key, prev[i]);
        moments' := LinkLevel(x, i, prev[i], key, moments');
      }
      KeysAfter(m0, chains0[0], Memory(nodes, maxHeight), chains[0], x, key);
    }
  }

  /** Nodes that keep their keys keep the places of other keys. */
  lemma PlacesKept(m: Memory, m': Memory, chain: seq<nat>, key: Entry, prev: nat)
    requires IsPrev(m, chain, key, prev) && Fresh(Keys(m, chain), key)
    requires |m.nodes| <= |m'.nodes| && forall y :: 0 <= y < |m.nodes| ==> m'.nodes[y].key == m.nodes[y].key
    requires forall i :: 0 <= i < |chain| ==> chain[i] < |m.nodes|
    ensures IsPrev(m', chain, key, prev) && Fresh(Keys(m', chain), key)
  {
    var next :| IsCut(m, chain, key, prev, next);
    var p: nat :| CutAt(m, chain, key, p, prev, next);
    assert CutAt(m', chain, key, p, prev, next);
    assert IsCut(m', chain, key, prev, next);
  }

  lemma KeysNested(m: Memory, chains: seq<seq<nat>>, key: Entry, l: nat)
    requires WellLinked(m, chains) && Fresh(Keys(m, chains[0]), key) && l < MAX_HEIGHT
    ensures Fresh(Keys(m, chains[l]), key)
    ensures forall i :: 0 <= i < |chains[l]| ==> chains[l][i] < |m.nodes|
  {
    assert ChainOk(m, l, chains[l]) && ChainOk(m, 0, chains[0]);
    forall i | 0 < i < |chains[l]| && chains[l][i] < |m.nodes|
      ensures m.nodes[chains[l][i]].key.key != key.key
    {
      var x := chains[l][i];
      assert x in chains[l] && (l > 0 ==> Nested(chains[l], chains[0]));
      var q :| 0 <= q < |chains[0]| && chains[0][q] == x;
      assert q != 0;
    }
  }

  /** Levels that were not in use hold only the head. */
  lemma HeadIsPrev(m: Memory, key: Entry, chain: seq<nat>)
    requires chain == [HEAD]
    ensures IsPrev(m, chain, key, HEAD)
  {
    assert CutAt(m, chain, key, 0, HEAD, None);
    assert IsCut(m, chain, key, HEAD, None);
  }

  lemma KeysAfter(m: Memory, chain: seq<nat>, m': Memory, chain': seq<nat>, x: nat, key: Entry)
    requires ChainOk(m, 0, chain) && ChainOk(m', 0, chain')
    requires forall y :: y in chain' <==> y == x || y in chain
    requires |m.nodes| <= x < |m'.nodes| && m'.nodes[x].key == key
    requires forall y :: 0 <= y < |m.nodes| ==> m'.nodes[y].key == m.nodes[y].key
    ensures Keys(m', chain') == Keys(m, chain) + {key}
  {
    hide Ascends, Linked;
    forall k
      ensures k in Keys(m', chain') <==> k in Keys(m, chain) || k == key
    {
      if k in Keys(m', chain') {
        var i :| 0 < i < |chain'| && chain'[i] < |m'.nodes| && m'.nodes[chain'[i]].key == k;
        if chain'[i] != x {
          KeyAt(m, chain, chain'[i]);
        }
      }
      if k in Keys(m, chain) {
        var i :| 0 < i < |chain| && chain[i] < |m.nodes| && m.nodes[chain[i]].key == k;
        KeyAt(m', chain', chain[i]);
      }
      KeyAt(m', chain', x);
    }
  }

  lemma KeyAt(m: Memory, chain: seq<nat>, x: nat)
    requires ChainOk(m, 0, chain) && x in chain && x != HEAD
    ensures x < |m.nodes| && m.nodes[x].key in Keys(m, chain)
  {
    var i :| 0 <= i < |chain| && chain[i] == x;
  }

  lemma InLowerChain(upper: seq<nat>, lower: seq<nat>, x: nat)
    requires Nested(upper, lower) && x in upper
    ensures x in lower
  {
  }

  /** The place of the predecessor, around which a new key is spliced in. */
  lemma PrevPlace(m: Memory, chains: seq<seq<nat>>, level: nat, key: Entry, prev: nat) returns (p: nat)
    requires WellLinked(m, chains) && level < m.maxHeight
    requires IsPrev(m, chains[level], key, prev) && Fresh(Keys(m, chains[level]), key)
    ensures |chains| == MAX_HEIGHT && level < MAX_HEIGHT && p < |chains[level]| && chains[level][p] == prev
    ensures prev < |m.nodes| && level < |m.nodes[prev].next|
    ensures forall i :: 0 <= i < |chains[level]| ==> chains[level][i] < |m.nodes| && chains[level][i] in chains[level]
    ensures forall i :: 0 < i <= p ==> Before(m.nodes[chains[level][i]].key, key)
    ensures forall i :: p < i < |chains[level]| ==> Before(key, m.nodes[chains[level][i]].key)
  {
    hide Nested, Distinct, Ascends, Linked;
    var chain := chains[level];
    assert ChainOk(m, level, chain);
    var next :| IsCut(m, chain, key, prev, next);
    p :| CutAt(m, chain, key, p, prev, next);
  }

  lemma LevelCut(m: Memory, level: nat, chain: seq<nat>, key: Entry, p: nat)
    requires ChainOk(m, level, chain) && p < |chain|
    requires p == 0 || Before(m.nodes[chain[p]].key, key)
    requires p + 1 < |chain| ==> !Before(m.nodes[chain[p + 1]].key, key)
    ensures IsCut(m, chain, key, chain[p], After(chain, p)) && IsPrev(m, chain, key, chain[p])
  {
    hide Before, Linked;
    CutByOrder(m, chain, key, p);
    assert CutAt(m, chain, key, p, chain[p], After(chain, p));
  }

  /** How far along its chain a node is. */
  ghost function Remaining(chain: seq<nat>, x: nat): nat {
    if chain == [] || chain[0] == x then |chain| else Remaining(chain[1..], x)
  }

  lemma {:induction false} RemainingShrinks(chain: seq<nat>, p: nat)
    requires Distinct(chain) && p + 1 < |chain|
    ensures Remaining(chain, chain[p + 1]) < Remaining(chain, chain[p])
  {
    RemainingIs(chain, p);
    RemainingIs(chain, p + 1);
  }

  lemma {:induction false} RemainingIs(chain: seq<nat>, p: nat)
    requires Distinct(chain) && p < |chain|
    ensures Remaining(chain, chain[p]) == |chain| - p
  {
    if p > 0 {
      RemainingIs(chain[1..], p - 1);
    }
  }

  /** The first key at or after `key` is `key` itself, if the list has it. */
  lemma CutDecides(m: Memory, chain: seq<nat>, key: Entry, prev: nat, next: Option<nat>)
    requires ChainOk(m, 0, chain) && IsCut(m, chain, key, prev, next)
    ensures next.Some? ==> next.value < |m.nodes| && next.value in chain && next.value != HEAD
    ensures !Fresh(Keys(m, chain), key) <==> next.Some? && m.nodes[next.value].key.key == key.key
  {
    hide Linked;
    var p: nat :| CutAt(m, chain, key, p, prev, next);
    if !Fresh(Keys(m, chain), key) {
      var i :| 0 < i < |chain| && chain[i] < |m.nodes| && m.nodes[chain[i]].key.key == key.key;
      assert p < i && i <= p + 1;
    }
  }

  /** Where the iterator stands in the bottom chain: 0, the head's place, when it is not valid. */
  ghost predicate StandsAt(chain: seq<nat>, node: Option<nat>, q: nat) {
    q < |chain| && node == if q == 0 then None else Some(chain[q])
  }

  class Iterator {
    const list: SkipList
    var node: Option<nat>

    constructor (list: SkipList)
      ensures this.list == list && node == None
    {
      this.list := list;
      node := None;
    }

    method Next(ghost q: nat)
      requires list.Valid() && 0 < q && StandsAt(list.chains[0], node, q)
      modifies this
      ensures StandsAt(list.chains[0], node, if q + 1 < |list.chains[0]| then q + 1 else 0)
    {
      hide Nested, Distinct, Ascends, Linked;
      ChainInArena(Memory(list.nodes, list.maxHeight), 0, list.chains[0], q);
      node := list.nodes[node.value].next[0];
    }

    /** Instead of explicit "prev" links, a search for the last node before the key. */
    method Prev(ghost q: nat)
      requires list.Valid() && 0 < q && StandsAt(list.chains[0], node, q)
      modifies this
      ensures StandsAt(list.chains[0], node, q - 1)
    {
      hide Nested, Distinct, Linked;
      var x := list.FindLessThan(list.nodes[node.value].key);
      PrevIsBefore(Memory(list.nodes, list.maxHeight), list.chains[0], q, x);
      node := if x == HEAD then None else Some(x);
    }

    /** On the first key at or after the target: all before it are smaller. */
    method Seek(target: Entry) returns (ghost q: nat)
      requires list.Valid()
      modifies this
      ensures StandsAt(list.chains[0], node, q)
      ensures var m, chain := Memory(list.nodes, list.maxHeight), list.chains[0];
              && (forall i :: 0 < i < |chain| && (q == 0 || i < q) ==> chain[i] < |m.nodes| && Before(m.nodes[chain[i]].key, target))
              && (0 < q ==> forall i :: q <= i < |chain| ==> chain[i] < |m.nodes| && !Before(m.nodes[chain[i]].key, target))
    {
      hide Nested, Distinct, Ascends, Linked, IsPrev;
      ghost var m, chain := Memory(list.nodes, list.maxHeight), list.chains[0];
      var prev, found := list.FindGreaterOrEqual(target);
      node := found;
      ghost var p: nat :| CutAt(m, chain, target, p, prev[0], found);
      q := if p + 1 < |chain| then p + 1 else 0;
    }

    method SeekToFirst()
      requires list.Valid()
      modifies this
      ensures StandsAt(list.chains[0], node, if |list.chains[0]| > 1 then 1 else 0)
    {
      hide Nested, Distinct, Ascends, Linked;
      ChainInArena(Memory(list.nodes, list.maxHeight), 0, list.chains[0], 0);
      node := list.nodes[HEAD].next[0];
    }

    method SeekToLast()
      requires list.Valid()
      modifies this
      ensures StandsAt(list.chains[0], node, |list.chains[0]| - 1)
    {
      hide Nested, Ascends, Linked;
      var x := list.FindLast();
      node := if x == HEAD then None else Some(x);
    }
  }

  lemma PrevIsBefore(m: Memory, chain: seq<nat>, q: nat, x: nat)
    requires ChainOk(m, 0, chain) && 0 < q < |chain| && IsPrev(m, chain, m.nodes[chain[q]].key, x)
    ensures x == chain[q - 1] && (x == HEAD <==> q == 1)
  {
    hide Linked;
    var key := m.nodes[chain[q]].key;
    assert q > 1 ==> Before(m.nodes[chain[q - 1]].key, key);
    var next :| IsCut(m, chain, key, x, next);
    var p: nat :| CutAt(m, chain, key, p, x, next);
    assert p == q - 1;
  }
}
