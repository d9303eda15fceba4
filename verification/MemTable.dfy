/** The memtable (db/memtable.cc): what the skip list spells, read along its bottom level, is the sorted run
    of entries that the database works with. */
module MemTable {
  import opened DbFormat
  import opened Wrappers
  import opened View
  import opened VersionGet
  import Lsm
  import SL = SkipList

  /** The entries along a chain, the head left out. */
  ghost function Spelled(m: SL.Memory, chain: seq<nat>): (es: seq<Entry>)
    requires chain != [] && forall i :: 0 <= i < |chain| ==> chain[i] < |m.nodes|
    ensures |es| == |chain| - 1 && forall i :: 0 <= i < |es| ==> es[i] == m.nodes[chain[i + 1]].key
  {
    seq(|chain| - 1, i requires 0 <= i < |chain| - 1 => m.nodes[chain[i + 1]].key)
  }

  lemma SpelledSorted(m: SL.Memory, chain: seq<nat>)
    requires SL.ChainOk(m, 0, chain)
    ensures Sorted(Spelled(m, chain)) && EntrySet(Spelled(m, chain)) == SL.Keys(m, chain)
  {
    hide SL.Linked, SL.Distinct, Less;
    var es := Spelled(m, chain);
    forall x
      ensures x in es <==> x in SL.Keys(m, chain)
    {
      if x in SL.Keys(m, chain) {
        var i :| 0 < i < |chain| && chain[i] < |m.nodes| && m.nodes[chain[i]].key == x;
        assert es[i - 1] == x;
      }
    }
  }

  lemma NoEntries(es: seq<Entry>)
    ensures EntrySet(es) == {} ==> es == []
  {
    if es != [] {
      assert es[0] in EntrySet(es);
    }
  }

  class MemTable {
    const list: SL.SkipList

    ghost predicate Valid()
      reads list
    {
      list.Valid()
    }

    ghost function Entries(): (es: seq<Entry>)
      requires Valid()
      reads list
      ensures Sorted(es)
    {
      SL.WellLinkedBottom(list.Now().memory, list.chains);
      SpelledSorted(list.Now().memory, list.chains[0]);
      Spelled(list.Now().memory, list.chains[0])
    }

    constructor ()
      ensures Valid() && Entries() == [] && fresh(list) && SL.History([list.Now()])
    {
      list := new SL.SkipList();
      new;
      hide SL.WellLinked, SL.Keys, SL.ChainOk;
      NothingSpelled();
    }

    lemma NothingSpelled()
      requires Valid() && list.Contents() == {}
      ensures Entries() == []
    {
      hide SL.WellLinked, SL.Keys, SL.ChainOk, Spelled;
      EntriesAreContents();
      NoEntries(Entries());
    }

    /** Add: one node more, which the database sees as an insertion into its sorted run. */
    method Add(sequence: nat, kind: ValueType, user: UserKey, value: Value, height: nat, ghost moments: seq<SL.Moment>)
      returns (ghost moments': seq<SL.Moment>)
      requires Valid() && 1 <= height <= SL.MAX_HEIGHT
      requires forall i :: 0 <= i < |Entries()| ==> Entries()[i].key != InternalKey(user, sequence, kind)
      requires SL.History(moments) && moments != [] && moments[|moments| - 1] == list.Now()
      modifies list
      ensures Valid() && Entries() == Lsm.InsertEntry(old(Entries()), Entry(InternalKey(user, sequence, kind), value))
      ensures SL.History(moments') && moments <= moments' && moments'[|moments'| - 1] == list.Now()
    {
      hide SL.WellLinked, SL.Keys, SL.ChainOk, SL.History, Spelled, Sorted, Lsm.InsertEntry;
      var e := Entry(InternalKey(user, sequence, kind), value);
      ghost var before := Entries();
      EntriesAreContents();
      assert forall x :: x in before <==> x in EntrySet(before);
      moments' := list.Insert(e, height, moments);
      EntriesAreContents();
      Lsm.InsertEntrySorted(before, e);
      assert forall x :: x in Entries() <==> x in EntrySet(Entries());
      assert forall x :: x in Lsm.InsertEntry(before, e) <==> x in EntrySet(Lsm.InsertEntry(before, e));
      SortedUnique(Entries(), Lsm.InsertEntry(before, e));
    }

    lemma EntriesAreContents()
      requires Valid()
      ensures EntrySet(Entries()) == list.Contents()
    {
      hide SL.WellLinked, SL.Keys, SL.ChainOk, Spelled;
      SL.WellLinkedBottom(list.Now().memory, list.chains);
      SpelledSorted(list.Now().memory, list.chains[0]);
    }

    /** Get: a seek to the lookup key, whose entry is the newest one visible if it has the user key. */
    method Get(user: UserKey, s: nat) returns (found: Option<Entry>)
      requires Valid()
      ensures found.Some? ==> Newest(EntrySet(Entries()), user, s, found.value)
      ensures found.None? ==> NoneSeen(EntrySet(Entries()), user, s)
    {
      hide SL.WellLinked, SL.Keys, SL.ChainOk, SL.IsCut, Sorted, Newest, NoneSeen;
      var iter := new SL.Iterator(list);
      ghost var q := iter.Seek(Entry(LookupKey(user, s), ""));
      Placed(user, s, q, iter.node);
      // Check that it belongs to same user key. We do not check the sequence number since the Seek()
      // call above should have skipped all entries with overly large sequence numbers.
      if iter.node.Some? && list.nodes[iter.node.value].key.key.user == user {
        return Some(list.nodes[iter.node.value].key);
      }
      return None;
    }

    lemma Placed(user: UserKey, s: nat, q: nat, node: Option<nat>)
      requires Valid() && SL.StandsAt(list.chains[0], node, q)
      requires var m, chain := list.Now().memory, list.chains[0];
               && (forall i :: 0 < i < |chain| && (q == 0 || i < q) ==> chain[i] < |m.nodes| && SL.Before(m.nodes[chain[i]].key, Entry(LookupKey(user, s), "")))
               && (0 < q ==> forall i :: q <= i < |chain| ==> chain[i] < |m.nodes| && !SL.Before(m.nodes[chain[i]].key, Entry(LookupKey(user, s), "")))
      ensures node.Some? ==> node.value < |list.nodes|
      ensures if node.Some? && list.nodes[node.value].key.key.user == user then Newest(EntrySet(Entries()), user, s, list.nodes[node.value].key)
              else NoneSeen(EntrySet(Entries()), user, s)
    {
      hide SL.WellLinked, SL.ChainOk, Sorted, Less;
      SL.WellLinkedBottom(list.Now().memory, list.chains);
      var es := Entries();
      var p := if q == 0 then |es| else q - 1;
      assert forall x :: x in es <==> x in EntrySet(es);
      RunNewest(es, user, s, p);
    }
  }
}
