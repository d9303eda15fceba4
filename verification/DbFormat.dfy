/** Internal keys, entries and sorted runs (db/dbformat.h, db/dbformat.cc).

    User keys are used only through their comparator, and every countable total order (byte
    strings under any comparator included) embeds in the rationals; so a user key is a `real`,
    ordered by `<`. For the bytewise comparator `KeyOrder.UserRankOrders` gives the embedding. */
module DbFormat {
  import opened Wrappers

  type UserKey = real
  type Value = string

  /** kTypeDeletion = 0 and kTypeValue = 1; the latter is also kValueTypeForSeek. */
  datatype ValueType = TypeDeletion | TypeValue

  const MAX_SEQUENCE: nat := 0xFF_FFFF_FFFF_FFFF

  datatype InternalKey = InternalKey(user: UserKey, sequence: nat, kind: ValueType)

  datatype Entry = Entry(key: InternalKey, value: Value)

  /** PackSequenceAndType: the type sits in the low eight bits. */
  function Tag(k: InternalKey): nat {
    256 * k.sequence + if k.kind.TypeValue? then 1 else 0
  }

  /** InternalKeyComparator::Compare(a, b) < 0: user key ascending, then tag descending. */
  predicate Less(a: InternalKey, b: InternalKey) {
    a.user < b.user || (a.user == b.user && Tag(a) > Tag(b))
  }

  /** The packed tag orders like (sequence, type), and equal tags are equal keys. */
  lemma LessIsLexicographic(a: InternalKey, b: InternalKey)
    ensures Less(a, b) <==>
            a.user < b.user ||
            (a.user == b.user && (a.sequence > b.sequence || (a.sequence == b.sequence && a.kind.TypeValue? && b.kind.TypeDeletion?)))
    ensures Less(a, b) || Less(b, a) || a == b
  {
    if a.sequence > b.sequence {
      assert Tag(a) > Tag(b);
    } else if b.sequence > a.sequence {
      assert Tag(b) > Tag(a);
    }
  }

  /** The key a reader seeks to: the first internal key of `user` visible at `snapshot`. */
  function LookupKey(user: UserKey, snapshot: nat): InternalKey {
    InternalKey(user, snapshot, TypeValue)
  }

  /** Against a lookup key, "at or after" means: same user key and visible, or a larger user key. */
  lemma LookupKeyBound(k: InternalKey, user: UserKey, snapshot: nat)
    ensures Less(k, LookupKey(user, snapshot)) <==> k.user < user || (k.user == user && k.sequence > snapshot)
  {
    LessIsLexicographic(k, LookupKey(user, snapshot));
  }

  /** A run of strictly increasing internal keys: a memtable, a table, a whole level. */
  ghost predicate Sorted(es: seq<Entry>) {
    forall i, j :: 0 <= i < j < |es| ==> Less(es[i].key, es[j].key)
  }

  /** Where every Seek of the program lands: the first entry at or after `k`. */
  ghost predicate IsLowerBound(es: seq<Entry>, k: InternalKey, p: nat) {
    && p <= |es|
    && (forall i :: 0 <= i < p ==> Less(es[i].key, k))
    && (forall i :: p <= i < |es| ==> !Less(es[i].key, k))
  }

  function LowerBound(es: seq<Entry>, k: InternalKey): (p: nat)
    ensures p <= |es|
    ensures Sorted(es) ==> IsLowerBound(es, k, p)
  {
    if es == [] || !Less(es[0].key, k) then 0 else 1 + LowerBound(es[1..], k)
  }

  /** A run is determined by its entries. */
  lemma {:induction false} SortedUnique(a: seq<Entry>, b: seq<Entry>)
    requires Sorted(a) && Sorted(b) && forall x :: x in a <==> x in b
    ensures a == b
  {
    if b != [] {
      assert b[0] in a;
    }
    if a != [] {
      assert a[0] in b;
      assert a[0] == b[0];
      forall x
        ensures x in a[1..] <==> x in b[1..]
      {
        assert x in a <==> x == a[0] || x in a[1..];
        assert x in b <==> x == b[0] || x in b[1..];
        assert a[0] !in a[1..] && b[0] !in b[1..];
      }
      SortedUnique(a[1..], b[1..]);
    }
  }

  /** Inserting a new key at its lower bound keeps a run sorted. */
  lemma InsertAtSorted(es: seq<Entry>, e: Entry, p: nat)
    requires Sorted(es) && IsLowerBound(es, e.key, p)
    requires forall x :: x in es ==> x.key != e.key
    ensures Sorted(es[..p] + [e] + es[p..])
  {
    var r := es[..p] + [e] + es[p..];
    forall i | p <= i < |es|
      ensures Less(e.key, es[i].key)
    {
      LessIsLexicographic(es[i].key, e.key);
      assert es[i] in es;
    }
    assert forall i :: 0 <= i < |r| ==> r[i] == if i < p then es[i] else if i == p then e else es[i - 1];
  }

  /** What a reader reports for the entry it found. */
  function Outcome(e: Entry): Option<Value> {
    if e.key.kind.TypeValue? then Some(e.value) else None
  }
}
