/** A batch of updates as bytes (db/write_batch.cc): a sequence number, a count, and the records. */
module WriteBatch {
  import opened Wrappers
  import opened Coding

  const HEADER: nat := 12

  const TYPE_DELETION: Byte := 0
  const TYPE_VALUE: Byte := 1

  datatype Update = Put(key: Bytes, value: Bytes) | Delete(key: Bytes)

  function EncodeUpdate(u: Update): (r: Bytes)
    ensures r != []
  {
    match u
    case Put(key, value) => [TYPE_VALUE] + Prefixed(key) + Prefixed(value)
    case Delete(key) => [TYPE_DELETION] + Prefixed(key)
  }

  function EncodeUpdates(us: seq<Update>): Bytes {
    if us == [] then [] else EncodeUpdate(us[0]) + EncodeUpdates(us[1..])
  }

  lemma {:induction false} EncodeAppend(a: seq<Update>, b: seq<Update>)
    ensures EncodeUpdates(a + b) == EncodeUpdates(a) + EncodeUpdates(b)
    decreases |a|
  {
    hide EncodeUpdate;
    if a == [] {
      assert a + b == b;
    } else {
      EncodeAppend(a[1..], b);
      assert (a + b)[1..] == a[1..] + b;
    }
  }

  lemma EncodeOne(u: Update)
    ensures EncodeUpdates([u]) == EncodeUpdate(u)
  {
    assert [u][1..] == [];
  }

  /** The image of a batch. */
  function Image(sequence: nat, us: seq<Update>): (r: Bytes)
    ensures |r| >= HEADER
  {
    Fixed(sequence, 8) + Fixed(|us|, 4) + EncodeUpdates(us)
  }

  /** The key and value lengths fit the 32-bit lengths they are stored with. */
  predicate UpdateFits(u: Update) {
    |u.key| < U32 && (u.Put? ==> |u.value| < U32)
  }

  function SequenceOf(rep: Bytes): (s: nat)
    requires |rep| >= HEADER
  {
    DecodeFixed(rep[..8])
  }

  /** Count: a 32-bit field read into an int. */
  function CountOf(rep: Bytes): int
    requires |rep| >= HEADER
  {
    var n := DecodeFixed(rep[8..12]);
    if n < 0x8000_0000 then n else n - U32
  }

  /** What Iterate hands to its handler, and the error it ends with. */
  datatype Iterated = Iterated(updates: seq<Update>, error: Option<string>)

  function IterateFrom(input: Bytes, found: nat, count: int): Iterated
    decreases |input|
  {
    if input == [] then Iterated([], if found != count then Some("WriteBatch has wrong count") else None)
    else if input[0] == TYPE_VALUE then
      var key := GetLengthPrefixedSlice(input[1..]);
      if key.Unread? then Iterated([], Some("bad WriteBatch Put"))
      else
        var value := GetLengthPrefixedSlice(key.rest);
        if value.Unread? then Iterated([], Some("bad WriteBatch Put"))
        else
          var rest := IterateFrom(value.rest, found + 1, count);
          rest.(updates := [Put(key.value, value.value)] + rest.updates)
    else if input[0] == TYPE_DELETION then
      var key := GetLengthPrefixedSlice(input[1..]);
      if key.Unread? then Iterated([], Some("bad WriteBatch Delete"))
      else
        var rest := IterateFrom(key.rest, found + 1, count);
        rest.(updates := [Delete(key.value)] + rest.updates)
    else Iterated([], Some("unknown WriteBatch tag"))
  }

  function IterateOf(rep: Bytes): Iterated {
    if |rep| < HEADER then Iterated([], Some("malformed WriteBatch (too small)"))
    else IterateFrom(rep[HEADER..], 0, CountOf(rep))
  }

  /** One record is read back, and the rest is still to be read. */
  lemma UpdateReads(u: Update, rest: Bytes, found: nat, count: int)
    requires UpdateFits(u)
    ensures
      var r := IterateFrom(rest, found + 1, count);
      IterateFrom(EncodeUpdate(u) + rest, found, count) == r.(updates := [u] + r.updates)
  {
    hide GetLengthPrefixedSlice, Prefixed;
    var input := EncodeUpdate(u) + rest;
    match u
    case Put(key, value) =>
      PrefixedBack(key, Prefixed(value) + rest);
      PrefixedBack(value, rest);
      assert input == [TYPE_VALUE] + (Prefixed(key) + (Prefixed(value) + rest));
      assert input[1..] == Prefixed(key) + (Prefixed(value) + rest);
    case Delete(key) =>
      PrefixedBack(key, rest);
      assert input == [TYPE_DELETION] + (Prefixed(key) + rest);
      assert input[1..] == Prefixed(key) + rest;
  }

  lemma {:induction false} UpdatesRead(us: seq<Update>, found: nat, count: int)
    requires forall i :: 0 <= i < |us| ==> UpdateFits(us[i])
    ensures IterateFrom(EncodeUpdates(us), found, count) ==
      Iterated(us, if found + |us| != count then Some("WriteBatch has wrong count") else None)
    decreases |us|
  {
    hide EncodeUpdate;
    if us != [] {
      hide IterateFrom;
      UpdateReads(us[0], EncodeUpdates(us[1..]), found, count);
      UpdatesRead(us[1..], found + 1, count);
      assert [us[0]] + us[1..] == us;
    }
  }

  lemma HeaderReads(sequence: nat, us: seq<Update>)
    requires sequence < U64 && |us| < 0x8000_0000
    ensures SequenceOf(Image(sequence, us)) == sequence && CountOf(Image(sequence, us)) == |us|
    ensures Image(sequence, us)[HEADER..] == EncodeUpdates(us)
  {
    Widths();
    hide EncodeUpdates, Fixed, Pow256, DecodeFixed;
    FixedRoundTrip(sequence, 8);
    FixedRoundTrip(|us|, 4);
    var r := Image(sequence, us);
    assert r[..8] == Fixed(sequence, 8) && r[8..12] == Fixed(|us|, 4);
  }

  /** Reading a batch back: all its updates, in order, and no error. */
  lemma BatchRoundTrip(sequence: nat, us: seq<Update>)
    requires sequence < U64 && |us| < 0x8000_0000 && forall i :: 0 <= i < |us| ==> UpdateFits(us[i])
    ensures IterateOf(Image(sequence, us)) == Iterated(us, None)
    ensures SequenceOf(Image(sequence, us)) == sequence
  {
    hide Image, IterateFrom, EncodeUpdates, UpdateFits;
    HeaderReads(sequence, us);
    UpdatesRead(us, 0, |us|);
  }

  class Batch {
    var rep: Bytes
    ghost var sequence: nat
    ghost var updates: seq<Update>

    ghost predicate Valid()
      reads this
    {
      rep == Image(sequence, updates) && sequence < U64 && |updates| < 0x8000_0000
    }

    /** Clear. */
    constructor ()
      ensures Valid() && sequence == 0 && updates == []
    {
      rep := [0, 0, 0, 0, 0, 0, 0, 0, 0, 0, 0, 0];
      sequence, updates := 0, [];
      new;
      EmptyImage();
    }

    /** SetCount. */
    method SetCount(n: nat)
      requires |rep| >= HEADER
      modifies `rep
      ensures rep == old(rep)[..8] + Fixed(n, 4) + old(rep)[HEADER..]
    {
      rep := rep[..8] + Fixed(n, 4) + rep[HEADER..];
    }

    /** SetSequence. */
    method SetSequence(s: nat)
      requires Valid() && s < U64
      modifies this
      ensures Valid() && sequence == s && updates == old(updates)
    {
      hide Fixed, EncodeUpdates;
      assert rep[8..] == Fixed(|updates|, 4) + EncodeUpdates(updates);
      assert Fixed(s, 8) + rep[8..] == Image(s, updates);
      rep := Fixed(s, 8) + rep[8..];
      sequence := s;
    }

    /** Put and Delete: the count goes up by one, and a record is added at the end. */
    method Add(u: Update)
      requires Valid() && |updates| + 1 < 0x8000_0000
      modifies this
      ensures Valid() && updates == old(updates) + [u] && sequence == old(sequence)
    {
      hide Fixed, EncodeUpdate, EncodeUpdates;
      HeaderReads(sequence, updates);
      CountImage(sequence, updates, [u]);
      SetCount((CountOf(rep) + 1) as nat);
      EncodeOne(u);
      EncodeAppend(updates, [u]);
      rep := rep + EncodeUpdate(u);
      updates := updates + [u];
    }

    /** Append. */
    method Append(source: Batch)
      requires Valid() && source.Valid() && |updates| + |source.updates| < 0x8000_0000
      modifies this
      ensures Valid() && updates == old(updates) + old(source.updates) && sequence == old(sequence)
    {
      hide Fixed, EncodeUpdates;
      HeaderReads(sequence, updates);
      HeaderReads(source.sequence, source.updates);
      ghost var more := source.updates;
      CountImage(sequence, updates, more);
      EncodeAppend(updates, more);
      var records := source.rep[HEADER..];
      SetCount((CountOf(rep) + CountOf(source.rep)) as nat);
      rep := rep + records;
      updates := updates + more;
    }
  }

  /** Iterate, with the list of calls it makes to its handler. */
  method Iterate(rep: Bytes) returns (r: Iterated)
    ensures r == IterateOf(rep)
  {
    hide GetLengthPrefixedSlice;
    if |rep| < HEADER {
      return Iterated([], Some("malformed WriteBatch (too small)"));
    }
    var input, found: nat, updates := rep[HEADER..], 0, [];
    ghost var all := IterateOf(rep);
    while input != []
      invariant all == (var rest := IterateFrom(input, found, CountOf(rep)); rest.(updates := updates + rest.updates))
      decreases |input|
    {
      found := found + 1;
      var tag := input[0];
      input := input[1..];
      if tag == TYPE_VALUE {
        var key := GetLengthPrefixedSlice(input);
        if key.Unread? {
          return Iterated(updates, Some("bad WriteBatch Put"));
        }
        var value := GetLengthPrefixedSlice(key.rest);
        if value.Unread? {
          return Iterated(updates, Some("bad WriteBatch Put"));
        }
        input := value.rest;
        ghost var rest := IterateFrom(input, found, CountOf(rep)).updates;
        assert updates + ([Put(key.value, value.value)] + rest) == updates + [Put(key.value, value.value)] + rest;
        updates := updates + [Put(key.value, value.value)];
      } else if tag == TYPE_DELETION {
        var key := GetLengthPrefixedSlice(input);
        if key.Unread? {
          return Iterated(updates, Some("bad WriteBatch Delete"));
        }
        input := key.rest;
        ghost var rest := IterateFrom(input, found, CountOf(rep)).updates;
        assert updates + ([Delete(key.value)] + rest) == updates + [Delete(key.value)] + rest;
        updates := updates + [Delete(key.value)];
      } else {
        return Iterated(updates, Some("unknown WriteBatch tag"));
      }
    }
    return Iterated(updates, if found != CountOf(rep) then Some("WriteBatch has wrong count") else None);
  }

  lemma EmptyImage()
    ensures Image(0, []) == [0, 0, 0, 0, 0, 0, 0, 0, 0, 0, 0, 0]
  {
    assert Fixed(0, 4) == [0, 0, 0, 0] by {
      assert Fixed(0, 2) == [0, 0];
    }
    assert Fixed(0, 8) == [0, 0, 0, 0, 0, 0, 0, 0] by {
      assert Fixed(0, 6) == [0, 0] + Fixed(0, 4);
    }
  }

  /** A new count, and more records at the end. */
  lemma CountImage(sequence: nat, us: seq<Update>, more: seq<Update>)
    ensures
      var r := Image(sequence, us);
      r[..8] + Fixed(|us| + |more|, 4) + r[HEADER..] + EncodeUpdates(more) == Image(sequence, us + more)
  {
    hide Fixed, EncodeUpdates;
    EncodeAppend(us, more);
    var r := Image(sequence, us);
    assert r[..8] == Fixed(sequence, 8) && r[HEADER..] == EncodeUpdates(us);
    assert |us + more| == |us| + |more|;
  }
}
