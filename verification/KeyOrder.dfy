/** Byte-string keys: the bytewise comparator (util/comparator.cc), encoded internal keys and their
    separators (db/dbformat.h, db/dbformat.cc). */
module KeyOrder {
  import opened Coding
  import opened DbFormat

  /** Slice::compare < 0: the first differing byte decides, and a prefix comes first. */
  predicate BytesLess(a: Bytes, b: Bytes) {
    b != [] && (a == [] || a[0] < b[0] || (a[0] == b[0] && BytesLess(a[1..], b[1..])))
  }

  /** `a` and `b` part at `i`, and `a` is the smaller one there. */
  predicate PartsAt(a: Bytes, b: Bytes, i: nat) {
    && i <= |a| && i < |b| && a[..i] == b[..i]
    && (i == |a| || a[i] < b[i])
  }

  lemma {:induction false} LessFromParts(a: Bytes, b: Bytes, i: nat)
    requires PartsAt(a, b, i)
    ensures BytesLess(a, b)
  {
    if i > 0 {
      assert a[0] == a[..i][0] == b[..i][0] == b[0];
      assert a[1..][..i - 1] == a[..i][1..] == b[..i][1..] == b[1..][..i - 1];
      LessFromParts(a[1..], b[1..], i - 1);
    }
  }

  lemma {:induction false} PartsFromLess(a: Bytes, b: Bytes) returns (i: nat)
    requires BytesLess(a, b)
    ensures PartsAt(a, b, i)
  {
    if a == [] || a[0] < b[0] {
      i := 0;
    } else {
      var k := PartsFromLess(a[1..], b[1..]);
      i := k + 1;
      assert a[..i] == [a[0]] + a[1..][..k] && b[..i] == [b[0]] + b[1..][..k];
    }
  }

  /** A string is smaller exactly if it parts from the other, and is smaller, at some byte. */
  lemma LessAsParts(a: Bytes, b: Bytes)
    ensures BytesLess(a, b) <==> exists i: nat :: PartsAt(a, b, i)
  {
    if BytesLess(a, b) {
      var i := PartsFromLess(a, b);
    }
    if i: nat :| PartsAt(a, b, i) {
      LessFromParts(a, b, i);
    }
  }

  /** The order is total: of two different strings one is smaller. */
  lemma {:induction false} BytesTotal(a: Bytes, b: Bytes)
    ensures a == b || BytesLess(a, b) || BytesLess(b, a)
    ensures !(BytesLess(a, b) && (a == b || BytesLess(b, a)))
  {
    if a != [] && b != [] && a[0] == b[0] {
      BytesTotal(a[1..], b[1..]);
      assert a == [a[0]] + a[1..] && b == [b[0]] + b[1..];
    }
  }

  lemma {:induction false} BytesTransitive(a: Bytes, b: Bytes, c: Bytes)
    requires BytesLess(a, b) && BytesLess(b, c)
    ensures BytesLess(a, c)
  {
    if a != [] && b != [] && c != [] && a[0] == b[0] == c[0] {
      BytesTransitive(a[1..], b[1..], c[1..]);
    }
  }

  /** BytewiseComparator::FindShortestSeparator. */
  method FindShortestSeparator(start: Bytes, limit: Bytes) returns (r: Bytes)
    ensures |r| <= |start|
    // between the two keys, whenever they are in order
    ensures BytesLess(start, limit) ==> (r == start || BytesLess(start, r)) && BytesLess(r, limit)
    ensures r == start || (|r| <= |start| && BytesLess(start, r) && BytesLess(r, limit))
  {
    // Find length of common prefix
    var minLength := if |start| < |limit| then |start| else |limit|;
    var diffIndex := 0;
    while diffIndex < minLength && start[diffIndex] == limit[diffIndex]
      invariant diffIndex <= minLength && start[..diffIndex] == limit[..diffIndex]
    {
      diffIndex := diffIndex + 1;
    }
    if diffIndex >= minLength {
      // Do not shorten if one string is a prefix of the other
      return start;
    }
    var diffByte := start[diffIndex];
    if diffByte < 0xff && diffByte as int + 1 < limit[diffIndex] {
      r := start[..diffIndex] + [diffByte + 1];
      assert r[..diffIndex] == start[..diffIndex];
      LessFromParts(start, r, diffIndex);
      LessFromParts(r, limit, diffIndex);
      return r;
    }
    return start;
  }

  /** BytewiseComparator::FindShortSuccessor. */
  method FindShortSuccessor(key: Bytes) returns (r: Bytes)
    ensures |r| <= |key|
    ensures r == key || BytesLess(key, r)
    // it is left alone only if it is a run of 0xff
    ensures r == key ==> forall i :: 0 <= i < |key| ==> key[i] == 0xff
  {
    for i := 0 to |key|
      invariant forall j :: 0 <= j < i ==> key[j] == 0xff
    {
      if key[i] != 0xff {
        r := key[..i] + [key[i] + 1];
        assert r[..i] == key[..i];
        LessFromParts(key, r, i);
        BytesTotal(key, r);
        return r;
      }
    }
    return key;
  }

  // Encoded internal keys: the user key, then eight bytes of packed sequence number and type

  const MAX_TAG: nat := 256 * MAX_SEQUENCE + 1

  function UserOf(key: Bytes): Bytes
    requires |key| >= 8
  {
    key[..|key| - 8]
  }

  function TagOf(key: Bytes): nat
    requires |key| >= 8
  {
    DecodeFixed(key[|key| - 8..])
  }

  function MakeKey(user: Bytes, tag: nat): (key: Bytes)
    ensures |key| == |user| + 8
  {
    user + Fixed(tag, 8)
  }

  lemma KeyParts(user: Bytes, tag: nat)
    requires tag < 0x1_0000_0000_0000_0000
    ensures UserOf(MakeKey(user, tag)) == user && TagOf(MakeKey(user, tag)) == tag
  {
    assert Pow256(8) == 0x1_0000_0000_0000_0000;
    FixedRoundTrip(tag, 8);
    assert MakeKey(user, tag)[|user|..] == Fixed(tag, 8);
  }

  /** InternalKeyComparator::Compare < 0. */
  predicate KeyLess(a: Bytes, b: Bytes)
    requires |a| >= 8 && |b| >= 8
  {
    BytesLess(UserOf(a), UserOf(b)) || (UserOf(a) == UserOf(b) && TagOf(a) > TagOf(b))
  }

  lemma KeyTransitive(a: Bytes, b: Bytes, c: Bytes)
    requires |a| >= 8 && |b| >= 8 && |c| >= 8 && KeyLess(a, b) && KeyLess(b, c)
    ensures KeyLess(a, c)
  {
    if BytesLess(UserOf(a), UserOf(b)) && BytesLess(UserOf(b), UserOf(c)) {
      BytesTransitive(UserOf(a), UserOf(b), UserOf(c));
    }
  }

  /** A user key as a fraction with digits base 257, every byte one up and no digit 0, and `below`
      behind the last digit. */
  function UserRank(user: Bytes, below: real): (r: real)
    requires 0.0 <= below < 1.0
    ensures 0.0 <= r < 1.0
  {
    if user == [] then below / 257.0 else (user[0] as real + 1.0 + UserRank(user[1..], below)) / 257.0
  }

  lemma {:induction false} UserRankOrders(a: Bytes, x: real, b: Bytes, y: real)
    requires 0.0 <= x < 1.0 && 0.0 <= y < 1.0
    ensures UserRank(a, x) < UserRank(b, y) <==> BytesLess(a, b) || (a == b && x < y)
  {
    if a != [] && b != [] {
      UserRankOrders(a[1..], x, b[1..], y);
      if a[0] == b[0] {
        assert a == b <==> a[1..] == b[1..] by {
          assert a == [a[0]] + a[1..] && b == [b[0]] + b[1..];
        }
      }
    }
  }

  /** BytewiseComparator's order as places on the real line. */
  function BytesRank(key: Bytes): real {
    UserRank(key, 0.0)
  }

  function TagRank(tag: nat): (r: real)
    requires tag < U64
    ensures 0.0 <= r < 1.0
  {
    (U64 - 1 - tag) as real / U64 as real
  }

  /** A place on the real line for every encoded internal key. */
  function KeyRank(key: Bytes): real {
    if |key| < 8 then 0.0 else
      TagBound(key);
      UserRank(UserOf(key), TagRank(TagOf(key)))
  }

  lemma TagBound(key: Bytes)
    requires |key| >= 8
    ensures TagOf(key) < U64
  {
    assert Pow256(8) == U64;
  }

  lemma TagRankOrders(a: nat, b: nat)
    requires a < U64 && b < U64
    ensures TagRank(a) < TagRank(b) <==> b < a
  {
  }

  /** The places of keys are in the comparator's order. */
  lemma KeyRankOrders(a: Bytes, b: Bytes)
    requires |a| >= 8 && |b| >= 8
    ensures KeyRank(a) < KeyRank(b) <==> KeyLess(a, b)
  {
    hide TagRank, TagOf;
    TagBound(a);
    TagBound(b);
    TagRankOrders(TagOf(a), TagOf(b));
    UserRankOrders(UserOf(a), TagRank(TagOf(a)), UserOf(b), TagRank(TagOf(b)));
  }

  /** An index key for a block that ends with `start`, before a block that starts with `limit`: it is
      `start` itself, or the first key of a user key between theirs. */
  ghost predicate Separates(r: Bytes, start: Bytes, limit: Bytes) {
    && |r| >= 8 && |start| >= 8 && |limit| >= 8
    && (r == start || (KeyLess(start, r) && BytesLess(UserOf(r), UserOf(limit)) && TagOf(r) == MAX_TAG))
    && KeyLess(r, limit)
  }

  /** InternalKeyComparator::FindShortestSeparator. */
  method FindInternalSeparator(start: Bytes, limit: Bytes) returns (r: Bytes)
    requires |start| >= 8 && |limit| >= 8 && KeyLess(start, limit)
    ensures |r| <= |start| && Separates(r, start, limit)
  {
    // Attempt to shorten the user portion of the key
    var tmp := FindShortestSeparator(UserOf(start), UserOf(limit));
    if |tmp| < |UserOf(start)| && BytesLess(UserOf(start), tmp) {
      // The user key has become shorter physically, but larger logically.
      r := MakeKey(tmp, MAX_TAG);
      KeyParts(tmp, MAX_TAG);
      BytesTotal(UserOf(start), tmp);
      return r;
    }
    return start;
  }

  /** InternalKeyComparator::FindShortSuccessor. */
  method FindInternalSuccessor(key: Bytes) returns (r: Bytes)
    requires |key| >= 8
    ensures 8 <= |r| <= |key| && (r == key || (KeyLess(key, r) && TagOf(r) == MAX_TAG))
  {
    var tmp := FindShortSuccessor(UserOf(key));
    if |tmp| < |UserOf(key)| && BytesLess(UserOf(key), tmp) {
      r := MakeKey(tmp, MAX_TAG);
      KeyParts(tmp, MAX_TAG);
      return r;
    }
    return key;
  }
}
