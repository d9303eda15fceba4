/** Blocks of a table (table/block_builder.cc, table/block.cc): prefix-compressed entries with restart
    points, and the iterator over them. Keys are compared through their rank in the comparator's order. */
module Block {
  import opened Wrappers
  import opened Coding

  /** What a builder was given, and what it decided: how much of each key is shared with the one before,
      and which entries are restart points. */
  datatype Layout = Layout(entries: seq<(Bytes, Bytes)>, shared: seq<nat>, restarts: seq<nat>)

  function EncodeEntry(shared: nat, key: Bytes, value: Bytes): (r: Bytes)
    requires shared <= |key|
    ensures |r| >= 3
  {
    Varint(shared) + Varint(|key| - shared) + Varint(|value|) + key[shared..] + value
  }

  ghost predicate SharedOk(l: Layout) {
    && |l.shared| == |l.entries|
    && (forall i :: 0 <= i < |l.entries| ==> l.shared[i] <= |l.entries[i].0| < U32 && |l.entries[i].1| < U32)
    && (forall i :: 0 < i < |l.entries| ==> SharesPrefix(l.entries[i - 1].0, l.entries[i].0, l.shared[i]))
  }

  predicate SharesPrefix(a: Bytes, b: Bytes, n: nat) {
    n <= |a| && n <= |b| && b[..n] == a[..n]
  }

  ghost predicate RestartsOk(l: Layout)
    requires |l.shared| == |l.entries|
  {
    && l.restarts != [] && l.restarts[0] == 0
    && (forall i, j :: 0 <= i < j < |l.restarts| ==> l.restarts[i] < l.restarts[j])
    && (forall j :: 0 <= j < |l.restarts| ==> l.restarts[j] <= |l.entries|)
    && (forall j :: 0 <= j < |l.restarts| && l.entries != [] ==> l.restarts[j] < |l.entries| && l.shared[l.restarts[j]] == 0)
    && (l.entries == [] ==> l.restarts == [0])
  }

  ghost predicate LayoutOk(l: Layout) {
    SharedOk(l) && RestartsOk(l) && |Data(l, |l.entries|)| + 4 * |l.restarts| + 4 < U32
  }

  /** The bytes of the first `n` entries. */
  ghost function Data(l: Layout, n: nat): Bytes
    requires SharedOk(l) && n <= |l.entries|
  {
    if n == 0 then [] else Data(l, n - 1) + EncodeEntry(l.shared[n - 1], l.entries[n - 1].0, l.entries[n - 1].1)
  }

  ghost function Offset(l: Layout, n: nat): nat
    requires SharedOk(l) && n <= |l.entries|
  {
    |Data(l, n)|
  }

  function FixedArray(values: seq<nat>): (r: Bytes)
    ensures |r| == 4 * |values|
  {
    if values == [] then [] else FixedArray(values[..|values| - 1]) + Fixed(values[|values| - 1], 4)
  }

  ghost function RestartOffsets(l: Layout): (r: seq<nat>)
    requires SharedOk(l) && RestartsOk(l)
    ensures |r| == |l.restarts| && forall j :: 0 <= j < |r| ==> l.restarts[j] <= |l.entries| && r[j] == Offset(l, l.restarts[j])
  {
    seq(|l.restarts|, j requires 0 <= j < |l.restarts| => Offset(l, l.restarts[j]))
  }

  ghost function BlockOf(l: Layout): Bytes
    requires LayoutOk(l)
  {
    Data(l, |l.entries|) + FixedArray(RestartOffsets(l)) + Fixed(|l.restarts|, 4)
  }

  lemma {:induction false} DataPrefix(l: Layout, i: nat, n: nat)
    requires SharedOk(l) && i <= n <= |l.entries|
    ensures Data(l, i) <= Data(l, n)
    ensures i < n ==> |Data(l, i)| + 3 <= |Data(l, n)|
  {
    hide EncodeEntry, SharedOk;
    if i < n {
      DataPrefix(l, i, n - 1);
    }
  }

  /** Adding an entry leaves the bytes of the others alone. */
  lemma {:induction false} DataSame(l: Layout, l': Layout, n: nat)
    requires SharedOk(l) && SharedOk(l') && n <= |l.entries| && n <= |l'.entries|
    requires l.entries[..n] == l'.entries[..n] && l.shared[..n] == l'.shared[..n]
    ensures Data(l, n) == Data(l', n)
  {
    hide EncodeEntry;
    if n > 0 {
      assert l.entries[..n][n - 1] == l'.entries[..n][n - 1];
      assert l.shared[..n][n - 1] == l'.shared[..n][n - 1];
      assert l.entries[..n - 1] == l.entries[..n][..n - 1] && l.shared[..n - 1] == l.shared[..n][..n - 1];
      assert l'.entries[..n - 1] == l'.entries[..n][..n - 1] && l'.shared[..n - 1] == l'.shared[..n][..n - 1];
      DataSame(l, l', n - 1);
    }
  }

  /** `n` is the length of the longest common prefix. */
  predicate SharesExactly(a: Bytes, b: Bytes, n: nat) {
    && n <= |a| && n <= |b| && a[..n] == b[..n]
    && (n < |a| && n < |b| ==> a[n] != b[n])
  }

  lemma SharedPart(a: Bytes, b: Bytes, n: nat)
    requires SharesExactly(a, b, n)
    ensures n <= |a| && n <= |b| && a[..n] == b[..n]
  {
  }

  lemma KeyRebuilt(a: Bytes, b: Bytes, n: nat)
    requires n <= |a| && n <= |b| && a[..n] == b[..n]
    ensures a[..n] + b[n..] == b
  {
  }

  /** How many leading bytes two keys share. */
  method SharedPrefix(a: Bytes, b: Bytes) returns (shared: nat)
    ensures SharesExactly(a, b, shared)
  {
    shared := 0;
    var minLength := if |a| < |b| then |a| else |b|;
    while shared < minLength && a[shared] == b[shared]
      invariant shared <= minLength && a[..shared] == b[..shared]
    {
      shared := shared + 1;
    }
  }

  /** What a builder's fields say of the layout so far. */
  ghost predicate Describes(l: Layout, restartInterval: nat, buffer: Bytes, restarts: seq<nat>, counter: nat, lastKey: Bytes) {
    && 1 <= restartInterval && LayoutOk(l)
    && buffer == Data(l, |l.entries|)
    && restarts == RestartOffsets(l)
    && lastKey == (if l.entries == [] then [] else l.entries[|l.entries| - 1].0)
    && counter == |l.entries| - l.restarts[|l.restarts| - 1] <= restartInterval
  }

  class BlockBuilder {
    const restartInterval: nat
    var buffer: Bytes
    var restarts: seq<nat>
    var counter: nat
    var lastKey: Bytes
    ghost var layout: Layout

    ghost predicate Valid()
      reads this
    {
      Describes(layout, restartInterval, buffer, restarts, counter, lastKey)
    }

    constructor (restartInterval: nat)
      requires 1 <= restartInterval
      ensures Valid() && layout.entries == [] && this.restartInterval == restartInterval && CurrentSizeEstimate() == 8
    {
      this.restartInterval := restartInterval;
      buffer, restarts, counter, lastKey := [], [0], 0, [];
      layout := Layout([], [], [0]);
    }

    /** CurrentSizeEstimate. */
    function CurrentSizeEstimate(): nat
      reads this
    {
      |buffer| + 4 * |restarts| + 4
    }

    method Add(key: Bytes, value: Bytes)
      requires Valid() && CurrentSizeEstimate() + |key| + |value| + 19 < U32
      modifies this
      ensures Valid() && layout.entries == old(layout.entries) + [(key, value)]
      ensures CurrentSizeEstimate() <= old(CurrentSizeEstimate()) + |key| + |value| + 19
      // an entry starts afresh exactly when the interval is used up
      ensures layout.restarts == if old(counter) < restartInterval then old(layout.restarts) else old(layout.restarts) + [|old(layout.entries)|]
      // and otherwise shares all that it has in common with the last key
      ensures |layout.shared| == |old(layout.shared)| + 1 && old(layout.shared) <= layout.shared
      ensures var shared := layout.shared[|old(layout.shared)|];
              if old(counter) < restartInterval then SharesExactly(old(lastKey), key, shared) else shared == 0
    {
      hide LayoutOk, EncodeEntry, Describes, SharesExactly, Grown, Varint;
      var shared := 0;
      ghost var starts := counter >= restartInterval;
      ghost var before, start, points, count, last := layout, buffer, restarts, counter, lastKey;
      if counter < restartInterval {
        // See how much sharing to do with previous string
        shared := SharedPrefix(lastKey, key);
      } else {
        // Restart compression
        restarts := restarts + [|buffer|];
        counter := 0;
      }
      DescribesGrown(before, restartInterval, start, points, count, last, key, value, shared);
      EncodedSize(shared, key, value);
      layout := Grown(before, key, value, shared, starts);
      var nonShared := |key| - shared;
      // Add string delta to the buffer followed by value
      buffer := buffer + (Varint(shared) + Varint(nonShared) + Varint(|value|) + key[shared..] + value);
      lastKey := lastKey[..shared] + key[shared..];
      counter := counter + 1;
    }

    method Empty() returns (empty: bool)
      requires Valid()
      ensures empty <==> layout.entries == []
    {
      hide RestartOffsets, EncodeEntry;
      if layout.entries != [] {
        DataPrefix(layout, 0, |layout.entries|);
      }
      return |buffer| == 0;
    }

    /** Append the restart array and its length. */
    method Finish() returns (block: Bytes)
      requires Valid()
      ensures LayoutOk(layout) && block == BlockOf(layout) && |block| == CurrentSizeEstimate()
    {
      hide LayoutOk, Data, RestartOffsets;
      block := buffer;
      for i := 0 to |restarts|
        invariant block == buffer + FixedArray(restarts[..i])
      {
        assert restarts[..i + 1][..i] == restarts[..i];
        block := block + Fixed(restarts[i], 4);
      }
      assert restarts[..|restarts|] == restarts;
      assert |restarts| == |layout.restarts| by { OffsetsLengthHere(); }
      block := block + Fixed(|restarts|, 4);
    }

    lemma OffsetsLengthHere()
      requires Valid()
      ensures |restarts| == |layout.restarts|
    {
      OffsetsLength(layout);
    }
  }

  lemma EncodedSize(shared: nat, key: Bytes, value: Bytes)
    requires shared <= |key| < U32 && |value| < U32
    ensures EncodeEntry(shared, key, value) == Varint(shared) + Varint(|key| - shared) + Varint(|value|) + key[shared..] + value
    ensures |EncodeEntry(shared, key, value)| <= 15 + |key| + |value|
  {
    hide Varint;
    VarintLengths(shared);
    VarintLengths(|key| - shared);
    VarintLengths(|value|);
  }

  /** One more entry, at a new restart point or sharing a prefix of the last key. */
  ghost function Grown(l: Layout, key: Bytes, value: Bytes, shared: nat, starts: bool): Layout {
    Layout(l.entries + [(key, value)], l.shared + [shared], if starts then l.restarts + [|l.entries|] else l.restarts)
  }

  lemma GrownParts(l: Layout, key: Bytes, value: Bytes, shared: nat, starts: bool)
    requires LayoutOk(l)
    ensures var l' := Grown(l, key, value, shared, starts);
            && l'.entries == l.entries + [(key, value)] && l'.restarts == (if starts then l.restarts + [|l.entries|] else l.restarts)
            && |l'.shared| == |l.shared| + 1 == |l.entries| + 1 && l.shared <= l'.shared && l'.shared[|l.shared|] == shared
  {
    hide Data;
  }

  /** The fields after one more entry. */
  lemma DescribesGrown(l: Layout, restartInterval: nat, buffer: Bytes, restarts: seq<nat>, counter: nat, lastKey: Bytes,
                       key: Bytes, value: Bytes, shared: nat)
    requires Describes(l, restartInterval, buffer, restarts, counter, lastKey) && |buffer| + 4 * |restarts| + 4 + |key| + |value| + 19 < U32
    requires if counter < restartInterval then SharesExactly(lastKey, key, shared) else shared == 0
    ensures shared <= |key| && shared <= |lastKey|
    ensures var starts := counter >= restartInterval;
            var l' := Grown(l, key, value, shared, starts);
            && Describes(l', restartInterval, buffer + EncodeEntry(shared, key, value), if starts then restarts + [|buffer|] else restarts,
                         if starts then 1 else counter + 1, lastKey[..shared] + key[shared..])
            && l'.entries == l.entries + [(key, value)] && l'.restarts == (if starts then l.restarts + [|l.entries|] else l.restarts)
            && |l'.shared| == |l.shared| + 1 && l.shared <= l'.shared && l'.shared[|l.shared|] == shared
  {
    hide LayoutOk, EncodeEntry, Data, RestartOffsets, SharedOk, RestartsOk, SharesExactly, Grown, Varint;
    var starts := counter >= restartInterval;
    if !starts {
      SharedPart(lastKey, key, shared);
    }
    LastRestart(l);
    DescribedSize(l, restartInterval, buffer, restarts, counter, lastKey);
    LayoutGrows(l, key, value, shared, starts);
    GrownParts(l, key, value, shared, starts);
    LastRestart(Grown(l, key, value, shared, starts));
    KeyRebuilt(lastKey, key, shared);
  }

  lemma DescribedSize(l: Layout, restartInterval: nat, buffer: Bytes, restarts: seq<nat>, counter: nat, lastKey: Bytes)
    requires Describes(l, restartInterval, buffer, restarts, counter, lastKey)
    ensures |restarts| == |l.restarts| && (l.entries == [] ==> counter < restartInterval)
  {
    hide Data, RestartOffsets;
    OffsetsLength(l);
  }

  lemma LastRestart(l: Layout)
    requires LayoutOk(l)
    ensures l.restarts != [] && l.restarts[|l.restarts| - 1] <= |l.entries|
  {
    hide Data;
  }

  lemma GrownOk(l: Layout, key: Bytes, value: Bytes, shared: nat, starts: bool, l': Layout)
    requires SharedOk(l) && RestartsOk(l) && shared <= |key| < U32 && |value| < U32
    requires l.entries != [] ==> shared <= |l.entries[|l.entries| - 1].0| && key[..shared] == l.entries[|l.entries| - 1].0[..shared]
    requires l.entries == [] || starts ==> shared == 0
    requires starts ==> l.entries != []
    requires l' == Grown(l, key, value, shared, starts)
    ensures SharedOk(l') && RestartsOk(l') && |l'.entries| == |l.entries| + 1 == |l.shared| + 1
    ensures l.entries <= l'.entries && l.shared <= l'.shared && l'.shared[|l.entries|] == shared && l'.entries[|l.entries|] == (key, value)
  {
    hide RestartsOk;
    SharedGrows(l, key, value, shared, l');
    RestartsGrow(l, l', starts);
  }

  /** What its bytes become. */
  lemma LayoutGrows(l: Layout, key: Bytes, value: Bytes, shared: nat, starts: bool)
    requires LayoutOk(l) && shared <= |key| < U32 && |value| < U32
    requires |Data(l, |l.entries|)| + 4 * |l.restarts| + 4 + |key| + |value| + 19 < U32
    requires l.entries != [] ==> shared <= |l.entries[|l.entries| - 1].0| && key[..shared] == l.entries[|l.entries| - 1].0[..shared]
    requires l.entries == [] || starts ==> shared == 0
    requires starts ==> l.entries != []
    ensures var l' := Grown(l, key, value, shared, starts);
            && LayoutOk(l')
            && Data(l', |l'.entries|) == Data(l, |l.entries|) + EncodeEntry(shared, key, value)
            && RestartOffsets(l') == if starts then RestartOffsets(l) + [|Data(l, |l.entries|)|] else RestartOffsets(l)
  {
    hide EncodeEntry, SharedOk, RestartsOk, Data, RestartOffsets;
    var n := |l.entries|;
    var l' := Grown(l, key, value, shared, starts);
    EncodedSize(shared, key, value);
    GrownOk(l, key, value, shared, starts, l');
    SamePart(l, l', n);
    DataStep(l', n + 1);
    OffsetsGrow(l, l', starts);
  }

  lemma OffsetsGrow(l: Layout, l': Layout, starts: bool)
    requires SharedOk(l) && RestartsOk(l) && SharedOk(l') && RestartsOk(l')
    requires l.entries <= l'.entries && l.shared <= l'.shared
    requires l'.restarts == if starts then l.restarts + [|l.entries|] else l.restarts
    ensures RestartOffsets(l') == if starts then RestartOffsets(l) + [|Data(l, |l.entries|)|] else RestartOffsets(l)
  {
    hide SharedOk, RestartsOk, Data, RestartOffsets;
    OffsetsLength(l);
    OffsetsLength(l');
    forall j | 0 <= j < |l.restarts|
      ensures RestartOffsets(l')[j] == RestartOffsets(l)[j]
    {
      RestartAt(l, j);
      RestartAt(l', j);
      SamePart(l, l', l.restarts[j]);
    }
    if starts {
      RestartAt(l', |l.restarts|);
      SamePart(l, l', |l.entries|);
    }
  }

  lemma OffsetsLength(l: Layout)
    requires SharedOk(l) && RestartsOk(l)
    ensures |RestartOffsets(l)| == |l.restarts|
  {
  }

  lemma DataStep(l: Layout, n: nat)
    requires SharedOk(l) && 0 < n <= |l.entries|
    ensures l.shared[n - 1] <= |l.entries[n - 1].0|
    ensures Data(l, n) == Data(l, n - 1) + EncodeEntry(l.shared[n - 1], l.entries[n - 1].0, l.entries[n - 1].1)
  {
    hide EncodeEntry;
  }

  lemma RestartAt(l: Layout, j: nat)
    requires SharedOk(l) && RestartsOk(l) && j < |l.restarts|
    ensures l.restarts[j] <= |l.entries| && RestartOffsets(l)[j] == |Data(l, l.restarts[j])|
  {
    hide Data;
  }

  lemma RestartsGrow(l: Layout, l': Layout, starts: bool)
    requires SharedOk(l) && RestartsOk(l) && SharedOk(l') && |l'.entries| == |l.entries| + 1 && l.shared <= l'.shared
    requires l.entries == [] || starts ==> l'.shared[|l.entries|] == 0
    requires starts ==> l.entries != []
    requires l'.restarts == if starts then l.restarts + [|l.entries|] else l.restarts
    ensures RestartsOk(l')
  {
  }

  lemma SharedGrows(l: Layout, key: Bytes, value: Bytes, shared: nat, l': Layout)
    requires SharedOk(l) && shared <= |key| < U32 && |value| < U32
    requires l.entries != [] ==> shared <= |l.entries[|l.entries| - 1].0| && key[..shared] == l.entries[|l.entries| - 1].0[..shared]
    requires l'.entries == l.entries + [(key, value)] && l'.shared == l.shared + [shared]
    ensures SharedOk(l')
  {
    var n := |l.entries|;
    assert n > 0 ==> SharesPrefix(l.entries[n - 1].0, key, shared);
    hide SharesPrefix;
    forall i | 0 < i <= n
      ensures SharesPrefix(l'.entries[i - 1].0, l'.entries[i].0, l'.shared[i])
    {
      assert l'.entries[i - 1] == l.entries[i - 1];
      assert i < n ==> l'.entries[i] == l.entries[i] && l'.shared[i] == l.shared[i];
    }
  }

  lemma SamePart(l: Layout, l': Layout, n: nat)
    requires SharedOk(l) && SharedOk(l') && n <= |l.entries|
    requires l.entries <= l'.entries && l.shared <= l'.shared
    ensures Data(l, n) == Data(l', n)
  {
    assert l.entries[..n] == l'.entries[..n] && l.shared[..n] == l'.shared[..n];
    DataSame(l, l', n);
  }

  // Reading

  /** The place of a fixed value in an array of them. */
  lemma {:induction false} FixedArrayAt(values: seq<nat>, i: nat)
    requires i < |values| && values[i] < U32
    ensures DecodeFixed(FixedArray(values)[4 * i..4 * i + 4]) == values[i]
  {
    var n := |values| - 1;
    if i == n {
      assert FixedArray(values)[4 * i..4 * i + 4] == Fixed(values[n], 4);
      Widths();
      FixedRoundTrip(values[n], 4);
    } else {
      FixedArrayAt(values[..n], i);
      assert FixedArray(values)[4 * i..4 * i + 4] == FixedArray(values[..n])[4 * i..4 * i + 4];
    }
  }

  datatype Decoded = Decoded(shared: nat, nonShared: nat, valueLength: nat, p: nat)

  /** DecodeEntry: the three lengths, and where the key delta starts. */
  function DecodeEntry(data: Bytes, p: nat, limit: nat): (r: Option<Decoded>)
    requires p <= limit <= |data|
    ensures r.Some? ==> p < r.value.p && r.value.p + r.value.nonShared + r.value.valueLength <= limit
  {
    if limit - p < 3 then None
    else if data[p] < 128 && data[p + 1] < 128 && data[p + 2] < 128 then
      // Fast path: all three values are encoded in one byte each
      if limit - (p + 3) < data[p + 1] as int + data[p + 2] as int then None else Some(Decoded(data[p], data[p + 1], data[p + 2], p + 3))
    else
      var shared := GetVarint(data[p..limit], 5, U32);
      if shared.None? then None else
        var p1 := p + shared.value.1;
        var nonShared := GetVarint(data[p1..limit], 5, U32);
        if nonShared.None? then None else
          var p2 := p1 + nonShared.value.1;
          var valueLength := GetVarint(data[p2..limit], 5, U32);
          if valueLength.None? then None else
            var p3 := p2 + valueLength.value.1;
            if limit - p3 < nonShared.value.0 + valueLength.value.0 then None
            else Some(Decoded(shared.value.0, nonShared.value.0, valueLength.value.0, p3))
  }

  lemma VarintFirst(v: nat)
    ensures Varint(v)[0] < 128 <==> v < 128
    ensures v < 128 ==> Varint(v) == [v]
  {
  }

  lemma DropAfter(data: Bytes, p: nat, limit: nat, a: Bytes, rest: Bytes)
    requires p <= limit <= |data| && data[p..limit] == a + rest
    ensures p + |a| <= limit && data[p..p + |a|] == a && data[p + |a|..limit] == rest
  {
    assert data[p..p + |a|] == data[p..limit][..|a|];
    assert data[p + |a|..limit] == data[p..limit][|a|..];
  }

  lemma LengthReads(data: Bytes, p: nat, limit: nat, v: nat, rest: Bytes)
    requires v < U32 && p <= limit <= |data| && data[p..limit] == Varint(v) + rest
    ensures GetVarint(data[p..limit], 5, U32) == Some((v, |Varint(v)|))
    ensures p + |Varint(v)| <= limit && data[p + |Varint(v)|..limit] == rest
  {
    hide Varint, GetVarint;
    DropAfter(data, p, limit, Varint(v), rest);
    GetVarintRoundTrip(v, rest);
  }

  /** The three lengths are decoded again, on the fast path or byte by byte. */
  lemma HeaderDecodes(data: Bytes, p: nat, limit: nat, x: nat, y: nat, z: nat, rest: Bytes)
    requires x < U32 && y < U32 && z < U32
    requires p <= limit <= |data| && data[p..limit] == Varint(x) + (Varint(y) + (Varint(z) + rest)) && y + z <= |rest|
    ensures DecodeEntry(data, p, limit) == Some(Decoded(x, y, z, p + |Varint(x)| + |Varint(y)| + |Varint(z)|))
  {
    hide Varint, GetVarint, DecodeEntry;
    var a, b, c := Varint(x), Varint(y), Varint(z);
    LengthReads(data, p, limit, x, b + (c + rest));
    LengthReads(data, p + |a|, limit, y, c + rest);
    LengthReads(data, p + |a| + |b|, limit, z, rest);
    FirstBytes(data, p, limit, x, y, z, rest);
    LengthsDecode(data, p, limit, x, y, z, |a|, |b|, |c|);
  }

  /** The two paths agree on lengths of one byte. */
  lemma LengthsDecode(data: Bytes, p: nat, limit: nat, x: nat, y: nat, z: nat, a: nat, b: nat, c: nat)
    requires p + 3 <= limit <= |data| && 0 < a && 0 < b && 0 < c && p + a + b + c + y + z <= limit
    requires data[p] < 128 <==> x < 128
    requires x < 128 ==> a == 1 && data[p] == x && (data[p + 1] < 128 <==> y < 128)
    requires x < 128 && y < 128 ==> b == 1 && data[p + 1] == y && (data[p + 2] < 128 <==> z < 128)
    requires x < 128 && y < 128 && z < 128 ==> c == 1 && data[p + 2] == z
    requires GetVarint(data[p..limit], 5, U32) == Some((x, a))
    requires GetVarint(data[p + a..limit], 5, U32) == Some((y, b))
    requires GetVarint(data[p + a + b..limit], 5, U32) == Some((z, c))
    ensures DecodeEntry(data, p, limit) == Some(Decoded(x, y, z, p + a + b + c))
  {
    hide GetVarint;
  }

  /** The fast path is taken exactly when all three lengths take one byte each. */
  lemma FirstBytes(data: Bytes, p: nat, limit: nat, x: nat, y: nat, z: nat, rest: Bytes)
    requires p <= limit <= |data| && data[p..limit] == Varint(x) + (Varint(y) + (Varint(z) + rest))
    ensures p + 3 <= limit
    ensures data[p] < 128 <==> x < 128
    ensures x < 128 ==> |Varint(x)| == 1 && data[p] == x && (data[p + 1] < 128 <==> y < 128)
    ensures x < 128 && y < 128 ==> |Varint(y)| == 1 && data[p + 1] == y && (data[p + 2] < 128 <==> z < 128)
    ensures x < 128 && y < 128 && z < 128 ==> |Varint(z)| == 1 && data[p + 2] == z
  {
    hide Varint;
    VarintFirst(x);
    VarintFirst(y);
    VarintFirst(z);
    var s := data[p..limit];
    assert s[0] == data[p] && s[1] == data[p + 1] && s[2] == data[p + 2];
  }

  lemma EntryParts(shared: nat, key: Bytes, value: Bytes, tail: Bytes)
    requires shared <= |key|
    ensures var a, b, c := Varint(shared), Varint(|key| - shared), Varint(|value|);
            && EncodeEntry(shared, key, value) + tail == a + (b + (c + (key[shared..] + (value + tail))))
                                                      == a + b + c + (key[shared..] + (value + tail))
            && |EncodeEntry(shared, key, value)| == |a| + |b| + |c| + (|key| - shared) + |value|
  {
    hide Varint;
  }

  /** An encoded entry is decoded again: its lengths, the rest of its key and its value. */
  lemma EntryDecodes(data: Bytes, p: nat, limit: nat, shared: nat, key: Bytes, value: Bytes)
    requires shared <= |key| < U32 && |value| < U32
    requires var e := EncodeEntry(shared, key, value); p + |e| <= limit <= |data| && data[p..p + |e|] == e
    ensures var e := EncodeEntry(shared, key, value);
            var q := p + |e| - |value| - (|key| - shared);
            && p <= q && DecodeEntry(data, p, limit) == Some(Decoded(shared, |key| - shared, |value|, q))
            && data[q..q + (|key| - shared)] == key[shared..] && data[q + (|key| - shared)..p + |e|] == value
  {
    hide Varint, DecodeEntry, EncodeEntry;
    var a, b, c := Varint(shared), Varint(|key| - shared), Varint(|value|);
    var d, e := key[shared..], EncodeEntry(shared, key, value);
    var tail := data[p + |e|..limit];
    assert data[p..limit] == data[p..p + |e|] + tail;
    EntryParts(shared, key, value, tail);
    DropAfter(data, p, limit, a + b + c, d + (value + tail));
    DropAfter(data, p + |a + b + c|, limit, d, value + tail);
    DropAfter(data, p + |a + b + c| + |d|, limit, value, tail);
    HeaderDecodes(data, p, limit, shared, |key| - shared, |value|, d + (value + tail));
  }

  /** The bytes of entry `i` stand in the block at its offset. */
  lemma EntryInBlock(l: Layout, i: nat)
    requires LayoutOk(l) && i < |l.entries|
    ensures l.shared[i] <= |l.entries[i].0| < U32 && |l.entries[i].1| < U32
    ensures var e := EncodeEntry(l.shared[i], l.entries[i].0, l.entries[i].1);
            && Offset(l, i + 1) == Offset(l, i) + |e| <= Offset(l, |l.entries|) <= |BlockOf(l)|
            && BlockOf(l)[Offset(l, i)..Offset(l, i + 1)] == e
  {
    hide EncodeEntry, Data, RestartOffsets, RestartsOk;
    DataStep(l, i + 1);
    DataPrefix(l, i + 1, |l.entries|);
    var e := EncodeEntry(l.shared[i], l.entries[i].0, l.entries[i].1);
    assert BlockOf(l)[..Offset(l, i + 1)] == Data(l, i + 1);
    assert BlockOf(l)[Offset(l, i)..Offset(l, i + 1)] == BlockOf(l)[..Offset(l, i + 1)][Offset(l, i)..];
  }

  lemma OffsetsAscend(l: Layout, i: nat, j: nat)
    requires SharedOk(l) && i <= |l.entries| && j <= |l.entries|
    ensures i < j <==> Offset(l, i) < Offset(l, j)
  {
    hide Data, SharedOk;
    if i < j {
      DataPrefix(l, i, j);
    } else if j < i {
      DataPrefix(l, j, i);
    }
  }

  /** The restart array of a block, read back. */
  lemma RestartInBlock(l: Layout, j: nat)
    requires LayoutOk(l) && j < |l.restarts|
    ensures l.restarts[j] <= |l.entries|
    ensures var r := Offset(l, |l.entries|) + 4 * j;
            r + 4 <= |BlockOf(l)| && DecodeFixed(BlockOf(l)[r..r + 4]) == Offset(l, l.restarts[j])
  {
    hide Data, FixedArray, SharedOk;
    var offsets := RestartOffsets(l);
    OffsetsLength(l);
    RestartAt(l, j);
    DataPrefix(l, l.restarts[j], |l.entries|);
    FixedArrayAt(offsets, j);
    var r := Offset(l, |l.entries|);
    assert BlockOf(l)[r..r + 4 * |offsets|] == FixedArray(offsets);
    assert BlockOf(l)[r + 4 * j..r + 4 * j + 4] == FixedArray(offsets)[4 * j..4 * j + 4];
  }

  /** The trailer says how many restarts there are. */
  lemma TrailerInBlock(l: Layout)
    requires LayoutOk(l)
    ensures var b := BlockOf(l);
            && |b| == Offset(l, |l.entries|) + 4 * |l.restarts| + 4
            && DecodeFixed(b[|b| - 4..]) == |l.restarts| > 0
  {
    hide Data, FixedArray, SharedOk, RestartOffsets;
    OffsetsLength(l);
    var b := BlockOf(l);
    assert b[|b| - 4..] == Fixed(|l.restarts|, 4);
    Widths();
    FixedRoundTrip(|l.restarts|, 4);
  }

  ghost predicate Increasing(entries: seq<(Bytes, Bytes)>, rank: Bytes -> real) {
    forall i, j :: 0 <= i < j < |entries| ==> rank(entries[i].0) < rank(entries[j].0)
  }

  class Iter {
    const rank: Bytes -> real
    const data: Bytes
    /** Offset of the restart array. */
    const restarts: nat
    const numRestarts: nat
    ghost const layout: Layout
    var current: nat
    var restartIndex: nat
    var key: Bytes
    /** value_: a slice of the block; the next entry starts where it ends. */
    var valueStart: nat
    var valueEnd: nat
    /** Which entry the iterator stands on; past the last one when it is not valid. */
    ghost var at: nat

    ghost predicate Shape() {
      && LayoutOk(layout) && data == BlockOf(layout) && Increasing(layout.entries, rank)
      && restarts == Offset(layout, |layout.entries|) && numRestarts == |layout.restarts|
    }

    /** The next entry to parse is `j`, and the key so far holds what it shares. */
    ghost predicate Ready(j: nat)
      requires Shape()
      reads this
    {
      && j <= |layout.entries| && valueEnd == Offset(layout, j)
      && restartIndex < numRestarts && layout.restarts[restartIndex] <= j
      && (j < |layout.entries| ==> layout.shared[j] <= |key| && key[..layout.shared[j]] == layout.entries[j].0[..layout.shared[j]])
    }

    /** restart_index_ may lag behind: the restart point after it lies at or behind the current entry. */
    ghost predicate Ok()
      reads this
    {
      && Shape() && at <= |layout.entries|
      && (at == |layout.entries| ==> current == restarts && restartIndex == numRestarts)
      && (at < |layout.entries| ==>
            && current == Offset(layout, at) && key == layout.entries[at].0
            && valueStart <= valueEnd == Offset(layout, at + 1) <= |data| && data[valueStart..valueEnd] == layout.entries[at].1
            && restartIndex < numRestarts && layout.restarts[restartIndex] <= at
            && (restartIndex + 1 < numRestarts ==> at <= layout.restarts[restartIndex + 1]))
    }

    constructor (data: Bytes, rank: Bytes -> real, ghost layout: Layout)
      requires LayoutOk(layout) && data == BlockOf(layout) && Increasing(layout.entries, rank)
      ensures Ok() && at == |layout.entries| && this.layout == layout && this.data == data && this.rank == rank
    {
      TrailerInBlock(layout);
      var count := DecodeFixed(data[|data| - 4..]);
      this.rank, this.data, this.layout := rank, data, layout;
      numRestarts := count;
      restarts := |data| - (1 + count) * 4;
      current := |data| - (1 + count) * 4;
      restartIndex := count;
      key, valueStart, valueEnd := [], 0, 0;
      at := |layout.entries|;
    }

    predicate Valid()
      reads this
    {
      current < restarts
    }

    /** What a user sees: the entry that the iterator stands on. */
    lemma Here()
      requires Ok()
      ensures at <= |layout.entries| && (Valid() <==> at < |layout.entries|)
      ensures Valid() ==> valueStart <= valueEnd <= |data| && (key, data[valueStart..valueEnd]) == layout.entries[at]
    {
      hide Data, BlockOf, Increasing, SharedOk, RestartsOk;
      OffsetsAscend(layout, at, |layout.entries|);
    }

    method GetRestartPoint(index: nat) returns (offset: nat)
      requires Shape() && index < numRestarts
      ensures layout.restarts[index] <= |layout.entries| && offset == Offset(layout, layout.restarts[index])
    {
      hide LayoutOk, Data, DecodeFixed, BlockOf;
      LayoutShared(layout);
      RestartInBlock(layout, index);
      return DecodeFixed(data[restarts + 4 * index..restarts + 4 * index + 4]);
    }

    method SeekToRestartPoint(index: nat)
      requires Shape() && index < numRestarts
      modifies this
      ensures Ready(layout.restarts[index])
    {
      hide Data, BlockOf;
      var offset := GetRestartPoint(index);
      key := [];
      restartIndex := index;
      valueStart, valueEnd := offset, offset;
    }

    /** What the bytes at entry `j` say. */
    lemma EntryHere(j: nat)
      requires Shape() && j < |layout.entries|
      ensures Offset(layout, j) < restarts <= |data|
      ensures var e := layout.entries[j];
              var d := DecodeEntry(data, Offset(layout, j), restarts);
              && d.Some? && d.value.shared == layout.shared[j] <= |e.0| && d.value.nonShared == |e.0| - layout.shared[j] && d.value.valueLength == |e.1|
              && data[d.value.p..d.value.p + d.value.nonShared] == e.0[layout.shared[j]..]
              && d.value.p + d.value.nonShared + |e.1| == Offset(layout, j + 1) <= |data|
              && data[d.value.p + d.value.nonShared..Offset(layout, j + 1)] == e.1
    {
      hide EncodeEntry, DecodeEntry, BlockOf, Data;
      LayoutShared(layout);
      EntryInBlock(layout, j);
      OffsetsAscend(layout, j, |layout.entries|);
      EntryDecodes(data, Offset(layout, j), restarts, layout.shared[j], layout.entries[j].0, layout.entries[j].1);
    }

    /** ParseNextKey: entry `j` if there is one, else past the end. */
    method ParseNextKey(ghost j: nat) returns (ok: bool)
      requires Shape() && Ready(j)
      modifies this
      ensures Ok() && at == j && (ok <==> j < |layout.entries|)
    {
      hide LayoutOk, Data, DecodeEntry, BlockOf, Increasing, SharedOk, RestartsOk;
      LayoutShared(layout);
      current := valueEnd;
      OffsetsAscend(layout, j, |layout.entries|);
      at := j;
      if current >= restarts {
        // No more entries to return.
        current := restarts;
        restartIndex := numRestarts;
        return false;
      }
      // Decode next entry
      KeyHere(j);
      var d := DecodeEntry(data, current, restarts).value;
      key := key[..d.shared] + data[d.p..d.p + d.nonShared];
      valueStart, valueEnd := d.p + d.nonShared, d.p + d.nonShared + d.valueLength;
      AdvanceRestart();
      return true;
    }

    /** The shared part of the key and the bytes at entry `j` make up its key. */
    lemma KeyHere(j: nat)
      requires Shape() && Ready(j) && j < |layout.entries|
      ensures SharedOk(layout) && Offset(layout, j) < restarts <= |data|
      ensures var e := layout.entries[j];
              var d := DecodeEntry(data, Offset(layout, j), restarts);
              && d.Some? && d.value.shared <= |key|
              && key[..d.value.shared] + data[d.value.p..d.value.p + d.value.nonShared] == e.0
              && d.value.p + d.value.nonShared + d.value.valueLength == Offset(layout, j + 1) <= |data|
              && data[d.value.p + d.value.nonShared..Offset(layout, j + 1)] == e.1
    {
      hide Data, DecodeEntry, BlockOf, Increasing, RestartsOk;
      EntryHere(j);
      var e := layout.entries[j];
      assert e.0[..layout.shared[j]] + e.0[layout.shared[j]..] == e.0;
    }

    /** The loop at the end of ParseNextKey: up to the last restart point before the entry. */
    method AdvanceRestart()
      requires Shape() && at < |layout.entries| && current == Offset(layout, at)
      requires restartIndex < numRestarts && layout.restarts[restartIndex] <= at
      modifies `restartIndex
      ensures restartIndex < numRestarts && layout.restarts[restartIndex] <= at
      ensures restartIndex + 1 < numRestarts ==> at <= layout.restarts[restartIndex + 1]
    {
      hide LayoutOk, Data, BlockOf, Increasing, SharedOk, RestartsOk;
      LayoutShared(layout);
      while restartIndex + 1 < numRestarts
        invariant restartIndex < numRestarts && layout.restarts[restartIndex] <= at
        decreases numRestarts - restartIndex
      {
        var next := GetRestartPoint(restartIndex + 1);
        OffsetsAscend(layout, layout.restarts[restartIndex + 1], at);
        if next >= current {
          return;
        }
        restartIndex := restartIndex + 1;
      }
    }

    method Next()
      requires Ok() && at < |layout.entries|
      modifies this
      ensures Ok() && at == old(at) + 1
    {
      hide LayoutOk, Data, BlockOf, Increasing, SharedOk, RestartsOk;
      NextReady();
      var ok := ParseNextKey(at + 1);
    }

    /** After an entry, the next one is ready to be parsed. */
    lemma NextReady()
      requires Ok() && at < |layout.entries|
      ensures SharedOk(layout) && RestartsOk(layout) && Ready(at + 1)
    {
      hide Data, BlockOf, Increasing;
    }

    method SeekToFirst()
      requires Ok()
      modifies this
      ensures Ok() && at == 0
    {
      hide LayoutOk, Data, BlockOf, Increasing;
      LayoutShared(layout);
      SeekToRestartPoint(0);
      var ok := ParseNextKey(0);
    }

    lemma LastRestart()
      requires Ok()
      ensures Shape() && SharedOk(layout) && RestartsOk(layout) && 0 < numRestarts == |layout.restarts|
      ensures layout.restarts[numRestarts - 1] <= |layout.entries| && (layout.entries != [] ==> layout.restarts[numRestarts - 1] < |layout.entries|)
      ensures at < |layout.entries| ==> valueEnd == Offset(layout, at + 1)
      ensures restarts == Offset(layout, |layout.entries|) && at <= |layout.entries|
    {
      hide Data, BlockOf, Increasing;
    }

    method SeekToLast()
      requires Ok()
      modifies this
      ensures Ok() && at == if layout.entries == [] then 0 else |layout.entries| - 1
    {
      hide LayoutOk, Data, BlockOf, Increasing, SharedOk, RestartsOk, Ready, Ok;
      LastRestart();
      SeekToRestartPoint(numRestarts - 1);
      ghost var j := layout.restarts[numRestarts - 1];
      var ok := ParseNextKey(j);
      while ok && valueEnd < restarts
        invariant Ok() && (ok <==> at < |layout.entries|)
        invariant layout.entries == [] ==> at == 0
        invariant layout.entries != [] ==> ok
        decreases |layout.entries| - at
      {
        // Keep skipping
        LastRestart();
        NextReady();
        OffsetsAscend(layout, at + 1, |layout.entries|);
        ok := ParseNextKey(at + 1);
      }
      LastRestart();
      if ok {
        OffsetsAscend(layout, at + 1, |layout.entries|);
      }
    }

    method Prev()
      requires Ok() && at < |layout.entries|
      modifies this
      ensures Ok() && at == if old(at) == 0 then |layout.entries| else old(at) - 1
    {
      hide LayoutOk, Data, BlockOf, Increasing, SharedOk, RestartsOk, Ready;
      LayoutShared(layout);
      // Scan backwards to a restart point before current_
      var original := current;
      ghost var o := at;
      var found := RestartBefore();
      if !found {
        // No more entries
        current := restarts;
        restartIndex := numRestarts;
        at := |layout.entries|;
        return;
      }
      ScanTo(original, o);
    }

    /** From the restart point, until the end of the current entry hits the start of the original entry. */
    method ScanTo(original: nat, ghost o: nat)
      requires Shape() && SharedOk(layout) && o < |layout.entries| && original == Offset(layout, o)
      requires restartIndex < numRestarts && layout.restarts[restartIndex] < o
      modifies this
      ensures Ok() && at == o - 1
    {
      hide LayoutOk, Data, BlockOf, Increasing, SharedOk, RestartsOk, Ready;
      ghost var j := layout.restarts[restartIndex];
      SeekToRestartPoint(restartIndex);
      var ok := ParseNextKey(j);
      while ok && valueEnd < original
        invariant Ok() && ok && at < o < |layout.entries| && original == Offset(layout, o)
        decreases o - at
      {
        NextReady();
        OffsetsAscend(layout, at + 1, o);
        ok := ParseNextKey(at + 1);
      }
      OffsetsAscend(layout, at + 1, o);
    }

    method RestartBefore() returns (found: bool)
      requires Ok() && at < |layout.entries|
      modifies `restartIndex
      ensures found ==> restartIndex < numRestarts && layout.restarts[restartIndex] < at
      ensures !found ==> at == 0
    {
      hide LayoutOk, Data, BlockOf, Increasing;
      LayoutShared(layout);
      while true
        invariant restartIndex < numRestarts
        decreases restartIndex
      {
        var point := GetRestartPoint(restartIndex);
        OffsetsAscend(layout, layout.restarts[restartIndex], at);
        if point < current {
          return true;
        }
        if restartIndex == 0 {
          return false;
        }
        restartIndex := restartIndex - 1;
      }
    }

    /** The first key at or after the target. */
    method Seek(target: Bytes)
      requires Ok()
      modifies this
      ensures Ok()
      ensures forall i :: 0 <= i < at ==> rank(layout.entries[i].0) < rank(target)
      ensures at < |layout.entries| ==> rank(target) <= rank(layout.entries[at].0)
    {
      hide LayoutOk, Data, BlockOf, SharedOk, RestartsOk, Ready, Shape, Ok;
      ShapeParts();
      var left := FindRestart(target);
      // Linear search (within restart block) for first key >= target
      SeekToRestartPoint(left);
      ghost var j := layout.restarts[left];
      while true
        invariant Shape() && j <= |layout.entries| && Ready(j)
        invariant forall i :: 0 <= i < j ==> rank(layout.entries[i].0) < rank(target)
        decreases |layout.entries| - j
      {
        var ok := ParseNextKey(j);
        if !ok {
          return;
        }
        NextReady();
        KeyAt();
        if rank(key) >= rank(target) {
          return;
        }
        j := j + 1;
      }
    }

    lemma ShapeParts()
      requires Ok()
      ensures Shape() && numRestarts == |layout.restarts|
    {
      hide LayoutOk, Data, BlockOf, Increasing;
    }

    lemma KeyAt()
      requires Ok() && at < |layout.entries|
      ensures key == layout.entries[at].0
    {
      hide Shape;
    }

    /** Binary search in the restart array for the last restart point with a key < target. */
    method FindRestart(target: Bytes) returns (left: nat)
      requires Shape()
      ensures left < numRestarts && layout.restarts[left] <= |layout.entries|
      ensures forall i :: 0 <= i < layout.restarts[left] ==> rank(layout.entries[i].0) < rank(target)
    {
      hide LayoutOk, Data, BlockOf, DecodeEntry;
      LayoutShared(layout);
      left := 0;
      var right := numRestarts - 1;
      while left < right
        invariant 0 <= left <= right < numRestarts && layout.restarts[left] <= |layout.entries|
        invariant forall i :: 0 <= i < layout.restarts[left] ==> rank(layout.entries[i].0) < rank(target)
      {
        var mid := (left + right + 1) / 2;
        var regionOffset := GetRestartPoint(mid);
        ghost var m := layout.restarts[mid];
        EntryHere(m);
        var d := DecodeEntry(data, regionOffset, restarts).value;
        var midKey := data[d.p..d.p + d.nonShared];
        assert midKey == layout.entries[m].0;
        if rank(midKey) < rank(target) {
          // Key at "mid" is smaller than "target": all before it are uninteresting.
          left := mid;
        } else {
          right := mid - 1;
        }
      }
    }
  }

  lemma LayoutShared(l: Layout)
    requires LayoutOk(l)
    ensures SharedOk(l) && RestartsOk(l)
  {
  }

  ghost predicate EntriesFit(entries: seq<(Bytes, Bytes)>, room: nat)
  {
    SizeBound(entries) + 32 < room
  }

  /** A bound on the bytes that entries take in a block, its restart array included. */
  ghost function SizeBound(entries: seq<(Bytes, Bytes)>): nat {
    if entries == [] then 0 else
      var last := entries[|entries| - 1];
      SizeBound(entries[..|entries| - 1]) + |last.0| + |last.1| + 19
  }

  lemma {:induction false} SizeBoundGrows(entries: seq<(Bytes, Bytes)>, i: nat)
    requires i < |entries|
    ensures SizeBound(entries[..i + 1]) == SizeBound(entries[..i]) + |entries[i].0| + |entries[i].1| + 19 <= SizeBound(entries)
  {
    assert entries[..i + 1][..i] == entries[..i];
    if i + 1 < |entries| {
      var n := |entries| - 1;
      SizeBoundGrows(entries[..n], i);
      assert entries[..n][..i + 1] == entries[..i + 1] && entries[..n][..i] == entries[..i];
    } else {
      assert entries[..i + 1] == entries;
    }
  }

  lemma RoomForNext(entries: seq<(Bytes, Bytes)>, i: nat)
    requires EntriesFit(entries, U32) && i < |entries|
    ensures SizeBound(entries[..i]) + 8 + |entries[i].0| + |entries[i].1| + 19 < U32
    ensures SizeBound(entries[..i + 1]) == SizeBound(entries[..i]) + |entries[i].0| + |entries[i].1| + 19
  {
    hide SizeBound;
    SizeBoundGrows(entries, i);
  }

  method BuildBlock(entries: seq<(Bytes, Bytes)>, restartInterval: nat) returns (block: Bytes, ghost layout: Layout)
    requires 1 <= restartInterval && EntriesFit(entries, U32)
    ensures LayoutOk(layout) && layout.entries == entries && block == BlockOf(layout)
  {
    hide LayoutOk, Data, BlockOf, RestartOffsets, SharedOk, RestartsOk, BlockBuilder.Valid, BlockBuilder.CurrentSizeEstimate,
         SharesExactly, SizeBound, EntriesFit;
    var builder := new BlockBuilder(restartInterval);
    for i := 0 to |entries|
      invariant builder.Valid() && fresh(builder) && builder.layout.entries == entries[..i]
      invariant builder.CurrentSizeEstimate() <= SizeBound(entries[..i]) + 8
    {
      RoomForNext(entries, i);
      assert entries[..i + 1] == entries[..i] + [entries[i]];
      builder.Add(entries[i].0, entries[i].1);
    }
    assert entries[..|entries|] == entries;
    layout := builder.layout;
    block := builder.Finish();
  }

  /** Build a block of the entries, then read it from the first entry to the last. */
  method ReadBack(entries: seq<(Bytes, Bytes)>, restartInterval: nat, rank: Bytes -> real) returns (out: seq<(Bytes, Bytes)>)
    requires 1 <= restartInterval && Increasing(entries, rank) && EntriesFit(entries, U32)
    ensures out == entries
  {
    hide LayoutOk, Data, BlockOf, Increasing, RestartOffsets, SharedOk, RestartsOk, Iter.Ok;
    var block;
    ghost var layout;
    block, layout := BuildBlock(entries, restartInterval);
    var iter := new Iter(block, rank, layout);
    iter.SeekToFirst();
    out := [];
    iter.Here();
    while iter.Valid()
      invariant iter.Ok() && fresh(iter) && iter.layout == layout
      invariant iter.at <= |entries| && out == entries[..iter.at] && (iter.Valid() <==> iter.at < |entries|)
      decreases |entries| - iter.at
    {
      iter.Here();
      out := out + [(iter.key, iter.data[iter.valueStart..iter.valueEnd])];
      iter.Next();
      iter.Here();
    }
  }
}
