/** The filter block of a table (table/filter_block.cc): one filter of user keys per 2 KB of file, found
    from the offset of a data block. */
module FilterBlock {
  import opened Coding
  import opened KeyOrder
  import Bloom
  import B = Block

  const BASE_LG: nat := 11
  const BASE: nat := 2048

  /** A Bloom filter policy: bits per key, number of probes, and the hash function. */
  datatype Policy = Policy(bitsPerKey: nat, k: nat, hash: Bytes -> nat)

  ghost predicate PolicyOk(p: Policy) {
    1 <= p.k <= 30 && forall key :: p.hash(key) < U32
  }

  function Concat(parts: seq<Bytes>): Bytes {
    if parts == [] then [] else Concat(parts[..|parts| - 1]) + parts[|parts| - 1]
  }

  lemma {:induction false} ConcatPrefix(parts: seq<Bytes>, i: nat)
    requires i < |parts|
    ensures |Concat(parts[..i])| + |parts[i]| == |Concat(parts[..i + 1])| <= |Concat(parts)|
    ensures Concat(parts)[|Concat(parts[..i])|..|Concat(parts[..i + 1])|] == parts[i]
  {
    assert parts[..i + 1][..i] == parts[..i];
    if i + 1 < |parts| {
      var n := |parts| - 1;
      ConcatPrefix(parts[..n], i);
      assert parts[..n][..i] == parts[..i] && parts[..n][..i + 1] == parts[..i + 1];
    } else {
      assert parts[..i + 1] == parts;
    }
  }

  /** Each filter holds the user keys of its group; a group without keys has an empty filter. */
  ghost predicate FiltersOk(p: Policy, filters: seq<Bytes>, groups: seq<seq<Bytes>>)
    requires PolicyOk(p)
  {
    && |filters| == |groups|
    && forall i :: 0 <= i < |groups| ==>
         if groups[i] == [] then filters[i] == [] else Bloom.IsFilter(filters[i], groups[i], p.hash, p.k)
  }

  function Offsets(filters: seq<Bytes>): (r: seq<nat>)
    ensures |r| == |filters| && forall i :: 0 <= i < |r| ==> r[i] == |Concat(filters[..i])|
  {
    seq(|filters|, i requires 0 <= i < |filters| => |Concat(filters[..i])|)
  }

  lemma OffsetsSnoc(filters: seq<Bytes>, f: Bytes)
    ensures Offsets(filters + [f]) == Offsets(filters) + [|Concat(filters)|]
    ensures Concat(filters + [f]) == Concat(filters) + f
  {
    assert (filters + [f])[..|filters|] == filters;
    assert forall i :: 0 <= i < |filters| ==> (filters + [f])[..i] == filters[..i];
  }

  /** The finished block: the filters, their offsets, where the offsets start, and the base. */
  function Image(filters: seq<Bytes>): Bytes {
    Concat(filters) + B.FixedArray(Offsets(filters)) + Fixed(|Concat(filters)|, 4) + [BASE_LG]
  }

  /** What the policy of a table looks at: the user keys of internal keys. */
  ghost function Users(keys: seq<Bytes>): (r: seq<Bytes>)
    requires forall i :: 0 <= i < |keys| ==> |keys[i]| >= 8
    ensures |r| == |keys| && forall i :: 0 <= i < |r| ==> r[i] == UserOf(keys[i])
  {
    seq(|keys|, i requires 0 <= i < |keys| && |keys[i]| >= 8 => UserOf(keys[i]))
  }

  class FilterBlockBuilder {
    const policy: Policy
    /** keys_ and start_: the keys of the current filter, flattened. */
    var keys: Bytes
    var start: seq<nat>
    var result: Bytes
    var filterOffsets: seq<nat>
    ghost var filters: seq<Bytes>
    ghost var groups: seq<seq<Bytes>>
    ghost var pending: seq<Bytes>

    ghost predicate Valid()
      reads this
      ensures Valid() ==> forall i :: 0 <= i < |pending| ==> |pending[i]| >= 8
    {
      && PolicyOk(policy) && FiltersOk(policy, filters, groups)
      && result == Concat(filters) && filterOffsets == Offsets(filters)
      && keys == Concat(pending) && start == Offsets(pending)
      && forall i :: 0 <= i < |pending| ==> |pending[i]| >= 8
    }

    /** How long the block becomes if it is finished now. */
    function FinishedSize(): nat
      reads this
    {
      |result| + 4 * |filterOffsets| + 5 + if start == [] then 0 else 4 + Bloom.FilterSize(|start|, policy.bitsPerKey)
    }

    constructor (policy: Policy)
      requires PolicyOk(policy)
      ensures Valid() && groups == [] && pending == [] && this.policy == policy
    {
      this.policy := policy;
      keys, start, result, filterOffsets, filters, groups, pending := [], [], [], [], [], [], [];
    }

    lemma PolicyIsOk()
      requires Valid()
      ensures PolicyOk(policy)
    {
    }

    method AddKey(key: Bytes)
      requires Valid() && |key| >= 8
      modifies this
      ensures Valid() && pending == old(pending) + [key] && groups == old(groups)
    {
      hide FiltersOk, Offsets, Concat, PolicyOk;
      OffsetsSnoc(pending, key);
      start := start + [|keys|];
      keys := keys + key;
      pending := pending + [key];
    }

    /** Make the list of keys from the flattened structure; the policy looks at user keys only. */
    method TmpKeys() returns (tmp: seq<Bytes>)
      requires Valid()
      ensures tmp == Users(pending)
    {
      hide FiltersOk, PolicyOk;
      tmp := [];
      for i := 0 to |start|
        invariant |tmp| == i && forall j :: 0 <= j < i ==> tmp[j] == UserOf(pending[j])
      {
        var limit := if i + 1 < |start| then start[i + 1] else |keys|;
        ConcatPrefix(pending, i);
        assert i + 1 == |start| ==> pending[..i + 1] == pending;
        var k := keys[start[i]..limit];
        assert k == pending[i];
        tmp := tmp + [k[..|k| - 8]];
      }
    }

    method GenerateFilter()
      requires Valid()
      modifies this
      ensures Valid() && pending == []
      ensures groups == old(groups) + [Users(old(pending))]
      ensures FinishedSize() == old(FinishedSize()) + if old(start) == [] then 4 else 0
    {
      hide Offsets, Concat, PolicyOk, Bloom.IsFilter, FiltersOk;
      assert |start| == |pending| by { PendingLength(); }
      if start == [] {
        // Fast path if there are no keys for this filter
        filterOffsets := filterOffsets + [|result|];
        OffsetsSnoc(filters, []);
        AddFilter(policy, filters, groups, [], []);
        filters, groups := filters + [[]], groups + [[]];
        assert result == Concat(filters);
        return;
      }
      var tmp := TmpKeys();
      // Generate filter for current set of keys and append to result_.
      filterOffsets := filterOffsets + [|result|];
      PolicyParts(policy);
      var filter := Bloom.CreateFilter(tmp, policy.bitsPerKey, policy.k, policy.hash);
      OffsetsSnoc(filters, filter);
      AddFilter(policy, filters, groups, filter, tmp);
      result := result + filter;
      filters, groups := filters + [filter], groups + [tmp];
      NoParts();
      keys, start, pending := [], [], [];
    }

    lemma PendingLength()
      requires Valid()
      ensures |start| == |pending|
    {
      hide FiltersOk, PolicyOk, Concat;
    }

    /** Filters are generated until the current one is that of the block's offset. */
    method StartBlock(blockOffset: nat)
      requires Valid() && |groups| <= blockOffset / BASE
      modifies this
      ensures Valid() && |groups| == blockOffset / BASE
      ensures FinishedSize() <= old(FinishedSize()) + 4 * (blockOffset / BASE)
      ensures if old(|groups|) == blockOffset / BASE then groups == old(groups) && pending == old(pending)
              else pending == [] && old(groups) + [Users(old(pending))] <= groups
    {
      hide Offsets, Concat, PolicyOk, FiltersOk;
      var filterIndex := blockOffset / BASE;
      ghost var base := groups + [Users(pending)];
      GroupsLength();
      while filterIndex > |filterOffsets|
        invariant Valid() && |filterOffsets| == |groups| <= filterIndex
        invariant FinishedSize() <= old(FinishedSize()) + 4 * |filterOffsets|
        invariant if old(|groups|) == |groups| then groups == old(groups) && pending == old(pending)
                  else pending == [] && |base| <= |groups| && groups[..|base|] == base
        decreases filterIndex - |filterOffsets|
      {
        GenerateFilter();
        GroupsLength();
      }
    }

    lemma GroupsLength()
      requires Valid()
      ensures |filterOffsets| == |groups| == |filters|
    {
      hide PolicyOk, Concat;
    }

    /** Finish: the last filter, the offsets, and where they start. */
    method Finish() returns (contents: Bytes)
      requires Valid()
      modifies this
      ensures Valid() && FiltersOk(policy, filters, groups) && contents == Image(filters) && |contents| == old(FinishedSize())
      ensures groups == old(groups) + if old(pending) == [] then [] else [Users(old(pending))]
    {
      hide Offsets, Concat, PolicyOk, FiltersOk, B.FixedArray;
      assert |start| == |pending| by { PendingLength(); }
      if start != [] {
        GenerateFilter();
      }
      contents := AppendOffsets();
    }

    method AppendOffsets() returns (contents: Bytes)
      requires Valid()
      ensures contents == Image(filters)
    {
      hide Offsets, Concat, PolicyOk, FiltersOk, B.FixedArray;
      // Append array of per-filter offsets
      var arrayOffset := |result|;
      contents := result;
      FixedArrayEmpty();
      for i := 0 to |filterOffsets|
        invariant contents == result + B.FixedArray(filterOffsets[..i])
      {
        FixedArraySnoc(filterOffsets, i);
        contents := contents + Fixed(filterOffsets[i], 4);
      }
      assert filterOffsets[..|filterOffsets|] == filterOffsets;
      contents := contents + Fixed(arrayOffset, 4);
      // Save encoding parameter in result
      contents := contents + [BASE_LG];
    }
  }

  lemma FixedArrayEmpty()
    ensures B.FixedArray([]) == []
  {
  }

  lemma FixedArraySnoc(values: seq<nat>, i: nat)
    requires i < |values|
    ensures B.FixedArray(values[..i + 1]) == B.FixedArray(values[..i]) + Fixed(values[i], 4)
  {
    assert values[..i + 1][..i] == values[..i];
  }

  lemma NoParts()
    ensures Concat([]) == [] && Offsets([]) == []
  {
  }

  lemma PolicyParts(p: Policy)
    requires PolicyOk(p)
    ensures 1 <= p.k <= 30 && forall key :: p.hash(key) < U32
  {
  }

  lemma AddFilter(p: Policy, filters: seq<Bytes>, groups: seq<seq<Bytes>>, filter: Bytes, group: seq<Bytes>)
    requires PolicyOk(p) && FiltersOk(p, filters, groups)
    requires if group == [] then filter == [] else Bloom.IsFilter(filter, group, p.hash, p.k)
    ensures FiltersOk(p, filters + [filter], groups + [group])
  {
    hide Bloom.IsFilter;
  }

  /** FilterBlockReader. */
  class FilterBlockReader {
    const policy: Policy
    const data: Bytes
    /** Where the offsets start; they are followed by this very number, which so ends the last filter. */
    const offset: nat
    const num: nat
    const baseLg: nat
    ghost const filters: seq<Bytes>

    ghost predicate Valid() {
      && PolicyOk(policy) && data == Image(filters) && |data| < U32
      && offset == |Concat(filters)| && num == |filters| && baseLg == BASE_LG
    }

    constructor (policy: Policy, contents: Bytes, ghost filters: seq<Bytes>)
      requires PolicyOk(policy) && contents == Image(filters) && |contents| < U32
      ensures Valid() && this.filters == filters && this.policy == policy
    {
      ImageTrailer(filters);
      var n := |contents|;
      var lastWord := DecodeFixed(contents[n - 5..n - 1]);
      this.policy, data, this.filters := policy, contents, filters;
      baseLg := contents[n - 1];
      offset := lastWord;
      num := (n - 5 - lastWord) / 4;
    }

    method KeyMayMatch(blockOffset: nat, key: Bytes) returns (may: bool)
      requires Valid() && |key| >= 8
      // no key of the block's group is missed
      ensures forall groups :: FiltersOk(policy, filters, groups) && blockOffset / BASE < |groups| && UserOf(key) in groups[blockOffset / BASE] ==> may
    {
      hide Bloom.IsFilter, Concat, B.FixedArray, PolicyOk;
      PolicyParts(policy);
      var index := blockOffset / BASE;
      ghost var all := filters;
      if index < num {
        ImageOffsets(filters, index);
        var start := DecodeFixed(data[offset + index * 4..offset + index * 4 + 4]);
        var limit := DecodeFixed(data[offset + index * 4 + 4..offset + index * 4 + 8]);
        var filter := data[start..limit];
        may := Bloom.KeyMayMatch(UserOf(key), filter, policy.hash);
      } else {
        // Errors are treated as potential matches
        may := true;
      }
    }
  }

  lemma ImageParts(filters: seq<Bytes>)
    ensures |Image(filters)| == |Concat(filters)| + 4 * |filters| + 5
    ensures Image(filters)[..|Concat(filters)|] == Concat(filters)
    ensures Image(filters)[|Concat(filters)|..|Concat(filters)| + 4 * |filters|] == B.FixedArray(Offsets(filters))
    ensures Image(filters)[|Concat(filters)| + 4 * |filters|..|Concat(filters)| + 4 * |filters| + 4] == Fixed(|Concat(filters)|, 4)
    ensures Image(filters)[|Image(filters)| - 1] == BASE_LG
  {
    hide Concat, B.FixedArray, Offsets;
    assert |Offsets(filters)| == |filters| by { OffsetsCount(filters); }
  }

  lemma OffsetsCount(filters: seq<Bytes>)
    ensures |Offsets(filters)| == |filters|
  {
  }

  lemma ImageTrailer(filters: seq<Bytes>)
    requires |Image(filters)| < U32
    ensures var c := Image(filters);
            && |c| >= 5 && DecodeFixed(c[|c| - 5..|c| - 1]) == |Concat(filters)| && c[|c| - 1] == BASE_LG
            && (|c| - 5 - |Concat(filters)|) / 4 == |filters|
  {
    hide Concat, B.FixedArray, Offsets, Image;
    ImageParts(filters);
    Widths();
    FixedRoundTrip(|Concat(filters)|, 4);
  }

  /** The words read for a filter and the next one: where it starts and ends. */
  lemma ImageOffsets(filters: seq<Bytes>, i: nat)
    requires |Image(filters)| < U32 && i < |filters|
    ensures var c, p := Image(filters), |Concat(filters)| + i * 4;
            && p + 8 <= |c|
            && var start := DecodeFixed(c[p..p + 4]);
               var limit := DecodeFixed(c[p + 4..p + 8]);
               start <= limit <= |Concat(filters)| && c[start..limit] == filters[i]
  {
    hide Concat, B.FixedArray, Image, DecodeFixed, Offsets;
    var c, offset := Image(filters), |Concat(filters)|;
    ImageParts(filters);
    ConcatPrefix(filters, i);
    OffsetWord(filters, i);
    OffsetWord(filters, i + 1);
    SliceOfSlice(c, 0, offset, |Concat(filters[..i])|, |Concat(filters[..i + 1])|);
    assert c[0..offset] == c[..offset];
  }

  /** Word `i` of the offsets; the one behind the last is where the offsets start. */
  lemma OffsetWord(filters: seq<Bytes>, i: nat)
    requires |Image(filters)| < U32 && i <= |filters|
    ensures var c, p := Image(filters), |Concat(filters)| + i * 4;
            p + 4 <= |c| && DecodeFixed(c[p..p + 4]) == |Concat(filters[..i])|
  {
    hide Concat, B.FixedArray, Image, DecodeFixed;
    var c, offset := Image(filters), |Concat(filters)|;
    ImageParts(filters);
    if i < |filters| {
      ConcatPrefix(filters, i);
      B.FixedArrayAt(Offsets(filters), i);
      SliceOfSlice(c, offset, offset + 4 * |filters|, 4 * i, 4 * i + 4);
    } else {
      assert filters[..i] == filters;
      Widths();
      FixedRoundTrip(offset, 4);
    }
  }

  lemma SliceOfSlice(s: Bytes, p: nat, e: nat, i: nat, j: nat)
    requires p <= e <= |s| && i <= j <= e - p
    ensures s[p..e][i..j] == s[p + i..p + j]
  {
    var t := s[p..e];
    assert forall k :: i <= k < j ==> t[k] == s[p + k];
    assert |t[i..j]| == j - i == |s[p + i..p + j]|;
    assert forall k :: 0 <= k < j - i ==> t[i..j][k] == s[p + i..p + j][k];
  }
}
