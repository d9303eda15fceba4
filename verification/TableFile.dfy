/** Table files as the database reads them: a lookup down to SaveValue (db/table_cache.cc, db/version_set.cc)
    and an iterator over all entries (table/table.cc over table/block.cc). */
module TableFile {
  import opened Wrappers
  import opened Coding
  import opened DbFormat
  import opened KeyOrder
  import opened VersionGet
  import opened Merger
  import opened Table
  import opened TableBuilder
  import Two = TwoLevelIterator
  import B = Block
  import Crc
  import F = FilterBlock
  import Log

  // What the bytes of a table spell

  /** Bytes as a value, one char a byte. */
  function TextOf(bytes: Bytes): (s: Value)
    ensures |s| == |bytes|
  {
    seq(|bytes|, i requires 0 <= i < |bytes| => bytes[i] as char)
  }

  function BytesOf(s: Value): (bytes: Bytes)
    ensures |bytes| == |s|
  {
    seq(|s|, i requires 0 <= i < |s| => s[i] as int % 256)
  }

  lemma BytesBack(bytes: Bytes)
    ensures BytesOf(TextOf(bytes)) == bytes
  {
  }

  /** ParseInternalKey: refused when it is too short or its type is unknown. */
  function Parse(key: Bytes): Option<InternalKey> {
    if |key| < 8 then None else
      var num := TagOf(key);
      if num % 256 > 1 then None
      else Some(InternalKey(BytesRank(UserOf(key)), num / 256, if num % 256 == 1 then TypeValue else TypeDeletion))
  }

  /** Internal keys order as the bytes they are parsed from. */
  lemma ParseOrders(a: Bytes, b: Bytes)
    requires Parse(a).Some? && Parse(b).Some?
    ensures Less(Parse(a).value, Parse(b).value) <==> KeyLess(a, b)
  {
    hide TagOf, BytesLess, UserRank;
    ParsedTag(a);
    ParsedTag(b);
    UserRankOrders(UserOf(a), 0.0, UserOf(b), 0.0);
    UserRankOrders(UserOf(b), 0.0, UserOf(a), 0.0);
    BytesTotal(UserOf(a), UserOf(b));
  }

  lemma ParsedTag(key: Bytes)
    requires Parse(key).Some?
    ensures |key| >= 8 && Tag(Parse(key).value) == TagOf(key) && Parse(key).value.user == BytesRank(UserOf(key))
    ensures Parse(key).value.sequence <= MAX_SEQUENCE
  {
    hide TagOf, UserOf, BytesRank;
    TagBound(key);
  }

  /** Different user keys stand at different places. */
  lemma SameUser(a: Bytes, b: Bytes)
    ensures BytesRank(a) == BytesRank(b) <==> a == b
  {
    hide UserRank, BytesLess;
    UserRankOrders(a, 0.0, b, 0.0);
    UserRankOrders(b, 0.0, a, 0.0);
    BytesTotal(a, b);
  }

  predicate KeysParse(es: seq<KeyValue>) {
    forall i :: 0 <= i < |es| ==> Parse(es[i].0).Some?
  }

  function EntryOf(kv: KeyValue): Entry
    requires Parse(kv.0).Some?
  {
    Entry(Parse(kv.0).value, TextOf(kv.1))
  }

  /** The entries that pairs of bytes stand for. */
  function EntriesOf(es: seq<KeyValue>): (r: seq<Entry>)
    requires KeysParse(es)
    ensures |r| == |es| && forall i :: 0 <= i < |es| ==> r[i] == EntryOf(es[i])
  {
    seq(|es|, i requires 0 <= i < |es| => EntryOf(es[i]))
  }

  /** Increasing keys spell a sorted run. */
  lemma EntriesSorted(es: seq<KeyValue>)
    requires KeysParse(es) && KeysIncrease(es)
    ensures Sorted(EntriesOf(es))
  {
    hide Parse, KeyLess, Less;
    var run := EntriesOf(es);
    forall i, j | 0 <= i < j < |run|
      ensures Less(run[i].key, run[j].key)
    {
      KeysAt(es, i, j);
      ParseOrders(es[i].0, es[j].0);
    }
  }

  // Lookups

  /** Saver: what SaveValue was told. */
  datatype Saver = NotFound | Deleted | Corrupt | Found(value: Bytes)

  /** SaveValue. */
  method SaveValue(user: Bytes, ikey: Bytes, v: Bytes) returns (state: Saver)
    ensures Parse(ikey).Some? ==>
              state == if Parse(ikey).value.user != BytesRank(user) then NotFound
                       else if Parse(ikey).value.kind.TypeValue? then Found(v) else Deleted
    ensures Parse(ikey).None? ==> state == Corrupt
  {
    hide BytesRank, TagOf;
    var parsed := Parse(ikey);
    if parsed.None? {
      return Corrupt;
    }
    SameUser(UserOf(ikey), user);
    if UserOf(ikey) != user {
      return NotFound;
    }
    return if parsed.value.kind.TypeValue? then Found(v) else Deleted;
  }

  /** A report that fits the entry found, or that there is none. */
  predicate Reports(state: Saver, found: Option<Entry>) {
    match found
    case None => state == NotFound
    case Some(e) => if e.key.kind.TypeValue? then state.Found? && TextOf(state.value) == e.value else state == Deleted
  }

  /** The bytes of a lookup key are those of the first internal key that a reader may see. */
  lemma LookupBytes(user: Bytes, s: nat)
    requires s <= MAX_SEQUENCE
    ensures var k := MakeKey(user, 256 * s + 1);
            |k| >= 8 && UserOf(k) == user && Parse(k) == Some(LookupKey(BytesRank(user), s))
  {
    hide UserOf, TagOf, MakeKey, BytesRank;
    KeyParts(user, 256 * s + 1);
  }

  /** The lower bound among the entries is the first pair at or after the key. */
  lemma BoundIsFirst(es: seq<KeyValue>, k: Bytes, p: nat)
    requires KeysParse(es) && Parse(k).Some? && IsLowerBound(EntriesOf(es), Parse(k).value, p)
    ensures |k| >= 8 && IsFirstAtOrAfter(es, k, p)
  {
    hide Parse, KeyLess, Less;
    ParsedTag(k);
    forall i | 0 <= i < |es|
      ensures |es[i].0| >= 8 && (Less(EntriesOf(es)[i].key, Parse(k).value) <==> KeyLess(es[i].0, k))
    {
      ParsedTag(es[i].0);
      ParseOrders(es[i].0, k);
    }
  }

  /** What InternalGet answers is what the search of the run finds. */
  lemma AnswerIsFirstSeen(es: seq<KeyValue>, user: Bytes, s: nat, k: Bytes, r: Option<KeyValue>)
    requires KeysParse(es) && KeysIncrease(es) && |k| >= 8 && UserOf(k) == user
    requires Parse(k) == Some(LookupKey(BytesRank(user), s)) && Answers(es, k, r)
    ensures r.Some? ==> Parse(r.value.0).Some?
    ensures FirstSeen(EntriesOf(es), BytesRank(user), s) ==
            if r.Some? && Parse(r.value.0).value.user == BytesRank(user) then Some(EntryOf(r.value)) else None
  {
    hide Parse, KeyLess, Less, UserOf, BytesRank, TextOf, Sorted, IsFirstAtOrAfter, KeysIncrease;
    var run := EntriesOf(es);
    EntriesSorted(es);
    var p := LowerBound(run, LookupKey(BytesRank(user), s));
    BoundIsFirst(es, k, p);
    if p < |es| {
      ParsedTag(es[p].0);
      SameUser(UserOf(es[p].0), user);
    }
  }

  /** Get: the lookup key in a table, and SaveValue on what is found there. */
  method Get(table: Table, user: Bytes, s: nat, verify: bool) returns (state: Saver)
    requires table.Valid() && KeysParse(AllEntries(table.blocks)) && s <= MAX_SEQUENCE
    ensures Reports(state, FirstSeen(EntriesOf(AllEntries(table.blocks)), BytesRank(user), s))
  {
    hide *;
    LookupBytes(user, s);
    var k := MakeKey(user, 256 * s + 1);
    var r := table.InternalGet(k, verify);
    TableKeys(table);
    AnswerIsFirstSeen(AllEntries(table.blocks), user, s, k, r);
    if r.None? {
      state := NotFound;
    } else {
      state := SaveValue(user, r.value.0, r.value.1);
    }
    SavedReports(state, user, r);
  }

  lemma TableKeys(table: Table)
    requires table.Valid()
    ensures KeysIncrease(AllEntries(table.blocks))
  {
    hide KeysIncrease, AllEntries, B.LayoutOk, B.BlockOf, IndexOk, FilterOk, BlockOk;
  }

  lemma SavedReports(state: Saver, user: Bytes, r: Option<KeyValue>)
    requires r.Some? ==> Parse(r.value.0).Some?
    requires r.None? ==> state == NotFound
    requires r.Some? ==>
               state == if Parse(r.value.0).value.user != BytesRank(user) then NotFound
                        else if Parse(r.value.0).value.kind.TypeValue? then Found(r.value.1) else Deleted
    ensures Reports(state, if r.Some? && Parse(r.value.0).value.user == BytesRank(user) then Some(EntryOf(r.value)) else None)
  {
    hide Parse, BytesRank;
  }

  /** TableCache::Get: the table is opened from the bytes of its file, and asked. */
  method GetFromFile(file: Bytes, name: Bytes, policy: F.Policy, paranoid: bool, user: Bytes, s: nat, verify: bool,
                     ghost parts: TableParts)
    returns (state: Saver)
    requires Finished(file, name, policy, parts) && KeysParse(AllEntries(parts.blocks)) && s <= MAX_SEQUENCE
    ensures Reports(state, FirstSeen(EntriesOf(AllEntries(parts.blocks)), BytesRank(user), s))
  {
    hide *;
    var table := Open(file, name, policy, paranoid, parts);
    state := Get(table, user, s, verify);
  }

  // Iteration

  /** The entries of a block from byte `p` on, each key beginning as the one before. */
  function ReadEntries(data: Bytes, limit: nat, p: nat, last: Bytes): seq<KeyValue>
    requires p <= limit <= |data|
    decreases limit - p
  {
    if p == limit then [] else
      var d := B.DecodeEntry(data, p, limit);
      if d.None? || d.value.shared > |last| then [] else
        var key := last[..d.value.shared] + data[d.value.p..d.value.p + d.value.nonShared];
        var q := d.value.p + d.value.nonShared;
        [(key, data[q..q + d.value.valueLength])] + ReadEntries(data, limit, q + d.value.valueLength, key)
  }

  /** The entries of a block; none if it is too small for its restarts. */
  function BlockEntries(data: Bytes): seq<KeyValue> {
    if |data| < 4 then [] else
      var numRestarts := DecodeFixed(data[|data| - 4..]);
      if numRestarts > (|data| - 4) / 4 then [] else ReadEntries(data, |data| - (1 + numRestarts) * 4, 0, [])
  }

  /** From entry `j` on, its predecessor's key known, the entries put in are read. */
  lemma {:induction false} EntriesRead(l: B.Layout, j: nat, last: Bytes)
    requires B.LayoutOk(l) && B.SharedOk(l) && j <= |l.entries|
    requires B.Offset(l, j) <= B.Offset(l, |l.entries|) <= |B.BlockOf(l)|
    requires j < |l.entries| ==> B.SharesPrefix(last, l.entries[j].0, l.shared[j])
    ensures ReadEntries(B.BlockOf(l), B.Offset(l, |l.entries|), B.Offset(l, j), last) == l.entries[j..]
    decreases |l.entries| - j
  {
    hide B.LayoutOk, B.BlockOf, B.Offset, B.EncodeEntry, B.DecodeEntry;
    var data, limit := B.BlockOf(l), B.Offset(l, |l.entries|);
    if j < |l.entries| {
      var e := l.entries[j];
      B.EntryInBlock(l, j);
      B.OffsetsAscend(l, j, |l.entries|);
      B.EntryDecodes(data, B.Offset(l, j), limit, l.shared[j], e.0, e.1);
      B.KeyRebuilt(last, e.0, l.shared[j]);
      EntriesRead(l, j + 1, e.0);
      assert l.entries[j..] == [e] + l.entries[j + 1..];
    }
  }

  /** What a builder put into a block is what is read from it. */
  lemma BlockReads(l: B.Layout)
    requires B.LayoutOk(l)
    ensures BlockEntries(B.BlockOf(l)) == l.entries
  {
    hide B.LayoutOk, B.BlockOf, B.Data, ReadEntries;
    B.LayoutShared(l);
    B.TrailerInBlock(l);
    B.DataPrefix(l, 0, |l.entries|);
    StartsEmpty(l);
    EntriesRead(l, 0, []);
  }

  lemma StartsEmpty(l: B.Layout)
    requires B.SharedOk(l) && B.RestartsOk(l)
    ensures B.Offset(l, 0) == 0 && (l.entries != [] ==> l.shared[0] == 0)
  {
  }

  /** The contents that ReadBlock finds at a handle. */
  function BlockContents(file: Bytes, h: BlockHandle, verify: bool): Option<Bytes> {
    var n := h.size;
    if h.offset + n + TRAILER_SIZE > |file| then None else
      var data := file[h.offset..h.offset + n + TRAILER_SIZE];
      StoredMeans(file, h, data);
      if verify && Crc.Value(Log.AsBits(data[..n + 1])) != Log.CrcOf(DecodeFixed(data[n + 1..])) then None
      else if data[n] != NO_COMPRESSION then None else Some(data[..n])
  }

  lemma StoredIsRead(file: Bytes, h: BlockHandle, contents: Bytes, verify: bool)
    requires StoredAt(file, h, contents)
    ensures BlockContents(file, h, verify) == Some(contents)
  {
    hide Crc.Value, Log.CrcOf, Log.AsBits, DecodeFixed, Trailer;
    StoredMeans(file, h, file[h.offset..h.offset + h.size + TRAILER_SIZE]);
  }

  /** BlockReader: the entries of the block that an index value leads to. */
  function EntriesAt(file: Bytes, verify: bool, indexValue: Bytes): seq<Entry> {
    var handle := DecodeHandle(indexValue);
    if handle.Unread? then [] else
      var contents := BlockContents(file, handle.value, verify);
      if contents.None? then [] else
        var es := BlockEntries(contents.value);
        if KeysParse(es) then EntriesOf(es) else []
  }

  function BlockReader(file: Bytes, verify: bool): Two.BlockFunction {
    (indexValue: Value) => EntriesAt(file, verify, BytesOf(indexValue))
  }

  /** The handle of a block leads to its entries. */
  lemma HandleLeads(file: Bytes, b: DataBlock, verify: bool)
    requires BlockOk(file, b) && KeysParse(b.layout.entries)
    ensures BlockReader(file, verify)(TextOf(EncodeHandle(b.handle))) == EntriesOf(b.layout.entries)
  {
    hide B.LayoutOk, B.BlockOf, StoredAt, BlockContents, BlockEntries, KeysParse, EncodeHandle, DecodeHandle, TextOf, BytesOf, EntriesOf;
    BytesBack(EncodeHandle(b.handle));
    HandleRoundTrip(b.handle, []);
    assert EncodeHandle(b.handle) + [] == EncodeHandle(b.handle);
    StoredIsRead(file, b.handle, B.BlockOf(b.layout), verify);
    BlockReads(b.layout);
  }

  /** The keys of a block are keys of the table. */
  lemma BlockParses(blocks: seq<DataBlock>, i: nat)
    requires KeysParse(AllEntries(blocks)) && i < |blocks|
    ensures KeysParse(blocks[i].layout.entries)
  {
    hide Parse, AllEntries;
    EntryAt(blocks, i);
    var es := blocks[i].layout.entries;
    forall q | 0 <= q < |es|
      ensures Parse(es[q].0).Some?
    {
      assert AllEntries(blocks)[StartOf(blocks, i) + q] == es[q];
    }
  }

  /** So are those of the index, or the first of a user key. */
  lemma IndexParses(blocks: seq<DataBlock>, index: seq<KeyValue>)
    requires (forall b :: b in blocks ==> b.layout.entries != []) && KeysParse(AllEntries(blocks)) && IndexOk(blocks, index, |blocks|)
    ensures KeysParse(index)
  {
    hide Parse, AllEntries, KeyLess, Separates;
    forall i | 0 <= i < |index|
      ensures Parse(index[i].0).Some?
    {
      assert IndexKeyOk(blocks, i, index[i].0);
      BlockParses(blocks, i);
      MaxTagParses(index[i].0);
    }
  }

  lemma MaxTagParses(key: Bytes)
    ensures |key| >= 8 && TagOf(key) == MAX_TAG ==> Parse(key).Some?
  {
    hide TagOf, UserOf, BytesRank;
  }

  /** Entry `q` of block `j` lies at or before its index key, and behind those of the blocks before it. */
  lemma EntryFits(file: Bytes, blocks: seq<DataBlock>, index: seq<KeyValue>, i: nat, j: nat, q: nat)
    requires BlocksOk(file, blocks) && (forall b :: b in blocks ==> b.layout.entries != []) && IndexOk(blocks, index, |blocks|)
    requires i <= j < |blocks| && q < |blocks[j].layout.entries|
    ensures |index[i].0| >= 8 && |blocks[j].layout.entries[q].0| >= 8
    ensures if i == j then !KeyLess(index[i].0, blocks[j].layout.entries[q].0) else KeyLess(index[i].0, blocks[j].layout.entries[q].0)
  {
    hide BlocksOk, KeyLess, FirstKey, LastKey, Separates;
    var key := blocks[j].layout.entries[q].0;
    assert IndexKeyOk(blocks, i, index[i].0);
    BlockKeys(file, blocks, j, q);
    if i == j {
      NotBehind(key, LastKey(blocks[j]), index[i].0);
    } else {
      IndexBeforeFirst(file, blocks, index, i, j);
      KeyChainLast(index[i].0, FirstKey(blocks[j]), key);
    }
  }

  lemma IndexBeforeFirst(file: Bytes, blocks: seq<DataBlock>, index: seq<KeyValue>, i: nat, j: nat)
    requires BlocksOk(file, blocks) && (forall b :: b in blocks ==> b.layout.entries != []) && IndexOk(blocks, index, |blocks|)
    requires i < j < |blocks|
    ensures |index| == |blocks| && |index[i].0| >= 8 && |FirstKey(blocks[j])| >= 8 && KeyLess(index[i].0, FirstKey(blocks[j]))
  {
    hide BlocksOk, KeyLess, FirstKey, LastKey, Separates, IndexOk;
    IndexSeparates(blocks, index, i);
    FirstBeforeFirst(file, blocks, i + 1, j);
    SeparatorBefore(index[i].0, LastKey(blocks[i]), FirstKey(blocks[i + 1]));
    KeyChainLast(index[i].0, FirstKey(blocks[i + 1]), FirstKey(blocks[j]));
  }

  lemma SeparatorBefore(sep: Bytes, last: Bytes, first: Bytes)
    requires Separates(sep, last, first)
    ensures |sep| >= 8 && |first| >= 8 && KeyLess(sep, first)
  {
  }

  lemma KeyChainLast(a: Bytes, b: Bytes, c: Bytes)
    requires |a| >= 8 && |b| >= 8 && |c| >= 8 && KeyLess(a, b) && (b == c || KeyLess(b, c))
    ensures KeyLess(a, c)
  {
    if b != c {
      KeyTransitive(a, b, c);
    }
  }

  /** `a <= b <= c`, so not `c < a`. */
  lemma NotBehind(a: Bytes, b: Bytes, c: Bytes)
    requires |a| >= 8 && |b| >= 8 && |c| >= 8 && (a == b || KeyLess(a, b)) && (c == b || KeyLess(b, c))
    ensures !KeyLess(c, a)
  {
    if a != b && c != b {
      KeyTransitive(a, b, c);
    }
    KeyAsymmetric(a, c);
  }

  lemma KeyAsymmetric(a: Bytes, b: Bytes)
    requires |a| >= 8 && |b| >= 8
    ensures !(KeyLess(a, b) && (a == b || KeyLess(b, a)))
    ensures a == b ==> !KeyLess(a, b)
  {
    BytesTotal(UserOf(a), UserOf(b));
    BytesTotal(UserOf(a), UserOf(a));
  }

  lemma FirstBeforeFirst(file: Bytes, blocks: seq<DataBlock>, i: nat, j: nat)
    requires BlocksOk(file, blocks) && i <= j < |blocks| && (forall b :: b in blocks ==> b.layout.entries != [])
    ensures |FirstKey(blocks[i])| >= 8 && |FirstKey(blocks[j])| >= 8
    ensures FirstKey(blocks[i]) == FirstKey(blocks[j]) || KeyLess(FirstKey(blocks[i]), FirstKey(blocks[j]))
  {
    hide KeyLess, BlockOk, AllEntries, KeysIncrease;
    EntryAt(blocks, i);
    EntryAt(blocks, j);
    StartsAscend(blocks, i, j);
    KeysAt(AllEntries(blocks), StartOf(blocks, i), StartOf(blocks, j));
  }

  /** Blocks and index of a table whose keys all parse. */
  ghost predicate Walkable(file: Bytes, blocks: seq<DataBlock>, index: seq<KeyValue>) {
    && BlocksOk(file, blocks) && (forall b :: b in blocks ==> b.layout.entries != []) && IndexOk(blocks, index, |blocks|)
    && KeysParse(AllEntries(blocks)) && KeysParse(index)
  }

  /** The index entry of a block leads to its entries. */
  lemma IndexLeads(file: Bytes, blocks: seq<DataBlock>, index: seq<KeyValue>, verify: bool, i: nat)
    requires Walkable(file, blocks, index) && i < |blocks|
    ensures |index| == |blocks| && KeysParse(blocks[i].layout.entries)
    ensures BlockReader(file, verify)(EntriesOf(index)[i].value) == EntriesOf(blocks[i].layout.entries)
  {
    hide Parse, AllEntries, KeysIncrease, B.LayoutOk, StoredAt, EncodeHandle, TextOf, BlockReader, IndexKeyOk;
    BlockParses(blocks, i);
    HandleLeads(file, blocks[i], verify);
    assert EntriesOf(index)[i] == EntryOf(index[i]);
  }

  lemma IndexKeysIncrease(file: Bytes, blocks: seq<DataBlock>, index: seq<KeyValue>)
    requires Walkable(file, blocks, index)
    ensures Sorted(EntriesOf(index))
  {
    hide Parse, AllEntries, BlocksOk, KeyLess, IndexOk;
    forall i | 0 <= i < |index|
      ensures |index[i].0| >= 8
    {
      ParsedTag(index[i].0);
    }
    forall i, j | 0 <= i < j < |index|
      ensures KeyLess(index[i].0, index[j].0)
    {
      IndexKeysAscend(file, blocks, index, i, j);
    }
    EntriesSorted(index);
  }

  lemma BlockKeysIncrease(file: Bytes, blocks: seq<DataBlock>, index: seq<KeyValue>, i: nat)
    requires Walkable(file, blocks, index) && i < |blocks|
    ensures KeysParse(blocks[i].layout.entries) && Sorted(EntriesOf(blocks[i].layout.entries))
  {
    hide Parse, AllEntries, BlocksOk, KeyLess, IndexOk, KeysParse;
    var es := blocks[i].layout.entries;
    BlockParses(blocks, i);
    forall q | 0 <= q < |es|
      ensures |es[q].0| >= 8 && forall r :: q < r < |es| ==> |es[r].0| >= 8 && KeyLess(es[q].0, es[r].0)
    {
      BlockKeys(file, blocks, i, q);
    }
    EntriesSorted(es);
  }

  lemma EntryOrders(file: Bytes, blocks: seq<DataBlock>, index: seq<KeyValue>, i: nat, j: nat, q: nat)
    requires Walkable(file, blocks, index) && i <= j < |blocks| && q < |blocks[j].layout.entries|
    ensures |index| == |blocks| && KeysParse(blocks[j].layout.entries)
    ensures Less(EntriesOf(index)[i].key, EntriesOf(blocks[j].layout.entries)[q].key) <==> i != j
  {
    hide Parse, AllEntries, BlocksOk, KeyLess, Less, IndexKeyOk;
    BlockParses(blocks, j);
    EntryFits(file, blocks, index, i, j, q);
    ParseOrders(index[i].0, blocks[j].layout.entries[q].0);
  }

  /** Index and blocks make up the two levels of an iterator. */
  lemma TableFits(file: Bytes, blocks: seq<DataBlock>, index: seq<KeyValue>, verify: bool)
    requires Walkable(file, blocks, index)
    ensures Two.IndexFits(EntriesOf(index), BlockReader(file, verify))
  {
    hide KeysParse, AllEntries, BlocksOk, IndexKeyOk, Less, Sorted, EntryOf, BlockReader;
    var ix, reader := EntriesOf(index), BlockReader(file, verify);
    IndexKeysIncrease(file, blocks, index);
    forall i | 0 <= i < |ix|
      ensures Sorted(reader(ix[i].value))
    {
      IndexLeads(file, blocks, index, verify, i);
      BlockKeysIncrease(file, blocks, index, i);
    }
    forall i, j, q | 0 <= i <= j < |ix| && 0 <= q < |reader(ix[j].value)|
      ensures Less(ix[i].key, reader(ix[j].value)[q].key) <==> i != j
    {
      IndexLeads(file, blocks, index, verify, j);
      EntryOrders(file, blocks, index, i, j, q);
    }
  }

  lemma WalkParts(file: Bytes, blocks: seq<DataBlock>, index: seq<KeyValue>)
    requires Walkable(file, blocks, index)
    ensures |index| == |blocks| && KeysParse(index)
  {
    hide KeysParse, BlocksOk, IndexKeyOk, AllEntries;
  }

  lemma NoneBeforeFirst(index: seq<Entry>, block: Two.BlockFunction, blocks: seq<DataBlock>)
    ensures |Two.UpTo(index, block, 0)| == StartOf(blocks, 0) == 0
  {
  }

  lemma OneMore(index: seq<Entry>, block: Two.BlockFunction, n: nat)
    requires 0 < n <= |index|
    ensures |Two.UpTo(index, block, n)| == |Two.UpTo(index, block, n - 1)| + |block(index[n - 1].value)|
  {
  }

  lemma {:induction false} StartsAgree(file: Bytes, blocks: seq<DataBlock>, index: seq<KeyValue>, verify: bool, n: nat)
    requires Walkable(file, blocks, index) && n <= |blocks|
    ensures |index| == |blocks| && |Two.UpTo(EntriesOf(index), BlockReader(file, verify), n)| == StartOf(blocks, n)
  {
    hide *;
    WalkParts(file, blocks, index);
    if n == 0 {
      NoneBeforeFirst(EntriesOf(index), BlockReader(file, verify), blocks);
    } else {
      StartsAgree(file, blocks, index, verify, n - 1);
      IndexLeads(file, blocks, index, verify, n - 1);
      EntryAt(blocks, n - 1);
      OneMore(EntriesOf(index), BlockReader(file, verify), n);
    }
  }

  /** All entries the iterator goes through: those added to the table. */
  lemma WalksAll(file: Bytes, blocks: seq<DataBlock>, index: seq<KeyValue>, verify: bool)
    requires Walkable(file, blocks, index)
    ensures Two.All(EntriesOf(index), BlockReader(file, verify)) == EntriesOf(AllEntries(blocks))
  {
    hide KeysParse, BlocksOk, IndexKeyOk, EntryOf, BlockReader, AllEntries, Two.UpTo;
    var ix, reader := EntriesOf(index), BlockReader(file, verify);
    var all, es := Two.All(ix, reader), AllEntries(blocks);
    StartsAgree(file, blocks, index, verify, |blocks|);
    assert blocks[..|blocks|] == blocks;
    forall p | 0 <= p < |es|
      ensures all[p] == EntriesOf(es)[p]
    {
      var i, q := EntryOwner(blocks, p);
      StartsAgree(file, blocks, index, verify, i);
      IndexLeads(file, blocks, index, verify, i);
      Two.EntryAt(ix, reader, i, q);
    }
  }

  lemma TableWalkable(table: Table)
    requires table.Valid() && KeysParse(AllEntries(table.blocks))
    ensures Walkable(table.file, table.blocks, table.index.entries) && KeysParse(table.index.entries)
    ensures BlockEntries(table.indexBlock) == table.index.entries
  {
    hide B.LayoutOk, B.BlockOf, BlocksOk, KeysParse, IndexOk, FilterOk, BlockEntries, AllEntries;
    IndexParses(table.blocks, table.index.entries);
    BlockReads(table.index);
  }

  /** Table::NewIterator: two levels, the index block and the data blocks, over exactly the table's entries. */
  method NewIterator(table: Table, verify: bool) returns (it: Two.TwoLevelIterator)
    requires table.Valid() && KeysParse(AllEntries(table.blocks))
    ensures fresh(it) && fresh(it.index) && it.Ok() && !it.Valid()
    ensures it.Entries() == EntriesOf(AllEntries(table.blocks)) && Sorted(it.Entries())
  {
    hide *;
    TableWalkable(table);
    TableFits(table.file, table.blocks, table.index.entries, verify);
    WalksAll(table.file, table.blocks, table.index.entries, verify);
    var index := new Cursor(EntriesOf(BlockEntries(table.indexBlock)));
    it := new Two.TwoLevelIterator(index, BlockReader(table.file, verify));
    Entered(it);
    Two.AllSorted(index.entries, it.block);
  }

  /** TableCache::NewIterator: the same from the bytes of the file. */
  method NewIteratorOnFile(file: Bytes, name: Bytes, policy: F.Policy, paranoid: bool, verify: bool, ghost parts: TableParts)
    returns (it: Two.TwoLevelIterator)
    requires Finished(file, name, policy, parts) && KeysParse(AllEntries(parts.blocks))
    ensures fresh(it) && fresh(it.index) && it.Ok() && !it.Valid()
    ensures it.Entries() == EntriesOf(AllEntries(parts.blocks)) && Sorted(it.Entries())
  {
    hide *;
    var table := Open(file, name, policy, paranoid, parts);
    it := NewIterator(table, verify);
  }

  lemma Entered(it: Two.TwoLevelIterator)
    ensures it.Entries() == Two.All(it.index.entries, it.block)
  {
  }

  // The iterator over a block moves as a cursor over the entries it reads

  /** A block iterator and a cursor, on the same entry. */
  ghost predicate Together(iter: B.Iter, cursor: Cursor)
    reads iter, cursor
  {
    && iter.Ok() && iter.rank == KeyRank && KeysParse(iter.layout.entries)
    && BlockEntries(iter.data) == iter.layout.entries && cursor.entries == EntriesOf(iter.layout.entries)
    && iter.at == cursor.pos
  }

  /** Both are valid or neither is, and they show the same key and value. */
  lemma SameShown(iter: B.Iter, cursor: Cursor)
    requires Together(iter, cursor)
    ensures iter.Valid() <==> cursor.Valid()
    ensures iter.Valid() ==>
              && Parse(iter.key) == Some(cursor.Key())
              && iter.valueStart <= iter.valueEnd <= |iter.data|
              && TextOf(iter.data[iter.valueStart..iter.valueEnd]) == cursor.entries[cursor.pos].value
  {
    hide Parse, TextOf, BlockEntries, B.Iter.Ok, B.Iter.Valid;
    iter.Here();
  }

  method SeekBothToFirst(iter: B.Iter, cursor: Cursor)
    requires Together(iter, cursor)
    modifies iter, cursor
    ensures Together(iter, cursor)
  {
    hide BlockEntries, KeysParse, EntriesOf, KeyRank, B.Iter.Ok;
    iter.SeekToFirst();
    cursor.SeekToFirst();
  }

  method SeekBothToLast(iter: B.Iter, cursor: Cursor)
    requires Together(iter, cursor)
    modifies iter, cursor
    ensures Together(iter, cursor)
  {
    hide BlockEntries, KeysParse, KeyRank, B.Iter.Ok;
    iter.SeekToLast();
    cursor.SeekToLast();
  }

  method SeekBoth(iter: B.Iter, cursor: Cursor, target: Bytes)
    requires Together(iter, cursor) && Parse(target).Some?
    modifies iter, cursor
    ensures Together(iter, cursor)
  {
    hide BlockEntries, KeysParse, KeyRank, B.Iter.Ok, Parse, Less;
    IterIncreases(iter);
    RankedSorted(iter.layout.entries);
    iter.Seek(target);
    cursor.Seek(Parse(target).value);
    iter.Here();
    RankedBound(iter.layout.entries, target, iter.at, cursor.pos);
  }

  method NextBoth(iter: B.Iter, cursor: Cursor)
    requires Together(iter, cursor) && iter.Valid()
    modifies iter, cursor
    ensures Together(iter, cursor)
  {
    hide BlockEntries, KeysParse, KeyRank, B.Iter.Ok, B.Iter.Valid;
    iter.Here();
    iter.Next();
    cursor.Next();
  }

  method PrevBoth(iter: B.Iter, cursor: Cursor)
    requires Together(iter, cursor) && iter.Valid()
    modifies iter, cursor
    ensures Together(iter, cursor)
  {
    hide BlockEntries, KeysParse, KeyRank, B.Iter.Ok, B.Iter.Valid;
    iter.Here();
    iter.Prev();
    cursor.Prev();
  }

  lemma IterIncreases(iter: B.Iter)
    requires iter.Ok()
    ensures B.Increasing(iter.layout.entries, iter.rank)
  {
    hide B.LayoutOk, B.Data, B.BlockOf, B.Increasing;
  }

  lemma ParsedRanks(a: Bytes, b: Bytes)
    requires Parse(a).Some? && Parse(b).Some?
    ensures KeyRank(a) < KeyRank(b) <==> Less(Parse(a).value, Parse(b).value)
  {
    hide Parse, KeyRank, KeyLess, Less;
    ParsedTag(a);
    ParsedTag(b);
    KeyRankOrders(a, b);
    ParseOrders(a, b);
  }

  lemma RankedSorted(es: seq<KeyValue>)
    requires KeysParse(es) && B.Increasing(es, KeyRank)
    ensures Sorted(EntriesOf(es))
  {
    hide Parse, KeyRank, Less;
    forall i, j | 0 <= i < j < |es|
      ensures Less(EntriesOf(es)[i].key, EntriesOf(es)[j].key)
    {
      ParsedRanks(es[i].0, es[j].0);
    }
  }

  /** The first entry of rank at least the target's is the lower bound. */
  lemma RankedBound(es: seq<KeyValue>, target: Bytes, at: nat, pos: nat)
    requires KeysParse(es) && Parse(target).Some? && at <= |es| && IsLowerBound(EntriesOf(es), Parse(target).value, pos)
    requires forall i :: 0 <= i < at ==> KeyRank(es[i].0) < KeyRank(target)
    requires at < |es| ==> KeyRank(target) <= KeyRank(es[at].0)
    ensures at == pos
  {
    hide Parse, KeyRank, Less;
    forall i | 0 <= i < |es|
      ensures KeyRank(es[i].0) < KeyRank(target) <==> Less(EntriesOf(es)[i].key, Parse(target).value)
    {
      ParsedRanks(es[i].0, target);
    }
    assert at < |es| ==> !Less(EntriesOf(es)[at].key, Parse(target).value);
    assert pos < |es| ==> !Less(EntriesOf(es)[pos].key, Parse(target).value);
  }
}
