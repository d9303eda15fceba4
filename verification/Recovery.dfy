/**
 * Replaying a log file when the database is opened (db/db_impl.cc, DBImpl::RecoverLogFile): what is
 * recovered from a log that was cut off anywhere answers every read as the surviving batches do.
 */
module Recovery {
  import opened DbFormat
  import opened Wrappers
  import opened Coding
  import opened History
  import opened VersionGet
  import Lsm
  import Log
  import LogRoundTrip
  import WB = WriteBatch

  /** How the comparator orders the bytes of a user key, and how the bytes of a value read. */
  datatype Reading = Reading(order: Bytes -> UserKey, text: Bytes -> Value)

  function OpOf(u: WB.Update, as_: Reading): Op {
    match u
    case Put(key, value) => Op.Put(as_.order(key), as_.text(value))
    case Delete(key) => Op.Delete(as_.order(key))
  }

  function OpsOf(us: seq<WB.Update>, as_: Reading): (ops: seq<Op>)
    ensures |ops| == |us| && forall i :: 0 <= i < |us| ==> ops[i] == OpOf(us[i], as_)
  {
    if us == [] then [] else [OpOf(us[0], as_)] + OpsOf(us[1..], as_)
  }

  /** MemTableInserter: one entry for each update, at consecutive sequence numbers. */
  function InsertAll(mem: seq<Entry>, us: seq<WB.Update>, sequence: nat, as_: Reading): seq<Entry>
    decreases |us|
  {
    if us == [] then mem
    else InsertAll(Lsm.InsertEntry(mem, EntryOf(OpOf(us[0], as_), sequence)), us[1..], sequence + 1, as_)
  }

  /** The memtables written to level 0, the memtable at hand, the largest sequence number, and whether all is well. */
  datatype Recovered = Recovered(tables: seq<seq<Entry>>, mem: Option<seq<Entry>>, maxSequence: nat, ok: bool)

  datatype Options = Options(paranoid: bool, full: seq<Entry> -> bool, as_: Reading)

  /** The number of the last operation of a batch, in 64 bits. */
  function LastSequence(record: Bytes): nat
    requires |record| >= WB.HEADER
  {
    (WB.SequenceOf(record) + WB.CountOf(record) - 1) % U64
  }

  /** One record: too short, a batch that does not parse, or a batch. Errors count only in paranoid mode. */
  function RecoverRecord(st: Recovered, record: Bytes, options: Options): Recovered {
    if |record| < WB.HEADER then st.(ok := !options.paranoid)
    else
      var batch := WB.IterateOf(record);
      var mem := InsertAll(if st.mem.Some? then st.mem.value else [], batch.updates, WB.SequenceOf(record), options.as_);
      if batch.error.Some? && options.paranoid then st.(mem := Some(mem), ok := false)
      else
        var last := LastSequence(record);
        var st' := st.(maxSequence := if last > st.maxSequence then last else st.maxSequence);
        if options.full(mem) then st'.(tables := st.tables + [mem], mem := None) else st'.(mem := Some(mem))
  }

  /** The loop of RecoverLogFile, from position `p` of the file on. */
  function RecoverFrom(file: Bytes, p: nat, st: Recovered, options: Options): Recovered
    requires p <= |file|
    decreases |file| - p
  {
    var r := Log.ReadFrom(file, p, true, [], false);
    var st1 := st.(ok := st.ok && !(options.paranoid && r.drops != []));
    if r.record.None? || !st1.ok then st1
    else RecoverFrom(file, r.next, RecoverRecord(st1, r.record.value, options), options)
  }

  function Nothing(maxSequence: nat): Recovered {
    Recovered([], None, maxSequence, true)
  }

  /** RecoverLogFile. Reports of corruption make it stop only in paranoid mode. */
  method RecoverLogFile(file: Bytes, maxSequence: nat, options: Options) returns (st: Recovered)
    ensures st == RecoverFrom(file, 0, Nothing(maxSequence), options)
  {
    hide RecoverRecord, Log.ReadFrom;
    var reader := new Log.Reader(file, true);
    st := Nothing(maxSequence);
    while true
      invariant reader.Valid() && reader.file == file && reader.checksum && fresh(reader)
      invariant RecoverFrom(file, 0, Nothing(maxSequence), options) == RecoverFrom(file, reader.Position(), st, options)
      decreases |file| - reader.Position()
    {
      var reports := |reader.reported|;
      var record := reader.ReadRecord();
      if options.paranoid && |reader.reported| > reports {
        st := st.(ok := false);
      }
      if record.None? || !st.ok {
        return;
      }
      st := RecoverRecord(st, record.value, options);
    }
  }

  /** The records one by one, as long as all is well. */
  function RecoverRecords(records: seq<Bytes>, st: Recovered, options: Options): Recovered
    decreases |records|
  {
    if records == [] || !st.ok then st else RecoverRecords(records[1..], RecoverRecord(st, records[0], options), options)
  }

  /** Without reports, recovery is a matter of the records read. */
  lemma {:induction false} RecoversWhatIsRead(file: Bytes, p: nat, st: Recovered, options: Options)
    requires p <= |file| && Log.ReadAll(file, p, true).1 == [] && st.ok
    ensures RecoverFrom(file, p, st, options) == RecoverRecords(Log.ReadAll(file, p, true).0, st, options)
    decreases |file| - p
  {
    hide RecoverRecord, Log.ReadFrom;
    var r := Log.ReadFrom(file, p, true, [], false);
    if r.record.Some? {
      var rest := Log.ReadAll(file, r.next, true);
      assert r.drops == [] && rest.1 == [];
      assert ([r.record.value] + rest.0)[1..] == rest.0;
      var st' := RecoverRecord(st, r.record.value, options);
      if st'.ok {
        RecoversWhatIsRead(file, r.next, st', options);
      } else {
        NothingMore(file, r.next, st', options);
      }
    }
  }

  /** After an error the next record, if any, is not looked at. */
  lemma NothingMore(file: Bytes, p: nat, st: Recovered, options: Options)
    requires p <= |file| && !st.ok
    ensures RecoverFrom(file, p, st, options) == st
  {
    hide RecoverRecord, Log.ReadFrom;
  }

  // A log of batches

  function Flat(batches: seq<seq<WB.Update>>): seq<WB.Update> {
    if batches == [] then [] else batches[0] + Flat(batches[1..])
  }

  /** The log records of a run of batches that follow sequence number `last`. */
  function Records(batches: seq<seq<WB.Update>>, last: nat): (r: seq<Bytes>)
    ensures |r| == |batches|
  {
    if batches == [] then [] else [WB.Image(last + 1, batches[0])] + Records(batches[1..], last + |batches[0]|)
  }

  lemma {:induction false} RecordsPrefix(batches: seq<seq<WB.Update>>, last: nat, k: nat)
    requires k <= |batches|
    ensures Records(batches, last)[..k] == Records(batches[..k], last)
    decreases |batches|
  {
    hide WB.Image;
    if k > 0 {
      RecordsPrefix(batches[1..], last + |batches[0]|, k - 1);
      assert batches[..k][1..] == batches[1..][..k - 1];
    }
  }

  predicate BatchFits(us: seq<WB.Update>) {
    |us| < 0x8000_0000 && forall i :: 0 <= i < |us| ==> WB.UpdateFits(us[i])
  }

  /** Lengths and sequence numbers fit the fields they are stored in. */
  predicate LogFits(batches: seq<seq<WB.Update>>, last: nat) {
    (forall i :: 0 <= i < |batches| ==> BatchFits(batches[i])) && last + |Flat(batches)| < MAX_SEQUENCE
  }

  /** All entries recovered. */
  ghost function Entries(st: Recovered): set<Entry> {
    TableEntries(st.tables) + if st.mem.Some? then EntrySet(st.mem.value) else {}
  }

  ghost function TableEntries(tables: seq<seq<Entry>>): set<Entry> {
    set i, x | 0 <= i < |tables| && x in tables[i] :: x
  }

  /**
   * Sorted memtables, none with an entry above sequence number `last`, each written to level 0 with older
   * entries than what came after it.
   */
  ghost predicate RecoveredOk(st: Recovered, last: nat) {
    && (forall i :: 0 <= i < |st.tables| ==> Sorted(st.tables[i]))
    && (st.mem.Some? ==> Sorted(st.mem.value))
    && (forall x :: x in Entries(st) ==> x.key.sequence <= last)
    && (forall i, j :: 0 <= i < j < |st.tables| ==> Older(st.tables[i], st.tables[j]))
    && (st.mem.Some? ==> forall i :: 0 <= i < |st.tables| ==> Older(st.tables[i], st.mem.value))
  }

  ghost predicate Older(a: seq<Entry>, b: seq<Entry>) {
    forall x, y :: x in a && y in b ==> x.key.sequence < y.key.sequence
  }

  /** What a history leaves behind, on top of `entries` for the operations up to `last`. */
  ghost function Logged(entries: set<Entry>, items: seq<Item>, last: nat): set<Entry>
    decreases |items|
  {
    if items == [] then entries else Logged(With(entries, items[0], last + 1), items[1..], last + 1)
  }

  ghost function With(entries: set<Entry>, item: Item, sequence: nat): set<Entry> {
    if item.Lost? then entries else entries + {EntryOf(item, sequence)}
  }

  lemma {:induction false} LoggedAppend(entries: set<Entry>, a: seq<Item>, b: seq<Item>, last: nat)
    ensures Logged(entries, a + b, last) == Logged(Logged(entries, a, last), b, last + |a|)
    decreases |a|
  {
    if a == [] {
      assert a + b == b;
    } else {
      LoggedAppend(With(entries, a[0], last + 1), a[1..], b, last + 1);
      assert (a + b)[1..] == a[1..] + b;
    }
  }

  /** A batch goes into the memtable in order: it stays sorted, and gains one entry for each update. */
  lemma {:induction false} InsertAllKeeps(mem: seq<Entry>, us: seq<WB.Update>, last: nat, as_: Reading)
    requires Sorted(mem) && forall x :: x in mem ==> x.key.sequence <= last
    ensures
      var r := InsertAll(mem, us, last + 1, as_);
      && Sorted(r) && EntrySet(r) == Logged(EntrySet(mem), OpsOf(us, as_), last)
      && (forall x :: x in r ==> x.key.sequence <= last + |us|)
      && (forall x :: x in r ==> x in mem || last < x.key.sequence)
    decreases |us|
  {
    hide Sorted, Lsm.InsertEntry;
    if us != [] {
      var e := EntryOf(OpOf(us[0], as_), last + 1);
      Lsm.InsertEntrySorted(mem, e);
      var mem' := Lsm.InsertEntry(mem, e);
      assert forall x :: x in mem' <==> x in EntrySet(mem');
      InsertAllKeeps(mem', us[1..], last + 1, as_);
      assert OpsOf(us, as_)[1..] == OpsOf(us[1..], as_);
    }
  }

  lemma {:induction false} LoggedOver(a: set<Entry>, b: set<Entry>, items: seq<Item>, last: nat)
    ensures Logged(a + b, items, last) == a + Logged(b, items, last)
    decreases |items|
  {
    if items != [] {
      LoggedOver(a, With(b, items[0], last + 1), items[1..], last + 1);
      assert With(a + b, items[0], last + 1) == a + With(b, items[0], last + 1);
    }
  }

  /** `x` is the entry that one of the operations after sequence number `last` left behind. */
  ghost predicate LeftBy(x: Entry, items: seq<Item>, last: nat) {
    var s := x.key.sequence;
    last < s <= last + |items| && !items[s - last - 1].Lost? && x == EntryOf(items[s - last - 1], s)
  }

  /** Exactly the entries of the operations that are not lost. */
  lemma {:induction false} LoggedMembers(items: seq<Item>, last: nat)
    ensures forall x :: x in Logged({}, items, last) <==> LeftBy(x, items, last)
  {
    if items != [] {
      LoggedMembers(items[1..], last + 1);
      var first := With({}, items[0], last + 1);
      LoggedOver(first, {}, items[1..], last + 1);
      assert first + {} == first;
    }
  }

  function Max(a: nat, b: nat): nat {
    if a > b then a else b
  }

  lemma BatchLast(us: seq<WB.Update>, last: nat)
    requires BatchFits(us) && last + |us| < MAX_SEQUENCE
    ensures
      var record := WB.Image(last + 1, us);
      && WB.IterateOf(record) == WB.Iterated(us, None) && WB.SequenceOf(record) == last + 1 && LastSequence(record) == last + |us|
  {
    hide WB.Image, WB.IterateOf, WB.UpdateFits, WB.SequenceOf, WB.CountOf, LastSequence;
    WB.BatchRoundTrip(last + 1, us);
    WB.HeaderReads(last + 1, us);
    LastIs(WB.Image(last + 1, us), last, |us|);
  }

  lemma LastIs(record: Bytes, last: nat, n: nat)
    requires |record| >= WB.HEADER && WB.SequenceOf(record) == last + 1 && WB.CountOf(record) == n && last + n < MAX_SEQUENCE
    ensures LastSequence(record) == last + n
  {
    hide WB.SequenceOf, WB.CountOf;
  }

  /** A whole batch from the log. */
  lemma BatchRecovers(st: Recovered, us: seq<WB.Update>, last: nat, options: Options)
    requires RecoveredOk(st, last) && st.ok && BatchFits(us) && last + |us| < MAX_SEQUENCE
    ensures
      var st' := RecoverRecord(st, WB.Image(last + 1, us), options);
      && st'.ok && RecoveredOk(st', last + |us|) && st'.maxSequence == Max(st.maxSequence, last + |us|)
      && Entries(st') == Logged(Entries(st), OpsOf(us, options.as_), last)
  {
    hide WB.Image, WB.IterateOf, WB.SequenceOf, BatchFits, LastSequence, InsertAll, Logged, Sorted, OpsOf;
    BatchLast(us, last);
    assert Sorted([]) by { NothingSorted(); }
    var mem := if st.mem.Some? then st.mem.value else [];
    assert forall x :: x in mem ==> x in Entries(st);
    InsertAllKeeps(mem, us, last, options.as_);
    var mem' := InsertAll(mem, us, last + 1, options.as_);
    LoggedOver(TableEntries(st.tables), EntrySet(mem), OpsOf(us, options.as_), last);
    assert Entries(st) == TableEntries(st.tables) + EntrySet(mem);
    assert Logged(Entries(st), OpsOf(us, options.as_), last) == TableEntries(st.tables) + EntrySet(mem');
    TablesSnoc(st.tables, mem');
    MemReplaced(st, mem, mem', last, |us|);
  }

  lemma NothingSorted()
    ensures Sorted([])
  {
  }

  lemma TablesSnoc(tables: seq<seq<Entry>>, mem: seq<Entry>)
    ensures TableEntries(tables + [mem]) == TableEntries(tables) + EntrySet(mem)
  {
    var all := tables + [mem];
    assert all[|tables|] == mem;
    forall x | x in TableEntries(tables)
      ensures x in TableEntries(all)
    {
      var i :| 0 <= i < |tables| && x in tables[i];
      assert all[i] == tables[i];
    }
  }

  /** The memtable grows by newer entries, or is written out. */
  lemma MemReplaced(st: Recovered, mem: seq<Entry>, mem': seq<Entry>, last: nat, n: nat)
    requires RecoveredOk(st, last) && mem == (if st.mem.Some? then st.mem.value else []) && Sorted(mem')
    requires forall x :: x in mem' ==> x.key.sequence <= last + n && (x in mem || last < x.key.sequence)
    ensures RecoveredOk(st.(mem := Some(mem')), last + n)
    ensures RecoveredOk(st.(tables := st.tables + [mem'], mem := None), last + n)
  {
    hide Sorted, TableEntries;
    forall i | 0 <= i < |st.tables|
      ensures Older(st.tables[i], mem')
    {
      OlderStill(st, i, mem, mem', last);
    }
    TablesSnoc(st.tables, mem');
    var with, flushed := st.(mem := Some(mem')), st.(tables := st.tables + [mem'], mem := None);
    hide Older;
    assert Entries(flushed) == Entries(with) == TableEntries(st.tables) + EntrySet(mem');
    assert forall x :: x in TableEntries(st.tables) ==> x in Entries(st);
  }

  lemma OlderStill(st: Recovered, i: nat, mem: seq<Entry>, mem': seq<Entry>, last: nat)
    requires RecoveredOk(st, last) && mem == (if st.mem.Some? then st.mem.value else []) && i < |st.tables|
    requires forall x :: x in mem' ==> x in mem || last < x.key.sequence
    ensures Older(st.tables[i], mem')
  {
    hide Sorted;
    assert forall x :: x in st.tables[i] ==> x in TableEntries(st.tables) && x in Entries(st);
  }

  lemma {:induction false} BatchesRecover(st: Recovered, batches: seq<seq<WB.Update>>, last: nat, options: Options)
    requires RecoveredOk(st, last) && st.ok && LogFits(batches, last)
    ensures
      var st' := RecoverRecords(Records(batches, last), st, options);
      && st'.ok && RecoveredOk(st', last + |Flat(batches)|)
      && st'.maxSequence == (if batches == [] then st.maxSequence else Max(st.maxSequence, last + |Flat(batches)|))
      && Entries(st') == Logged(Entries(st), OpsOf(Flat(batches), options.as_), last)
    decreases |batches|
  {
    hide RecoveredOk, RecoverRecord, BatchFits, Entries, WB.Image, OpsOf;
    if batches == [] {
      NoOps(options.as_);
    } else {
      BatchRecovers(st, batches[0], last, options);
      var st1 := RecoverRecord(st, WB.Image(last + 1, batches[0]), options);
      BatchesRecover(st1, batches[1..], last + |batches[0]|, options);
      OpsAppend(batches[0], Flat(batches[1..]), options.as_);
      LoggedAppend(Entries(st), OpsOf(batches[0], options.as_), OpsOf(Flat(batches[1..]), options.as_), last);
      assert Records(batches, last)[1..] == Records(batches[1..], last + |batches[0]|);
    }
  }

  lemma NoOps(as_: Reading)
    ensures OpsOf([], as_) == []
  {
  }

  lemma OpsAppend(a: seq<WB.Update>, b: seq<WB.Update>, as_: Reading)
    ensures OpsOf(a + b, as_) == OpsOf(a, as_) + OpsOf(b, as_)
  {
  }

  lemma {:induction false} FlatAppend(a: seq<seq<WB.Update>>, b: seq<seq<WB.Update>>)
    ensures Flat(a + b) == Flat(a) + Flat(b)
  {
    if a == [] {
      assert a + b == b;
    } else {
      hide Flat;
      FlatAppend(a[1..], b);
      FlatStep(a);
      FlatStep(a + b);
      WithoutHead(a, b);
      Associates(a[0], Flat(a[1..]), Flat(b));
    }
  }

  lemma WithoutHead<T>(a: seq<T>, b: seq<T>)
    requires a != []
    ensures (a + b)[0] == a[0] && (a + b)[1..] == a[1..] + b
  {
  }

  lemma Associates<T>(a: seq<T>, b: seq<T>, c: seq<T>)
    ensures a + (b + c) == a + b + c
  {
  }

  lemma FlatStep(a: seq<seq<WB.Update>>)
    requires a != []
    ensures Flat(a) == a[0] + Flat(a[1..])
  {
  }

  lemma {:induction false} FlatPrefix(batches: seq<seq<WB.Update>>, k: nat)
    requires k <= |batches|
    ensures |Flat(batches[..k])| <= |Flat(batches)|
    decreases |batches|
  {
    if k > 0 {
      FlatPrefix(batches[1..], k - 1);
      assert batches[..k][1..] == batches[1..][..k - 1];
    }
  }

  /**
   * Recovery from a log cut off anywhere: the batches whose last byte survived are recovered in full, in
   * order and at their sequence numbers, and nothing of the rest; memtables written out on the way are in
   * the order level 0 needs.
   */
  lemma TornLogRecovers(batches: seq<seq<WB.Update>>, last: nat, t: nat, maxSequence: nat, options: Options)
    requires LogFits(batches, last) && t <= |Log.Written(Records(batches, last))|
    ensures
      var k := LogRoundTrip.Survived(Records(batches, last), t);
      var survived := Flat(batches[..k]);
      var st := RecoverFrom(Log.Written(Records(batches, last))[..t], 0, Nothing(maxSequence), options);
      && st.ok && RecoveredOk(st, last + |survived|) && Entries(st) == Logged({}, OpsOf(survived, options.as_), last)
      && st.maxSequence == (if k == 0 then maxSequence else Max(maxSequence, last + |survived|))
  {
    hide RecoverFrom, RecoverRecords, Log.Written, Log.ReadAll, Records, Flat, OpsOf;
    var records := Records(batches, last);
    var file := Log.Written(records)[..t];
    var k := LogRoundTrip.Survived(records, t);
    LogRoundTrip.TornLogReadsBack(records, t, true);
    RecoversWhatIsRead(file, 0, Nothing(maxSequence), options);
    RecordsPrefix(batches, last, k);
    FlatPrefix(batches, k);
    NothingOk(maxSequence, last);
    BatchesRecover(Nothing(maxSequence), batches[..k], last, options);
  }

  lemma NothingOk(maxSequence: nat, last: nat)
    ensures RecoveredOk(Nothing(maxSequence), last) && Entries(Nothing(maxSequence)) == {}
  {
    assert TableEntries([]) == {};
  }

  lemma {:induction false} LoggedIsRight(entries: set<Entry>, history: seq<Item>, items: seq<Item>, floor: nat)
    requires AllRecorded(entries, history) && AllRight(entries, history, floor)
    ensures AllRecorded(Logged(entries, items, |history|), history + items)
    ensures AllRight(Logged(entries, items, |history|), history + items, floor)
    decreases |items|
  {
    hide AllRecorded, AllRight;
    if items == [] {
      assert history + items == history;
    } else {
      if items[0].Lost? {
        AddLost(entries, history, floor);
      } else {
        AddOperation(entries, history, floor, items[0]);
      }
      LoggedIsRight(With(entries, items[0], |history| + 1), history + [items[0]], items[1..], floor);
      assert history + [items[0]] + items[1..] == history + items;
    }
  }

  /**
   * Crash safety: with the entries that had reached the tables before, what is recovered answers every
   * read as the history of writes up to the last batch that survived in the log.
   */
  lemma CrashIsAPrefix(entries: set<Entry>, history: seq<Item>, floor: nat, batches: seq<seq<WB.Update>>, t: nat, maxSequence: nat, options: Options)
    requires AllRecorded(entries, history) && AllRight(entries, history, floor)
    requires LogFits(batches, |history|) && t <= |Log.Written(Records(batches, |history|))|
    ensures
      var records := Records(batches, |history|);
      var survived := OpsOf(Flat(batches[..LogRoundTrip.Survived(records, t)]), options.as_);
      var st := RecoverFrom(Log.Written(records)[..t], 0, Nothing(maxSequence), options);
      && st.ok
      && AllRecorded(entries + Entries(st), history + survived)
      && AllRight(entries + Entries(st), history + survived, floor)
  {
    hide *;
    TornLogRecovers(batches, |history|, t, maxSequence, options);
    var survived := OpsOf(Flat(batches[..LogRoundTrip.Survived(Records(batches, |history|), t)]), options.as_);
    LoggedIsRight(entries, history, survived, floor);
    LoggedOver(entries, {}, survived, |history|);
    assert entries + {} == entries;
  }
}
