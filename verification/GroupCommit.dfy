/** The writer queue (db/db_impl.cc, Write and BuildBatchGroup): the writer at the front commits a group
    for itself and for followers, while further writers arrive behind. */
module GroupCommit {
  import opened Wrappers
  import opened History

  /** One call of Write: `batch` is None for the null pointer. */
  datatype Writer = Writer(id: nat, batch: Option<seq<Op>>, sync: bool)

  /** How a group fared; with RoomFailed, MakeRoomForWrite failed and no group was built. InsertFailed
      comes from a batch that does not parse, in the log already and with some operations inserted. */
  datatype Outcome = Committed | RoomFailed | LogFailed | SyncFailed | InsertFailed(inserted: nat)

  predicate IsLogged(outcome: Outcome) {
    outcome.Committed? || outcome.SyncFailed? || outcome.InsertFailed?
  }

  /** Sync follows the append, and the insertion follows Sync. */
  predicate IsSynced(outcome: Outcome) {
    outcome.Committed? || outcome.InsertFailed?
  }

  /** How many operations of a group reach the memtable. */
  function InsertedOf(g: Group): seq<Op> {
    var ops := Ops(g.members);
    match g.outcome
    case Committed => ops
    case InsertFailed(n) => if n < |ops| then ops[..n] else ops
    case _ => []
  }

  datatype Group = Group(members: seq<Writer>, outcome: Outcome)

  /** A log record: the batch of a group at its first sequence number. */
  datatype LogRecord = LogRecord(sequence: nat, ops: seq<Op>, synced: bool)

  function BatchOf(w: Writer): seq<Op> {
    if w.batch.Some? then w.batch.value else []
  }

  /** The operations of writers, in queue order. */
  function Ops(writers: seq<Writer>): seq<Op> {
    if writers == [] then [] else Ops(writers[..|writers| - 1]) + BatchOf(writers[|writers| - 1])
  }

  lemma {:induction false} OpsAppend(a: seq<Writer>, b: seq<Writer>)
    ensures Ops(a + b) == Ops(a) + Ops(b)
  {
    if b == [] {
      assert a + b == a;
    } else {
      hide BatchOf;
      OpsAppend(a, b[..|b| - 1]);
      var front, last := b[..|b| - 1], b[|b| - 1];
      assert (a + b)[..|a + b| - 1] == a + front && (a + b)[|a + b| - 1] == last;
      assert Ops(a + b) == Ops(a + front) + BatchOf(last);
      assert Ops(b) == Ops(front) + BatchOf(last);
    }
  }

  /** Operations with consecutive sequence numbers. */
  function Numbered(ops: seq<Op>, first: nat): (r: seq<(nat, Op)>)
    ensures |r| == |ops| && forall i :: 0 <= i < |r| ==> r[i] == (first + i, ops[i])
  {
    seq(|ops|, i requires 0 <= i < |ops| => (first + i, ops[i]))
  }

  function Members(groups: seq<Group>): seq<Writer> {
    if groups == [] then [] else Members(groups[..|groups| - 1]) + groups[|groups| - 1].members
  }

  /** Each group that was built takes one sequence number per operation. */
  function Taken(g: Group): nat {
    if g.outcome.RoomFailed? then 0 else |Ops(g.members)|
  }

  /** The record of a group: a failed Sync comes after it was written. */
  function RecordOf(g: Group, sequence: nat): seq<LogRecord> {
    if IsLogged(g.outcome) && g.members != [] && g.members[0].batch.Some? then
      [LogRecord(sequence, Ops(g.members), g.members[0].sync && IsSynced(g.outcome))]
    else []
  }

  /** last_sequence after the groups. */
  function SequenceAfter(start: nat, groups: seq<Group>): nat {
    if groups == [] then start else
      var g := groups[|groups| - 1];
      SequenceAfter(start, groups[..|groups| - 1]) + Taken(g)
  }

  /** What the memtable received. */
  function Inserted(start: nat, groups: seq<Group>): seq<(nat, Op)> {
    if groups == [] then [] else
      var front, g := groups[..|groups| - 1], groups[|groups| - 1];
      Inserted(start, front) + Numbered(InsertedOf(g), SequenceAfter(start, front) + 1)
  }

  /** What the log received. */
  function Logged(start: nat, groups: seq<Group>): seq<LogRecord> {
    if groups == [] then [] else
      var front, g := groups[..|groups| - 1], groups[|groups| - 1];
      Logged(start, front) + RecordOf(g, SequenceAfter(start, front) + 1)
  }

  /** Who was told what: every member of a group gets the leader's outcome. */
  function Signals(groups: seq<Group>): seq<(nat, Outcome)> {
    if groups == [] then [] else
      var g := groups[|groups| - 1];
      Signals(groups[..|groups| - 1]) + Told(g.members, g.outcome)
  }

  function Told(members: seq<Writer>, outcome: Outcome): (r: seq<(nat, Outcome)>)
    ensures |r| == |members| && forall i :: 0 <= i < |r| ==> r[i] == (members[i].id, outcome)
  {
    seq(|members|, i requires 0 <= i < |members| => (members[i].id, outcome))
  }

  /** A null batch and a failed MakeRoomForWrite lead alone; a sync write never rides with a leader
      that does not sync. */
  ghost predicate GroupOk(g: Group) {
    && g.members != []
    && (g.outcome.RoomFailed? || g.members[0].batch.None? ==> |g.members| == 1)
    && (g.members[0].batch.None? ==> g.outcome.Committed? || g.outcome.RoomFailed?)
    && forall i :: 0 <= i < |g.members| && g.members[i].sync ==> g.members[0].sync
  }

  /** The bytes of the batches of writers. */
  function GroupSize(byteSize: seq<Op> -> nat, writers: seq<Writer>): nat {
    if writers == [] then 0 else
      var w := writers[|writers| - 1];
      GroupSize(byteSize, writers[..|writers| - 1]) + if w.batch.Some? then byteSize(w.batch.value) else 0
  }

  /** If the original write is small, the growth is limited so that it is not slowed down too much. */
  function MaxSize(first: nat): nat {
    if first <= 0x2_0000 then first + 0x2_0000 else 0x10_0000
  }

  /** `n` writers form a group: all fit, and the next one does not, if there is one. */
  ghost predicate IsGroup(byteSize: seq<Op> -> nat, writers: seq<Writer>, n: nat)
    requires writers != [] && writers[0].batch.Some?
  {
    var max := MaxSize(byteSize(writers[0].batch.value));
    && 1 <= n <= |writers|
    && (forall i :: 0 <= i < n && writers[i].sync ==> writers[0].sync)
    && (forall i :: 1 < i <= n && writers[i - 1].batch.Some? ==> GroupSize(byteSize, writers[..i]) <= max)
    && (n < |writers| ==>
          || (writers[n].sync && !writers[0].sync)
          || (writers[n].batch.Some? && GroupSize(byteSize, writers[..n + 1]) > max))
  }

  method BuildBatchGroup(byteSize: seq<Op> -> nat, writers: seq<Writer>) returns (updates: seq<Op>, n: nat)
    requires writers != [] && writers[0].batch.Some?
    ensures IsGroup(byteSize, writers, n)
    ensures updates == Ops(writers[..n])
  {
    hide Ops, GroupSize;
    var first := writers[0];
    updates := first.batch.value;
    var size := byteSize(first.batch.value);
    // Allow the group to grow up to a maximum size
    var maxSize := 0x10_0000;
    if size <= 0x2_0000 {
      maxSize := size + 0x2_0000;
    }
    n := 1;
    FirstAlone(byteSize, writers);
    while n < |writers|
      invariant 1 <= n <= |writers|
      invariant updates == Ops(writers[..n]) && size == GroupSize(byteSize, writers[..n])
      invariant forall i :: 0 <= i < n && writers[i].sync ==> first.sync
      invariant forall i :: 1 < i <= n && writers[i - 1].batch.Some? ==> GroupSize(byteSize, writers[..i]) <= maxSize
    {
      var w := writers[n];
      NextMember(byteSize, writers, n);
      if w.sync && !first.sync {
        // Do not include a sync write into a batch handled by a non-sync write.
        break;
      }
      if w.batch.Some? {
        size := size + byteSize(w.batch.value);
        if size > maxSize {
          // Do not make batch too big
          break;
        }
        updates := updates + w.batch.value;
      }
      n := n + 1;
    }
  }

  lemma NextMember(byteSize: seq<Op> -> nat, writers: seq<Writer>, n: nat)
    requires n < |writers|
    ensures Ops(writers[..n + 1]) == Ops(writers[..n]) + BatchOf(writers[n])
    ensures GroupSize(byteSize, writers[..n + 1]) ==
            GroupSize(byteSize, writers[..n]) + if writers[n].batch.Some? then byteSize(writers[n].batch.value) else 0
  {
    assert writers[..n + 1][..n] == writers[..n];
  }

  lemma FirstAlone(byteSize: seq<Op> -> nat, writers: seq<Writer>)
    requires writers != [] && writers[0].batch.Some?
    ensures Ops(writers[..1]) == writers[0].batch.value
    ensures GroupSize(byteSize, writers[..1]) == byteSize(writers[0].batch.value)
  {
    assert writers[..1][..0] == [];
  }

  class WriteQueue {
    const byteSize: seq<Op> -> nat
    ghost const start: nat
    /** writers_. */
    var writers: seq<Writer>
    var lastSequence: nat
    var log: seq<LogRecord>
    var mem: seq<(nat, Op)>
    var signalled: seq<(nat, Outcome)>
    /** The group that the leader is logging and inserting, the mutex released; 0 when there is none. */
    var busy: nat
    var updates: seq<Op>
    ghost var groups: seq<Group>
    ghost var arrived: seq<Writer>

    ghost predicate Valid()
      reads this
    {
      && arrived == Members(groups) + writers
      && lastSequence == SequenceAfter(start, groups)
      && mem == Inserted(start, groups)
      && log == Logged(start, groups)
      && signalled == Signals(groups)
      && (forall i :: 0 <= i < |groups| ==> GroupOk(groups[i]))
      && (0 < busy ==>
            && busy <= |writers| && writers[0].batch.Some? && updates == Ops(writers[..busy])
            && forall i :: 0 <= i < busy && writers[i].sync ==> writers[0].sync)
    }

    constructor (byteSize: seq<Op> -> nat, lastSequence: nat)
      ensures Valid() && arrived == [] && groups == [] && start == lastSequence && busy == 0
    {
      this.byteSize := byteSize;
      this.start := lastSequence;
      this.lastSequence := lastSequence;
      writers, log, mem, signalled, busy, updates, groups, arrived := [], [], [], [], 0, [], [], [];
    }

    /** A writer comes in and waits at the back of the queue; it may do so while a group is logged. */
    method Arrive(w: Writer)
      requires Valid()
      modifies this
      ensures Valid() && arrived == old(arrived) + [w] && groups == old(groups) && busy == old(busy)
    {
      var queue := writers + [w];
      if 0 < busy {
        assert queue[..busy] == writers[..busy];
      }
      writers := queue;
      arrived := arrived + [w];
    }

    /** The front writer has room and a batch: it forms its group. */
    method Lead()
      requires Valid() && busy == 0 && writers != [] && writers[0].batch.Some?
      modifies this
      ensures Valid() && arrived == old(arrived) && groups == old(groups) && writers == old(writers)
      ensures IsGroup(byteSize, writers, busy)
    {
      updates, busy := BuildBatchGroup(byteSize, writers);
    }

    /** The front writer leaves alone: it carries no batch, or there is no room. */
    method LeaveAlone(outcome: Outcome)
      requires Valid() && busy == 0 && writers != []
      requires outcome.RoomFailed? || (outcome.Committed? && writers[0].batch.None?)
      modifies this
      ensures Valid() && busy == 0 && arrived == old(arrived)
      ensures groups == old(groups) + [Group([old(writers)[0]], outcome)]
    {
      hide Members, SequenceAfter, Inserted, Logged, Signals, Ops, Numbered, Told;
      ghost var before := groups;
      groups := groups + [Group([writers[0]], outcome)];
      AddGroup(start, before, groups[|before|]);
      AloneOps(writers[0], SequenceAfter(start, before) + 1);
      assert writers == [writers[0]] + writers[1..];
      assert writers[..1] == [writers[0]];
      Signal(1, outcome);
    }

    /** The pop loop: the first `n` writers leave and are told the outcome. */
    method Signal(n: nat, outcome: Outcome)
      requires n <= |writers|
      modifies `writers, `signalled
      ensures writers == old(writers)[n..]
      ensures signalled == old(signalled) + Told(old(writers)[..n], outcome)
    {
      for i := 0 to n
        invariant writers == old(writers)[i..]
        invariant signalled == old(signalled) + Told(old(writers)[..i], outcome)
      {
        var ready := writers[0];
        writers := writers[1..];
        signalled := signalled + [(ready.id, outcome)];
      }
    }

    /** The record is appended and synced, and what the handler takes goes into the memtable. */
    method LogAndInsert(outcome: Outcome)
      requires 0 < busy <= |writers| && writers[0].batch.Some? && updates == Ops(writers[..busy]) && !outcome.RoomFailed?
      modifies `log, `mem, `lastSequence
      ensures var g := Group(writers[..busy], outcome);
              && log == old(log) + RecordOf(g, old(lastSequence) + 1)
              && mem == old(mem) + Numbered(InsertedOf(g), old(lastSequence) + 1)
              && lastSequence == old(lastSequence) + Taken(g)
    {
      hide Ops;
      NothingNumbered(lastSequence + 1);
      var sequence := lastSequence + 1;
      lastSequence := lastSequence + |updates|;
      if !outcome.LogFailed? {
        log := log + [LogRecord(sequence, updates, writers[0].sync && IsSynced(outcome))];
      }
      if outcome.Committed? {
        mem := mem + Numbered(updates, sequence);
      } else if outcome.InsertFailed? {
        // The handler stops at the first record that does not parse.
        mem := mem + Numbered(if outcome.inserted < |updates| then updates[..outcome.inserted] else updates, sequence);
      }
    }

    /** The leader logs and inserts the group's batch and wakes up its members. */
    method Finish(outcome: Outcome)
      requires Valid() && 0 < busy && !outcome.RoomFailed?
      modifies this
      ensures Valid() && busy == 0 && arrived == old(arrived)
      ensures groups == old(groups) + [Group(old(writers)[..old(busy)], outcome)]
    {
      hide Members, SequenceAfter, Inserted, Logged, Signals, Ops, Numbered, Told, RecordOf, InsertedOf, Taken;
      ghost var before := groups;
      ghost var g := Group(writers[..busy], outcome);
      LogAndInsert(outcome);
      groups := groups + [g];
      AddGroup(start, before, g);
      assert writers == writers[..busy] + writers[busy..];
      var n := busy;
      busy := 0;
      Signal(n, outcome);
    }

    /** The writers that have left the queue, in the order in which they came. */
    ghost function Done(): seq<Writer>
      requires Valid()
      reads this
    {
      arrived[..|arrived| - |writers|]
    }

    /** After any arrivals and any groups, as long as all were committed: the memtable holds each operation
        of the writers that are done once, in order of arrival and numbered without gaps, so does the log,
        and each of them was told so once; the others still wait in order. */
    lemma ServedInOrder()
      requires Valid() && AllCommitted(groups)
      ensures arrived == Done() + writers
      ensures mem == Numbered(Ops(Done()), start + 1) && LoggedOps(log) == Ops(Done())
      ensures lastSequence == start + |Ops(Done())| && signalled == Told(Done(), Committed)
    {
      EachOnceInOrder(start, groups);
      assert Done() == Members(groups);
    }

    /** Whatever failed in between: a sync write that was told of success is in a synced record. */
    lemma SyncedBeforeTold(i: nat, w: Writer)
      requires Valid() && i < |groups| && w in groups[i].members && w.sync && w.batch.Some? && groups[i].outcome.Committed?
      ensures exists r :: r in log && r.synced && r.ops == Ops(groups[i].members)
    {
      SyncWritesAreSynced(start, groups, i, w);
    }
  }

  lemma NothingNumbered(sequence: nat)
    ensures Numbered([], sequence) == []
  {
  }

  lemma AloneOps(w: Writer, sequence: nat)
    ensures Ops([w]) == BatchOf(w)
    ensures Numbered([], sequence) == []
  {
    assert [w][..0] == [];
  }

  lemma AddGroup(start: nat, groups: seq<Group>, g: Group)
    ensures Members(groups + [g]) == Members(groups) + g.members
    ensures SequenceAfter(start, groups + [g]) == SequenceAfter(start, groups) + Taken(g)
    ensures Inserted(start, groups + [g]) ==
            Inserted(start, groups) + Numbered(InsertedOf(g), SequenceAfter(start, groups) + 1)
    ensures Logged(start, groups + [g]) == Logged(start, groups) + RecordOf(g, SequenceAfter(start, groups) + 1)
    ensures Signals(groups + [g]) == Signals(groups) + Told(g.members, g.outcome)
  {
    hide Taken, Numbered, InsertedOf, RecordOf, Told;
    assert (groups + [g])[..|groups|] == groups;
  }

  /** A group that was committed takes, logs and inserts all its operations. */
  lemma CommittedGroup(g: Group, sequence: nat)
    requires GroupOk(g) && g.outcome.Committed?
    ensures Taken(g) == |Ops(g.members)| && InsertedOf(g) == Ops(g.members)
    ensures RecordOf(g, sequence) == [] ==> Ops(g.members) == []
    ensures RecordOf(g, sequence) == [] || exists synced :: RecordOf(g, sequence) == [LogRecord(sequence, Ops(g.members), synced)]
  {
    LeaderOrNothing(g);
  }

  /** The operations of log records, in order. */
  function LoggedOps(log: seq<LogRecord>): seq<Op> {
    if log == [] then [] else LoggedOps(log[..|log| - 1]) + log[|log| - 1].ops
  }

  ghost predicate AllCommitted(groups: seq<Group>) {
    forall i :: 0 <= i < |groups| ==> GroupOk(groups[i]) && groups[i].outcome.Committed?
  }

  lemma FrontCommitted(groups: seq<Group>)
    requires AllCommitted(groups) && groups != []
    ensures AllCommitted(groups[..|groups| - 1])
    ensures GroupOk(groups[|groups| - 1]) && groups[|groups| - 1].outcome.Committed?
  {
    hide GroupOk;
  }

  lemma NoGroups(start: nat)
    ensures Members([]) == [] && Ops([]) == [] && Inserted(start, []) == [] && Logged(start, []) == []
    ensures Numbered([], start) == [] && SequenceAfter(start, []) == start && LoggedOps([]) == []
  {
  }

  lemma {:induction false} InsertedInOrder(start: nat, groups: seq<Group>)
    requires AllCommitted(groups)
    ensures Inserted(start, groups) == Numbered(Ops(Members(groups)), start + 1)
    ensures SequenceAfter(start, groups) == start + |Ops(Members(groups))|
  {
    hide *;
    if groups == [] {
      NoGroups(start);
      NoGroups(start + 1);
    } else {
      var front, g := groups[..|groups| - 1], groups[|groups| - 1];
      FrontCommitted(groups);
      InsertedInOrder(start, front);
      assert groups == front + [g];
      AddGroup(start, front, g);
      OpsAppend(Members(front), g.members);
      CommittedGroup(g, 0);
      NumberedAppend(Ops(Members(front)), Ops(g.members), start + 1);
    }
  }

  lemma {:induction false} LoggedInOrder(start: nat, groups: seq<Group>)
    requires AllCommitted(groups)
    ensures LoggedOps(Logged(start, groups)) == Ops(Members(groups))
  {
    hide *;
    if groups == [] {
      NoGroups(start);
    } else {
      var front, g := groups[..|groups| - 1], groups[|groups| - 1];
      FrontCommitted(groups);
      LoggedInOrder(start, front);
      assert groups == front + [g];
      AddGroup(start, front, g);
      OpsAppend(Members(front), g.members);
      var sequence := SequenceAfter(start, front) + 1;
      CommittedGroup(g, sequence);
      if RecordOf(g, sequence) != [] {
        AddRecord(Logged(start, front), RecordOf(g, sequence)[0]);
      } else {
        assert Logged(start, groups) == Logged(start, front);
        assert Ops(Members(groups)) == Ops(Members(front));
      }
    }
  }

  lemma LeaderOrNothing(g: Group)
    requires GroupOk(g)
    ensures g.members != [] && (g.members[0].batch.None? ==> Ops(g.members) == [])
  {
    if g.members[0].batch.None? {
      AloneOps(g.members[0], 0);
      assert g.members == [g.members[0]];
    }
  }

  lemma {:induction false} SignalledInOrder(groups: seq<Group>)
    requires AllCommitted(groups)
    ensures Signals(groups) == Told(Members(groups), Committed)
  {
    if groups != [] {
      hide GroupOk, AllCommitted, Told;
      var front, g := groups[..|groups| - 1], groups[|groups| - 1];
      FrontCommitted(groups);
      SignalledInOrder(front);
      ToldAppend(Members(front), g.members, Committed);
    }
  }

  /** When all writes succeed, however they were grouped: each batch is logged and inserted exactly once,
      in queue order, at consecutive sequence numbers, and every writer is told once. */
  lemma EachOnceInOrder(start: nat, groups: seq<Group>)
    requires AllCommitted(groups)
    ensures Inserted(start, groups) == Numbered(Ops(Members(groups)), start + 1)
    ensures LoggedOps(Logged(start, groups)) == Ops(Members(groups))
    ensures SequenceAfter(start, groups) == start + |Ops(Members(groups))|
    ensures Signals(groups) == Told(Members(groups), Committed)
  {
    InsertedInOrder(start, groups);
    LoggedInOrder(start, groups);
    SignalledInOrder(groups);
  }

  lemma NumberedAppend(a: seq<Op>, b: seq<Op>, first: nat)
    ensures Numbered(a + b, first) == Numbered(a, first) + Numbered(b, first + |a|)
  {
  }

  lemma ToldAppend(a: seq<Writer>, b: seq<Writer>, outcome: Outcome)
    ensures Told(a + b, outcome) == Told(a, outcome) + Told(b, outcome)
  {
  }

  lemma AddRecord(log: seq<LogRecord>, r: LogRecord)
    ensures LoggedOps(log + [r]) == LoggedOps(log) + r.ops
  {
    assert (log + [r])[..|log|] == log;
  }

  /** Every sync write that was reported as committed stands in a log record that was synced. */
  lemma {:induction false} SyncWritesAreSynced(start: nat, groups: seq<Group>, i: nat, w: Writer)
    requires forall k :: 0 <= k < |groups| ==> GroupOk(groups[k])
    requires i < |groups| && w in groups[i].members && w.sync && w.batch.Some? && groups[i].outcome.Committed?
    ensures exists r :: r in Logged(start, groups) && r.synced && r.ops == Ops(groups[i].members)
  {
    var front, g := groups[..|groups| - 1], groups[|groups| - 1];
    if i < |front| {
      assert forall k :: 0 <= k < |front| ==> front[k] == groups[k];
      SyncWritesAreSynced(start, front, i, w);
    } else {
      var record := LogRecord(SequenceAfter(start, front) + 1, Ops(g.members), true);
      assert g.members[0].sync;
      assert record in Logged(start, groups);
    }
  }
}
