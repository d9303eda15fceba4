/** The plain history of writes: what the database is meant to hold at every sequence number. */
module History {
  import opened DbFormat
  import opened Wrappers
  import opened View

  /** What a sequence number was used for: an operation, or one that a crash lost from the log before it
      was on disk. */
  datatype Item = Put(user: UserKey, value: Value) | Delete(user: UserKey) | Lost

  type Op = i: Item | !i.Lost? witness Delete(0.0)

  /** The entry MemTableInserter adds for an operation at its sequence number. */
  function EntryOf(op: Op, sequence: nat): Entry {
    match op
    case Put(user, value) => Entry(InternalKey(user, sequence, TypeValue), value)
    case Delete(user) => Entry(InternalKey(user, sequence, TypeDeletion), "")
  }

  /** The key-value map after the first `s` operations. */
  function Replay(history: seq<Item>, s: nat): map<UserKey, Value>
    requires s <= |history|
  {
    if s == 0 then map[] else
      match history[s - 1]
      case Put(user, value) => Replay(history, s - 1)[user := value]
      case Delete(user) => Replay(history, s - 1) - {user}
      case Lost => Replay(history, s - 1)
  }

  /** What reading `user` at sequence number `s` must report. */
  function Expected(history: seq<Item>, user: UserKey, s: nat): Option<Value> {
    var m := Replay(history, if s <= |history| then s else |history|);
    if user in m then Some(m[user]) else None
  }

  lemma {:induction false} ReplayPrefix(history: seq<Item>, more: seq<Item>, s: nat)
    requires s <= |history|
    ensures Replay(history + more, s) == Replay(history, s)
  {
    if s > 0 {
      ReplayPrefix(history, more, s - 1);
    }
  }

  /** An entry is the one that operation number `sequence` of the history wrote. */
  ghost predicate Recorded(e: Entry, history: seq<Item>) {
    && 1 <= e.key.sequence <= |history| && !history[e.key.sequence - 1].Lost?
    && e == EntryOf(history[e.key.sequence - 1], e.key.sequence)
  }

  ghost predicate AllRecorded(entries: set<Entry>, history: seq<Item>) {
    forall e :: e in entries ==> Recorded(e, history)
  }

  ghost predicate AllRight(entries: set<Entry>, history: seq<Item>, floor: nat) {
    forall user, s :: floor <= s ==> Answer(entries, user, s, Expected(history, user, s))
  }

  /** One operation: its entry is added, and every reader at or above the floor sees the new history. */
  lemma AddOperation(entries: set<Entry>, history: seq<Item>, floor: nat, op: Op)
    requires AllRecorded(entries, history) && AllRight(entries, history, floor)
    ensures AllRecorded(entries + {EntryOf(op, |history| + 1)}, history + [op])
    ensures AllRight(entries + {EntryOf(op, |history| + 1)}, history + [op], floor)
  {
    var e := EntryOf(op, |history| + 1);
    var entries', history' := entries + {e}, history + [op];
    forall user, s | floor <= s
      ensures Answer(entries', user, s, Expected(history', user, s))
    {
      assert Answer(entries, user, s, Expected(history, user, s));
      if s <= |history| {
        ReplayPrefix(history, [op], s);
        assert !Sees(e, user, s);
        SameAnswer(entries, entries', user, s, Expected(history, user, s));
      } else {
        ReplayPrefix(history, [op], |history|);
        if op.user == user {
          assert Newest(entries', user, s, e);
        } else {
          SameAnswer(entries, entries', user, s, Expected(history, user, s));
        }
      }
    }
  }

  /** A lost operation leaves nothing behind. */
  lemma AddLost(entries: set<Entry>, history: seq<Item>, floor: nat)
    requires AllRecorded(entries, history) && AllRight(entries, history, floor)
    ensures AllRecorded(entries, history + [Lost]) && AllRight(entries, history + [Lost], floor)
  {
    hide Answer;
    forall user, s | floor <= s
      ensures Answer(entries, user, s, Expected(history + [Lost], user, s))
    {
      assert Answer(entries, user, s, Expected(history, user, s));
      ReplayPrefix(history, [Lost], if s <= |history| then s else |history|);
    }
  }

  /** Entries the reader does not see do not change the answer. */
  lemma SameAnswer(entries: set<Entry>, entries': set<Entry>, user: UserKey, s: nat, a: Option<Value>)
    requires Answer(entries, user, s, a)
    requires forall x :: Sees(x, user, s) ==> (x in entries <==> x in entries')
    ensures Answer(entries', user, s, a)
  {
    forall e | Newest(entries', user, s, e)
      ensures Newest(entries, user, s, e)
    {
    }
    assert NoneSeen(entries', user, s) ==> NoneSeen(entries, user, s);
  }
}
