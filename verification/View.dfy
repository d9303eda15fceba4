/** What a reader must see: for a user key at a sequence number, the newest visible entry. */
module View {
  import opened DbFormat
  import opened Wrappers

  predicate Sees(e: Entry, user: UserKey, s: nat) {
    e.key.user == user && e.key.sequence <= s
  }

  ghost predicate NoneSeen(entries: set<Entry>, user: UserKey, s: nat) {
    forall x :: x in entries ==> !Sees(x, user, s)
  }

  ghost predicate Newest(entries: set<Entry>, user: UserKey, s: nat, e: Entry) {
    e in entries && Sees(e, user, s) && forall x :: x in entries && Sees(x, user, s) ==> x.key.sequence <= e.key.sequence
  }

  /** `a` is what reading `user` at `s` must report when the database holds `entries`. */
  ghost predicate Answer(entries: set<Entry>, user: UserKey, s: nat, a: Option<Value>) {
    && (forall e :: Newest(entries, user, s, e) ==> a == Outcome(e))
    && (NoneSeen(entries, user, s) ==> a == None)
  }

  lemma {:induction false} NewestExists(entries: set<Entry>, user: UserKey, s: nat)
    requires !NoneSeen(entries, user, s)
    ensures exists e :: Newest(entries, user, s, e)
  {
    var x :| x in entries && Sees(x, user, s);
    var rest := entries - {x};
    if NoneSeen(rest, user, s) {
      assert forall y :: y in entries ==> y == x || y in rest;
      assert Newest(entries, user, s, x);
    } else {
      NewestExists(rest, user, s);
      var e :| Newest(rest, user, s, e);
      assert forall y :: y in entries ==> y == x || y in rest;
      assert Newest(entries, user, s, if x.key.sequence > e.key.sequence then x else e);
    }
  }

  /** There is at most one answer, so agreeing with `Answer` fixes what a reader reports. */
  lemma AnswerIsUnique(entries: set<Entry>, user: UserKey, s: nat, a: Option<Value>, b: Option<Value>)
    requires Answer(entries, user, s, a) && Answer(entries, user, s, b)
    ensures a == b
  {
    if !NoneSeen(entries, user, s) {
      NewestExists(entries, user, s);
    }
  }

  /** Seeking a sorted run to the lookup key finds its newest visible entry, if it has one. */
  lemma RunNewest(run: seq<Entry>, user: UserKey, s: nat, p: nat)
    requires Sorted(run) && IsLowerBound(run, LookupKey(user, s), p)
    ensures p < |run| && run[p].key.user == user ==>
              Sees(run[p], user, s) && forall x :: x in run && Sees(x, user, s) ==> x.key.sequence <= run[p].key.sequence
    ensures !(p < |run| && run[p].key.user == user) ==> forall x :: x in run ==> !Sees(x, user, s)
  {
    forall i | 0 <= i < |run|
      ensures i < p <==> run[i].key.user < user || (run[i].key.user == user && run[i].key.sequence > s)
    {
      LookupKeyBound(run[i].key, user, s);
    }
    forall i, j | 0 <= i < j < |run|
      ensures run[i].key.user < run[j].key.user || (run[i].key.user == run[j].key.user && run[j].key.sequence <= run[i].key.sequence)
    {
      LessIsLexicographic(run[i].key, run[j].key);
    }
  }
}
