/**
 Offloaded messages are filed under the thread of their two participants.
 */
module ChatThreads {
  import opened ChatKeys
  import opened ChatStore
  import opened ChatProofs
  import opened ChatRuns

  /** The thread holds both parties, and nobody else when they are two. */
  predicate Fits(t: Thread, r: Row) {
    && t.id == r.thread && {r.sender, r.recipient} <= t.participants
    && (r.sender != r.recipient ==> t.participants == {r.sender, r.recipient})
  }

  predicate Filed(threads: seq<Thread>, r: Row) {
    exists t :: t in threads && Fits(t, r)
  }

  ghost predicate AllFiled(s: Store) {
    forall r :: r in s.rows ==> Filed(s.threads, r)
  }

  predicate SameParties(r: Row, q: Row) {
    r.thread == q.thread && r.sender == q.sender && r.recipient == q.recipient
  }

  lemma {:induction false} UpdateKeepsParties(rows: seq<Row>, id: nat, c: Content)
    ensures forall r :: r in UpdateRow(rows, id, c) ==> exists q :: q in rows && SameParties(r, q)
  {
    if rows != [] {
      UpdateKeepsParties(rows[1..], id, c);
      var first := if rows[0].id == id then rows[0].(content := c) else rows[0];
      forall r | r in UpdateRow(rows, id, c) ensures exists q :: q in rows && SameParties(r, q) {
        if r == first {
          assert rows[0] in rows && SameParties(r, rows[0]);
        } else {
          assert r in UpdateRow(rows[1..], id, c);
          var q :| q in rows[1..] && SameParties(r, q);
          assert q in rows;
        }
      }
    }
  }

  lemma {:induction false} UpdatesKeepParties(rows: seq<Row>, ms: seq<Cached>)
    ensures forall r :: r in UpdateAll(rows, ms) ==> exists q :: q in rows && SameParties(r, q)
    decreases |ms|
  {
    if ms == [] {
      forall r | r in rows ensures exists q :: q in rows && SameParties(r, q) { assert SameParties(r, r); }
    } else {
      var m := ms[0].message;
      hide UpdateRow;
      var rows1 := if m.HasId() then UpdateRow(rows, m.id.value, m.content) else rows;
      UpdatesKeepParties(rows1, ms[1..]);
      assert UpdateAll(rows, ms) == UpdateAll(rows1, ms[1..]);
      forall r | r in UpdateAll(rows, ms) ensures exists q :: q in rows && SameParties(r, q) {
        var p :| p in rows1 && SameParties(r, p);
        if m.HasId() {
          UpdateKeepsParties(rows, m.id.value, m.content);
          var q :| q in rows && SameParties(p, q);
          assert SameParties(r, q);
        }
      }
    }
  }

  lemma {:induction false} NewRowsParties(ms: seq<Cached>, thread: nat, next: nat, r: Row)
    requires r in NewRows(ms, thread, next)
    ensures r.thread == thread
    ensures exists c :: c in ms && c.message.sender == r.sender && c.message.recipient == r.recipient
  {
    var Cached(ts, m) := ms[0];
    var rest := if m.HasId() then NewRows(ms[1..], thread, next) else NewRows(ms[1..], thread, next + 1);
    if r in rest {
      NewRowsParties(ms[1..], thread, if m.HasId() then next else next + 1, r);
      var c :| c in ms[1..] && c.message.sender == r.sender && c.message.recipient == r.recipient;
      assert c in ms;
    } else {
      assert ms[0] in ms;
    }
  }

  /** A row of a dialogue fits a thread of its pair. */
  lemma FitsPair(t: Thread, r: Row, a: nat, b: nat)
    requires r.Key() == DialogueKey(a, b) && t.id == r.thread
    requires {Low(a, b), High(a, b)} <= t.participants
    requires Low(a, b) != High(a, b) ==> t.participants == {Low(a, b), High(a, b)}
    ensures Fits(t, r)
  {
    KeyOfPair(r.sender, r.recipient, a, b);
    assert {r.sender, r.recipient} == {Low(a, b), High(a, b)};
  }

  lemma {:induction false} OffloadFiles(s: Store, a: nat, b: nat)
    requires Valid(s) && SmallThreads(s.threads) && AllFiled(s)
    ensures Offload(s, DialogueKey(a, b)).Some? && AllFiled(Offload(s, DialogueKey(a, b)).value)
  {
    hide DialogueKey, ParseKey, UpdateAll, NewRows, Fits, NamesLatest;
    var key := DialogueKey(a, b);
    var ms := s.Pending(key);
    OffloadOf(s, a, b);
    if ms != [] {
      var s0 := s.(cache := s.cache - {key});
      var (s1, thread) := GetOrCreateThread(s0, Low(a, b), High(a, b));
      var added := NewRows(ms, thread, s1.next);
      var t := Offload(s, key).value;
      ThreadOfPair(s0, Low(a, b), High(a, b));
      var x :| x in s1.threads && x.id == thread && {Low(a, b), High(a, b)} <= x.participants
               && (Low(a, b) != High(a, b) ==> x.participants == {Low(a, b), High(a, b)});
      assert WellCached(s, key);
      forall r | r in t.rows ensures Filed(t.threads, r) {
        if r in added {
          NewRowsParties(ms, thread, s1.next, r);
          var c :| c in ms && c.message.sender == r.sender && c.message.recipient == r.recipient;
          assert r.Key() == c.message.Key();
          FitsPair(x, r, a, b);
        } else {
          UpdatesKeepParties(s.rows, ms);
          var q :| q in s.rows && SameParties(r, q);
          StaysFiled(s.threads, t.threads, q, r);
        }
      }
    }
  }

  lemma StaysFiled(before: seq<Thread>, after: seq<Thread>, q: Row, r: Row)
    requires Filed(before, q) && SameParties(r, q) && before <= after
    ensures Filed(after, r)
  {
    var t :| t in before && Fits(t, q);
    assert t in after && Fits(t, r);
  }

  lemma {:induction false} RunFiles(s: Store, ops: seq<Op>)
    requires Valid(s) && SmallThreads(s.threads) && AllFiled(s) && AllEnabled(s, ops)
    ensures AllFiled(Run(s, ops))
    decreases |ops|
  {
    if ops != [] {
      hide Valid, SmallThreads, Offload;
      StepKeepsValid(s, ops[0]);
      if ops[0].OffloadPair? { OffloadFiles(s, ops[0].a, ops[0].b); }
      RunFiles(Step(s, ops[0]), ops[1..]);
    }
  }

  /** In every reachable state each stored message belongs to a thread of its
      sender and recipient, and for two distinct users to no larger one. */
  lemma EveryRowIsFiled(ops: seq<Op>, r: Row)
    requires AllEnabled(EMPTY, ops) && r in Run(EMPTY, ops).rows
    ensures Filed(Run(EMPTY, ops).threads, r)
  {
    RunFiles(EMPTY, ops);
  }

  // --------------------------------------------------------------------
  // Thread ids
  // --------------------------------------------------------------------

  /** Each thread has an id of its own, handed out already. */
  ghost predicate Numbered(s: Store) {
    && (forall t :: t in s.threads ==> t.id < s.next)
    && forall i, j :: 0 <= i < j < |s.threads| ==> s.threads[i].id != s.threads[j].id
  }

  lemma ThreadIds(s: Store, a: nat, b: nat)
    requires Numbered(s)
    ensures var t := GetOrCreateThread(s, a, b).0; Numbered(t) && s.threads <= t.threads && s.next <= t.next
  {
    var t := GetOrCreateThread(s, a, b).0;
    forall i | 0 <= i < |s.threads| ensures s.threads[i].id < s.next { assert s.threads[i] in s.threads; }
    forall x | x in t.threads ensures x.id < t.next {
      var i :| 0 <= i < |t.threads| && t.threads[i] == x;
    }
  }

  lemma StepKeepsNumbered(s: Store, op: Op)
    requires Numbered(s)
    ensures Numbered(Step(s, op))
  {
    hide ParseKey, DialogueKey, UpdateAll, NewRows, GetOrCreateThread;
    if op.OffloadPair? {
      var key, x, y := DialogueKey(op.a, op.b), Low(op.a, op.b), High(op.a, op.b);
      OffloadOf(s, op.a, op.b);
      ThreadIds(s.(cache := s.cache - {key}), x, y);
    }
  }

  lemma {:induction false} RunKeepsNumbered(s: Store, ops: seq<Op>)
    requires Numbered(s)
    ensures Numbered(Run(s, ops))
    decreases |ops|
  {
    if ops != [] {
      hide Numbered, Step;
      StepKeepsNumbered(s, ops[0]);
      RunKeepsNumbered(Step(s, ops[0]), ops[1..]);
    }
  }

  lemma SameThread(threads: seq<Thread>, t: Thread, x: Thread)
    requires forall i, j :: 0 <= i < j < |threads| ==> threads[i].id != threads[j].id
    requires t in threads && x in threads && t.id == x.id
    ensures t == x
  {
    var i :| 0 <= i < |threads| && threads[i] == t;
    var j :| 0 <= j < |threads| && threads[j] == x;
  }

  lemma SamePair(threads: seq<Thread>, t: Thread, x: Thread)
    requires UniqueThreads(threads) && t in threads && x in threads && t.participants == x.participants
    ensures t == x
  {
    var i :| 0 <= i < |threads| && threads[i] == t;
    var j :| 0 <= j < |threads| && threads[j] == x;
  }

  /** In every reachable state no two threads have the same id, and two stored messages,
      each between two different users, carry the same thread id exactly when they are
      between the same two. */
  lemma ThreadIdsTellPairs(ops: seq<Op>, r: Row, q: Row)
    requires AllEnabled(EMPTY, ops) && r in Run(EMPTY, ops).rows && q in Run(EMPTY, ops).rows
    requires r.sender != r.recipient && q.sender != q.recipient
    ensures
      var threads := Run(EMPTY, ops).threads;
      && (forall i, j :: 0 <= i < j < |threads| ==> threads[i].id != threads[j].id)
      && (r.thread == q.thread <==> {r.sender, r.recipient} == {q.sender, q.recipient})
  {
    hide Run, AllEnabled;
    var s := Run(EMPTY, ops);
    RunKeepsNumbered(EMPTY, ops);
    ViewIsLastVersion(ops, "", "");
    EveryRowIsFiled(ops, r);
    EveryRowIsFiled(ops, q);
    var t :| t in s.threads && Fits(t, r);
    var x :| x in s.threads && Fits(x, q);
    if r.thread == q.thread { SameThread(s.threads, t, x); }
    if {r.sender, r.recipient} == {q.sender, q.recipient} { SamePair(s.threads, t, x); }
  }
}
