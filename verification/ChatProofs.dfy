/**
 A successful offload is invisible, and readers always see the version cached last.
 */
module ChatProofs {
  import opened Prelude
  import opened ChatKeys
  import opened ChatStore

  // --------------------------------------------------------------------
  // Dictionaries of cached messages
  // --------------------------------------------------------------------

  ghost predicate DistinctTimes(ms: seq<Cached>) {
    forall i, j :: 0 <= i < j < |ms| ==> ms[i].ts != ms[j].ts
  }

  lemma {:induction false} FindPut(ms: seq<Cached>, ts: Timestamp, m: Message, t: Timestamp)
    ensures Find(Put(ms, ts, m), t) == if t == ts then Some(m) else Find(ms, t)
  {
    if ms != [] && ms[0].ts != ts { FindPut(ms[1..], ts, m, t); }
  }

  lemma {:induction false} PutMembers(ms: seq<Cached>, ts: Timestamp, m: Message)
    requires DistinctTimes(ms)
    ensures DistinctTimes(Put(ms, ts, m))
    ensures forall c :: c in Put(ms, ts, m) ==> c == Cached(ts, m) || (c in ms && c.ts != ts)
    ensures forall c :: c in Put(ms, ts, m) ==> c.ts == ts || exists d :: d in ms && d.ts == c.ts
  {
    if ms != [] {
      if ms[0].ts == ts {
        forall c | c in ms[1..] ensures c in ms && c.ts != ts {
          var i :| 0 <= i < |ms[1..]| && ms[1..][i] == c;
          assert ms[i + 1] == c;
        }
      } else {
        PutMembers(ms[1..], ts, m);
        var p := Put(ms[1..], ts, m);
        forall i | 0 <= i < |p| ensures p[i].ts != ms[0].ts {
          assert p[i] in p;
          if p[i] != Cached(ts, m) {
            var j :| 0 <= j < |ms[1..]| && ms[1..][j] == p[i];
            assert ms[j + 1] == p[i];
          }
        }
      }
    }
  }

  /** A new timestamp goes last. */
  lemma {:induction false} PutAppends(ms: seq<Cached>, ts: Timestamp, m: Message)
    requires forall i :: 0 <= i < |ms| ==> ms[i].ts != ts
    ensures Put(ms, ts, m) == ms + [Cached(ts, m)]
  {
    if ms != [] { PutAppends(ms[1..], ts, m); }
  }

  /** A known one keeps its place. */
  lemma {:induction false} PutReplaces(ms: seq<Cached>, ts: Timestamp, m: Message, i: nat)
    requires i < |ms| && ms[i].ts == ts && forall j :: 0 <= j < i ==> ms[j].ts != ts
    ensures Put(ms, ts, m) == ms[i := Cached(ts, m)]
  {
    if i > 0 {
      PutReplaces(ms[1..], ts, m, i - 1);
      assert [ms[0]] + ms[1..][i - 1 := Cached(ts, m)] == ms[i := Cached(ts, m)];
    }
  }

  lemma {:induction false} FindMember(ms: seq<Cached>, t: Timestamp)
    ensures Find(ms, t).Some? ==> Cached(t, Find(ms, t).value) in ms
    ensures Find(ms, t).None? ==> forall c :: c in ms ==> c.ts != t
  {
    if ms != [] { FindMember(ms[1..], t); }
  }

  lemma {:induction false} NotFound(ms: seq<Cached>, t: Timestamp)
    requires forall i :: 0 <= i < |ms| ==> ms[i].ts != t
    ensures Find(ms, t) == None
  {
    if ms != [] { NotFound(ms[1..], t); }
  }

  lemma {:induction false} FindUnique(ms: seq<Cached>, c: Cached)
    requires DistinctTimes(ms) && c in ms
    ensures Find(ms, c.ts) == Some(c.message)
  {
    if ms[0] != c {
      assert c in ms[1..];
      FindUnique(ms[1..], c);
      var i :| 0 <= i < |ms[1..]| && ms[1..][i] == c;
      assert ms[i + 1] == c && ms[0].ts != c.ts;
    }
  }

  // --------------------------------------------------------------------
  // Stored rows
  // --------------------------------------------------------------------

  lemma {:induction false} LatestAppend(x: seq<Row>, y: seq<Row>, key: string, ts: Timestamp)
    ensures LatestRow(x + y, key, ts) ==
            if LatestRow(y, key, ts).Some? then LatestRow(y, key, ts) else LatestRow(x, key, ts)
    decreases |y|
  {
    if y == [] {
      assert x + y == x;
    } else {
      assert (x + y)[..|x + y| - 1] == x + y[..|y| - 1];
      LatestAppend(x, y[..|y| - 1], key, ts);
    }
  }

  lemma {:induction false} LatestMember(rows: seq<Row>, key: string, ts: Timestamp)
    ensures
      var r := LatestRow(rows, key, ts);
      r.Some? ==> r.value in rows && r.value.Key() == key && r.value.ts == ts
  {
    if rows != [] { LatestMember(rows[..|rows| - 1], key, ts); }
  }

  /** An update shows in a latest row exactly when it names that row. */
  lemma {:induction false} LatestUpdated(rows: seq<Row>, id: nat, c: Content, key: string, ts: Timestamp)
    ensures |UpdateRow(rows, id, c)| == |rows|
    ensures LatestRow(UpdateRow(rows, id, c), key, ts) ==
            match LatestRow(rows, key, ts)
            case None => None
            case Some(r) => Some(if r.id == id then r.(content := c) else r)
    decreases |rows|
  {
    if rows != [] {
      var front, last := rows[..|rows| - 1], rows[|rows| - 1];
      assert rows == front + [last];
      UpdateAppend(front, last, id, c);
      LatestUpdated(front, id, c, key, ts);
      var u := UpdateRow(front, id, c);
      var l := if last.id == id then last.(content := c) else last;
      assert (u + [l])[..|u|] == u;
    }
  }

  lemma {:induction false} UpdateAppend(rows: seq<Row>, r: Row, id: nat, c: Content)
    ensures UpdateRow(rows + [r], id, c) ==
            UpdateRow(rows, id, c) + [if r.id == id then r.(content := c) else r]
  {
    if rows == [] {
      assert rows + [r] == [r] && [r][1..] == [];
    } else {
      assert (rows + [r])[1..] == rows[1..] + [r];
      UpdateAppend(rows[1..], r, id, c);
    }
  }

  /** The content a row has after all updates of the messages. */
  function Overwritten(c: Content, id: nat, ms: seq<Cached>): Content
    decreases |ms|
  {
    if ms == [] then c
    else
      var m := ms[0].message;
      Overwritten(if m.HasId() && m.id.value == id then m.content else c, id, ms[1..])
  }

  lemma {:induction false} LatestAfterUpdates(rows: seq<Row>, ms: seq<Cached>, key: string, ts: Timestamp)
    ensures LatestRow(UpdateAll(rows, ms), key, ts) ==
            match LatestRow(rows, key, ts)
            case None => None
            case Some(r) => Some(r.(content := Overwritten(r.content, r.id, ms)))
    decreases |ms|
  {
    if ms != [] {
      var m := ms[0].message;
      if m.HasId() { LatestUpdated(rows, m.id.value, m.content, key, ts); }
      LatestAfterUpdates(if m.HasId() then UpdateRow(rows, m.id.value, m.content) else rows, ms[1..], key, ts);
    }
  }

  /** The cached message is an update of row `id`; an id of zero is none. */
  predicate Names(c: Cached, id: nat) {
    id != 0 && c.message.id == Some(id)
  }

  lemma {:induction false} OverwrittenByNone(c: Content, id: nat, ms: seq<Cached>)
    requires forall i :: 0 <= i < |ms| ==> !Names(ms[i], id)
    ensures Overwritten(c, id, ms) == c
    decreases |ms|
  {
    if ms != [] { OverwrittenByNone(c, id, ms[1..]); }
  }

  lemma {:induction false} OverwrittenByOne(c: Content, id: nat, ms: seq<Cached>, k: nat)
    requires k < |ms| && Names(ms[k], id)
    requires forall i :: 0 <= i < |ms| && i != k ==> !Names(ms[i], id)
    ensures Overwritten(c, id, ms) == ms[k].message.content
    decreases |ms|
  {
    if k == 0 {
      OverwrittenByNone(ms[0].message.content, id, ms[1..]);
    } else {
      OverwrittenByOne(c, id, ms[1..], k - 1);
    }
  }

  /** New rows are numbered from `next` on. */
  lemma {:induction false} NewRowsIds(ms: seq<Cached>, thread: nat, next: nat, i: nat)
    requires i < |NewRows(ms, thread, next)|
    ensures NewRows(ms, thread, next)[i].id == next + i
  {
    if ms[0].message.HasId() {
      NewRowsIds(ms[1..], thread, next, i);
    } else if i > 0 {
      NewRowsIds(ms[1..], thread, next + 1, i - 1);
    }
  }

  lemma {:induction false} LatestNew(ms: seq<Cached>, key: string, thread: nat, next: nat, k: string, t: Timestamp)
    requires DistinctTimes(ms) && forall c :: c in ms ==> c.message.Key() == key
    ensures
      var r := LatestRow(NewRows(ms, thread, next), k, t);
      match Find(ms, t)
      case Some(m) => if k == key && !m.HasId() then r.Some? && r.value.content == m.content else r == None
      case None => r == None
  {
    if ms != [] {
      var Cached(ts, m) := ms[0];
      var rest := ms[1..];
      LatestNew(rest, key, thread, next, k, t);
      LatestNew(rest, key, thread, next + 1, k, t);
      NotFound(rest, ts);
      if !m.HasId() {
        var r := Row(next, thread, m.sender, m.recipient, ts, m.content);
        LatestAppend([r], NewRows(rest, thread, next + 1), k, t);
        assert [r][..0] == [];
        assert LatestRow([r], k, t) == if r.Key() == k && r.ts == t then Some(r) else None;
      }
    }
  }

  // --------------------------------------------------------------------
  // Threads
  // --------------------------------------------------------------------

  lemma {:induction false} FindThreadMeaning(threads: seq<Thread>, a: nat, b: nat)
    ensures
      match FindThread(threads, a, b)
      case Some(t) => t in threads && a in t.participants && b in t.participants
      case None => forall i :: 0 <= i < |threads| ==> !({a, b} <= threads[i].participants)
  {
    if threads != [] {
      FindThreadMeaning(threads[1..], a, b);
      if FindThread(threads, a, b).None? {
        forall i | 0 <= i < |threads| ensures !({a, b} <= threads[i].participants) {
          if i > 0 { assert threads[i] == threads[1..][i - 1]; }
        }
      }
    }
  }

  ghost predicate UniqueThreads(threads: seq<Thread>) {
    forall i, j :: 0 <= i < j < |threads| ==> threads[i].participants != threads[j].participants
  }

  /** As created by the application: one or two participants. */
  ghost predicate SmallThreads(threads: seq<Thread>) {
    forall t :: t in threads ==> |t.participants| <= 2
  }

  /** There is never a second thread for the same participants; for two distinct
      users the thread found or created is theirs. */
  lemma ThreadOfPair(s: Store, a: nat, b: nat)
    requires UniqueThreads(s.threads) && SmallThreads(s.threads)
    ensures
      var (t, id) := GetOrCreateThread(s, a, b);
      && UniqueThreads(t.threads) && SmallThreads(t.threads)
      && exists x :: x in t.threads && x.id == id && {a, b} <= x.participants && (a != b ==> x.participants == {a, b})
  {
    FindThreadMeaning(s.threads, a, b);
    var (t, id) := GetOrCreateThread(s, a, b);
    match FindThread(s.threads, a, b)
    case Some(x) =>
      if a != b { PairFills(x.participants, a, b); }
    case None =>
      var x := Thread(s.next, {a, b});
      assert t.threads[|s.threads|] == x && x in t.threads;
      assert |{a, b}| <= 2;
  }

  lemma PairFills(s: set<nat>, a: nat, b: nat)
    requires a in s && b in s && a != b && |s| <= 2
    ensures s == {a, b}
  {
    var rest := s - {a} - {b};
    assert s == {a, b} + rest;
    assert |s| == |{a, b}| + |rest|;
    assert |{a, b}| == 2;
    assert rest == {};
  }

  /** With oneself the lookup may return a thread shared with somebody else:
      exactly when the first thread the user takes part in has another member. */
  lemma SelfThreadIff(s: Store, a: nat)
    ensures
      var found := FindThread(s.threads, a, a);
      (found.Some? && found.value.participants != {a}) <==>
      exists i :: 0 <= i < |s.threads| && a in s.threads[i].participants && s.threads[i].participants != {a}
                  && forall j :: 0 <= j < i ==> a !in s.threads[j].participants
  {
    FindThreadFirst(s.threads, a);
    FindThreadMeaning(s.threads, a, a);
  }

  lemma {:induction false} FindThreadFirst(threads: seq<Thread>, a: nat)
    ensures
      match FindThread(threads, a, a)
      case Some(t) => exists i :: 0 <= i < |threads| && threads[i] == t && a in t.participants
                                 && forall j :: 0 <= j < i ==> a !in threads[j].participants
      case None => true
  {
    if threads != [] && a !in threads[0].participants {
      FindThreadFirst(threads[1..], a);
      match FindThread(threads[1..], a, a)
      case None =>
      case Some(t) =>
        var i :| 0 <= i < |threads[1..]| && threads[1..][i] == t && a in t.participants
                 && forall j :: 0 <= j < i ==> a !in threads[1..][j].participants;
        forall j | 0 <= j < i + 1 ensures a !in threads[j].participants {
          if j > 0 { assert threads[j] == threads[1..][j - 1]; }
        }
        assert threads[i + 1] == t;
    }
  }

  // --------------------------------------------------------------------
  // Offload
  // --------------------------------------------------------------------

  /** An offload is that of the dialogue its key names. */
  lemma OffloadOf(s: Store, a: nat, b: nat)
    ensures
      var key := DialogueKey(a, b);
      var ms := s.Pending(key);
      var (s1, thread) := GetOrCreateThread(s.(cache := s.cache - {key}), Low(a, b), High(a, b));
      Offload(s, key) == Some(
        if ms == [] then s
        else s1.(rows := UpdateAll(s1.rows, ms) + NewRows(ms, thread, s1.next),
                 next := s1.next + |NewRows(ms, thread, s1.next)|))
  {
    KeyRoundTrip(a, b);
    hide ParseKey, KeyText;
  }

  /** Every id in the dialogue names the latest row of its own timestamp, so an
      update reaches one row: that one. */
  lemma UpdatesReachOwnRow(s: Store, key: string, k: string, t: Timestamp)
    requires WellCached(s, key) && LatestRow(s.rows, k, t).Some?
    requires forall i, j :: 0 <= i < j < |s.rows| ==> s.rows[i].id != s.rows[j].id
    ensures
      var r := LatestRow(s.rows, k, t).value;
      var found := Find(s.Pending(key), t);
      Overwritten(r.content, r.id, s.Pending(key)) ==
      if k == key && found.Some? && found.value.HasId() then found.value.content else r.content
  {
    var ms, r := s.Pending(key), LatestRow(s.rows, k, t).value;
    LatestMember(s.rows, k, t);
    forall i | 0 <= i < |ms| && Names(ms[i], r.id)
      ensures k == key && ms[i].ts == t && Find(ms, t) == Some(ms[i].message)
    {
      assert ms[i] in ms;
      LatestMember(s.rows, key, ms[i].ts);
      SameId(s.rows, r, LatestRow(s.rows, key, ms[i].ts).value);
      FindUnique(ms, ms[i]);
    }
    var found := Find(ms, t);
    if k == key && found.Some? && found.value.HasId() {
      FindMember(ms, t);
      var c := Cached(t, found.value);
      assert NamesLatest(s, c.message, t);
      var j :| 0 <= j < |ms| && ms[j] == c;
      assert forall i :: 0 <= i < |ms| && i != j ==> !Names(ms[i], r.id);
      OverwrittenByOne(r.content, r.id, ms, j);
    } else {
      assert forall i :: 0 <= i < |ms| ==> !Names(ms[i], r.id);
      OverwrittenByNone(r.content, r.id, ms);
    }
  }

  lemma SameId(rows: seq<Row>, x: Row, y: Row)
    requires x in rows && y in rows && x.id == y.id
    requires forall i, j :: 0 <= i < j < |rows| ==> rows[i].id != rows[j].id
    ensures x == y
  {
    var i :| 0 <= i < |rows| && rows[i] == x;
    var j :| 0 <= j < |rows| && rows[j] == y;
  }

  /** A successful offload changes nothing a reader of cache and database sees, in
      any dialogue and at any timestamp. */
  lemma {:induction false} OffloadView(s: Store, a: nat, b: nat, k: string, t: Timestamp)
    requires Valid(s)
    ensures Offload(s, DialogueKey(a, b)).Some?
    ensures View(Offload(s, DialogueKey(a, b)).value, k, t) == View(s, k, t)
  {
    hide ParseKey, DialogueKey, UpdateAll, NewRows, LatestRow, Offload, Overwritten;
    var key := DialogueKey(a, b);
    var ms := s.Pending(key);
    OffloadOf(s, a, b);
    if ms != [] {
      var (s1, thread) := GetOrCreateThread(s.(cache := s.cache - {key}), Low(a, b), High(a, b));
      var added := NewRows(ms, thread, s1.next);
      var after := Offload(s, key).value;
      assert key in s.cache && WellCached(s, key);
      LatestAppend(UpdateAll(s.rows, ms), added, k, t);
      LatestAfterUpdates(s.rows, ms, k, t);
      LatestNew(ms, key, thread, s1.next, k, t);
      if LatestRow(s.rows, k, t).Some? {
        UpdatesReachOwnRow(s, key, k, t);
      } else if k == key && Find(ms, t).Some? {
        FindMember(ms, t);
        assert NamesLatest(s, Find(ms, t).value, t);
      }
      assert after.Pending(k) == if k == key then [] else s.Pending(k);
    }
  }
}
