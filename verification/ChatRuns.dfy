/**
 The chat store over whole runs: what readers of cache and database see.
 */
module ChatRuns {
  import opened Prelude
  import opened ChatKeys
  import opened ChatStore
  import opened ChatProofs

  // --------------------------------------------------------------------
  // Every operation keeps the store valid
  // --------------------------------------------------------------------

  lemma {:induction false} UpdateKeepsIds(rows: seq<Row>, id: nat, c: Content)
    ensures |UpdateRow(rows, id, c)| == |rows|
    ensures forall i :: 0 <= i < |rows| ==> UpdateRow(rows, id, c)[i].id == rows[i].id
  {
    if rows != [] {
      UpdateKeepsIds(rows[1..], id, c);
      var u := UpdateRow(rows, id, c);
      forall i | 0 < i < |rows| ensures u[i].id == rows[i].id {
        assert u[i] == UpdateRow(rows[1..], id, c)[i - 1];
      }
    }
  }

  lemma {:induction false} UpdatesKeepIds(rows: seq<Row>, ms: seq<Cached>)
    ensures |UpdateAll(rows, ms)| == |rows|
    ensures forall i :: 0 <= i < |rows| ==> UpdateAll(rows, ms)[i].id == rows[i].id
    decreases |ms|
  {
    if ms != [] {
      var m := ms[0].message;
      if m.HasId() { UpdateKeepsIds(rows, m.id.value, m.content); }
      UpdatesKeepIds(if m.HasId() then UpdateRow(rows, m.id.value, m.content) else rows, ms[1..]);
    }
  }

  lemma {:induction false} CacheKeepsValid(s: Store, m: Message, ts: Timestamp)
    requires Valid(s) && NamesLatest(s, m, ts)
    ensures Valid(CacheDialogue(s, m, ts))
  {
    var t := CacheDialogue(s, m, ts);
    forall k | k in t.cache ensures WellCached(t, k) {
      if k == m.Key() {
        assert s.Pending(k) == [] || WellCached(s, k);
        PutMembers(s.Pending(k), ts, m);
      } else {
        assert WellCached(s, k) && t.Pending(k) == s.Pending(k);
      }
    }
  }

  lemma {:induction false} OffloadKeepsRows(s: Store, a: nat, b: nat)
    requires Valid(s) && SmallThreads(s.threads)
    ensures Offload(s, DialogueKey(a, b)).Some?
    ensures
      var t := Offload(s, DialogueKey(a, b)).value;
      && (forall i, j :: 0 <= i < j < |t.rows| ==> t.rows[i].id != t.rows[j].id)
      && (forall r :: r in t.rows ==> r.id < t.next)
      && UniqueThreads(t.threads) && SmallThreads(t.threads)
  {
    hide UpdateAll, NewRows, DialogueKey, FindThread, WellCached;
    var key := DialogueKey(a, b);
    var ms := s.Pending(key);
    OffloadOf(s, a, b);
    if ms != [] {
      var rest := s.(cache := s.cache - {key});
      var (s1, thread) := GetOrCreateThread(rest, Low(a, b), High(a, b));
      ThreadOfPair(rest, Low(a, b), High(a, b));
      var added := NewRows(ms, thread, s1.next);
      UpdatesKeepIds(s.rows, ms);
      forall i | 0 <= i < |added| ensures added[i].id == s1.next + i { NewRowsIds(ms, thread, s1.next, i); }
      AppendedIds(s.rows, UpdateAll(s1.rows, ms), added, s1.next);
    }
  }

  /** Appending rows numbered from `next` keeps the ids distinct. */
  lemma AppendedIds(rows: seq<Row>, updated: seq<Row>, added: seq<Row>, next: nat)
    requires forall i, j :: 0 <= i < j < |rows| ==> rows[i].id != rows[j].id
    requires forall r :: r in rows ==> r.id < next
    requires |updated| == |rows| && forall i :: 0 <= i < |rows| ==> updated[i].id == rows[i].id
    requires forall i :: 0 <= i < |added| ==> added[i].id == next + i
    ensures
      var all := updated + added;
      && (forall i, j :: 0 <= i < j < |all| ==> all[i].id != all[j].id)
      && (forall r :: r in all ==> r.id < next + |added|)
  {
    var all := updated + added;
    forall i | 0 <= i < |rows| ensures updated[i].id < next { assert rows[i] in rows; }
    assert forall i :: 0 <= i < |all| ==>
      all[i].id == if i < |rows| then rows[i].id else next + (i - |rows|);
  }

  lemma {:induction false} OffloadKeepsCached(s: Store, a: nat, b: nat, k: string)
    requires Valid(s) && k != DialogueKey(a, b) && k in s.cache
    ensures Offload(s, DialogueKey(a, b)).Some? && WellCached(Offload(s, DialogueKey(a, b)).value, k)
  {
    var key := DialogueKey(a, b);
    var ms := s.Pending(key);
    OffloadOf(s, a, b);
    if ms != [] {
      var (s1, thread) := GetOrCreateThread(s.(cache := s.cache - {key}), Low(a, b), High(a, b));
      var t := Offload(s, key).value;
      assert t.Pending(k) == s.Pending(k) && WellCached(s, k) && WellCached(s, key);
      forall c | c in t.Pending(k) ensures NamesLatest(t, c.message, c.ts) {
        LatestAppend(UpdateAll(s.rows, ms), NewRows(ms, thread, s1.next), k, c.ts);
        LatestAfterUpdates(s.rows, ms, k, c.ts);
        LatestNew(ms, key, thread, s1.next, k, c.ts);
      }
    } else {
      assert WellCached(s, k);
    }
  }

  lemma {:induction false} OffloadKeepsValid(s: Store, a: nat, b: nat)
    requires Valid(s) && SmallThreads(s.threads)
    ensures Offload(s, DialogueKey(a, b)).Some?
    ensures Valid(Offload(s, DialogueKey(a, b)).value) && SmallThreads(Offload(s, DialogueKey(a, b)).value.threads)
  {
    hide WellCached, UniqueThreads;
    var key := DialogueKey(a, b);
    OffloadKeepsRows(s, a, b);
    OffloadOf(s, a, b);
    var t := Offload(s, key).value;
    forall k | k in t.cache ensures WellCached(t, k) {
      if k != key { OffloadKeepsCached(s, a, b, k); }
    }
    assert UniqueThreads(t.threads) ==>
      forall i, j :: 0 <= i < j < |t.threads| ==> t.threads[i].participants != t.threads[j].participants by {
      ThreadsDiffer(t.threads);
    }
  }

  lemma ThreadsDiffer(threads: seq<Thread>)
    ensures UniqueThreads(threads) ==>
      forall i, j :: 0 <= i < j < |threads| ==> threads[i].participants != threads[j].participants
  {
  }

  /** An offload leaves nothing of its dialogue in the cache. */
  lemma OffloadEmptiesDialogue(s: Store, a: nat, b: nat)
    ensures Offload(s, DialogueKey(a, b)).Some?
    ensures Offload(s, DialogueKey(a, b)).value.Pending(DialogueKey(a, b)) == []
  {
    hide ParseKey, DialogueKey, UpdateAll, NewRows, Offload;
    OffloadOf(s, a, b);
  }

  // --------------------------------------------------------------------
  // Runs
  // --------------------------------------------------------------------

  datatype Op =
    | CacheMessage(m: Message, ts: Timestamp)
    | DeliveryFailed(m: Message, ts: Timestamp, user: nat)
    | OffloadPair(a: nat, b: nat)
    | FillPool(user: nat, tokens: seq<string>, replace: bool)

  function Step(s: Store, op: Op): Store {
    match op
    case CacheMessage(m, ts) => CacheDialogue(s, m, ts)
    case DeliveryFailed(m, ts, user) => Undelivered(s, m, ts, user)
    case OffloadPair(a, b) => (match Offload(s, DialogueKey(a, b)) case None => s case Some(t) => t)
    case FillPool(user, tokens, replace) => AddTokens(s, user, tokens, replace)
  }

  /** Messages are new or carry the id of the latest row of their timestamp. */
  predicate Enabled(s: Store, op: Op) {
    op.CacheMessage? || op.DeliveryFailed? ==> NamesLatest(s, op.m, op.ts)
  }

  predicate Caches(op: Op, key: string, ts: Timestamp) {
    (op.CacheMessage? || op.DeliveryFailed?) && op.m.Key() == key && op.ts == ts
  }

  lemma {:induction false} StepKeepsValid(s: Store, op: Op)
    requires Valid(s) && SmallThreads(s.threads) && Enabled(s, op)
    ensures Valid(Step(s, op)) && SmallThreads(Step(s, op).threads)
  {
    hide NamesLatest;
    match op
    case CacheMessage(m, ts) => CacheKeepsValid(s, m, ts);
    case DeliveryFailed(m, ts, user) =>
      CacheKeepsValid(s, m, ts);
      PoolsKeepValid(CacheDialogue(s, m, ts), user, [Token(m.Key(), ts)], false);
    case OffloadPair(a, b) => OffloadKeepsValid(s, a, b);
    case FillPool(user, tokens, replace) => PoolsKeepValid(s, user, tokens, replace);
  }

  lemma PoolsKeepValid(s: Store, user: nat, tokens: seq<string>, replace: bool)
    requires Valid(s)
    ensures Valid(AddTokens(s, user, tokens, replace))
  {
    var t := AddTokens(s, user, tokens, replace);
    forall k | k in t.cache ensures WellCached(t, k) {
      assert WellCached(s, k) && t.Pending(k) == s.Pending(k);
    }
  }

  /** Caching a message is the only operation that changes what readers see, and
      only at that message's dialogue and timestamp. */
  lemma {:induction false} StepView(s: Store, op: Op, key: string, ts: Timestamp)
    requires Valid(s) && Enabled(s, op)
    ensures View(Step(s, op), key, ts) == if Caches(op, key, ts) then Some(op.m.content) else View(s, key, ts)
  {
    match op
    case CacheMessage(m, t) => FindPut(s.Pending(m.Key()), t, m, ts);
    case DeliveryFailed(m, t, user) => FindPut(s.Pending(m.Key()), t, m, ts);
    case OffloadPair(a, b) => OffloadView(s, a, b, key, ts);
    case FillPool(user, tokens, replace) =>
  }

  function Run(s: Store, ops: seq<Op>): Store
    decreases |ops|
  {
    if ops == [] then s else Run(Step(s, ops[0]), ops[1..])
  }

  predicate AllEnabled(s: Store, ops: seq<Op>)
    decreases |ops|
  {
    ops == [] || (Enabled(s, ops[0]) && AllEnabled(Step(s, ops[0]), ops[1..]))
  }

  /** The last version cached for a timestamp during the run. */
  function LastVersion(ops: seq<Op>, key: string, ts: Timestamp): Option<Content> {
    if ops == [] then None
    else
      var later := LastVersion(ops[1..], key, ts);
      if later.Some? then later
      else if Caches(ops[0], key, ts) then Some(ops[0].m.content) else None
  }

  lemma {:induction false} RunView(s: Store, ops: seq<Op>, key: string, ts: Timestamp)
    requires Valid(s) && SmallThreads(s.threads) && AllEnabled(s, ops)
    ensures View(Run(s, ops), key, ts) ==
            if LastVersion(ops, key, ts).Some? then LastVersion(ops, key, ts) else View(s, key, ts)
    ensures Valid(Run(s, ops)) && SmallThreads(Run(s, ops).threads)
    decreases |ops|
  {
    hide View, Valid, SmallThreads, Step;
    if ops != [] {
      StepKeepsValid(s, ops[0]);
      StepView(s, ops[0], key, ts);
      RunView(Step(s, ops[0]), ops[1..], key, ts);
    }
  }

  /** In every reachable state, however caching and offloading are interleaved, the
      view of a dialogue at a timestamp is the version cached last, and nothing
      where nothing was cached; no two threads have the same participants. */
  lemma ViewIsLastVersion(ops: seq<Op>, key: string, ts: Timestamp)
    requires AllEnabled(EMPTY, ops)
    ensures View(Run(EMPTY, ops), key, ts) == LastVersion(ops, key, ts)
    ensures UniqueThreads(Run(EMPTY, ops).threads)
  {
    RunView(EMPTY, ops, key, ts);
    assert EMPTY.Pending(key) == [];
  }
}
