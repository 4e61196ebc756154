/**
 What an offload shows when cached messages may carry any id.
 */
module ChatOffloads {
  import opened Prelude
  import opened Strings
  import opened ChatKeys
  import opened ChatStore
  import opened ChatProofs
  import opened ChatRuns

  /** The content the cached messages give last to the row with this id. */
  function LastNaming(ms: seq<Cached>, id: nat): Option<Content> {
    if ms == [] then None
    else
      var later := LastNaming(ms[1..], id);
      if later.Some? then later
      else if Names(ms[0], id) then Some(ms[0].message.content) else None
  }

  lemma {:induction false} OverwrittenIsLast(c: Content, id: nat, ms: seq<Cached>)
    ensures Overwritten(c, id, ms) == match LastNaming(ms, id) case Some(x) => x case None => c
    decreases |ms|
  {
    if ms != [] {
      OverwrittenIsLast(if Names(ms[0], id) then ms[0].message.content else c, id, ms[1..]);
    }
  }

  /** A dialogue lists each timestamp once and only its own messages, as caching
      alone guarantees. */
  ghost predicate OwnMessages(ms: seq<Cached>, key: string) {
    DistinctTimes(ms) && forall c :: c in ms ==> c.message.Key() == key
  }

  /** Before the offload of dialogue `key`: the content seen at (k, t) is still
      cached elsewhere, is about to be inserted, or is what the cached updates
      leave in the latest row of (k, t). */
  predicate WillStay(s: Store, key: string, k: string, t: Timestamp) {
    var found, r := Find(s.Pending(k), t), LatestRow(s.rows, k, t);
    if found.Some? then
      || k != key || !found.value.HasId()
      || (r.Some? && found.value.content ==
            match LastNaming(s.Pending(key), r.value.id) case Some(x) => x case None => r.value.content)
    else
      r.Some? ==> LastNaming(s.Pending(key), r.value.id) in {None, Some(r.value.content)}
  }

  /** An offload leaves the view at (k, t) alone exactly when the updates it sends
      do: any update whose id names the latest row of (k, t) reaches that row,
      wherever it was cached, and an update that names no latest row is lost. */
  lemma {:induction false} OffloadShowsUpdateIff(s: Store, a: nat, b: nat, k: string, t: Timestamp)
    requires OwnMessages(s.Pending(DialogueKey(a, b)), DialogueKey(a, b))
    ensures
      var key := DialogueKey(a, b);
      && Offload(s, key).Some?
      && (View(Offload(s, key).value, k, t) == View(s, k, t) <==> WillStay(s, key, k, t))
  {
    hide ParseKey, DialogueKey, UpdateAll, NewRows, LatestRow, Offload, Overwritten, LastNaming;
    var key := DialogueKey(a, b);
    var ms := s.Pending(key);
    OffloadOf(s, a, b);
    if ms == [] {
      NothingNames(s, k, t);
    } else {
      var (s1, thread) := GetOrCreateThread(s.(cache := s.cache - {key}), Low(a, b), High(a, b));
      var added := NewRows(ms, thread, s1.next);
      var after := Offload(s, key).value;
      LatestAppend(UpdateAll(s.rows, ms), added, k, t);
      LatestAfterUpdates(s.rows, ms, k, t);
      LatestNew(ms, key, thread, s1.next, k, t);
      var r := LatestRow(s.rows, k, t);
      if r.Some? { OverwrittenIsLast(r.value.content, r.value.id, ms); }
      assert after.Pending(k) == if k == key then [] else s.Pending(k);
    }
  }

  lemma NothingNames(s: Store, k: string, t: Timestamp)
    ensures forall id :: LastNaming([], id) == None
  {
  }

  // --------------------------------------------------------------------
  // Row by row
  // --------------------------------------------------------------------

  /** The messages that have no id yet. */
  function Fresh(ms: seq<Cached>): seq<Cached> {
    if ms == [] then []
    else (if ms[0].message.id == None || ms[0].message.id == Some(0) then [ms[0]] else []) + Fresh(ms[1..])
  }

  /** The row of a message. */
  predicate IsRowOf(r: Row, id: nat, thread: nat, c: Cached) {
    r == Row(id, thread, c.message.sender, c.message.recipient, c.ts, c.message.content)
  }

  /** From row number `from` on stand the rows of the messages, numbered from `first`. */
  ghost predicate FollowRows(rows: seq<Row>, from: nat, first: nat, thread: nat, ms: seq<Cached>) {
    && |rows| == from + |ms|
    && forall j :: 0 <= j < |ms| ==> IsRowOf(rows[from + j], first + j, thread, ms[j])
  }

  /** The content a row has after the updates of a dialogue. */
  function UpdatedBy(ms: seq<Cached>, r: Row): Row {
    match LastNaming(ms, r.id) case Some(c) => r.(content := c) case None => r
  }

  lemma {:induction false} NewRowsMeaning(ms: seq<Cached>, thread: nat, next: nat)
    ensures |NewRows(ms, thread, next)| == |Fresh(ms)|
    ensures forall j :: 0 <= j < |Fresh(ms)| ==> IsRowOf(NewRows(ms, thread, next)[j], next + j, thread, Fresh(ms)[j])
  {
    if ms != [] {
      var m := ms[0].message;
      NewRowsMeaning(ms[1..], thread, if m.HasId() then next else next + 1);
    }
  }

  lemma {:induction false} UpdateRowAt(rows: seq<Row>, id: nat, c: Content, i: nat)
    requires i < |rows|
    ensures |UpdateRow(rows, id, c)| == |rows|
    ensures UpdateRow(rows, id, c)[i] == if rows[i].id == id then rows[i].(content := c) else rows[i]
  {
    UpdateKeepsIds(rows, id, c);
    if i > 0 { UpdateRowAt(rows[1..], id, c, i - 1); }
  }

  lemma {:induction false} UpdateAllAt(rows: seq<Row>, ms: seq<Cached>, i: nat)
    requires i < |rows|
    ensures |UpdateAll(rows, ms)| == |rows|
    ensures UpdateAll(rows, ms)[i] == UpdatedBy(ms, rows[i])
    decreases |ms|
  {
    if ms != [] {
      var m := ms[0].message;
      if m.HasId() { UpdateRowAt(rows, m.id.value, m.content, i); }
      UpdateAllAt(if m.HasId() then UpdateRow(rows, m.id.value, m.content) else rows, ms[1..], i);
    }
  }

  /** The offload of a dialogue that has messages: every stored row takes the content of
      the last update naming it; then come the rows of the messages without an id, in
      order, numbered consecutively and filed under one thread of the two users; the
      dialogue leaves the cache and nothing else changes. */
  lemma {:induction false} OffloadRows(s: Store, a: nat, b: nat)
    requires s.Pending(DialogueKey(a, b)) != []
    ensures
      var key := DialogueKey(a, b);
      var ms, t := s.Pending(key), Offload(s, key);
      && t.Some? && t.value.cache == s.cache - {key} && t.value.pools == s.pools
      && (t.value.threads == s.threads || t.value.threads == s.threads + [Thread(s.next, {a, b})])
      && |t.value.rows| >= |s.rows|
      && (forall i :: 0 <= i < |s.rows| ==> t.value.rows[i] == UpdatedBy(ms, s.rows[i]))
      && (var first := s.next + |t.value.threads| - |s.threads|;
          && t.value.next == first + |Fresh(ms)|
          && exists x :: x in t.value.threads && {a, b} <= x.participants
                         && FollowRows(t.value.rows, |s.rows|, first, x.id, Fresh(ms)))
  {
    hide DialogueKey, ParseKey, UpdateAll, NewRows, Fresh, Offload, GetOrCreateThread, UpdatedBy, FollowRows;
    var key := DialogueKey(a, b);
    var ms := s.Pending(key);
    OffloadOf(s, a, b);
    var rest := s.(cache := s.cache - {key});
    var (s1, thread) := GetOrCreateThread(rest, Low(a, b), High(a, b));
    var t := Offload(s, key).value;
    NewThread(rest, a, b);
    var x := FoundThread(rest, a, b);
    RowsAfterOffload(s.rows, ms, thread, s1.next);
  }

  /** At most one thread is added, with the next id. */
  lemma NewThread(s: Store, a: nat, b: nat)
    ensures
      var t := GetOrCreateThread(s, Low(a, b), High(a, b)).0;
      && t.cache == s.cache && t.rows == s.rows && t.pools == s.pools
      && (t.threads == s.threads || t.threads == s.threads + [Thread(s.next, {a, b})])
      && t.next == s.next + |t.threads| - |s.threads|
  {
    hide FindThread;
    KeyRoundTrip(a, b);
    assert {Low(a, b), High(a, b)} == {a, b};
  }

  lemma RowsAfterOffload(rows: seq<Row>, ms: seq<Cached>, thread: nat, next: nat)
    ensures
      var all := UpdateAll(rows, ms) + NewRows(ms, thread, next);
      && |NewRows(ms, thread, next)| == |Fresh(ms)| && |all| >= |rows|
      && (forall i :: 0 <= i < |rows| ==> all[i] == UpdatedBy(ms, rows[i]))
      && FollowRows(all, |rows|, next, thread, Fresh(ms))
  {
    hide UpdateAll, NewRows, Fresh, UpdatedBy, IsRowOf;
    NewRowsMeaning(ms, thread, next);
    UpdatesKeepIds(rows, ms);
    var all := UpdateAll(rows, ms) + NewRows(ms, thread, next);
    forall i | 0 <= i < |rows| ensures all[i] == UpdatedBy(ms, rows[i]) { UpdateAllAt(rows, ms, i); }
    forall j | 0 <= j < |Fresh(ms)| ensures IsRowOf(all[|rows| + j], next + j, thread, Fresh(ms)[j]) {
      assert all[|rows| + j] == NewRows(ms, thread, next)[j];
    }
  }

  /** Whatever text names the dialogue, an offload reads two ids from it and empties the
      dialogue with those two in the order given; a text that cannot be read fails. */
  lemma OffloadOfText(s: Store, dialogue: string)
    ensures
      match ParseKey(dialogue)
      case None => Offload(s, dialogue) == None
      case Some((x, y)) =>
        var key := "chat_" + Print(x) + "_" + Print(y);
        && Offload(s, dialogue).Some?
        && (s.Pending(key) == [] ==> Offload(s, dialogue).value == s)
        && (s.Pending(key) != [] ==> Offload(s, dialogue).value.cache == s.cache - {key})
  {
    hide ParseKey, Print, UpdateAll, NewRows, FindThread;
  }

  lemma FoundThread(s: Store, a: nat, b: nat) returns (x: Thread)
    ensures
      var (t, id) := GetOrCreateThread(s, Low(a, b), High(a, b));
      && x in t.threads && x.id == id && {a, b} <= x.participants
  {
    FindThreadMeaning(s.threads, Low(a, b), High(a, b));
    var (t, id) := GetOrCreateThread(s, Low(a, b), High(a, b));
    match FindThread(s.threads, Low(a, b), High(a, b))
    case Some(y) => x := y;
    case None =>
      x := Thread(s.next, {Low(a, b), High(a, b)});
      assert t.threads[|s.threads|] == x;
  }

  // --------------------------------------------------------------------
  // Every run
  // --------------------------------------------------------------------

  lemma StepKeepsOwn(s: Store, op: Op, key: string)
    requires OwnMessages(s.Pending(key), key)
    ensures OwnMessages(Step(s, op).Pending(key), key)
  {
    match op
    case CacheMessage(m, ts) => if m.Key() == key { PutMembers(s.Pending(key), ts, m); }
    case DeliveryFailed(m, ts, user) => if m.Key() == key { PutMembers(s.Pending(key), ts, m); }
    case OffloadPair(a, b) =>
      OffloadOf(s, a, b);
      OffloadEmptiesDialogue(s, a, b);
    case FillPool(user, tokens, replace) =>
  }

  lemma {:induction false} RunKeepsOwn(s: Store, ops: seq<Op>, key: string)
    requires OwnMessages(s.Pending(key), key)
    ensures OwnMessages(Run(s, ops).Pending(key), key)
    decreases |ops|
  {
    if ops != [] {
      hide OwnMessages, Step;
      StepKeepsOwn(s, ops[0], key);
      RunKeepsOwn(Step(s, ops[0]), ops[1..], key);
    }
  }

  /** So in every reachable state, whatever ids the messages carried, an offload
      changes what is seen exactly where an update it sends does. */
  lemma EveryOffloadShowsIff(ops: seq<Op>, a: nat, b: nat, k: string, t: Timestamp)
    ensures
      var s, key := Run(EMPTY, ops), DialogueKey(a, b);
      && Offload(s, key).Some?
      && (View(Offload(s, key).value, k, t) == View(s, k, t) <==> WillStay(s, key, k, t))
  {
    hide WillStay, View, Offload, DialogueKey;
    RunKeepsOwn(EMPTY, ops, DialogueKey(a, b));
    OffloadShowsUpdateIff(Run(EMPTY, ops), a, b, k, t);
  }

  function Note(text: string): Content {
    Content(text, "", "")
  }

  /** An update cached at "A" that names the row of "B": what is seen at "A" stays,
      and "B" shows the message of "A". */
  lemma OtherRowIsDamaged(a: nat, b: nat)
    ensures
      var key := DialogueKey(a, b);
      var rows := [Row(1, 9, a, b, "A", Note("x")), Row(2, 9, a, b, "B", Note("y"))];
      var s := Store(map[key := [Cached("A", Message(Some(2), a, b, Note("x")))]], rows, [], 10, map[]);
      var t := Offload(s, key);
      && t.Some? && View(t.value, key, "A") == View(s, key, "A") == Some(Note("x"))
      && View(s, key, "B") == Some(Note("y")) && View(t.value, key, "B") != View(s, key, "B")
  {
    hide DialogueKey, Offload;
    var key := DialogueKey(a, b);
    var m := Message(Some(2), a, b, Note("x"));
    var ms := [Cached("A", m)];
    var first, second := Row(1, 9, a, b, "A", Note("x")), Row(2, 9, a, b, "B", Note("y"));
    var rows := [first, second];
    var s := Store(map[key := ms], rows, [], 10, map[]);
    assert s.Pending(key) == ms && m.Key() == key;
    OffloadShowsUpdateIff(s, a, b, key, "A");
    OffloadShowsUpdateIff(s, a, b, key, "B");
    assert ms[1..] == [] && LastNaming(ms, 2) == Some(Note("x")) && LastNaming(ms, 1) == None;
    assert "A"[0] != "B"[0] && "x"[0] != "y"[0];
    assert Note("x") != Note("y");
    assert Find(ms, "A") == Some(m) && Find(ms, "B") == None;
    assert rows[..1] == [first] && [first][..0] == [];
    assert LatestRow(rows, key, "B") == Some(second);
    assert LatestRow([first], key, "A") == Some(first);
    assert LatestRow(rows, key, "A") == LatestRow([first], key, "A");
  }
}
