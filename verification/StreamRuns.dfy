/**
 The stream over consecutive requests: rotating keywords, and a database cursor that only moves back in time.
 */
module StreamRuns {
  import opened Prelude
  import opened Stream
  import opened StreamPaging
  import opened StreamPages

  // --------------------------------------------------------------------
  // Keyword rotation
  // --------------------------------------------------------------------

  function CounterOf(m: Memory, user: int, field: string): nat {
    if (user, field) in m.counters then m.counters[(user, field)] else 0
  }

  ghost predicate DistinctFields(prefs: seq<FieldPrefs>) {
    forall i, j :: 0 <= i < j < |prefs| ==> prefs[i].field != prefs[j].field
  }

  lemma {:induction false} UserPrefsFields(w: World, user: int, fields: seq<FieldPrefs>)
    requires DistinctFields(fields)
    ensures DistinctFields(UserPrefs(w, user, fields))
    ensures forall p :: p in UserPrefs(w, user, fields) ==>
              p.keywords != [] && exists f :: f in fields && f.field == p.field
  {
    if fields != [] {
      var rest := UserPrefs(w, user, fields[1..]);
      UserPrefsFields(w, user, fields[1..]);
      forall i | 0 <= i < |rest| ensures rest[i].field != fields[0].field {
        assert rest[i] in rest;
        var f :| f in fields[1..] && f.field == rest[i].field;
        var j :| 0 <= j < |fields[1..]| && fields[1..][j] == f;
        assert fields[j + 1] == f;
      }
    }
  }

  /** The fields asked for are distinct and each has a keyword. */
  lemma PrefsFields(w: World, user: Option<int>)
    ensures
      var prefs := PrefsFor(w, user);
      DistinctFields(prefs) && forall i :: 0 <= i < |prefs| ==> prefs[i].keywords != []
  {
    assert DistinctFields(DEFAULT_PREFS);
    if Known(user).Some? { UserPrefsFields(w, Known(user).value, DEFAULT_PREFS); }
  }

  lemma {:induction false} BumpedElsewhere(counters: map<(int, string), nat>, user: int, prefs: seq<FieldPrefs>,
                                           k: (int, string))
    requires k.0 != user || forall i :: 0 <= i < |prefs| ==> prefs[i].field != k.1
    ensures k in Bumped(counters, user, prefs) <==> k in counters
    ensures k in counters ==> Bumped(counters, user, prefs)[k] == counters[k]
    decreases |prefs|
  {
    if prefs != [] {
      BumpedElsewhere(if prefs[0].keywords == [] then counters
                      else counters[(user, prefs[0].field) := Bump(counters, user, prefs[0].field)],
                      user, prefs[1..], k);
    }
  }

  /** One request moves the counter of each field on by one and asks the field for the
      keyword with that number, counted round. */
  lemma {:induction false} FieldTurn(counters: map<(int, string), nat>, user: int, prefs: seq<FieldPrefs>,
                                     limit: nat, i: nat)
    requires DistinctFields(prefs) && i < |prefs|
    requires forall j :: 0 <= j < |prefs| ==> prefs[j].keywords != []
    ensures
      var f, ks := prefs[i].field, prefs[i].keywords;
      var idx := 1 + if (user, f) in counters then counters[(user, f)] else 0;
      var quotas := Quotas(counters, user, prefs, limit);
      && |quotas| == |prefs| && quotas[i] == Quota(f, ks[idx % |ks|], limit)
      && (user, f) in Bumped(counters, user, prefs) && Bumped(counters, user, prefs)[(user, f)] == idx
    decreases |prefs|
  {
    var rest := prefs[1..];
    var next := counters[(user, prefs[0].field) := Bump(counters, user, prefs[0].field)];
    if i == 0 {
      BumpedElsewhere(next, user, rest, (user, prefs[0].field));
      if rest != [] { FieldTurn(next, user, rest, limit, 0); }
    } else {
      assert rest[i - 1] == prefs[i];
      FieldTurn(next, user, rest, limit, i - 1);
    }
  }

  function RunMemory(w: World, m: Memory, qs: seq<Request>): Memory {
    if qs == [] then m else StreamMemory(w, RunMemory(w, m, qs[..|qs| - 1]), qs[|qs| - 1])
  }

  /** How many of the requests come from `user`. */
  function Asked(qs: seq<Request>, user: Option<int>): nat {
    if qs == [] then 0
    else Asked(qs[..|qs| - 1], user) + if qs[|qs| - 1].user == user then 1 else 0
  }

  lemma MemoryCounters(w: World, m: Memory, q: Request)
    ensures StreamMemory(w, m, q).counters == Bumped(m.counters, CountersKey(q.user), PrefsFor(w, q.user))
  {
    hide PrefsFor, Bumped, Stage1, Stage2Selected, LastScore;
  }

  /** The number under which a user's counters are kept; nobody in particular is -1. */
  function CounterKey(user: Option<int>): int {
    if user == None || user == Some(0) then -1 else user.value
  }

  lemma CounterKeyIs(user: Option<int>)
    ensures CounterKey(user) == CountersKey(user)
  {
  }

  /** A field's counter counts the requests of its user, whoever else asks in between. */
  lemma {:induction false} CounterInRun(w: World, m: Memory, qs: seq<Request>, user: Option<int>, i: nat)
    requires i < |PrefsFor(w, user)|
    requires forall q :: q in qs ==> q.user == user || CounterKey(q.user) != CounterKey(user)
    ensures
      var field, key := PrefsFor(w, user)[i].field, CounterKey(user);
      CounterOf(RunMemory(w, m, qs), key, field) == CounterOf(m, key, field) + Asked(qs, user)
  {
    hide PrefsFor, Bumped, StreamMemory, CountersKey, CounterKey;
    CounterKeyIs(user);
    if qs != [] {
      var q, earlier := qs[|qs| - 1], RunMemory(w, m, qs[..|qs| - 1]);
      var prefs, key := PrefsFor(w, user), CountersKey(user);
      CounterInRun(w, m, qs[..|qs| - 1], user, i);
      MemoryCounters(w, earlier, q);
      PrefsFields(w, user);
      CounterKeyIs(q.user);
      if q.user == user {
        FieldTurn(earlier.counters, key, prefs, 0, i);
      } else {
        assert q in qs;
        BumpedElsewhere(earlier.counters, CountersKey(q.user), PrefsFor(w, q.user), (key, prefs[i].field));
      }
    }
  }

  /** The request a user makes after a run asks each field for the keyword
      numbered by the user's turns so far. */
  lemma KeywordInRun(w: World, m: Memory, qs: seq<Request>, q: Request, i: nat)
    requires i < |PrefsFor(w, q.user)|
    requires forall p :: p in qs ==> p.user == q.user || CounterKey(p.user) != CounterKey(q.user)
    ensures
      var f := PrefsFor(w, q.user)[i];
      var quotas := RequestQuotas(w, RunMemory(w, m, qs), q);
      && |quotas| == |PrefsFor(w, q.user)| && f.keywords != []
      && quotas[i].field == f.field
      && quotas[i].keyword == f.keywords[Choice(CounterOf(m, CounterKey(q.user), f.field),
                                                Asked(qs, q.user) + 1, |f.keywords|)]
  {
    hide PrefsFor, Quotas, RunMemory, CountersKey, CounterKey, CeilDiv;
    var prefs, after := PrefsFor(w, q.user), RunMemory(w, m, qs);
    PrefsFields(w, q.user);
    CounterInRun(w, m, qs, q.user, i);
    CounterKeyIs(q.user);
    FieldTurn(after.counters, CountersKey(q.user), prefs, CeilDiv(MAX_RESULTS_PER_STREAM, |prefs|), i);
  }

  // --------------------------------------------------------------------
  // The database cursor
  // --------------------------------------------------------------------

  /** A query's cursor is the oldest creation time it returned, or the given one. */
  lemma QueryCursor(table: seq<Asset>, c: Cond, limit: nat)
    requires NewestFirst(table)
    ensures
      var rows := Take(Select(table, c), limit);
      var next := NextCursor(rows, c.cursor);
      && (next == c.cursor || exists a :: a in rows && next == Some(a.created))
      && (c.cursor.Some? ==> next.Some? && next.value <= c.cursor.value)
      && (forall a :: a in rows ==> next.Some? && next.value <= a.created)
  {
    hide Select, Cond.Admits, NewestFirst;
    SelectOrdered(table, c);
    var all, rows := Select(table, c), Take(Select(table, c), limit);
    forall a | a in rows ensures rows[|rows| - 1].created <= a.created && c.Admits(a) {
      var i :| 0 <= i < |rows| && rows[i] == a;
      assert all[i] == a;
      OldestLast(all, i, |rows| - 1);
    }
    if rows != [] {
      assert rows[|rows| - 1] in rows;
      CursorAdmits(c, rows[|rows| - 1]);
    }
  }

  lemma OldestLast(all: seq<Asset>, i: nat, j: nat)
    requires NewestFirst(all) && i <= j < |all|
    ensures all[j].created <= all[i].created
  {
  }

  lemma CursorAdmits(c: Cond, a: Asset)
    requires c.Admits(a)
    ensures c.cursor.Some? ==> a.created < c.cursor.value
  {
  }

  lemma QuotaRowsOnPage(w: World, m: Memory, q: Request)
    ensures
      var qs := RequestQuotas(w, m, q);
      && qs != []
      && forall a :: a in QuotaRows(w, qs[|qs| - 1], q.dbCursor, q.seen) ==> a in StreamPage(w, m, q).data
  {
    hide PrefsFor, Quotas, QuotaRows, CountersKey, CeilDiv;
    var qs, prefs := RequestQuotas(w, m, q), PrefsFor(w, q.user);
    PrefsFields(w, q.user);
    FieldTurn(m.counters, CountersKey(q.user), prefs, CeilDiv(MAX_RESULTS_PER_STREAM, |prefs|), 0);
    PreferenceRowsHold(w, qs, q.dbCursor, q.seen, |qs| - 1);
  }

  lemma {:induction false} PreferenceRowsHold(w: World, qs: seq<Quota>, cursor: Option<int>, seen: set<int>, i: nat)
    requires i < |qs|
    ensures forall a :: a in QuotaRows(w, qs[i], cursor, seen) ==> a in PreferenceRows(w, qs, cursor, seen)
  {
    if i > 0 { PreferenceRowsHold(w, qs[1..], cursor, seen, i - 1); }
  }

  /** The returned database cursor is the given one or the creation time of an
      asset on the page, and it never moves forward in time; when the fallback
      contributed, it is not newer than any asset the fallback returned. */
  lemma {:induction false} PageCursor(w: World, m: Memory, q: Request)
    requires w.Valid()
    ensures
      var p := StreamPage(w, m, q);
      && (p.dbCursor == q.dbCursor || exists a :: a in p.data && p.dbCursor == Some(a.created))
      && (q.dbCursor.Some? ==> p.dbCursor.Some? && p.dbCursor.value <= q.dbCursor.value)
      && (forall a :: a in Stage3(w, m, q) ==> p.dbCursor.Some? && p.dbCursor.value <= a.created)
  {
    hide Stage1, Stage2, RequestQuotas, NextCursor, Ids, Select;
    var qs, rows := RequestQuotas(w, m, q), Stage1(w, m, q) + Stage2(w, m, q);
    if |rows| < q.Size() {
      QueryCursor(w.table, Cond(q.seen + Ids(rows), q.dbCursor, None), q.Size() - |rows|);
    } else {
      QuotaRowsOnPage(w, m, q);
      var last := qs[|qs| - 1];
      QueryCursor(w.table, Cond(q.seen, q.dbCursor, w.Only(last.field, last.keyword)), last.limit);
    }
  }
}
