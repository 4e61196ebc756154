/**
 What a page of the stream contains, where each stage takes it from and what is kept
 for the next request, in terms of the stored data alone.
 */
module StreamMeaning {
  import opened Prelude
  import opened Stream
  import opened StreamPaging
  import opened StreamPages
  import opened StreamPreferences
  import opened StreamRuns

  // --------------------------------------------------------------------
  // Which rows a field and the fallback return
  // --------------------------------------------------------------------

  /** Verified, unseen and older than the cursor. */
  predicate Eligible(a: Asset, cursor: Option<int>, seen: set<int>) {
    a.verified && a.id !in seen && (cursor.Some? ==> a.created < cursor.value)
  }

  /** A keyword of the four text fields has to match; one of another field always does. */
  predicate Matching(w: World, field: string, keyword: string, a: Asset) {
    field == "categories" || field == "tags" || field == "location" || field == "others" ==>
      (field, keyword) in w.matches && a.id in w.matches[(field, keyword)]
  }

  /** How many eligible assets matching the keyword the table lists before an id. */
  function MatchingBefore(w: World, table: seq<Asset>, field: string, keyword: string, cursor: Option<int>,
                          seen: set<int>, id: int): nat {
    if table == [] || table[0].id == id then 0
    else
      (if Eligible(table[0], cursor, seen) && Matching(w, field, keyword, table[0]) then 1 else 0)
      + MatchingBefore(w, table[1..], field, keyword, cursor, seen, id)
  }

  lemma {:induction false} MatchingBeforeIs(w: World, table: seq<Asset>, q: Quota, cursor: Option<int>, seen: set<int>,
                                            id: int)
    ensures MatchingBefore(w, table, q.field, q.keyword, cursor, seen, id) ==
            AdmittedBefore(table, QuotaCond(w, q, cursor, seen), id)
  {
    if table != [] { MatchingBeforeIs(w, table[1..], q, cursor, seen, id); }
  }

  /** A field returns exactly the eligible assets matching its keyword before which the
      table lists fewer than its limit. */
  lemma FieldMembers(w: World, q: Quota, cursor: Option<int>, seen: set<int>, a: Asset)
    requires DistinctIds(w.table)
    ensures a in QuotaRows(w, q, cursor, seen) <==>
            && a in w.table && Eligible(a, cursor, seen) && Matching(w, q.field, q.keyword, a)
            && MatchingBefore(w, w.table, q.field, q.keyword, cursor, seen, a.id) < q.limit
  {
    QuotaMembers(w, q, cursor, seen, a);
    MatchingBeforeIs(w, w.table, q, cursor, seen, a.id);
  }

  function EligibleBefore(table: seq<Asset>, cursor: Option<int>, seen: set<int>, id: int): nat {
    if table == [] || table[0].id == id then 0
    else (if Eligible(table[0], cursor, seen) then 1 else 0) + EligibleBefore(table[1..], cursor, seen, id)
  }

  lemma {:induction false} EligibleBeforeIs(table: seq<Asset>, cursor: Option<int>, seen: set<int>, id: int)
    ensures EligibleBefore(table, cursor, seen, id) == AdmittedBefore(table, Cond(seen, cursor, None), id)
  {
    if table != [] { EligibleBeforeIs(table[1..], cursor, seen, id); }
  }

  /** The fallback fills the page up with the first eligible assets of the table that are
      not on the page yet. */
  lemma FallbackMembers(w: World, m: Memory, q: Request, a: Asset)
    requires DistinctIds(w.table)
    ensures
      var rows := Stage1(w, m, q) + Stage2(w, m, q);
      a in Stage3(w, m, q) <==>
        && |rows| < Wanted(q) && a in w.table && Eligible(a, q.dbCursor, q.seen + Ids(rows))
        && EligibleBefore(w.table, q.dbCursor, q.seen + Ids(rows), a.id) < Wanted(q) - |rows|
  {
    hide Stage1, Stage2, Select, AdmittedBefore;
    var rows := Stage1(w, m, q) + Stage2(w, m, q);
    if |rows| < q.Size() {
      var c, limit := Cond(q.seen + Ids(rows), q.dbCursor, None), q.Size() - |rows|;
      QueryRows(w.table, c, limit);
      if a in w.table { SelectPosition(w.table, c, a, limit); }
      EligibleBeforeIs(w.table, q.dbCursor, q.seen + Ids(rows), a.id);
    }
  }

  // --------------------------------------------------------------------
  // Which fields are asked
  // --------------------------------------------------------------------

  predicate Anonymous(user: Option<int>) {
    user == None || user == Some(0)
  }

  /** The fields in the order in which they are asked. */
  const FIELDS := ["categories", "tags", "location", "price", "others"]

  /** The preference list a user has stored for a field; an empty one counts as none. */
  function Stored(w: World, user: Option<int>, field: string): seq<string> {
    if !Anonymous(user) && (user.value, field) in w.prefs then w.prefs[(user.value, field)] else []
  }

  function OwnLists(w: World, user: Option<int>, fields: seq<string>): seq<FieldPrefs> {
    if fields == [] then []
    else (if Stored(w, user, fields[0]) != [] then [FieldPrefs(fields[0], Stored(w, user, fields[0]))] else [])
         + OwnLists(w, user, fields[1..])
  }

  function Names(prefs: seq<FieldPrefs>): seq<string> {
    seq(|prefs|, i requires 0 <= i < |prefs| => prefs[i].field)
  }

  lemma {:induction false} UserPrefsAre(w: World, user: Option<int>, prefs: seq<FieldPrefs>)
    requires !Anonymous(user)
    ensures UserPrefs(w, user.value, prefs) == OwnLists(w, user, Names(prefs))
  {
    if prefs != [] {
      UserPrefsAre(w, user, prefs[1..]);
      assert Names(prefs)[1..] == Names(prefs[1..]);
    }
  }

  lemma {:induction false} NobodysLists(w: World, user: Option<int>, fields: seq<string>)
    requires Anonymous(user)
    ensures OwnLists(w, user, fields) == []
  {
    if fields != [] { NobodysLists(w, user, fields[1..]); }
  }

  /** The fields asked are the user's own non-empty lists, in the fixed order, and the
      defaults when there is none or nobody is identified. */
  lemma PrefsMeaning(w: World, user: Option<int>)
    ensures
      var own := OwnLists(w, user, FIELDS);
      && PrefsFor(w, user) == (if own == [] then DEFAULT_PREFS else own)
      && Names(DEFAULT_PREFS) == FIELDS
  {
    assert Names(DEFAULT_PREFS) == FIELDS;
    if Anonymous(user) { NobodysLists(w, user, FIELDS); } else { UserPrefsAre(w, user, DEFAULT_PREFS); }
  }

  /** The limit of a field is the least one with which all fields together can fill a
      default page. */
  lemma FieldLimit(w: World, m: Memory, q: Request, i: nat)
    ensures
      var qs, n := RequestQuotas(w, m, q), |PrefsFor(w, q.user)|;
      i < |qs| ==> n * qs[i].limit >= 15 && n * (qs[i].limit - 1) < 15
  {
    hide PrefsFor, Quotas;
    var prefs := PrefsFor(w, q.user);
    QuotasBounded(m.counters, CountersKey(q.user), prefs, CeilDiv(MAX_RESULTS_PER_STREAM, |prefs|));
    CeilIsLeast(MAX_RESULTS_PER_STREAM, |prefs|);
  }

  // --------------------------------------------------------------------
  // What the ranked scan picks
  // --------------------------------------------------------------------

  /** Where the scan starts: the remembered score of a user, what an anonymous client
      sends, or the top. */
  function StartOf(m: Memory, q: Request): Option<real> {
    if Anonymous(q.user) then q.autoCursor
    else if q.user.value in m.lastScores then Some(m.lastScores[q.user.value]) else None
  }

  predicate InReach(start: Option<real>, x: Ranked) {
    start == None || start == Some(0.0) || x.score <= start.value
  }

  /** How many members within reach, outside `skip`, are ranked before an id. */
  function ReachBefore(zset: seq<Ranked>, start: Option<real>, skip: set<int>, id: int): nat {
    if zset == [] || zset[0].id == id then 0
    else (if InReach(start, zset[0]) && zset[0].id !in skip then 1 else 0)
         + ReachBefore(zset[1..], start, skip, id)
  }

  lemma InReachIff(m: Memory, q: Request, x: Ranked)
    ensures StartScore(m, q.user, q.autoCursor).AtLeast(x.score) <==> InReach(StartOf(m, q), x)
  {
  }

  lemma NotRankedTwice(zset: seq<Ranked>, x: Ranked)
    requires DistinctMembers(zset) && x in zset && x != zset[0]
    ensures x in zset[1..] && zset[0].id != x.id
  {
    var i :| 0 <= i < |zset| && zset[i] == x;
    assert i > 0 && zset[1..][i - 1] == x;
  }

  lemma HeadRankedOnce(zset: seq<Ranked>, part: seq<Ranked>)
    requires zset != [] && DistinctMembers(zset) && forall x :: x in part ==> x in zset[1..]
    ensures zset[0] !in part
  {
    assert forall i :: 0 <= i < |zset[1..]| ==> zset[1..][i] == zset[i + 1];
  }

  lemma TakeRanked(x: Ranked, s: seq<Ranked>, n: nat)
    ensures Take([x] + s, n) == if n == 0 then [] else [x] + Take(s, n - 1)
  {
  }

  lemma {:induction false} WindowPosition(zset: seq<Ranked>, max: Score, start: Option<real>, x: Ranked, n: nat)
    requires Descending(zset) && DistinctMembers(zset) && x in zset
    requires forall y: Ranked :: max.AtLeast(y.score) <==> InReach(start, y)
    ensures x in Take(AtMost(zset, max), n) <==> InReach(start, x) && ReachBefore(zset, start, {}, x.id) < n
  {
    hide InReach, Score.AtLeast, Descending, DistinctMembers, Take;
    var head, rest := zset[0], zset[1..];
    RankedTail(zset, []);
    AtMostPart(rest, max);
    TakeRanked(head, AtMost(rest, max), n);
    TakeMembers(AtMost(rest, max), n);
    if n > 0 { TakeMembers(AtMost(rest, max), n - 1); }
    if x == head {
      HeadRankedOnce(zset, AtMost(rest, max));
    } else {
      NotRankedTwice(zset, x);
      WindowPosition(rest, max, start, x, if max.AtLeast(head.score) && n > 0 then n - 1 else n);
    }
  }

  lemma TakeMembers(s: seq<Ranked>, n: nat)
    ensures forall x :: x in Take(s, n) ==> x in s
    ensures n == 0 ==> Take(s, n) == []
  {
  }

  lemma {:induction false} UnseenPosition(window: seq<Ranked>, seen: set<int>, x: Ranked, n: nat)
    requires Descending(window) && DistinctMembers(window) && x in window
    ensures x in Take(Unseen(window, seen), n) <==> x.id !in seen && ReachBefore(window, None, seen, x.id) < n
  {
    hide Descending, DistinctMembers, Take;
    var head, rest := window[0], window[1..];
    RankedTail(window, []);
    UnseenPart(rest, seen);
    TakeRanked(head, Unseen(rest, seen), n);
    TakeMembers(Unseen(rest, seen), n);
    if n > 0 { TakeMembers(Unseen(rest, seen), n - 1); }
    if x == head {
      HeadRankedOnce(window, Unseen(rest, seen));
    } else {
      NotRankedTwice(window, x);
      UnseenPosition(rest, seen, x, if head.id !in seen && n > 0 then n - 1 else n);
    }
  }

  /** Before a member of the window, the window lists what is within reach. */
  lemma {:induction false} WindowKeepsCount(zset: seq<Ranked>, max: Score, start: Option<real>, seen: set<int>,
                                            x: Ranked, n: nat)
    requires Descending(zset) && DistinctMembers(zset) && x in Take(AtMost(zset, max), n)
    requires forall y: Ranked :: max.AtLeast(y.score) <==> InReach(start, y)
    ensures ReachBefore(Take(AtMost(zset, max), n), None, seen, x.id) == ReachBefore(zset, start, seen, x.id)
    decreases |zset|
  {
    hide Score.AtLeast, Descending, DistinctMembers, Take;
    TakeMembers(AtMost(zset, max), n);
    if zset != [] {
      var head, rest := zset[0], zset[1..];
      RankedTail(zset, []);
      AtMostPart(rest, max);
      TakeRanked(head, AtMost(rest, max), n);
      if max.AtLeast(head.score) {
        var part := Take(AtMost(rest, max), n - 1);
        assert ([head] + part)[1..] == part;
        if x != head {
          TakeMembers(AtMost(rest, max), n - 1);
          NotRankedTwice(zset, x);
          WindowKeepsCount(rest, max, start, seen, x, n - 1);
        }
      } else {
        assert x in zset && x != head by { AtMostPart(zset, max); }
        NotRankedTwice(zset, x);
        WindowKeepsCount(rest, max, start, seen, x, n);
      }
    }
  }

  /** The scan looks at the first members within reach, twice as many as the page still
      needs, and picks the first unseen ones of them until the page is full. */
  lemma ScanMembers(w: World, m: Memory, q: Request, x: Ranked)
    requires w.Valid()
    ensures
      var rows := Stage1(w, m, q);
      x in Stage2Selected(w, m, q) <==>
        && |rows| < Wanted(q) && x in w.zset && InReach(StartOf(m, q), x) && x.id !in q.seen + Ids(rows)
        && ReachBefore(w.zset, StartOf(m, q), {}, x.id) < 2 * (Wanted(q) - |rows|)
        && ReachBefore(w.zset, StartOf(m, q), q.seen + Ids(rows), x.id) < Wanted(q) - |rows|
  {
    hide Stage1, AtMost, Unseen, ReachBefore, Descending, DistinctMembers, InReach, StartOf, Score.AtLeast, StartScore;
    hide Ids, NewestFirst, DistinctIds, Take;
    var rows := Stage1(w, m, q);
    if |rows| < q.Size() {
      var max, start, limit := StartScore(m, q.user, q.autoCursor), StartOf(m, q), q.Size() - |rows|;
      forall y: Ranked ensures max.AtLeast(y.score) <==> InReach(start, y) { InReachIff(m, q, y); }
      var window, seen := Window(w.zset, max, limit), q.seen + Ids(rows);
      AtMostPart(w.zset, max);
      RankedPrefix(AtMost(w.zset, max), limit * 2);
      UnseenPart(window, seen);
      TakeMembers(AtMost(w.zset, max), limit * 2);
      TakeMembers(Unseen(window, seen), limit);
      if x in w.zset { WindowPosition(w.zset, max, start, x, limit * 2); }
      if x in window {
        UnseenPosition(window, seen, x, limit);
        WindowKeepsCount(w.zset, max, start, seen, x, limit * 2);
      }
    }
  }

  // --------------------------------------------------------------------
  // The cursors returned and the scores remembered
  // --------------------------------------------------------------------

  /** The lowest score picked. */
  ghost predicate IsLowest(x: real, picked: seq<Ranked>) {
    (exists y :: y in picked && y.score == x) && forall y :: y in picked ==> x <= y.score
  }

  lemma LastIsLowest(w: World, m: Memory, q: Request)
    requires w.Valid()
    ensures
      var picked := Stage2Selected(w, m, q);
      if picked == [] then LastScore(picked) == None
      else LastScore(picked).Some? && IsLowest(LastScore(picked).value, picked)
  {
    hide Stage1, Selected, Window, Descending, DistinctMembers, NewestFirst, DistinctIds, Ids;
    var rows := Stage1(w, m, q);
    if |rows| < q.Size() {
      ScanSelection(w.zset, StartScore(m, q.user, q.autoCursor), q.Size() - |rows|, q.seen + Ids(rows));
    }
    var picked := Stage2Selected(w, m, q);
    if picked != [] { assert picked[|picked| - 1] in picked; }
  }

  /** The scan cursor a page returns: infinite when the preference stage fills the page,
      none when the scan picks nothing, and otherwise the lowest score picked. */
  lemma PageAutoCursor(w: World, m: Memory, q: Request)
    requires w.Valid()
    ensures
      var cursor, picked := StreamPage(w, m, q).autoCursor, Stage2Selected(w, m, q);
      if |Stage1(w, m, q)| >= Wanted(q) then cursor == Some(PlusInf)
      else if picked == [] then cursor == None
      else cursor.Some? && cursor.value.At? && IsLowest(cursor.value.score, picked)
  {
    hide Stage1, Stage2, Stage3, Stage2Selected, RequestQuotas, LastScore, IsLowest, World.Valid;
    LastIsLowest(w, m, q);
  }

  /** A request remembers the lowest score picked for its user and no other score, and
      moves no counter of anybody who does not share its counters. */
  lemma MemoryMeaning(w: World, m: Memory, q: Request, v: int)
    requires w.Valid()
    ensures
      var after, picked := StreamMemory(w, m, q), Stage2Selected(w, m, q);
      if q.user == Some(v) && v != 0 && picked != [] then
        v in after.lastScores && IsLowest(after.lastScores[v], picked)
      else
        && (v in after.lastScores <==> v in m.lastScores)
        && (v in m.lastScores ==> after.lastScores[v] == m.lastScores[v])
    ensures
      forall field :: v != CounterKey(q.user) ==>
        CounterOf(StreamMemory(w, m, q), v, field) == CounterOf(m, v, field)
  {
    hide Stage1, PrefsFor, Bumped, LastScore, IsLowest, World.Valid, Selected, Window;
    LastIsLowest(w, m, q);
    CounterKeyIs(q.user);
    forall field | v != CounterKey(q.user)
      ensures CounterOf(StreamMemory(w, m, q), v, field) == CounterOf(m, v, field)
    {
      MemoryCounters(w, m, q);
      BumpedElsewhere(m.counters, CountersKey(q.user), PrefsFor(w, q.user), (v, field));
    }
  }

  /** After a request whose scan picked something, the next scan of the same user, or of an
      anonymous client that sends the returned cursor back, starts at the lowest score
      picked and never rises above it. A lowest score of zero restarts it from the top. */
  lemma ScanContinues(w: World, m: Memory, q: Request, w2: World, q2: Request)
    requires w.Valid() && w2.Valid() && Stage2Selected(w, m, q) != []
    requires q2.user == q.user || (Anonymous(q.user) && Anonymous(q2.user))
    requires Anonymous(q.user) ==>
               StreamPage(w, m, q).autoCursor == match q2.autoCursor case Some(x) => Some(At(x)) case None => None
    ensures
      var start, after := StartOf(StreamMemory(w, m, q), q2), StreamMemory(w, m, q);
      && start.Some? && IsLowest(start.value, Stage2Selected(w, m, q))
      && forall y :: y in Stage2Selected(w2, after, q2) ==> InReach(start, y)
  {
    hide Stage1, Selected, Window, World.Valid, StreamMemory, IsLowest, StreamPage, ReachBefore, InReach;
    PageAutoCursor(w, m, q);
    MemoryMeaning(w, m, q, if Anonymous(q.user) then 0 else q.user.value);
    var after := StreamMemory(w, m, q);
    forall y | y in Stage2Selected(w2, after, q2) ensures InReach(StartOf(after, q2), y) {
      ScanMembers(w2, after, q2, y);
    }
  }

  // --------------------------------------------------------------------
  // The order of a page
  // --------------------------------------------------------------------

  /** Where the rows of field `i` begin. */
  function FieldStart(w: World, qs: seq<Quota>, cursor: Option<int>, seen: set<int>, i: nat): nat
    requires i <= |qs|
  {
    if i == 0 then 0
    else FieldStart(w, qs, cursor, seen, i - 1) + |QuotaRows(w, qs[i - 1], cursor, seen)|
  }

  lemma {:induction false} PreferenceRowsPrefix(w: World, qs: seq<Quota>, cursor: Option<int>, seen: set<int>, i: nat)
    requires i < |qs|
    ensures
      var rows, n := PreferenceRows(w, qs, cursor, seen), FieldStart(w, qs, cursor, seen, i);
      var part := QuotaRows(w, qs[i], cursor, seen);
      n + |part| <= |rows| && rows[n..n + |part|] == part
  {
    hide QuotaRows;
    if i > 0 {
      var rest := qs[1..];
      PreferenceRowsPrefix(w, rest, cursor, seen, i - 1);
      FieldStartShift(w, qs, cursor, seen, i);
      var first, n := QuotaRows(w, qs[0], cursor, seen), FieldStart(w, qs, cursor, seen, i);
      var part := QuotaRows(w, qs[i], cursor, seen);
      var rows, more := PreferenceRows(w, qs, cursor, seen), PreferenceRows(w, rest, cursor, seen);
      assert rows == first + more;
      assert rows[n..n + |part|] == more[n - |first|..n - |first| + |part|];
    }
  }

  lemma {:induction false} FieldStartShift(w: World, qs: seq<Quota>, cursor: Option<int>, seen: set<int>, i: nat)
    requires 0 < i <= |qs|
    ensures FieldStart(w, qs, cursor, seen, i) ==
            |QuotaRows(w, qs[0], cursor, seen)| + FieldStart(w, qs[1..], cursor, seen, i - 1)
  {
    hide QuotaRows;
    if i > 1 { FieldStartShift(w, qs, cursor, seen, i - 1); }
  }

  /** A page lists first the rows of the fields in their order, each field newest first,
      then the assets of the ranked members in the order picked, with scores that do not
      rise, and last the rows of the fallback, newest first. */
  lemma PageOrder(w: World, m: Memory, q: Request, i: nat)
    requires w.Valid() && i < |RequestQuotas(w, m, q)|
    ensures
      var p, qs := StreamPage(w, m, q).data, RequestQuotas(w, m, q);
      var n, part := FieldStart(w, qs, q.dbCursor, q.seen, i), QuotaRows(w, qs[i], q.dbCursor, q.seen);
      var r1, r2, r3 := |Stage1(w, m, q)|, |Stage2(w, m, q)|, |Stage3(w, m, q)|;
      && n + |part| <= r1 && |p| == r1 + r2 + r3 && p[n..n + |part|] == part && NewestFirst(part)
      && p[r1..r1 + r2] == LoadByIds(w.table, Stage2Selected(w, m, q)) && Descending(Stage2Selected(w, m, q))
      && p[r1 + r2..] == Stage3(w, m, q) && NewestFirst(Stage3(w, m, q))
  {
    hide RequestQuotas, QuotaRows, Select, Selected, Window, LoadByIds, Ids, World.Valid, NewestFirst, Descending;
    hide FieldStart, PreferenceRows, Stage3, Stage2Selected;
    var qs := RequestQuotas(w, m, q);
    var n, part := FieldStart(w, qs, q.dbCursor, q.seen, i), QuotaRows(w, qs[i], q.dbCursor, q.seen);
    PreferenceRowsPrefix(w, qs, q.dbCursor, q.seen, i);
    FieldNewestFirst(w, qs[i], q.dbCursor, q.seen);
    PicksDescend(w, m, q);
    FallbackNewestFirst(w, m, q);
    var p, r1, r2, r3 := StreamPage(w, m, q).data, Stage1(w, m, q), Stage2(w, m, q), Stage3(w, m, q);
    Slices(r1, r2, r3, n, n + |part|);
  }

  lemma Slices(x: seq<Asset>, y: seq<Asset>, z: seq<Asset>, i: nat, j: nat)
    requires i <= j <= |x|
    ensures
      var all := x + y + z;
      all[i..j] == x[i..j] && all[|x|..|x| + |y|] == y && all[|x| + |y|..] == z
  {
  }

  lemma FieldNewestFirst(w: World, q: Quota, cursor: Option<int>, seen: set<int>)
    requires w.Valid()
    ensures NewestFirst(QuotaRows(w, q, cursor, seen))
  {
    SelectOrdered(w.table, Cond(seen, cursor, w.Only(q.field, q.keyword)));
  }

  lemma PicksDescend(w: World, m: Memory, q: Request)
    requires w.Valid()
    ensures Descending(Stage2Selected(w, m, q))
  {
    hide Stage1, Selected, Window, DistinctMembers;
    var rows := Stage1(w, m, q);
    if |rows| < q.Size() {
      ScanSelection(w.zset, StartScore(m, q.user, q.autoCursor), q.Size() - |rows|, q.seen + Ids(rows));
    }
  }

  lemma FallbackNewestFirst(w: World, m: Memory, q: Request)
    requires w.Valid()
    ensures NewestFirst(Stage3(w, m, q))
  {
    hide Stage1, Stage2, Select;
    var rows := Stage1(w, m, q) + Stage2(w, m, q);
    SelectOrdered(w.table, Cond(q.seen + Ids(rows), q.dbCursor, None));
  }
}
