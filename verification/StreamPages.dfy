/**
 What a stream page contains: no repetition across requests or across the last
 two stages, exact bookkeeping of seen ids, and a bound on the page length.
 */
module StreamPages {
  import opened Prelude
  import opened Stream
  import opened StreamPaging

  // --------------------------------------------------------------------
  // Stage 1: preferences
  // --------------------------------------------------------------------

  lemma IdsAppend(x: seq<Asset>, y: seq<Asset>)
    ensures Ids(x + y) == Ids(x) + Ids(y)
  {
    assert forall a :: a in x + y <==> a in x || a in y;
  }

  lemma TakePart<T>(s: seq<T>, n: nat)
    ensures |Take(s, n)| <= n && Take(s, n) <= s
  {
  }

  /** One query returns unseen assets, each once, at most its limit. */
  lemma QueryRows(table: seq<Asset>, c: Cond, limit: nat)
    requires DistinctIds(table)
    ensures
      var rows := Take(Select(table, c), limit);
      && |rows| <= limit && DistinctIds(rows) && Ids(rows) !! c.seen
      && forall a :: a in rows ==> a in table && c.Admits(a)
  {
    SelectDistinctIds(table, c);
    TakePart(Select(table, c), limit);
    var rows := Take(Select(table, c), limit);
    forall a | a in rows ensures a in table && c.Admits(a) { assert a in Select(table, c); }
  }

  lemma {:induction false} PreferenceStage(w: World, qs: seq<Quota>, cursor: Option<int>, seen: set<int>, limit: nat)
    requires DistinctIds(w.table) && forall i :: 0 <= i < |qs| ==> qs[i].limit == limit
    ensures |PreferenceRows(w, qs, cursor, seen)| <= |qs| * limit
    ensures Ids(PreferenceRows(w, qs, cursor, seen)) !! seen
  {
    if qs != [] {
      QueryRows(w.table, Cond(seen, cursor, w.Only(qs[0].field, qs[0].keyword)), qs[0].limit);
      PreferenceStage(w, qs[1..], cursor, seen, limit);
      IdsAppend(QuotaRows(w, qs[0], cursor, seen), PreferenceRows(w, qs[1..], cursor, seen));
      MulDifference(|qs|, 1, limit);
    }
  }

  lemma {:induction false} QuotasBounded(counters: map<(int, string), nat>, user: int, prefs: seq<FieldPrefs>,
                                        limit: nat)
    ensures
      var qs := Quotas(counters, user, prefs, limit);
      |qs| <= |prefs| && forall i :: 0 <= i < |qs| ==> qs[i].limit == limit
    decreases |prefs|
  {
    if prefs != [] {
      QuotasBounded(counters, user, prefs[1..], limit);
      QuotasBounded(counters[(user, prefs[0].field) := Bump(counters, user, prefs[0].field)], user, prefs[1..], limit);
    }
  }

  // --------------------------------------------------------------------
  // Stage 2: the ranked scan
  // --------------------------------------------------------------------

  lemma {:induction false} AtMostPart(zset: seq<Ranked>, max: Score)
    requires Descending(zset) && DistinctMembers(zset)
    ensures Descending(AtMost(zset, max)) && DistinctMembers(AtMost(zset, max))
    ensures forall x :: x in AtMost(zset, max) <==> x in zset && max.AtLeast(x.score)
  {
    hide Descending, DistinctMembers;
    EmptyIsRanked();
    if zset != [] {
      RankedTail(zset, []);
      AtMostPart(zset[1..], max);
      RankedTail(zset, AtMost(zset[1..], max));
      RankedCons(zset[0], AtMost(zset[1..], max));
    }
  }

  lemma {:induction false} UnseenPart(zset: seq<Ranked>, seen: set<int>)
    requires Descending(zset) && DistinctMembers(zset)
    ensures Descending(Unseen(zset, seen)) && DistinctMembers(Unseen(zset, seen))
    ensures forall x :: x in Unseen(zset, seen) <==> x in zset && x.id !in seen
  {
    hide Descending, DistinctMembers;
    EmptyIsRanked();
    if zset != [] {
      RankedTail(zset, []);
      UnseenPart(zset[1..], seen);
      RankedTail(zset, Unseen(zset[1..], seen));
      RankedCons(zset[0], Unseen(zset[1..], seen));
    }
  }

  /** The head of a ranked list stands above, and apart from, any part of its tail. */
  lemma RankedTail(zset: seq<Ranked>, part: seq<Ranked>)
    requires zset != [] && Descending(zset) && DistinctMembers(zset)
    requires forall x :: x in part ==> x in zset[1..]
    ensures Descending(zset[1..]) && DistinctMembers(zset[1..])
    ensures forall i :: 0 <= i < |part| ==> zset[0].score >= part[i].score && zset[0].id != part[i].id
  {
    forall i | 0 <= i < |part| ensures zset[0].score >= part[i].score && zset[0].id != part[i].id {
      assert part[i] in zset[1..];
      var j :| 0 <= j < |zset[1..]| && zset[1..][j] == part[i];
      assert zset[j + 1] == part[i];
    }
  }

  lemma RankedCons(z: Ranked, part: seq<Ranked>)
    requires Descending(part) && DistinctMembers(part)
    requires forall i :: 0 <= i < |part| ==> z.score >= part[i].score && z.id != part[i].id
    ensures Descending([z] + part) && DistinctMembers([z] + part)
  {
  }

  lemma EmptyIsRanked()
    ensures Descending([]) && DistinctMembers([])
  {
  }

  lemma RankedPrefix(zset: seq<Ranked>, n: nat)
    requires Descending(zset) && DistinctMembers(zset)
    ensures Descending(Take(zset, n)) && DistinctMembers(Take(zset, n))
  {
  }

  function SeenCount(window: seq<Ranked>, seen: set<int>): nat {
    if window == [] then 0 else (if window[0].id in seen then 1 else 0) + SeenCount(window[1..], seen)
  }

  lemma {:induction false} UnseenCount(window: seq<Ranked>, seen: set<int>)
    ensures |Unseen(window, seen)| + SeenCount(window, seen) == |window|
  {
    if window != [] { UnseenCount(window[1..], seen); }
  }

  /** A prefix of a ranked list outranks the rest, and its last score is its lowest. */
  lemma PrefixOutranks(all: seq<Ranked>, n: nat)
    requires Descending(all)
    ensures
      var picked := Take(all, n);
      && |picked| <= n && (picked == [] <==> n == 0 || all == [])
      && (forall x :: x in picked ==> x in all)
      && (forall x, y :: x in all && x !in picked && y in picked ==> x.score <= y.score)
      && (picked != [] ==> forall y :: y in picked ==> LastScore(picked).value <= y.score)
  {
    var picked := Take(all, n);
    forall x, y | x in all && x !in picked && y in picked ensures x.score <= y.score {
      var i :| 0 <= i < |all| && all[i] == x;
      var j :| 0 <= j < |picked| && picked[j] == y;
      assert i >= |picked| && all[j] == y;
    }
  }

  /** The scan picks unseen members of the window with non-increasing scores; no
      unseen member of the window it passes over outranks one it picks; its
      cursor is the lowest score picked. */
  lemma ScanSelection(zset: seq<Ranked>, max: Score, limit: nat, seen: set<int>)
    requires Descending(zset) && DistinctMembers(zset)
    ensures
      var window := Window(zset, max, limit);
      var picked := Selected(window, limit, seen);
      && |picked| <= limit && Descending(picked) && DistinctMembers(picked)
      && (forall x :: x in picked ==> x in window && x in zset && max.AtLeast(x.score) && x.id !in seen)
      && (forall x, y :: x in window && x.id !in seen && x !in picked && y in picked ==> x.score <= y.score)
      && (picked != [] ==> forall y :: y in picked ==> LastScore(picked).value <= y.score)
      && (picked == [] <==> limit == 0 || forall x :: x in window ==> x.id in seen)
  {
    hide Descending, DistinctMembers, AtMost, Unseen, Take, LastScore, Score.AtLeast;
    AtMostPart(zset, max);
    var window := Window(zset, max, limit);
    RankedPrefix(AtMost(zset, max), limit * 2);
    PrefixOutranks(AtMost(zset, max), limit * 2);
    UnseenPart(window, seen);
    var all := Unseen(window, seen);
    RankedPrefix(all, limit);
    PrefixOutranks(all, limit);
    if all != [] { assert all[0] in all; }
  }

  /** A full window of which at most `limit` members are seen yields `limit` ids. */
  lemma ScanFills(zset: seq<Ranked>, max: Score, limit: nat, seen: set<int>)
    requires |Window(zset, max, limit)| == 2 * limit
    requires SeenCount(Window(zset, max, limit), seen) <= limit
    ensures |Selected(Window(zset, max, limit), limit, seen)| == limit
  {
    UnseenCount(Window(zset, max, limit), seen);
  }

  lemma {:induction false} FetchFinds(table: seq<Asset>, id: int)
    ensures Fetch(table, id).Some? ==> Fetch(table, id).value in table && Fetch(table, id).value.id == id
    ensures Fetch(table, id).None? ==> id !in Ids(table)
  {
    if table != [] { FetchFinds(table[1..], id); }
  }

  /** Loading keeps the order of the ids that exist and drops the others. */
  lemma {:induction false} LoadKeepsOrder(table: seq<Asset>, picked: seq<Ranked>)
    ensures
      var rows := LoadByIds(table, picked);
      var known := Existing(table, picked);
      && |rows| == |known| <= |picked|
      && forall i :: 0 <= i < |rows| ==> rows[i] in table && rows[i].id == known[i].id
  {
    if picked != [] {
      LoadKeepsOrder(table, picked[1..]);
      FetchFinds(table, picked[0].id);
    }
  }

  /** The picked members whose asset exists. */
  function Existing(table: seq<Asset>, picked: seq<Ranked>): seq<Ranked> {
    if picked == [] then []
    else if picked[0].id in Ids(table) then [picked[0]] + Existing(table, picked[1..])
    else Existing(table, picked[1..])
  }

  lemma {:induction false} KnownPart(table: seq<Asset>, picked: seq<Ranked>)
    requires DistinctMembers(picked)
    ensures DistinctMembers(Existing(table, picked))
    ensures forall x :: x in Existing(table, picked) ==> x in picked
  {
    if picked != [] {
      KnownPart(table, picked[1..]);
      var part := Existing(table, picked[1..]);
      forall i | 0 <= i < |part| ensures picked[0].id != part[i].id {
        assert part[i] in picked[1..];
        var j :| 0 <= j < |picked[1..]| && picked[1..][j] == part[i];
        assert picked[j + 1] == part[i];
      }
    }
  }

  lemma ScanStage(w: World, max: Score, limit: nat, seen: set<int>)
    requires w.Valid()
    ensures
      var rows := LoadByIds(w.table, Selected(Window(w.zset, max, limit), limit, seen));
      |rows| <= limit && DistinctIds(rows) && Ids(rows) !! seen
  {
    var picked := Selected(Window(w.zset, max, limit), limit, seen);
    ScanSelection(w.zset, max, limit, seen);
    LoadKeepsOrder(w.table, picked);
    KnownPart(w.table, picked);
    var rows, known := LoadByIds(w.table, picked), Existing(w.table, picked);
    forall a | a in rows ensures a.id !in seen {
      var i :| 0 <= i < |rows| && rows[i] == a;
      assert known[i] in known && known[i] in picked;
    }
  }

  // --------------------------------------------------------------------
  // The page
  // --------------------------------------------------------------------

  lemma PageStage1(w: World, m: Memory, q: Request)
    requires w.Valid()
    ensures
      var r1, n := Stage1(w, m, q), |PrefsFor(w, q.user)|;
      n > 0 && |r1| <= n * CeilDiv(MAX_RESULTS_PER_STREAM, n) && Ids(r1) !! q.seen
  {
    hide PrefsFor, CeilDiv, PreferenceRows;
    var prefs := PrefsFor(w, q.user);
    var limit := CeilDiv(MAX_RESULTS_PER_STREAM, |prefs|);
    var qs := RequestQuotas(w, m, q);
    QuotasBounded(m.counters, CountersKey(q.user), prefs, limit);
    PreferenceStage(w, qs, q.dbCursor, q.seen, limit);
    MulMonotone(|qs|, |prefs|, limit);
  }

  lemma {:induction false} PageStage2(w: World, m: Memory, q: Request)
    requires w.Valid()
    ensures
      var r1, r2 := Stage1(w, m, q), Stage2(w, m, q);
      && |r1 + r2| <= Max(q.Size(), |r1|)
      && DistinctIds(r2) && Ids(r2) !! q.seen + Ids(r1)
  {
    hide Stage1, World.Valid, Selected;
    var r1 := Stage1(w, m, q);
    if |r1| < q.Size() {
      ScanStage(w, StartScore(m, q.user, q.autoCursor), q.Size() - |r1|, q.seen + Ids(r1));
    }
  }

  lemma {:induction false} PageStage3(w: World, m: Memory, q: Request)
    requires w.Valid()
    ensures
      var r1, r2, r3 := Stage1(w, m, q), Stage2(w, m, q), Stage3(w, m, q);
      && |r1 + r2 + r3| <= Max(q.Size(), |r1 + r2|)
      && DistinctIds(r3) && Ids(r3) !! q.seen + Ids(r1) + Ids(r2)
  {
    hide Stage1, Stage2, Select;
    var r1, r2 := Stage1(w, m, q), Stage2(w, m, q);
    IdsAppend(r1, r2);
    if |r1 + r2| < q.Size() {
      QueryRows(w.table, Cond(q.seen + Ids(r1 + r2), q.dbCursor, None), q.Size() - |r1 + r2|);
    }
  }

  /** The three stages of a page: bounded, and the last two add only ids that
      are new, distinct from each other and from the first. */
  lemma {:induction false} PageStages(w: World, m: Memory, q: Request)
    requires w.Valid()
    ensures
      var r1, r2, r3 := Stage1(w, m, q), Stage2(w, m, q), Stage3(w, m, q);
      var n := |PrefsFor(w, q.user)|;
      && n > 0
      && |r1| <= n * CeilDiv(MAX_RESULTS_PER_STREAM, n)
      && |r1 + r2 + r3| <= Max(q.Size(), |r1|)
      && DistinctIds(r2) && DistinctIds(r3)
      && Ids(r1) !! q.seen && Ids(r2) !! q.seen + Ids(r1) && Ids(r3) !! q.seen + Ids(r1) + Ids(r2)
  {
    hide Stage1, Stage2, Stage3, PrefsFor, CeilDiv;
    PageStage1(w, m, q);
    PageStage2(w, m, q);
    PageStage3(w, m, q);
  }

  lemma MulMonotone(a: nat, b: nat, c: nat)
    requires a <= b
    ensures a * c <= b * c
  {
  }

  /** The page size asked for, zero meaning fifteen. */
  function Wanted(q: Request): nat {
    if q.size == 0 then 15 else q.size
  }

  lemma CeilIsLeast(a: nat, b: nat)
    requires b > 0
    ensures b * CeilDiv(a, b) >= a && b * (CeilDiv(a, b) - 1) < a
  {
    var x := a + b - 1;
    assert x == b * (x / b) + x % b;
    assert b * (x / b - 1) == b * (x / b) - b;
  }

  lemma LeastFits(a: nat, b: nat, limit: nat)
    requires b > 0 && b * limit >= a
    ensures b * CeilDiv(a, b) <= b * limit
  {
    hide CeilDiv;
    CeilIsLeast(a, b);
    if limit < CeilDiv(a, b) {
      MulMonotone(limit, CeilDiv(a, b) - 1, b);
    } else {
      MulMonotone(CeilDiv(a, b), limit, b);
    }
  }

  /** Length of a page: the size asked for, or what the fields give, which is within any
      common limit with which they can fill a default page. */
  lemma {:induction false} PageLength(w: World, m: Memory, q: Request, limit: nat)
    requires w.Valid() && |PrefsFor(w, q.user)| * limit >= 15
    ensures |StreamPage(w, m, q).data| <= Max(Wanted(q), |PrefsFor(w, q.user)| * limit)
  {
    hide PrefsFor, CeilDiv, World.Valid, Stage1, Stage2, Stage3;
    PageStages(w, m, q);
    LeastFits(15, |PrefsFor(w, q.user)|, limit);
  }

  /** The returned seen-set is the given one plus exactly the returned ids, and no
      returned id was seen before. */
  lemma {:induction false} PageSeen(w: World, m: Memory, q: Request)
    requires w.Valid()
    ensures
      var p := StreamPage(w, m, q);
      p.seen == q.seen + Ids(p.data) && Ids(p.data) !! q.seen
  {
    hide Stage1, Stage2, Stage3, PrefsFor, CeilDiv, Ids, World.Valid;
    PageStages(w, m, q);
    var r1, r2, r3 := Stage1(w, m, q), Stage2(w, m, q), Stage3(w, m, q);
    IdsAppend(r1, r2);
    IdsAppend(r1 + r2, r3);
  }

  /** A page repeats an id exactly when its preference stage does. */
  lemma {:induction false} PageDistinctIff(w: World, m: Memory, q: Request)
    requires w.Valid()
    ensures DistinctIds(StreamPage(w, m, q).data) <==> DistinctIds(Stage1(w, m, q))
  {
    PageStages(w, m, q);
    var r1, r2, r3 := Stage1(w, m, q), Stage2(w, m, q), Stage3(w, m, q);
    DistinctAppend(r1, r2);
    IdsAppend(r1, r2);
    DistinctAppend(r1 + r2, r3);
  }

  lemma DistinctAppend(x: seq<Asset>, y: seq<Asset>)
    ensures DistinctIds(x + y) <==> DistinctIds(x) && DistinctIds(y) && Ids(x) !! Ids(y)
  {
    var z := x + y;
    if DistinctIds(z) {
      forall i, j | 0 <= i < j < |x| ensures x[i].id != x[j].id { assert z[i] == x[i] && z[j] == x[j]; }
      forall i, j | 0 <= i < j < |y| ensures y[i].id != y[j].id {
        assert z[|x| + i] == y[i] && z[|x| + j] == y[j];
      }
      forall a, b | a in x && b in y ensures a.id != b.id {
        var i :| 0 <= i < |x| && x[i] == a;
        var j :| 0 <= j < |y| && y[j] == b;
        assert z[i] == a && z[|x| + j] == b;
      }
    }
    if DistinctIds(x) && DistinctIds(y) && Ids(x) !! Ids(y) {
      forall i, j | 0 <= i < j < |z| ensures z[i].id != z[j].id {
        if i < |x| <= j { assert x[i].id in Ids(x) && y[j - |x|].id in Ids(y); }
      }
    }
  }

  // --------------------------------------------------------------------
  // Every run
  // --------------------------------------------------------------------

  /** One request of a client that sends back the seen ids it was given. The data,
      the kept state and all other request fields may change between requests. */
  datatype Call = Call(w: World, m: Memory, q: Request)

  ghost predicate FeedsBack(calls: seq<Call>) {
    && (forall i :: 0 <= i < |calls| ==> calls[i].w.Valid())
    && forall i :: 0 < i < |calls| ==>
         calls[i].q.seen == StreamPage(calls[i - 1].w, calls[i - 1].m, calls[i - 1].q).seen
  }

  lemma {:induction false} SeenGrows(calls: seq<Call>, i: nat, j: nat)
    requires FeedsBack(calls) && i < j < |calls|
    ensures Ids(StreamPage(calls[i].w, calls[i].m, calls[i].q).data) <= calls[j].q.seen
    decreases j
  {
    PageSeen(calls[j - 1].w, calls[j - 1].m, calls[j - 1].q);
    if i < j - 1 { SeenGrows(calls, i, j - 1); }
  }

  /** Pages of one run never share an asset. */
  lemma {:induction false} PagesAreDisjoint(calls: seq<Call>, i: nat, j: nat)
    requires FeedsBack(calls) && i < j < |calls|
    ensures Ids(StreamPage(calls[i].w, calls[i].m, calls[i].q).data)
         !! Ids(StreamPage(calls[j].w, calls[j].m, calls[j].q).data)
  {
    SeenGrows(calls, i, j);
    PageSeen(calls[j].w, calls[j].m, calls[j].q);
  }

  // --------------------------------------------------------------------
  // Round robin
  // --------------------------------------------------------------------

  /** Of any `size` consecutive choices for a field, each keyword gets exactly one:
      the choice numbered `t` after counter value `c` is keyword `(c + t) % size`. */
  lemma RoundRobin(c: nat, size: nat, k: nat)
    requires k < size
    ensures exists t :: 1 <= t <= size && Choice(c, t, size) == k
    ensures forall t, u :: 1 <= t < u <= size ==> Choice(c, t, size) != Choice(c, u, size)
  {
    var r := c % size;
    forall t | 1 <= t <= size
      ensures Choice(c, t, size) == if r + t < size then r + t else if r + t < 2 * size then r + t - size else 0
    {
      ModShift(c, t, size);
    }
    var t := if k > r then k - r else k - r + size;
    assert 1 <= t <= size && Choice(c, t, size) == k;
  }

  function Choice(c: nat, t: nat, size: nat): nat
    requires size > 0
  {
    (c + t) % size
  }

  lemma ModShift(c: nat, t: nat, size: nat)
    requires 1 <= t <= size
    ensures
      var r := c % size;
      (c + t) % size == if r + t < size then r + t else if r + t < 2 * size then r + t - size else 0
  {
    var r, q := c % size, c / size;
    var s := if r + t < size then r + t else r + t - size;
    var p := if r + t < size then q else q + 1;
    assert c + t == p * size + s;
    ModUnique(c + t, p, s, size);
  }

  lemma ModUnique(x: nat, q: nat, r: nat, size: nat)
    requires size > 0 && r < size && x == q * size + r
    ensures x % size == r
  {
    var q1, r1 := x / size, x % size;
    assert x == q1 * size + r1;
    MulDifference(q1, q, size);
    var k := q1 - q;
    assert k * size == r - r1;
    if k >= 1 { MulAtLeast(k, size); }
    if k <= -1 { MulAtLeast(-k, size); MulDifference(0, k, size); }
  }

  lemma MulDifference(a: int, b: int, c: int)
    ensures (a - b) * c == a * c - b * c
  {
  }

  lemma MulAtLeast(k: int, c: nat)
    requires k >= 1
    ensures k * c >= c
  {
    MulDifference(k, 1, c);
  }
}
