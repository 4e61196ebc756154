/**
 The whole stream handler, called again and again with what it returned: which
 assets a client is shown in the end.
 */
module StreamWalk {
  import opened Prelude
  import opened Stream
  import opened StreamPaging
  import opened StreamPages
  import opened StreamPreferences
  import opened StreamRuns

  datatype Turn = Turn(m: Memory, q: Request)

  /** The client sends back the seen ids and both cursors. */
  function Next(w: World, t: Turn): Turn {
    var p := StreamPage(w, t.m, t.q);
    Turn(StreamMemory(w, t.m, t.q),
         t.q.(seen := p.seen, dbCursor := p.dbCursor,
              autoCursor := match p.autoCursor case Some(At(x)) => Some(x) case _ => None))
  }

  function TurnAt(w: World, t: Turn, n: nat): Turn {
    if n == 0 then t else Next(w, TurnAt(w, t, n - 1))
  }

  function Shown(w: World, t: Turn): seq<Asset> {
    StreamPage(w, t.m, t.q).data
  }

  /** Unseen, and not older than the cursor. */
  predicate Passed(t: Turn, a: Asset) {
    a.id !in t.q.seen && t.q.dbCursor.Some? && a.created >= t.q.dbCursor.value
  }

  /** Unseen, and older than the cursor if there is one. */
  predicate Ahead(t: Turn, a: Asset) {
    a.id !in t.q.seen && !Passed(t, a)
  }

  /** This request moves the cursor past an asset without showing it. */
  predicate MovesPast(w: World, t: Turn, a: Asset) {
    Ahead(t, a) && Passed(Next(w, t), a)
  }

  /** The ranked scan of this request, which ignores the cursor, returns the asset. */
  predicate Scans(w: World, t: Turn, a: Asset) {
    a in Stage2(w, t.m, t.q)
  }

  // --------------------------------------------------------------------
  // One request
  // --------------------------------------------------------------------

  /** What the preference stage and the fallback return is older than the cursor. */
  lemma StageMembers(w: World, m: Memory, q: Request, b: Asset)
    requires w.Valid()
    ensures b in Stage1(w, m, q) || b in Stage3(w, m, q) ==>
              b in w.table && b.verified && (q.dbCursor.Some? ==> b.created < q.dbCursor.value)
    ensures b in Stage2(w, m, q) ==> b in w.table
  {
    hide RequestQuotas, PreferenceRows, Stage2Selected, Select, AdmittedBefore;
    PreferenceMembers(w, RequestQuotas(w, m, q), q.dbCursor, q.seen, b);
    LoadKeepsOrder(w.table, Stage2Selected(w, m, q));
    var rows := Stage1(w, m, q) + Stage2(w, m, q);
    if |rows| < q.Size() {
      QueryRows(w.table, Cond(q.seen + Ids(rows), q.dbCursor, None), q.Size() - |rows|);
    }
  }

  lemma ShownInTable(w: World, t: Turn, b: Asset)
    requires w.Valid() && b in Shown(w, t)
    ensures b in w.table
    ensures b in Stage1(w, t.m, t.q) || b in Stage2(w, t.m, t.q) || b in Stage3(w, t.m, t.q)
  {
    hide Stage1, Stage2, Stage3;
    StageMembers(w, t.m, t.q, b);
  }

  /** Seen assets stay seen; a passed asset is shown only by the ranked scan, and
      otherwise stays passed. */
  lemma TurnStep(w: World, t: Turn, a: Asset)
    requires w.Valid() && a in w.table
    ensures a.id in t.q.seen ==> a.id in Next(w, t).q.seen
    ensures Scans(w, t, a) ==> a.id in Next(w, t).q.seen
    ensures Passed(t, a) ==> if Scans(w, t, a) then a.id in Next(w, t).q.seen else Passed(Next(w, t), a)
  {
    hide Stage1, Stage2, Stage3, StreamMemory;
    PageSeen(w, t.m, t.q);
    PageCursor(w, t.m, t.q);
    var data := Shown(w, t);
    assert Next(w, t).q.seen == t.q.seen + Ids(data);
    if Scans(w, t, a) { assert a in data; }
    if Passed(t, a) && a.id in Ids(data) {
      var b :| b in data && b.id == a.id;
      ShownInTable(w, t, b);
      SameAsset(w.table, a, b);
      StageMembers(w, t.m, t.q, b);
    }
  }

  // --------------------------------------------------------------------
  // Which request skips an asset
  // --------------------------------------------------------------------

  /** The rows of the last field asked for, which set the cursor of a full page. */
  function LastField(w: World, t: Turn): seq<Asset> {
    var qs := RequestQuotas(w, t.m, t.q);
    if qs == [] then [] else QuotaRows(w, qs[|qs| - 1], t.q.dbCursor, t.q.seen)
  }

  /** Without the fallback: the first two stages leave the asset out, though the last
      field reaches back to its creation time. */
  predicate SkippedByFields(w: World, t: Turn, a: Asset) {
    var rows, last := Stage1(w, t.m, t.q) + Stage2(w, t.m, t.q), LastField(w, t);
    |rows| >= t.q.Size() && a.id !in Ids(rows) && last != [] && a.created >= last[|last| - 1].created
  }

  /** With the fallback: the asset ties with the last one that fits the page. */
  predicate SkippedByTie(w: World, t: Turn, a: Asset) {
    var rows := Stage1(w, t.m, t.q) + Stage2(w, t.m, t.q);
    var c := Cond(t.q.seen + Ids(rows), t.q.dbCursor, None);
    var limit, all := t.q.Size() - |rows|, Select(w.table, c);
    && |rows| < t.q.Size() && a.id !in Ids(rows)
    && AdmittedBefore(w.table, c, a.id) >= limit
    && |all| >= limit && a.created == all[limit - 1].created
  }

  predicate Skips(w: World, t: Turn, a: Asset) {
    Ahead(t, a) && (SkippedByFields(w, t, a) || SkippedByTie(w, t, a))
  }

  lemma FieldsSkipIff(w: World, t: Turn, a: Asset)
    requires w.Valid() && a in w.table && a.verified && Ahead(t, a)
    requires |Stage1(w, t.m, t.q) + Stage2(w, t.m, t.q)| >= t.q.Size()
    ensures MovesPast(w, t, a) <==> SkippedByFields(w, t, a)
  {
    hide Stage1, Stage2, StreamMemory, RequestQuotas, QuotaRows, World.Valid;
    PageSeen(w, t.m, t.q);
    var rows := Stage1(w, t.m, t.q) + Stage2(w, t.m, t.q);
    assert Stage3(w, t.m, t.q) == [];
    assert Shown(w, t) == rows + [] == rows;
  }

  /** A list of newest rows cut at its limit: who is left out and not older. */
  lemma CutTie(table: seq<Asset>, c: Cond, limit: nat, a: Asset)
    requires NewestFirst(table) && DistinctIds(table) && a in table && c.Admits(a) && limit > 0
    ensures
      var all, rows := Select(table, c), Take(Select(table, c), limit);
      (a !in rows && rows != [] && a.created >= rows[|rows| - 1].created) <==>
      (AdmittedBefore(table, c, a.id) >= limit && |all| >= limit && a.created == all[limit - 1].created)
  {
    hide Cond.Admits, AdmittedBefore;
    SelectOrdered(table, c);
    SelectPosition(table, c, a, limit);
    var all, rows := Select(table, c), Take(Select(table, c), limit);
    var i :| 0 <= i < |all| && all[i] == a;
    assert a !in rows ==> i >= limit;
  }

  /** With the fallback, the next request has seen its rows and starts at their end. */
  lemma AfterFallback(w: World, t: Turn, a: Asset)
    requires w.Valid() && |Stage1(w, t.m, t.q) + Stage2(w, t.m, t.q)| < t.q.Size()
    ensures
      var rows, last := Stage1(w, t.m, t.q) + Stage2(w, t.m, t.q), Stage3(w, t.m, t.q);
      && Next(w, t).q.dbCursor == NextCursor(last, t.q.dbCursor)
      && (a.id in Next(w, t).q.seen <==> a.id in t.q.seen || a.id in Ids(rows) || a.id in Ids(last))
  {
    hide Stage1, Stage2, Stage3, StreamMemory;
    PageSeen(w, t.m, t.q);
    var rows, last := Stage1(w, t.m, t.q) + Stage2(w, t.m, t.q), Stage3(w, t.m, t.q);
    assert Shown(w, t) == rows + last;
    IdsAppend(rows, last);
  }

  lemma MemberById(table: seq<Asset>, rows: seq<Asset>, a: Asset)
    requires DistinctIds(table) && a in table && forall b :: b in rows ==> b in table
    ensures a.id in Ids(rows) <==> a in rows
  {
    if a.id in Ids(rows) {
      var b :| b in rows && b.id == a.id;
      SameAsset(table, a, b);
    }
  }

  lemma TieSkipIff(w: World, t: Turn, a: Asset)
    requires w.Valid() && a in w.table && a.verified && Ahead(t, a)
    requires |Stage1(w, t.m, t.q) + Stage2(w, t.m, t.q)| < t.q.Size()
    ensures MovesPast(w, t, a) <==> SkippedByTie(w, t, a)
  {
    hide Stage1, Stage2, StreamMemory, Select, AdmittedBefore, Next, NewestFirst, DistinctIds, Ids;
    AfterFallback(w, t, a);
    var rows, last := Stage1(w, t.m, t.q) + Stage2(w, t.m, t.q), Stage3(w, t.m, t.q);
    var c, limit := Cond(t.q.seen + Ids(rows), t.q.dbCursor, None), t.q.Size() - |rows|;
    assert last == Take(Select(w.table, c), limit);
    if a.id !in Ids(rows) {
      assert c.Admits(a);
      CutTie(w.table, c, limit, a);
      QueryRows(w.table, c, limit);
      MemberById(w.table, last, a);
    }
  }

  /** A request moves the cursor past an unseen asset exactly in these two cases: the
      page was full before the fallback and the last field reached back that far, or
      the fallback's page ends among assets of the same creation time. */
  lemma {:induction false} SkipsIff(w: World, t: Turn, a: Asset)
    requires w.Valid() && a in w.table && a.verified
    ensures MovesPast(w, t, a) <==> Skips(w, t, a)
  {
    hide Stage1, Stage2, Next, SkippedByFields, SkippedByTie;
    if Ahead(t, a) {
      if |Stage1(w, t.m, t.q) + Stage2(w, t.m, t.q)| >= t.q.Size() {
        FieldsSkipIff(w, t, a);
        NotByTie(w, t, a);
      } else {
        TieSkipIff(w, t, a);
        NotByFields(w, t, a);
      }
    }
  }

  lemma NotByTie(w: World, t: Turn, a: Asset)
    requires |Stage1(w, t.m, t.q) + Stage2(w, t.m, t.q)| >= t.q.Size()
    ensures !SkippedByTie(w, t, a)
  {
  }

  lemma NotByFields(w: World, t: Turn, a: Asset)
    requires |Stage1(w, t.m, t.q) + Stage2(w, t.m, t.q)| < t.q.Size()
    ensures !SkippedByFields(w, t, a)
  {
  }

  /** An empty page means that no verified asset is ahead any more. */
  lemma EmptyPage(w: World, t: Turn, a: Asset)
    requires w.Valid() && a in w.table && a.verified && Shown(w, t) == []
    ensures !Ahead(t, a)
  {
    hide Stage1, Stage2, Select;
    var r1, r2, r3 := Stage1(w, t.m, t.q), Stage2(w, t.m, t.q), Stage3(w, t.m, t.q);
    assert |r1 + r2 + r3| == 0 && r1 == [] && r2 == [];
    assert r1 + r2 == [] && Ids([]) == {};
    var c := Cond(t.q.seen, t.q.dbCursor, None);
    SelectOrdered(w.table, c);
    assert r3 == Take(Select(w.table, Cond(t.q.seen + Ids(r1 + r2), t.q.dbCursor, None)), t.q.Size());
    assert t.q.seen + Ids(r1 + r2) == t.q.seen;
    assert Select(w.table, c) == [];
    assert !c.Admits(a);
  }

  // --------------------------------------------------------------------
  // The walk
  // --------------------------------------------------------------------

  function UnseenIds(w: World, t: Turn): set<int> {
    (set a | a in w.table :: a.id) - t.q.seen
  }

  lemma Shift(w: World, t: Turn, n: nat)
    ensures TurnAt(w, Next(w, t), n) == TurnAt(w, t, n + 1)
  {
    hide Next;
    if n > 0 { Shift(w, t, n - 1); }
  }

  lemma UnseenShrinks(w: World, t: Turn)
    requires w.Valid() && Shown(w, t) != []
    ensures |UnseenIds(w, Next(w, t))| < |UnseenIds(w, t)|
  {
    hide StreamPage, StreamMemory;
    PageSeen(w, t.m, t.q);
    var b := Shown(w, t)[0];
    ShownInTable(w, t, b);
    assert b.id in Ids(Shown(w, t));
    Shrinks(UnseenIds(w, Next(w, t)), UnseenIds(w, t), b.id);
  }

  lemma Shrinks(x: set<int>, y: set<int>, id: int)
    requires x <= y && id in y && id !in x
    ensures |x| < |y|
  {
    assert x <= y - {id};
    SubsetSize(x, y - {id});
  }

  lemma {:induction false} SubsetSize(x: set<int>, y: set<int>)
    requires x <= y
    ensures |x| <= |y|
  {
    assert y == x + (y - x);
  }

  /** Sooner or later a page is empty: at the latest when everything has been seen. */
  lemma {:induction false} WalkEnds(w: World, t: Turn) returns (n: nat)
    requires w.Valid()
    ensures n <= |UnseenIds(w, t)| && Shown(w, TurnAt(w, t, n)) == []
    decreases |UnseenIds(w, t)|
  {
    hide Shown, Next, UnseenIds;
    if Shown(w, t) == [] {
      n := 0;
    } else {
      UnseenShrinks(w, t);
      var k := WalkEnds(w, Next(w, t));
      Shift(w, t, k);
      n := k + 1;
    }
  }

  /** From a passed asset on, only a scan makes it seen. */
  lemma {:induction false} PassedStays(w: World, t: Turn, a: Asset, i: nat, n: nat)
    requires w.Valid() && a in w.table && i <= n && Passed(TurnAt(w, t, i), a)
    requires forall j :: i <= j < n ==> !Scans(w, TurnAt(w, t, j), a)
    ensures Passed(TurnAt(w, t, n), a)
    decreases n
  {
    hide Next, Passed, Scans;
    if i < n {
      PassedStays(w, t, a, i, n - 1);
      TurnStep(w, TurnAt(w, t, n - 1), a);
    }
  }

  /** An asset that was ahead and is passed was skipped on the way, and not scanned since. */
  lemma {:induction false} PassedWasSkipped(w: World, t: Turn, a: Asset, n: nat) returns (i: nat)
    requires w.Valid() && a in w.table && a.verified && Ahead(t, a) && Passed(TurnAt(w, t, n), a)
    ensures i < n && Skips(w, TurnAt(w, t, i), a)
    ensures forall j :: i < j < n ==> !Scans(w, TurnAt(w, t, j), a)
    decreases n
  {
    hide Next, Scans, StreamPage, Skips;
    assert n > 0;
    var before := TurnAt(w, t, n - 1);
    assert TurnAt(w, t, n) == Next(w, before);
    TurnStep(w, before, a);
    SkipsIff(w, before, a);
    if Passed(before, a) {
      i := PassedWasSkipped(w, t, a, n - 1);
    } else {
      i := n - 1;
    }
  }

  predicate ScannedLater(w: World, t: Turn, a: Asset, i: nat, n: nat) {
    exists j: nat :: i < j < n && Scans(w, TurnAt(w, t, j), a)
  }

  lemma ScannedAfterSkip(w: World, t: Turn, a: Asset, i: nat, n: nat)
    requires w.Valid() && a in w.table && a.verified && i < n && Skips(w, TurnAt(w, t, i), a)
    requires a.id in TurnAt(w, t, n).q.seen
    ensures ScannedLater(w, t, a, i, n)
  {
    hide Next, Scans, Skips;
    SkipsIff(w, TurnAt(w, t, i), a);
    if !ScannedLater(w, t, a, i, n) {
      assert TurnAt(w, t, i + 1) == Next(w, TurnAt(w, t, i));
      PassedStays(w, t, a, i + 1, n);
    }
  }

  /** The walk of the handler ends, and by then an asset that was verified, unseen and
      older than the first cursor has been shown exactly when each request that skipped
      it was followed by one whose ranked scan returned it. */
  lemma {:induction false} ShownInTheEndIff(w: World, t: Turn, n: nat, a: Asset)
    requires w.Valid() && a in w.table && a.verified && Ahead(t, a)
    requires Shown(w, TurnAt(w, t, n)) == []
    ensures a.id in TurnAt(w, t, n).q.seen <==>
            forall i: nat :: i < n && Skips(w, TurnAt(w, t, i), a) ==> ScannedLater(w, t, a, i, n)
  {
    hide Next, Shown, Scans, Skips;
    EmptyPage(w, TurnAt(w, t, n), a);
    if a.id in TurnAt(w, t, n).q.seen {
      forall i: nat | i < n && Skips(w, TurnAt(w, t, i), a) ensures ScannedLater(w, t, a, i, n) {
        ScannedAfterSkip(w, t, a, i, n);
      }
    } else {
      var i := PassedWasSkipped(w, t, a, n);
      assert !ScannedLater(w, t, a, i, n);
    }
  }

  // --------------------------------------------------------------------
  // When the ranked scan stops
  // --------------------------------------------------------------------

  /** The scan of a request picks nothing exactly when the page is full already or
      its whole window has been seen. */
  lemma {:induction false} ScanPicksNothingIff(w: World, m: Memory, q: Request)
    requires w.Valid()
    ensures
      var rows := Stage1(w, m, q);
      Stage2Selected(w, m, q) == [] <==>
        || |rows| >= q.Size()
        || forall x :: x in Window(w.zset, StartScore(m, q.user, q.autoCursor), q.Size() - |rows|) ==>
             x.id in q.seen + Ids(rows)
  {
    hide Stage1, Window, Selected, World.Valid, Ids;
    var rows := Stage1(w, m, q);
    if |rows| < q.Size() {
      PicksNothingIff(w, StartScore(m, q.user, q.autoCursor), q.Size() - |rows|, q.seen + Ids(rows));
    }
  }

  lemma PicksNothingIff(w: World, max: Score, limit: nat, seen: set<int>)
    requires w.Valid() && limit > 0
    ensures Selected(Window(w.zset, max, limit), limit, seen) == [] <==>
            forall x :: x in Window(w.zset, max, limit) ==> x.id in seen
  {
    ScanSelection(w.zset, max, limit, seen);
  }

  /** The widest window the scan of this user can ask for has been seen. */
  predicate Exhausted(w: World, t: Turn) {
    forall x :: x in Window(w.zset, StartScore(t.m, t.q.user, t.q.autoCursor), t.q.Size()) ==> x.id in t.q.seen
  }

  lemma WindowPart(zset: seq<Ranked>, max: Score, limit: nat, size: nat)
    requires limit <= size
    ensures forall x :: x in Window(zset, max, limit) ==> x in Window(zset, max, size)
  {
    hide AtMost;
    var all, small, big := AtMost(zset, max), Window(zset, max, limit), Window(zset, max, size);
    forall x | x in small ensures x in big {
      var i :| 0 <= i < |small| && small[i] == x;
      assert big[i] == x;
    }
  }

  lemma {:induction false} ExhaustedStep(w: World, t: Turn)
    requires w.Valid() && Known(t.q.user).Some? && Exhausted(w, t)
    ensures Stage2Selected(w, t.m, t.q) == []
    ensures Exhausted(w, Next(w, t)) && Known(Next(w, t).q.user) == Known(t.q.user)
    ensures Next(w, t).m.lastScores == t.m.lastScores
  {
    hide Stage1, Window, World.Valid, StartScore;
    var rows, max := Stage1(w, t.m, t.q), StartScore(t.m, t.q.user, t.q.autoCursor);
    ScanPicksNothingIff(w, t.m, t.q);
    if |rows| < t.q.Size() { WindowPart(w.zset, max, t.q.Size() - |rows|, t.q.Size()); }
    SeenGrowsBy(w, t);
    SameStart(t, Next(w, t));
  }

  lemma SeenGrowsBy(w: World, t: Turn)
    requires w.Valid()
    ensures t.q.seen <= Next(w, t).q.seen
  {
    hide Stage1, Stage2, Stage3, StreamMemory;
    PageSeen(w, t.m, t.q);
  }

  lemma SameStart(t: Turn, u: Turn)
    requires Known(t.q.user).Some? && u.q.user == t.q.user && u.m.lastScores == t.m.lastScores
    ensures StartScore(u.m, u.q.user, u.q.autoCursor) == StartScore(t.m, t.q.user, t.q.autoCursor)
  {
  }

  /** Once a known user's widest window has been seen, the scan never picks anything
      again: the remembered score stays, so no lower-ranked member is ever reached. */
  lemma {:induction false} ScanIsStuck(w: World, t: Turn, n: nat)
    requires w.Valid() && Known(t.q.user).Some? && Exhausted(w, t)
    ensures
      var u := TurnAt(w, t, n);
      && Exhausted(w, u) && Known(u.q.user).Some?
      && Stage2Selected(w, u.m, u.q) == [] && u.m.lastScores == t.m.lastScores
      && forall a :: !Scans(w, u, a)
  {
    hide Exhausted, Next, Known, Stage2Selected;
    if n > 0 {
      ScanIsStuck(w, t, n - 1);
      ExhaustedStep(w, TurnAt(w, t, n - 1));
    }
    ExhaustedStep(w, TurnAt(w, t, n));
    LoadNothing(w.table);
  }

  /** A user whose only preference matches the older of two assets is shown that one
      on a page of one; the newer asset is skipped, and no ranked scan knows it. */
  lemma NewerAssetIsSkipped()
    ensures
      var newer, older := Asset(1, 20, true), Asset(2, 10, true);
      var w := World([newer, older], [], map[(7, "tags") := ["pool"]], map[("tags", "pool") := {2}]);
      var t := Turn(Memory(map[], map[]), Request(Some(7), 1, {}, None, None));
      && w.Valid() && Shown(w, t) == [older]
      && Skips(w, t, newer) && forall u :: !Scans(w, u, newer)
  {
    var newer, older := Asset(1, 20, true), Asset(2, 10, true);
    var w := World([newer, older], [], map[(7, "tags") := ["pool"]], map[("tags", "pool") := {2}]);
    var t := Turn(Memory(map[], map[]), Request(Some(7), 1, {}, None, None));
    var quota := Quota("tags", "pool", 15);
    OnlyQuota(w, t.m, t.q);
    var c := Cond({}, None, Some({2}));
    assert w.Only("tags", "pool") == Some({2}) && !c.Admits(newer) && c.Admits(older);
    assert [newer, older][1..] == [older] && [older][1..] == [];
    assert Select([older], c) == [older] && Select(w.table, c) == Select([older], c);
    assert QuotaRows(w, quota, None, {}) == [older];
    OneQuota(w, quota, None, {});
    hide RequestQuotas, PreferenceRows, QuotaRows, PrefsFor, Select, Scans;
    assert Stage1(w, t.m, t.q) == [older];
    assert Stage2(w, t.m, t.q) == [] by { NothingPicked(w, t.m, t.q); }
    forall u ensures !Scans(w, u, newer) { NeverScanned(w, u, newer); }
  }

  lemma NeverScanned(w: World, t: Turn, a: Asset)
    requires w.zset == []
    ensures !Scans(w, t, a)
  {
    NothingPicked(w, t.m, t.q);
  }

  lemma OnlyQuota(w: World, m: Memory, q: Request)
    requires w.prefs == map[(7, "tags") := ["pool"]] && q.user == Some(7) && m.counters == map[]
    ensures RequestQuotas(w, m, q) == [Quota("tags", "pool", 15)]
  {
    OnlyTags(w, 7);
    var only := [FieldPrefs("tags", ["pool"])];
    assert PrefsFor(w, Some(7)) == only;
    assert only[1..] == [];
    assert CeilDiv(MAX_RESULTS_PER_STREAM, 1) == 15 && Bump(m.counters, 7, "tags") == 1;
    assert Quotas(m.counters, 7, only, 15) ==
      [Quota("tags", "pool", 15)] + Quotas(m.counters[(7, "tags") := 1], 7, only[1..], 15);
  }

  lemma OneQuota(w: World, q: Quota, cursor: Option<int>, seen: set<int>)
    ensures PreferenceRows(w, [q], cursor, seen) == QuotaRows(w, q, cursor, seen)
  {
    assert [q][1..] == [];
  }

  lemma OnlyTags(w: World, user: int)
    requires w.prefs == map[(user, "tags") := ["pool"]]
    ensures UserPrefs(w, user, DEFAULT_PREFS) == [FieldPrefs("tags", ["pool"])]
  {
    var f := DEFAULT_PREFS;
    assert f[0].field == "categories" && f[1].field == "tags" && f[2].field == "location";
    assert f[3].field == "price" && f[4].field == "others" && |f| == 5;
    assert UserPrefs(w, user, f[5..]) == [];
    assert f[4..][1..] == f[5..] && f[3..][1..] == f[4..] && f[2..][1..] == f[3..] && f[1..][1..] == f[2..];
    assert UserPrefs(w, user, f[4..]) == [];
    assert UserPrefs(w, user, f[3..]) == [];
    assert UserPrefs(w, user, f[2..]) == [];
    assert UserPrefs(w, user, f[1..]) == [FieldPrefs("tags", ["pool"])];
  }

  /** An empty ranking yields nothing. */
  lemma NothingPicked(w: World, m: Memory, q: Request)
    requires w.zset == []
    ensures Stage2(w, m, q) == []
  {
    hide Stage1;
  }
}
