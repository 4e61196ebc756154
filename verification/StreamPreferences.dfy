/**
 When the preference stage, and with it a page, repeats an asset.
 */
module StreamPreferences {
  import opened Prelude
  import opened Stream
  import opened StreamPaging
  import opened StreamPages

  function QuotaCond(w: World, q: Quota, cursor: Option<int>, seen: set<int>): Cond {
    Cond(seen, cursor, w.Only(q.field, q.keyword))
  }

  /** How many admitted assets the table lists before an id. */
  function AdmittedBefore(table: seq<Asset>, c: Cond, id: int): nat {
    if table == [] || table[0].id == id then 0
    else (if c.Admits(table[0]) then 1 else 0) + AdmittedBefore(table[1..], c, id)
  }

  /** The asset is verified, unseen, old enough, matches the keyword, and fewer than
      the quota's limit of such assets are newer. */
  predicate InQuota(w: World, q: Quota, cursor: Option<int>, seen: set<int>, a: Asset) {
    && QuotaCond(w, q, cursor, seen).Admits(a)
    && AdmittedBefore(w.table, QuotaCond(w, q, cursor, seen), a.id) < q.limit
  }

  /** No asset is in the quotas of two fields. */
  ghost predicate NoneTwice(w: World, qs: seq<Quota>, cursor: Option<int>, seen: set<int>) {
    forall i, j, a :: 0 <= i < j < |qs| && a in w.table ==>
      !(InQuota(w, qs[i], cursor, seen, a) && InQuota(w, qs[j], cursor, seen, a))
  }

  lemma {:induction false} SelectPosition(table: seq<Asset>, c: Cond, a: Asset, limit: nat)
    requires DistinctIds(table) && a in table
    ensures a in Take(Select(table, c), limit) <==> c.Admits(a) && AdmittedBefore(table, c, a.id) < limit
  {
    var head, rest := table[0], table[1..];
    TakeCons(head, Select(rest, c), limit);
    SelectDistinctIds(rest, c);
    if a == head {
      HeadApart(table, c);
    } else {
      assert a in rest && head.id != a.id by { NotTwice(table, a); }
      SelectPosition(rest, c, a, if c.Admits(head) && limit > 0 then limit - 1 else limit);
    }
  }

  lemma TakeCons(x: Asset, s: seq<Asset>, limit: nat)
    ensures Take([x] + s, limit) == if limit == 0 then [] else [x] + Take(s, limit - 1)
  {
  }

  lemma NotTwice(table: seq<Asset>, a: Asset)
    requires DistinctIds(table) && a in table && a != table[0]
    ensures a in table[1..] && table[0].id != a.id
  {
    var i :| 0 <= i < |table| && table[i] == a;
    assert i > 0 && table[1..][i - 1] == a;
  }

  lemma HeadApart(table: seq<Asset>, c: Cond)
    requires DistinctIds(table) && table != []
    ensures table[0] !in Select(table[1..], c)
  {
    var rest := table[1..];
    SelectDistinctIds(rest, c);
    assert forall i :: 0 <= i < |rest| ==> rest[i] == table[i + 1];
  }

  /** A field returns exactly the assets in its quota. */
  lemma QuotaMembers(w: World, q: Quota, cursor: Option<int>, seen: set<int>, a: Asset)
    requires DistinctIds(w.table)
    ensures a in QuotaRows(w, q, cursor, seen) <==> a in w.table && InQuota(w, q, cursor, seen, a)
  {
    QueryRows(w.table, QuotaCond(w, q, cursor, seen), q.limit);
    if a in w.table { SelectPosition(w.table, QuotaCond(w, q, cursor, seen), a, q.limit); }
  }

  lemma {:induction false} PreferenceMembers(w: World, qs: seq<Quota>, cursor: Option<int>, seen: set<int>, a: Asset)
    requires DistinctIds(w.table)
    ensures a in PreferenceRows(w, qs, cursor, seen) <==>
            a in w.table && exists i :: 0 <= i < |qs| && InQuota(w, qs[i], cursor, seen, a)
  {
    hide InQuota, QuotaRows;
    if qs != [] {
      QuotaMembers(w, qs[0], cursor, seen, a);
      PreferenceMembers(w, qs[1..], cursor, seen, a);
      if i :| 0 <= i < |qs[1..]| && InQuota(w, qs[1..][i], cursor, seen, a) {
        assert qs[i + 1] == qs[1..][i];
      }
      if i :| 0 <= i < |qs| && InQuota(w, qs[i], cursor, seen, a) {
        if i > 0 { assert qs[1..][i - 1] == qs[i]; }
      }
    }
  }

  lemma SameAsset(table: seq<Asset>, a: Asset, b: Asset)
    requires DistinctIds(table) && a in table && b in table && a.id == b.id
    ensures a == b
  {
    var i :| 0 <= i < |table| && table[i] == a;
    var j :| 0 <= j < |table| && table[j] == b;
  }

  lemma NoneTwiceStep(w: World, qs: seq<Quota>, cursor: Option<int>, seen: set<int>)
    requires DistinctIds(w.table) && qs != []
    ensures NoneTwice(w, qs, cursor, seen) <==>
            NoneTwice(w, qs[1..], cursor, seen)
            && Ids(QuotaRows(w, qs[0], cursor, seen)) !! Ids(PreferenceRows(w, qs[1..], cursor, seen))
  {
    hide InQuota, QuotaRows, PreferenceRows;
    var rest := qs[1..];
    var first, later := QuotaRows(w, qs[0], cursor, seen), PreferenceRows(w, rest, cursor, seen);
    forall a ensures a in first <==> a in w.table && InQuota(w, qs[0], cursor, seen, a) {
      QuotaMembers(w, qs[0], cursor, seen, a);
    }
    forall a ensures a in later <==>
                     a in w.table && exists i :: 0 <= i < |rest| && InQuota(w, rest[i], cursor, seen, a) {
      PreferenceMembers(w, rest, cursor, seen, a);
    }
    if NoneTwice(w, qs, cursor, seen) {
      forall i, j, a | 0 <= i < j < |rest| && a in w.table
        ensures !(InQuota(w, rest[i], cursor, seen, a) && InQuota(w, rest[j], cursor, seen, a))
      {
        assert rest[i] == qs[i + 1] && rest[j] == qs[j + 1];
      }
      forall a, b | a in first && b in later ensures a.id != b.id {
        if a.id == b.id { SameAsset(w.table, a, b); }
        var i :| 0 <= i < |rest| && InQuota(w, rest[i], cursor, seen, b);
        assert rest[i] == qs[i + 1];
      }
    }
    if NoneTwice(w, rest, cursor, seen) && Ids(first) !! Ids(later) {
      forall i, j, a | 0 <= i < j < |qs| && a in w.table
        ensures !(InQuota(w, qs[i], cursor, seen, a) && InQuota(w, qs[j], cursor, seen, a))
      {
        assert rest[j - 1] == qs[j];
        if i == 0 {
          assert a in first && a in later ==> a.id in Ids(first) && a.id in Ids(later);
        } else {
          assert rest[i - 1] == qs[i];
        }
      }
    }
  }

  /** The preference stage returns an asset twice exactly when some asset is in the
      quotas of two fields. */
  lemma {:induction false} PreferencesDistinctIff(w: World, qs: seq<Quota>, cursor: Option<int>, seen: set<int>)
    requires DistinctIds(w.table)
    ensures DistinctIds(PreferenceRows(w, qs, cursor, seen)) <==> NoneTwice(w, qs, cursor, seen)
  {
    hide InQuota, QuotaRows, NoneTwice;
    if qs == [] {
      NoQuotas(w, cursor, seen);
    } else {
      QueryRows(w.table, QuotaCond(w, qs[0], cursor, seen), qs[0].limit);
      QuotaRowsDistinct(w, qs[0], cursor, seen);
      PreferencesDistinctIff(w, qs[1..], cursor, seen);
      NoneTwiceStep(w, qs, cursor, seen);
      DistinctAppend(QuotaRows(w, qs[0], cursor, seen), PreferenceRows(w, qs[1..], cursor, seen));
    }
  }

  lemma NoQuotas(w: World, cursor: Option<int>, seen: set<int>)
    ensures NoneTwice(w, [], cursor, seen)
  {
  }

  lemma QuotaRowsDistinct(w: World, q: Quota, cursor: Option<int>, seen: set<int>)
    requires DistinctIds(w.table)
    ensures DistinctIds(QuotaRows(w, q, cursor, seen))
  {
    QueryRows(w.table, QuotaCond(w, q, cursor, seen), q.limit);
  }

  /** A whole page repeats an asset under the same condition. */
  lemma {:induction false} PageRepeatsIff(w: World, m: Memory, q: Request)
    requires w.Valid()
    ensures DistinctIds(StreamPage(w, m, q).data) <==> NoneTwice(w, RequestQuotas(w, m, q), q.dbCursor, q.seen)
  {
    hide StreamPage, RequestQuotas, NoneTwice, PreferenceRows;
    PageDistinctIff(w, m, q);
    PreferencesDistinctIff(w, RequestQuotas(w, m, q), q.dbCursor, q.seen);
  }

  /** In particular a page is free of repetition when no admitted asset matches two
      of the chosen keywords. */
  lemma {:induction false} PageDistinctWhenKeywordsApart(w: World, m: Memory, q: Request)
    requires w.Valid()
    requires
      var qs := RequestQuotas(w, m, q);
      forall i, j, a :: 0 <= i < j < |qs| && a in w.table ==>
        !(QuotaCond(w, qs[i], q.dbCursor, q.seen).Admits(a) && QuotaCond(w, qs[j], q.dbCursor, q.seen).Admits(a))
    ensures DistinctIds(StreamPage(w, m, q).data)
  {
    hide StreamPage, RequestQuotas;
    PageRepeatsIff(w, m, q);
  }

  /** Two fields matching the same asset return it twice: `seen` is shared but not
      refreshed between the fields. */
  lemma PreferenceStageRepeats(a: Asset, x: string, y: string)
    requires a.verified
    ensures
      var w := World([a], [], map[], map[("tags", x) := {a.id}, ("others", y) := {a.id}]);
      PreferenceRows(w, [Quota("tags", x, 3), Quota("others", y, 3)], None, {}) == [a, a]
  {
    var w := World([a], [], map[], map[("tags", x) := {a.id}, ("others", y) := {a.id}]);
    var qs := [Quota("tags", x, 3), Quota("others", y, 3)];
    var last := [Quota("others", y, 3)];
    assert [a][1..] == [] && qs[1..] == last && last[1..] == [];
    assert w.Only("tags", x) == Some({a.id}) && w.Only("others", y) == Some({a.id});
    forall f, k ensures Select([a], Cond({}, None, w.Only(f, k))) ==
                        if Cond({}, None, w.Only(f, k)).Admits(a) then [a] else [] {}
    assert QuotaRows(w, qs[0], None, {}) == [a] && QuotaRows(w, qs[1], None, {}) == [a];
    assert PreferenceRows(w, last, None, {}) == [a] + PreferenceRows(w, last[1..], None, {});
    assert PreferenceRows(w, qs, None, {}) == [a] + PreferenceRows(w, last, None, {});
  }
}
