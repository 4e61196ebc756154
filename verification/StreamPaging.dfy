/**
 Keyset pagination of the database fallback: what the cursor walk visits.
 */
module StreamPaging {
  import opened Stream

  lemma {:induction false} SelectOrdered(table: seq<Asset>, c: Cond)
    requires NewestFirst(table)
    ensures NewestFirst(Select(table, c))
    ensures forall a :: a in Select(table, c) <==> a in table && c.Admits(a)
  {
    if table != [] {
      SelectOrdered(table[1..], c);
      var rest := Select(table[1..], c);
      forall i | 0 <= i < |rest| ensures table[0].created >= rest[i].created {
        assert rest[i] in table[1..];
        var j :| 0 <= j < |table[1..]| && table[1..][j] == rest[i];
        assert table[j + 1] == rest[i];
      }
    }
  }

  lemma {:induction false} SelectDistinctTimes(table: seq<Asset>, c: Cond)
    requires NewestFirst(table) && DistinctTimes(table)
    ensures DistinctTimes(Select(table, c))
  {
    if table != [] {
      SelectDistinctTimes(table[1..], c);
      SelectOrdered(table[1..], c);
      var rest := Select(table[1..], c);
      forall i | 0 <= i < |rest| ensures table[0].created != rest[i].created {
        assert rest[i] in table[1..];
        var j :| 0 <= j < |table[1..]| && table[1..][j] == rest[i];
        assert table[j + 1] == rest[i];
      }
    }
  }

  /** Selecting under a stronger condition is selecting from the selection. */
  lemma {:induction false} SelectTwice(table: seq<Asset>, c: Cond, d: Cond)
    requires forall a :: d.Admits(a) ==> c.Admits(a)
    ensures Select(table, d) == Select(Select(table, c), d)
  {
    if table != [] {
      SelectTwice(table[1..], c, d);
      if c.Admits(table[0]) {
        assert Select(table, c)[1..] == Select(table[1..], c);
      }
    }
  }

  /** Dropping a rejected prefix of an otherwise admitted list. */
  lemma {:induction false} SelectSuffix(rows: seq<Asset>, c: Cond, k: nat)
    requires k <= |rows|
    requires forall i :: 0 <= i < k ==> !c.Admits(rows[i])
    requires forall i :: k <= i < |rows| ==> c.Admits(rows[i])
    ensures Select(rows, c) == rows[k..]
  {
    if rows != [] {
      if k == 0 {
        SelectSuffix(rows[1..], c, 0);
      } else {
        SelectSuffix(rows[1..], c, k - 1);
        assert rows[1..][k - 1..] == rows[k..];
      }
    }
  }

  lemma {:induction false} SelectDistinctIds(table: seq<Asset>, c: Cond)
    requires DistinctIds(table)
    ensures DistinctIds(Select(table, c))
    ensures forall a :: a in Select(table, c) ==> a in table && c.Admits(a)
  {
    if table != [] {
      SelectDistinctIds(table[1..], c);
      var rest := Select(table[1..], c);
      forall i | 0 <= i < |rest| ensures table[0].id != rest[i].id {
        assert rest[i] in table[1..];
        var j :| 0 <= j < |table[1..]| && table[1..][j] == rest[i];
        assert table[j + 1] == rest[i];
      }
    }
  }

  /** The filter after one page; clients may or may not feed the ids back. */
  function After(rows: seq<Asset>, c: Cond, feed: bool): Cond {
    Cond(if feed then c.seen + Ids(rows) else c.seen, NextCursor(rows, c.cursor), c.only)
  }

  lemma PageOrder(table: seq<Asset>, c: Cond, limit: nat)
    requires NewestFirst(table)
    ensures
      var page := Take(Select(table, c), limit);
      forall i :: 0 <= i < |page| ==> page[i].created >= page[|page| - 1].created && c.Admits(page[i])
  {
    hide Select, Cond.Admits;
    SelectOrdered(table, c);
    var page := Take(Select(table, c), limit);
    forall i | 0 <= i < |page| ensures c.Admits(page[i]) {
      assert page[i] in Select(table, c);
    }
  }

  /** The rows are the newest admitted assets: none left out is newer than one
      returned, and none is left out while there is room. */
  ghost predicate NewestOf(rows: seq<Asset>, table: seq<Asset>, c: Cond, limit: nat) {
    && |rows| <= limit && NewestFirst(rows)
    && (forall a :: a in rows ==> a in table && c.Admits(a))
    && forall a :: a in table && c.Admits(a) && a !in rows ==>
         |rows| == limit && forall b :: b in rows ==> b.created >= a.created
  }

  lemma QueryIsNewest(table: seq<Asset>, c: Cond, limit: nat)
    requires NewestFirst(table)
    ensures NewestOf(Take(Select(table, c), limit), table, c, limit)
  {
    hide Cond.Admits;
    SelectOrdered(table, c);
    var all, rows := Select(table, c), Take(Select(table, c), limit);
    forall a | a in rows ensures a in table && c.Admits(a) { assert a in all; }
    forall a, b | a in table && c.Admits(a) && a !in rows && b in rows ensures b.created >= a.created {
      var i :| 0 <= i < |all| && all[i] == a;
      var j :| 0 <= j < |rows| && rows[j] == b;
      assert i >= |rows| && all[j] == b;
    }
  }

  /** Nothing is lost at a page boundary exactly when the boundary does not fall
      between two assets created at the same time. */
  lemma PageBoundary(table: seq<Asset>, c: Cond, limit: nat, feed: bool)
    requires NewestFirst(table) && DistinctIds(table) && 0 < limit && Select(table, c) != []
    ensures
      var all := Select(table, c);
      var page := Take(all, limit);
      Select(table, After(page, c, feed)) == all[|page|..] <==>
        |all| <= limit || all[limit - 1].created != all[limit].created
  {
    var all := Select(table, c);
    var page := Take(all, limit);
    var d := After(page, c, feed);
    SelectOrdered(table, c);
    SelectDistinctIds(table, c);
    PageOrder(table, c, limit);
    assert c.Admits(page[|page| - 1]);
    SelectTwice(table, c, d);
    if |all| > limit && all[limit - 1].created == all[limit].created {
      SelectOrdered(all, d);
      assert !d.Admits(all[limit]) && all[limit] == all[|page|..][0];
      assert all[|page|..][0] !in Select(all, d);
    } else {
      forall i | |page| <= i < |all| ensures d.Admits(all[i]) {
        assert all[i] in all;
        assert all[limit].created >= all[i].created;
      }
      SelectSuffix(all, d, |page|);
    }
  }

  /** What the client collects by feeding the returned cursor back until a page
      is empty. */
  function Walk(table: seq<Asset>, c: Cond, limit: nat, feed: bool): seq<Asset>
    requires NewestFirst(table) && DistinctIds(table) && 0 < limit
    decreases |Select(table, c)|
  {
    var page := Take(Select(table, c), limit);
    if page == [] then []
    else
      WalkProgress(table, c, limit, feed);
      page + Walk(table, After(page, c, feed), limit, feed)
  }

  /** The walk ends: after a non-empty page the cursor is strictly older and
      strictly fewer assets are left. */
  lemma WalkProgress(table: seq<Asset>, c: Cond, limit: nat, feed: bool)
    requires NewestFirst(table) && Take(Select(table, c), limit) != []
    ensures
      var d := After(Take(Select(table, c), limit), c, feed);
      && d.cursor.Some? && (c.cursor.Some? ==> d.cursor.value < c.cursor.value)
      && |Select(table, d)| < |Select(table, c)|
  {
    var all := Select(table, c);
    var page := Take(all, limit);
    var d := After(page, c, feed);
    PageOrder(table, c, limit);
    assert c.Admits(page[|page| - 1]);
    SelectTwice(table, c, d);
    SelectShorter(all, d, |page| - 1);
  }

  lemma {:induction false} SelectShorter(rows: seq<Asset>, c: Cond, i: nat)
    requires i < |rows| && !c.Admits(rows[i])
    ensures |Select(rows, c)| < |rows|
  {
    if i > 0 { SelectShorter(rows[1..], c, i - 1); } else { SelectAtMost(rows[1..], c); }
  }

  lemma {:induction false} SelectAtMost(rows: seq<Asset>, c: Cond)
    ensures |Select(rows, c)| <= |rows|
  {
    if rows != [] { SelectAtMost(rows[1..], c); }
  }

  /** With distinct creation times the pages put together are exactly the
      verified, unseen assets older than the first cursor, newest first. */
  lemma {:induction false} WalkIsComplete(table: seq<Asset>, c: Cond, limit: nat, feed: bool)
    requires NewestFirst(table) && DistinctIds(table) && DistinctTimes(table) && 0 < limit
    ensures Walk(table, c, limit, feed) == Select(table, c)
    decreases |Select(table, c)|
  {
    var all := Select(table, c);
    var page := Take(all, limit);
    if page != [] {
      assert |all| > limit ==> all[limit - 1].created != all[limit].created by { SelectDistinctTimes(table, c); }
      assert Select(table, After(page, c, feed)) == all[|page|..] by { PageBoundary(table, c, limit, feed); }
      WalkProgress(table, c, limit, feed);
      WalkIsComplete(table, After(page, c, feed), limit, feed);
      assert page + all[|page|..] == all;
    }
  }

  /** Cut into pages of `limit`, no cut separates two assets of the same time. */
  predicate CleanBoundaries(all: seq<Asset>, limit: nat)
    requires 0 < limit
    decreases |all|
  {
    |all| <= limit ||
    (all[limit - 1].created != all[limit].created && CleanBoundaries(all[limit..], limit))
  }

  lemma {:induction false} WalkAtMost(table: seq<Asset>, c: Cond, limit: nat, feed: bool)
    requires NewestFirst(table) && DistinctIds(table) && 0 < limit
    ensures |Walk(table, c, limit, feed)| <= |Select(table, c)|
    decreases |Select(table, c)|
  {
    var all := Select(table, c);
    var page := Take(all, limit);
    if page != [] {
      var d := After(page, c, feed);
      WalkProgress(table, c, limit, feed);
      WalkAtMost(table, d, limit, feed);
      RestAtMost(table, c, limit, feed);
    }
  }

  /** At least a whole page disappears from the selection. */
  lemma RestAtMost(table: seq<Asset>, c: Cond, limit: nat, feed: bool)
    requires NewestFirst(table) && Take(Select(table, c), limit) != []
    ensures
      var page := Take(Select(table, c), limit);
      |Select(table, After(page, c, feed))| <= |Select(table, c)| - |page|
  {
    var all := Select(table, c);
    var page := Take(all, limit);
    var d := After(page, c, feed);
    PageOrder(table, c, limit);
    assert c.Admits(page[|page| - 1]);
    SelectTwice(table, c, d);
    assert all == page + all[|page|..];
    SelectAppend(page, all[|page|..], d);
    SelectNone(page, d);
    SelectAtMost(all[|page|..], d);
  }

  lemma {:induction false} SelectAppend(x: seq<Asset>, y: seq<Asset>, c: Cond)
    ensures Select(x + y, c) == Select(x, c) + Select(y, c)
  {
    if x == [] {
      assert x + y == y;
    } else {
      assert (x + y)[1..] == x[1..] + y;
      SelectAppend(x[1..], y, c);
    }
  }

  lemma {:induction false} SelectNone(rows: seq<Asset>, c: Cond)
    requires forall i :: 0 <= i < |rows| ==> !c.Admits(rows[i])
    ensures Select(rows, c) == []
  {
    if rows != [] { SelectNone(rows[1..], c); }
  }

  lemma {:induction false} SelectAll(rows: seq<Asset>, c: Cond)
    requires |Select(rows, c)| == |rows|
    ensures Select(rows, c) == rows
  {
    if rows != [] {
      SelectAtMost(rows[1..], c);
      SelectAll(rows[1..], c);
    }
  }

  /** What is left after a page is part of the rest of the selection. */
  lemma RestSelected(table: seq<Asset>, c: Cond, limit: nat, feed: bool)
    requires NewestFirst(table) && Take(Select(table, c), limit) != []
    ensures
      var all := Select(table, c);
      var page := Take(all, limit);
      var d := After(page, c, feed);
      Select(table, d) == Select(all[|page|..], d)
  {
    var all := Select(table, c);
    var page := Take(all, limit);
    var d := After(page, c, feed);
    PageOrder(table, c, limit);
    assert c.Admits(page[|page| - 1]);
    SelectTwice(table, c, d);
    assert all == page + all[|page|..];
    SelectAppend(page, all[|page|..], d);
    SelectNone(page, d);
  }

  /** In general, assets may share a creation time. The walk then visits the whole
      selection exactly when no page boundary separates two of the same time. */
  lemma {:induction false} WalkIsCompleteIff(table: seq<Asset>, c: Cond, limit: nat, feed: bool)
    requires NewestFirst(table) && DistinctIds(table) && 0 < limit
    ensures Walk(table, c, limit, feed) == Select(table, c) <==> CleanBoundaries(Select(table, c), limit)
    decreases |Select(table, c)|
  {
    var all := Select(table, c);
    var page := Take(all, limit);
    if page != [] {
      var d := After(page, c, feed);
      var rest := all[|page|..];
      assert all == page + rest;
      WalkProgress(table, c, limit, feed);
      PageBoundary(table, c, limit, feed);
      RestSelected(table, c, limit, feed);
      WalkIsCompleteIff(table, d, limit, feed);
      if |all| <= limit {
        assert rest == [];
        assert Walk(table, d, limit, feed) == [];
      } else {
        if Walk(table, c, limit, feed) == all {
          assert Walk(table, d, limit, feed) == rest;
          WalkAtMost(table, d, limit, feed);
          SelectAtMost(rest, d);
          SelectAll(rest, d);
        }
      }
    }
  }
}
