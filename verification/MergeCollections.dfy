/**
 A merged collection: its order, its members and its duplicates.
 */
module MergeCollections {
  import opened Prelude
  import opened Payload
  import opened Merge
  import opened MergeTheorems

  // --------------------------------------------------------------------
  // The merged collection
  // --------------------------------------------------------------------

  /** The value is there and does not count as missing. */
  predicate Given(v: Option<Value>) {
    && v.Some? && v.value != Null && v.value != Bool(false) && v.value != Int(0) && v.value != Str("")
    && v.value != Dict([]) && v.value != List([])
  }

  /** The item names a row and asks for its deletion. */
  predicate Deletes(v: Value) {
    v.Dict? && Given(Lookup(v.entries, "id")) && Lookup(v.entries, "action") == Some(Str("delete"))
  }

  lemma DeletesIff(v: Value)
    ensures Deletes(v) <==> v.Dict? && HasId(v.entries) && CanDelete(v.entries)
    ensures Deletes(v) ==> Lookup(v.entries, "id").Some?
  {
  }

  /** The row of class `c` with this id, if it is there. */
  predicate IsRow(g: Graph, c: Class, id: Option<Value>, q: Ref) {
    id.Some? && id.value.Int? && q == Row(c, id.value.n) && q in g.heap
  }

  /** The items that stay in the collection, in payload order. */
  function Kept(items: seq<Value>): seq<Value> {
    if items == [] then []
    else if Deletes(items[0]) then Kept(items[1..])
    else [items[0]] + Kept(items[1..])
  }

  /** The rows the payload unlinks. */
  function Unlinked(g: Graph, c: Class, items: seq<Value>): set<Ref> {
    if items == [] then {}
    else
      (if Deletes(items[0]) then
         var id := Lookup(items[0].entries, "id").value;
         if id.Int? && Row(c, id.n) in g.heap then {Row(c, id.n)} else {}
       else {})
      + Unlinked(g, c, items[1..])
  }

  /** The item has no id, and exactly `q` among the rows has its unique values. */
  ghost predicate Matches(env: Env, g: Graph, c: Class, es: seq<Entry>, q: Ref) {
    (exists k :: Asks(env, c, es, k)) && q in g.heap && forall r :: r in g.heap ==> (Has(env, c, es, r) <==> r == q)
  }

  /** `q` is the object item `v` refers to: the row with its id, else the row
      with its unique values, else an object created for it. */
  ghost predicate StandsFor(env: Env, g: Graph, c: Class, v: Value, q: Ref) {
    v.Dict? &&
    if Given(Lookup(v.entries, "id")) then IsRow(g, c, Lookup(v.entries, "id"), q)
    else if exists r :: Matches(env, g, c, v.entries, r) then Matches(env, g, c, v.entries, q)
    else q.New? && q !in g.heap
  }

  lemma MatchIff(env: Env, g: Graph, c: Class, es: seq<Entry>)
    ensures forall q :: FindMatch(env, g, c, es) == Unique(q) <==> Matches(env, g, c, es, q)
  {
    hide FindMatch, Has, Asks;
    FindMatchMeaning(env, g, c, es);
  }

  lemma SameRows(env: Env, g: Graph, h: Graph, c: Class, es: seq<Entry>, id: Value)
    requires Grows(g, h)
    ensures GetRow(h, c, id) == GetRow(g, c, id)
    ensures FindMatch(env, h, c, es) == FindMatch(env, g, c, es)
  {
    assert (set r | r in env.stored && r in h.heap && Passes(env, c, es, r))
        == (set r | r in env.stored && r in g.heap && Passes(env, c, es, r));
  }

  lemma StandsForEarlier(env: Env, g: Graph, h: Graph, c: Class, v: Value, q: Ref)
    requires Grows(g, h) && StandsFor(env, h, c, v, q)
    ensures StandsFor(env, g, c, v, q)
  {
    hide FindMatch, Matches;
    SameRows(env, g, h, c, v.entries, if HasId(v.entries) then Lookup(v.entries, "id").value else Null);
    MatchIff(env, g, c, v.entries);
    MatchIff(env, h, c, v.entries);
    assert forall r :: Matches(env, g, c, v.entries, r) <==> Matches(env, h, c, v.entries, r);
  }

  lemma {:induction false} UnlinkedStable(g: Graph, h: Graph, c: Class, items: seq<Value>)
    requires Grows(g, h)
    ensures Unlinked(h, c, items) == Unlinked(g, c, items)
  {
    if items != [] { UnlinkedStable(g, h, c, items[1..]); }
  }

  /** What the loop over the items leaves of the old members. */
  lemma {:induction false} MergedExisting(env: Env, g: Graph, items: seq<Value>, c: Class,
                                          merged: seq<Ref>, existing: seq<Ref>)
    requires g.Valid() && NoDuplicates(existing)
    requires MergeItems(env, g, items, c, RelManyToMany, merged, existing).Some?
    ensures MergeItems(env, g, items, c, RelManyToMany, merged, existing).value.existing
         == Out(existing, Unlinked(g, c, items))
    decreases |items|
  {
    hide Graph.Valid, FindMatch, MergeItems, Apply, Target, Deletes, HasId, CanDelete, Grows, Out;
    if items == [] {
      MergeItemsNone(env, g, c, RelManyToMany, merged, existing);
      OutFresh(existing, {});
    } else {
      DeletesIff(items[0]);
      MergeItemsStep(env, g, items, c, RelManyToMany, merged, existing);
      var es, rest := items[0].entries, items[1..];
      if Deletes(items[0]) {
        var o := GetRow(g, c, Lookup(es, "id").value);
        if o.Some? {
          assert Unlinked(g, c, items) == {o.value} + Unlinked(g, c, rest);
          RemoveFirstIsOut(existing, o.value);
          OutMembers(existing, {o.value});
          OutDropTwice(existing, {o.value}, Unlinked(g, c, rest));
          MergedExisting(env, g, rest, c, merged, RemoveFirst(existing, o.value));
        } else {
          assert Unlinked(g, c, items) == Unlinked(g, c, rest);
          MergedExisting(env, g, rest, c, merged, existing);
        }
      } else {
        assert Unlinked(g, c, items) == Unlinked(g, c, rest);
        var (g1, q) := Target(env, g, es, c, true).value;
        var g2 := Apply(env, g1, q, es).value;
        GrowsTransitive(g, g1, g2);
        UnlinkedStable(g, g2, c, rest);
        MergedExisting(env, g2, rest, c, merged + [q], existing);
      }
    }
  }

  /** What the loop over the items puts first. */
  lemma {:induction false} MergedFirst(env: Env, g: Graph, items: seq<Value>, c: Class,
                                       merged: seq<Ref>, existing: seq<Ref>)
    requires g.Valid() && MergeItems(env, g, items, c, RelManyToMany, merged, existing).Some?
    ensures
      var m := MergeItems(env, g, items, c, RelManyToMany, merged, existing).value.merged;
      && merged <= m && |m| == |merged| + |Kept(items)|
      && forall j :: 0 <= j < |Kept(items)| ==> StandsFor(env, g, c, Kept(items)[j], m[|merged| + j])
    decreases |items|
  {
    hide Graph.Valid, StandsFor, FindMatch, GetRow, Grows, Apply, Target, MergeItems, Deletes, HasId, CanDelete;
    if items == [] {
      MergeItemsNone(env, g, c, RelManyToMany, merged, existing);
    } else {
      DeletesIff(items[0]);
      MergeItemsStep(env, g, items, c, RelManyToMany, merged, existing);
      var es, rest := items[0].entries, items[1..];
      if Deletes(items[0]) {
        var o := GetRow(g, c, Lookup(es, "id").value);
        MergedFirst(env, g, rest, c, merged, if o.Some? then RemoveFirst(existing, o.value) else existing);
      } else {
        var (g1, q) := Target(env, g, es, c, true).value;
        var g2 := Apply(env, g1, q, es).value;
        GrowsTransitive(g, g1, g2);
        MergedFirst(env, g2, rest, c, merged + [q], existing);
        var m := MergeItems(env, g, items, c, RelManyToMany, merged, existing).value.merged;
        TargetStandsFor(env, g, es, c);
        forall j | 0 <= j < |Kept(items)|
          ensures StandsFor(env, g, c, Kept(items)[j], m[|merged| + j])
        {
          if j > 0 {
            StandsForEarlier(env, g, g2, c, Kept(rest)[j - 1], m[|merged| + j]);
          }
        }
      }
    }
  }

  lemma TargetStandsFor(env: Env, g: Graph, es: seq<Entry>, c: Class)
    requires g.Valid() && Target(env, g, es, c, true).Some?
    ensures StandsFor(env, g, c, Dict(es), Target(env, g, es, c, true).value.1)
  {
    hide FindMatch, Matches;
    MatchIff(env, g, c, es);
  }

  lemma OutDropTwice(rs: seq<Ref>, x: set<Ref>, y: set<Ref>)
    requires NoDuplicates(rs)
    ensures Out(Out(rs, x), y) == Out(rs, x + y)
  {
    OutMembers(rs, x);
    assert Elements(Out(rs, x)) * x == {};
    OutWiden(Out(rs, x), y, x);
    OutOfOut(rs, x, x + y);
    assert y + x == x + y;
  }

  /** No two items stand for the same existing object. */
  ghost predicate DistinctItems(env: Env, g: Graph, c: Class, items: seq<Value>) {
    forall i, j, q :: 0 <= i < j < |items| && q in g.heap ==>
      !(StandsFor(env, g, c, items[i], q) && StandsFor(env, g, c, items[j], q))
  }

  /** An item stands for one existing object or a new one, and an existing one alone. */
  lemma StandsForOne(env: Env, g: Graph, c: Class, v: Value, q: Ref, r: Ref)
    requires q in g.heap && StandsFor(env, g, c, v, q) && StandsFor(env, g, c, v, r)
    ensures q == r
  {
    hide Has, Asks;
  }

  lemma StandsForExisting(env: Env, g: Graph, c: Class, v: Value, q: Ref)
    requires StandsFor(env, g, c, v, q) && q.Row?
    ensures q in g.heap
  {
    hide Has, Asks;
  }

  /** An item never stands for an object that is pending when it is reached. */
  lemma TargetNotPending(env: Env, g: Graph, es: seq<Entry>, c: Class)
    requires g.Valid() && Target(env, g, es, c, true).Some?
    ensures Target(env, g, es, c, true).value.1 in g.heap ==> Target(env, g, es, c, true).value.1.Row?
  {
    hide FindMatch;
  }

  /** Objects created by the loop are not pending ones, and differ from each other. */
  lemma {:induction false} MergedCreatedOnce(env: Env, g: Graph, items: seq<Value>, c: Class,
                                             merged: seq<Ref>, existing: seq<Ref>)
    requires g.Valid() && MergeItems(env, g, items, c, RelManyToMany, merged, existing).Some?
    ensures
      var m := MergeItems(env, g, items, c, RelManyToMany, merged, existing).value.merged;
      && merged <= m
      && (forall j :: |merged| <= j < |m| && m[j] in g.heap ==> m[j].Row?)
      && (forall i, j :: |merged| <= i < j < |m| && m[i] == m[j] ==> m[i].Row?)
    decreases |items|
  {
    hide Graph.Valid, FindMatch, GetRow, Apply, Target, Remove, MergeItems, Deletes, HasId, CanDelete;
    if items == [] {
      MergeItemsNone(env, g, c, RelManyToMany, merged, existing);
    } else {
      var rest := items[1..];
      DeletesIff(items[0]);
      MergeItemsStep(env, g, items, c, RelManyToMany, merged, existing);
      if items[0].Dict? {
        var es := items[0].entries;
        if Deletes(items[0]) {
          var x := Remove(g, GetRow(g, c, Lookup(es, "id").value), RelManyToMany, existing).value;
          MergedCreatedOnce(env, x.0, rest, c, merged, x.1);
        } else {
          var (g1, q) := Target(env, g, es, c, true).value;
          var g2 := Apply(env, g1, q, es).value;
          TargetNotPending(env, g, es, c);
          MergedCreatedOnce(env, g2, rest, c, merged + [q], existing);
          assert q in g2.heap;
        }
      }
    }
  }

  /** The merged list has a duplicate exactly when two items stand for the same
      object that was there before. */
  lemma {:induction false} MergedDistinctIff(env: Env, g: Graph, items: seq<Value>, c: Class, existing: seq<Ref>)
    requires g.Valid() && MergeItems(env, g, items, c, RelManyToMany, [], existing).Some?
    ensures NoDuplicates(MergeItems(env, g, items, c, RelManyToMany, [], existing).value.merged)
            <==> DistinctItems(env, g, c, Kept(items))
  {
    hide Graph.Valid, StandsFor, MergeItems;
    MergedFirst(env, g, items, c, [], existing);
    MergedCreatedOnce(env, g, items, c, [], existing);
    var m, kept := MergeItems(env, g, items, c, RelManyToMany, [], existing).value.merged, Kept(items);
    if NoDuplicates(m) {
      forall i, j, q | 0 <= i < j < |kept| && q in g.heap
        ensures !(StandsFor(env, g, c, kept[i], q) && StandsFor(env, g, c, kept[j], q))
      {
        if StandsFor(env, g, c, kept[i], q) { StandsForOne(env, g, c, kept[i], q, m[i]); }
        if StandsFor(env, g, c, kept[j], q) { StandsForOne(env, g, c, kept[j], q, m[j]); }
      }
    }
    if DistinctItems(env, g, c, kept) {
      forall i, j | 0 <= i < j < |m| ensures m[i] != m[j] {
        assert StandsFor(env, g, c, kept[i], m[i]) && StandsFor(env, g, c, kept[j], m[j]);
        if m[i].Row? { StandsForExisting(env, g, c, kept[i], m[i]); }
        assert m[i] in g.heap ==> !StandsFor(env, g, c, kept[j], m[i]);
      }
    }
  }

  /** After a many-to-many collection is merged it holds the payload's objects in
      payload order and then every old member that was neither mentioned nor
      unlinked, in the old order; it has a duplicate exactly when two items of the
      payload stand for the same existing object. */
  lemma MergedCollection(env: Env, g: Graph, r: Ref, f: string, items: seq<Value>, c: Class)
    requires r in g.heap && g.Valid() && NoDuplicates(g.Members(r, f))
    requires HandleMany(env, g, r, f, List(items), c, RelManyToMany).Some?
    ensures
      var before := g.Members(r, f);
      var now := HandleMany(env, g, r, f, List(items), c, RelManyToMany).value.Members(r, f);
      var n := |Kept(items)|;
      && n <= |now|
      && (forall j :: 0 <= j < n ==> StandsFor(env, g, c, Kept(items)[j], now[j]))
      && now[n..] == Out(before, Unlinked(g, c, items) + Elements(now[..n]))
      && (NoDuplicates(now) <==> DistinctItems(env, g, c, Kept(items)))
  {
    hide MergeItems, StandsFor, DistinctItems, Graph.Valid;
    var before := g.Members(r, f);
    MergedFirst(env, g, items, c, [], before);
    MergedExisting(env, g, items, c, [], before);
    MergedDistinctIff(env, g, items, c, before);
    var m := MergeItems(env, g, items, c, RelManyToMany, [], before).value;
    ExtendIsOut(m.merged, m.existing);
    OutDropTwice(before, Unlinked(g, c, items), Elements(m.merged));
    var now := Extend(m.merged, m.existing);
    var n := |Kept(items)|;
    assert now[..n] == m.merged && now[n..] == Out(m.existing, Elements(m.merged));
    OutMembers(m.existing, Elements(m.merged));
    AppendDuplicates(m.merged, now[n..]);
    assert HandleMany(env, g, r, f, List(items), c, RelManyToMany).value.Members(r, f) == now;
  }

  lemma AppendDuplicates(x: seq<Ref>, y: seq<Ref>)
    requires NoDuplicates(y) && Elements(x) !! Elements(y)
    ensures NoDuplicates(x + y) <==> NoDuplicates(x)
  {
    var z := x + y;
    if NoDuplicates(x) {
      forall i, j | 0 <= i < j < |z| ensures z[i] != z[j] {
        if i < |x| <= j { assert z[i] in Elements(x) && z[j] in Elements(y); }
      }
    }
    if NoDuplicates(z) {
      forall i, j | 0 <= i < j < |x| ensures x[i] != x[j] { assert z[i] != z[j]; }
    }
  }
}
