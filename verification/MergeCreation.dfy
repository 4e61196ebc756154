/**
 Objects a payload creates: they get exactly the columns of their own item, and
 nothing applied elsewhere reaches them.
 */
module MergeCreation {
  import opened Prelude
  import opened Payload
  import opened Merge
  import opened MergeCollections

  // --------------------------------------------------------------------
  // A pending object is out of reach of every other item
  // --------------------------------------------------------------------

  /** An item stands for a row or for a new object, never for an older pending one. */
  lemma TargetIsOther(env: Env, g: Graph, es: seq<Entry>, c: Class, matching: bool, q: Ref, k: string)
    requires g.Valid() && q in g.heap && q.New? && Target(env, g, es, c, matching).Some?
    ensures
      var (h, o) := Target(env, g, es, c, matching).value;
      o != q && h.Get(q, k) == g.Get(q, k)
  {
    hide FindMatch;
  }

  /** Applying a payload to one object leaves every other pending object alone. */
  lemma {:induction false} PendingStays(env: Env, g: Graph, r: Ref, es: seq<Entry>, q: Ref, k: string)
    requires r in g.heap && g.Valid() && q in g.heap && q.New? && q != r
    ensures Apply(env, g, r, es).Some? ==> Apply(env, g, r, es).value.Get(q, k) == g.Get(q, k)
    decreases es, 2
  {
    if es != [] {
      var h := ApplyField(env, g, r, es[0]);
      FieldLeavesPending(env, g, r, es[0], q, k);
      if h.Some? { PendingStays(env, h.value, r, es[1..], q, k); }
    }
  }

  lemma {:induction false} FieldLeavesPending(env: Env, g: Graph, r: Ref, e: Entry, q: Ref, k: string)
    requires r in g.heap && g.Valid() && q in g.heap && q.New? && q != r
    ensures ApplyField(env, g, r, e).Some? ==> ApplyField(env, g, r, e).value.Get(q, k) == g.Get(q, k)
    decreases e, 1
  {
    hide Graph.Set, Graph.Get;
    if !(e.key == "id" && e.value.Null?) {
      match env.FieldOf(g.heap[r].cls, e.key)
      case Some(Relation(target, uselist, direction)) =>
        if uselist {
          ManyLeavesPending(env, g, r, e, target, Relation(target, uselist, direction).RelType(), q, k);
        } else {
          OneLeavesPending(env, g, r, e, target, q, k);
        }
      case Some(Column(_)) => SetElsewhere(g, r, e.key, Val(e.value), q, k);
      case _ =>
    }
  }

  /** Filling a relation of `r` changes no other pending object, and in `r` itself,
      when it is pending, nothing but that relation. */
  lemma {:induction false} OneLeavesPending(env: Env, g: Graph, r: Ref, e: Entry, c: Class, q: Ref, k: string)
    requires r in g.heap && g.Valid() && q in g.heap && q.New?
    requires q != r || k != e.key
    ensures
      var h := HandleOne(env, g, r, e.key, e.value, c);
      h.Some? ==> h.value.Get(q, k) == g.Get(q, k)
    decreases e, 0
  {
    hide Graph.Set, Graph.Get, Target, Apply;
    if HandleOne(env, g, r, e.key, e.value, c).Some? {
      var es := e.value.entries;
      var (g1, o) := Target(env, g, es, c, false).value;
      TargetIsOther(env, g, es, c, false, q, k);
      PendingStays(env, g1, o, es, q, k);
      SetElsewhere(Apply(env, g1, o, es).value, r, e.key, Link(o), q, k);
    }
  }

  lemma {:induction false} ManyLeavesPending(env: Env, g: Graph, r: Ref, e: Entry, c: Class, rel: RelType,
                                             q: Ref, k: string)
    requires r in g.heap && g.Valid() && q in g.heap && q.New?
    requires q != r || k != e.key
    ensures
      var h := HandleMany(env, g, r, e.key, e.value, c, rel);
      h.Some? ==> h.value.Get(q, k) == g.Get(q, k)
    decreases e, 0
  {
    hide Graph.Set, Graph.Get, MergeItems, Extend;
    if HandleMany(env, g, r, e.key, e.value, c, rel).Some? {
      match e.value
      case List(items) =>
        ItemsLeavePending(env, g, items, c, rel, [], g.Members(r, e.key), q, k);
        var m := MergeItems(env, g, items, c, rel, [], g.Members(r, e.key)).value;
        SetElsewhere(m.g, r, e.key, Links(Extend(m.merged, m.existing)), q, k);
      case _ => SetElsewhere(g, r, e.key, Links(Extend([], g.Members(r, e.key))), q, k);
    }
  }

  lemma {:induction false} ItemsLeavePending(env: Env, g: Graph, items: seq<Value>, c: Class, rel: RelType,
                                             merged: seq<Ref>, existing: seq<Ref>, q: Ref, k: string)
    requires g.Valid() && q in g.heap && q.New?
    ensures
      var m := MergeItems(env, g, items, c, rel, merged, existing);
      m.Some? ==> m.value.g.Get(q, k) == g.Get(q, k)
    decreases items, 0
  {
    hide Target, Graph.Valid, MergeItems, Apply, FindMatch, Deletes, HasId, CanDelete;
    if items == [] {
      MergeItemsNone(env, g, c, rel, merged, existing);
    } else {
      DeletesIff(items[0]);
      MergeItemsStep(env, g, items, c, rel, merged, existing);
      if items[0].Dict? {
        var es := items[0].entries;
        if Deletes(items[0]) {
          var x := Remove(g, GetRow(g, c, Lookup(es, "id").value), rel, existing);
          if x.Some? { ItemsLeavePending(env, x.value.0, items[1..], c, rel, merged, x.value.1, q, k); }
        } else if Target(env, g, es, c, true).Some? {
          var (g1, o) := Target(env, g, es, c, true).value;
          TargetIsOther(env, g, es, c, true, q, k);
          PendingStays(env, g1, o, es, q, k);
          var h := Apply(env, g1, o, es);
          if h.Some? { ItemsLeavePending(env, h.value, items[1..], c, rel, merged + [o], existing, q, k); }
        }
      }
    }
  }

  // --------------------------------------------------------------------
  // Columns of a created object
  // --------------------------------------------------------------------

  /** The value a payload gives a column last; a null id gives none. */
  function LastGiven(es: seq<Entry>, k: string): Option<Value> {
    if es == [] then None
    else
      var later := LastGiven(es[1..], k);
      if later.Some? then later
      else if es[0].key == k && !(k == "id" && es[0].value.Null?) then Some(es[0].value) else None
  }

  lemma FieldColumn(env: Env, g: Graph, r: Ref, e: Entry, k: string)
    requires r in g.heap && g.Valid() && r.New?
    requires env.FieldOf(g.heap[r].cls, k).Some? && env.FieldOf(g.heap[r].cls, k).value.Column?
    requires ApplyField(env, g, r, e).Some?
    ensures ApplyField(env, g, r, e).value.Get(r, k) ==
            if e.key == k && !(k == "id" && e.value.Null?) then Some(Val(e.value)) else g.Get(r, k)
  {
    hide HandleOne, HandleMany;
    if !(e.key == "id" && e.value.Null?) {
      match env.FieldOf(g.heap[r].cls, e.key)
      case Some(Relation(target, uselist, direction)) =>
        if uselist {
          ManyLeavesPending(env, g, r, e, target, Relation(target, uselist, direction).RelType(), r, k);
        } else {
          OneLeavesPending(env, g, r, e, target, r, k);
        }
      case _ =>
    }
  }

  /** A created object ends up with exactly the column values its own payload gives
      last, at whatever depth it stands and whatever else the payload contains. */
  lemma {:induction false} CreatedColumns(env: Env, g: Graph, r: Ref, es: seq<Entry>, k: string)
    requires r in g.heap && g.Valid() && r.New?
    requires env.FieldOf(g.heap[r].cls, k).Some? && env.FieldOf(g.heap[r].cls, k).value.Column?
    requires Apply(env, g, r, es).Some?
    ensures Apply(env, g, r, es).value.Get(r, k) ==
            match LastGiven(es, k) case Some(v) => Some(Val(v)) case None => g.Get(r, k)
    decreases |es|
  {
    if es != [] {
      FieldColumn(env, g, r, es[0], k);
      CreatedColumns(env, ApplyField(env, g, r, es[0]).value, r, es[1..], k);
    }
  }

  /** A single relation given a new item: the created object is linked and carries
      the item's columns, and no column the item does not give. */
  lemma CreatedOne(env: Env, g: Graph, r: Ref, f: string, es: seq<Entry>, c: Class, k: string)
    requires r in g.heap && g.Valid() && !HasId(es)
    requires env.FieldOf(c, k).Some? && env.FieldOf(c, k).value.Column?
    requires HandleOne(env, g, r, f, Dict(es), c).Some?
    ensures
      var h := HandleOne(env, g, r, f, Dict(es), c).value;
      && h.Get(r, f) == Some(Link(New(g.next))) && New(g.next) !in g.heap
      && h.Get(New(g.next), k) == match LastGiven(es, k) case Some(v) => Some(Val(v)) case None => None
  {
    hide Apply;
    var g1, o := g.Create(c), New(g.next);
    assert Target(env, g, es, c, false) == Some((g1, o)) && o != r;
    assert g1.Get(o, k) == None;
    CreatedColumns(env, g1, o, es, k);
    var g2 := Apply(env, g1, o, es).value;
    assert HandleOne(env, g, r, f, Dict(es), c) == Some(g2.Set(r, f, Link(o)));
    SetElsewhere(g2, r, f, Link(o), o, k);
  }
}
