/**
 Deleting an item of a collection unlinks it and deletes nothing.
 */
module MergeProperties {
  import opened Payload
  import opened Merge
  import opened MergeCollections

  // --------------------------------------------------------------------
  // Deletion means unlinking
  // --------------------------------------------------------------------

  /** No collection is mapped in the many-to-one direction, as the mapper ensures. */
  predicate NoReverseLists(env: Env) {
    forall c, k :: c in env.schema && k in env.schema[c] && env.schema[c][k].Relation? && env.schema[c][k].uselist ==>
      !env.schema[c][k].direction.ManyToOne?
  }

  /** A collection, be it one-to-many or many-to-many, is always classified as
      many-to-many, so deleting an item only unlinks it: the branch that deletes
      a row is never reached and no payload deletes anything. */
  lemma {:induction false} NothingIsDeleted(env: Env, g: Graph, r: Ref, es: seq<Entry>)
    requires r in g.heap && g.Valid() && NoReverseLists(env)
    ensures Apply(env, g, r, es).Some? ==> Apply(env, g, r, es).value.deleted == g.deleted
    decreases es, 2
  {
    if es != [] {
      FieldDeletesNothing(env, g, r, es[0]);
      var h := ApplyField(env, g, r, es[0]);
      if h.Some? { NothingIsDeleted(env, h.value, r, es[1..]); }
    }
  }

  lemma {:induction false} FieldDeletesNothing(env: Env, g: Graph, r: Ref, e: Entry)
    requires r in g.heap && g.Valid() && NoReverseLists(env)
    ensures ApplyField(env, g, r, e).Some? ==> ApplyField(env, g, r, e).value.deleted == g.deleted
    decreases e, 1
  {
    hide Apply, MergeItems, FindMatch, Graph.Valid, Grows;
    if !(e.key == "id" && e.value.Null?) {
      match env.FieldOf(g.heap[r].cls, e.key)
      case Some(Relation(target, uselist, direction)) =>
        match e.value {
          case Dict(es) =>
            if !uselist && Target(env, g, es, target, false).Some? {
              var (g1, q) := Target(env, g, es, target, false).value;
              NothingIsDeleted(env, g1, q, es);
            }
          case List(items) =>
            if uselist { ItemsDeleteNothing(env, g, items, target, [], g.Members(r, e.key)); }
          case _ =>
        }
      case _ =>
    }
  }

  lemma {:induction false} ItemsDeleteNothing(env: Env, g: Graph, items: seq<Value>, c: Class,
                                              merged: seq<Ref>, existing: seq<Ref>)
    requires g.Valid() && NoReverseLists(env)
    ensures
      var m := MergeItems(env, g, items, c, RelManyToMany, merged, existing);
      m.Some? ==> m.value.g.deleted == g.deleted
    decreases items, 0
  {
    hide MergeItems, Apply, FindMatch, Target, Deletes, HasId, CanDelete;
    if items == [] {
      MergeItemsNone(env, g, c, RelManyToMany, merged, existing);
    } else {
      DeletesIff(items[0]);
      MergeItemsStep(env, g, items, c, RelManyToMany, merged, existing);
      if items[0].Dict? {
        var es := items[0].entries;
        if Deletes(items[0]) {
          var x := Remove(g, GetRow(g, c, Lookup(es, "id").value), RelManyToMany, existing).value;
          ItemsDeleteNothing(env, x.0, items[1..], c, merged, x.1);
        } else if Target(env, g, es, c, true).Some? {
          var (g1, q) := Target(env, g, es, c, true).value;
          TargetDeletesNothing(env, g, es, c);
          NothingIsDeleted(env, g1, q, es);
          var h := Apply(env, g1, q, es);
          if h.Some? { ItemsDeleteNothing(env, h.value, items[1..], c, merged + [q], existing); }
        }
      }
    }
  }

  lemma TargetDeletesNothing(env: Env, g: Graph, es: seq<Entry>, c: Class)
    requires g.Valid() && Target(env, g, es, c, true).Some?
    ensures Target(env, g, es, c, true).value.0.deleted == g.deleted
  {
    hide FindMatch;
  }
}
