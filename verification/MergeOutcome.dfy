/**
 Which payloads go through, and what an item stands for: for every payload, whatever
 mixture of named, matched, new, unlinked and malformed items it contains.
 */
module MergeOutcome {
  import opened Prelude
  import opened Payload
  import opened Merge
  import opened MergeCollections
  import opened MergeFrame
  import opened MergeTheorems

  // --------------------------------------------------------------------
  // The object an item stands for
  // --------------------------------------------------------------------

  /** The item's query raises: two rows have its unique values. */
  ghost predicate MatchesTwo(env: Env, g: Graph, c: Class, es: seq<Entry>) {
    (exists k :: Asks(env, c, es, k)) &&
    exists x, y :: x in g.heap && y in g.heap && x != y && Has(env, c, es, x) && Has(env, c, es, y)
  }

  /** An id that does not count as missing names a row, which has to exist. Without one
      an item of a collection stands for the one row with its unique values, and any
      other item for a new object without attributes, of the class of the relation. */
  lemma TargetMeaning(env: Env, g: Graph, es: seq<Entry>, c: Class, matching: bool)
    requires g.Valid()
    ensures
      var t, id := Target(env, g, es, c, matching), Lookup(es, "id");
      if Given(id) then
        if id.value.Int? && Row(c, id.value.n) in g.heap then t == Some((g, Row(c, id.value.n))) else t == None
      else if matching && MatchesTwo(env, g, c, es) then t == None
      else if matching && exists r :: Matches(env, g, c, es, r) then
        t.Some? && t.value.0 == g && Matches(env, g, c, es, t.value.1)
      else t == Some((Graph(g.heap[New(g.next) := Obj(c, map[])], g.next + 1, g.deleted), New(g.next)))
  {
    hide FindMatch, Matches, Has, Asks;
    FindMatchMeaning(env, g, c, es);
    MatchIff(env, g, c, es);
    assert HasId(es) <==> Given(Lookup(es, "id"));
  }

  // --------------------------------------------------------------------
  // Which payloads go through
  // --------------------------------------------------------------------

  /** The item stands for some object. */
  ghost predicate Resolves(env: Env, g: Graph, c: Class, es: seq<Entry>, matching: bool) {
    if Given(Lookup(es, "id")) then exists q :: IsRow(g, c, Lookup(es, "id"), q)
    else matching ==> !MatchesTwo(env, g, c, es)
  }

  ghost predicate Accepts(env: Env, g: Graph, c: Class, es: seq<Entry>)
    decreases es, 1
  {
    es == [] || (AcceptsField(env, g, c, es[0]) && Accepts(env, g, c, es[1..]))
  }

  /** A single relation is given a dictionary that does not ask for its deletion, and a
      collection a list, or a value that counts as missing. */
  ghost predicate AcceptsField(env: Env, g: Graph, c: Class, e: Entry)
    decreases e, 0
  {
    match env.FieldOf(c, e.key)
    case Some(Relation(target, uselist, direction)) =>
      || (e.key == "id" && e.value == Null)
      || (match e.value
          case Dict(es) =>
            if uselist then es == []
            else Lookup(es, "action") != Some(Str("delete")) && Resolves(env, g, target, es, false)
                 && Accepts(env, g, target, es)
          case List(items) => uselist && AcceptsItems(env, g, target, items, direction)
          case _ => uselist && !Given(Some(e.value)))
    case _ => true
  }

  /** Every item is a dictionary; one that asks for its deletion needs its row only in a
      collection that is mapped the wrong way round. */
  ghost predicate AcceptsItems(env: Env, g: Graph, c: Class, items: seq<Value>, direction: Direction)
    decreases items, 0
  {
    items == [] ||
    (&& items[0].Dict?
     && (if Deletes(items[0]) then
           direction == ManyToOne ==> exists q :: IsRow(g, c, Lookup(items[0].entries, "id"), q)
         else Resolves(env, g, c, items[0].entries, true) && Accepts(env, g, c, items[0].entries))
     && AcceptsItems(env, g, c, items[1..], direction))
  }

  lemma TargetIff(env: Env, g0: Graph, g: Graph, c: Class, es: seq<Entry>, matching: bool)
    requires g.Valid() && Grows(g0, g)
    ensures Target(env, g, es, c, matching).Some? <==> Resolves(env, g0, c, es, matching)
    ensures
      var t := Target(env, g, es, c, matching);
      t.Some? ==> t.value.0.Valid() && Grows(g0, t.value.0) && t.value.1 in t.value.0.heap
                  && t.value.0.heap[t.value.1].cls == c
  {
    hide FindMatch, Has, Asks;
    FindMatchMeaning(env, g0, c, es);
    SameRows(env, g0, g, c, es, if HasId(es) then Lookup(es, "id").value else Null);
    assert HasId(es) <==> Given(Lookup(es, "id"));
    var id := Lookup(es, "id");
    if id.Some? && id.value.Int? { assert IsRow(g0, c, id, Row(c, id.value.n)) <==> Row(c, id.value.n) in g.heap; }
    var t := Target(env, g, es, c, matching);
    if t.Some? { GrowsTransitive(g0, g, t.value.0); }
  }

  /** A payload goes through exactly when it is accepted: nothing it does on the way can
      make a later item fail. */
  lemma {:induction false} ApplySucceedsIff(env: Env, g0: Graph, g: Graph, r: Ref, es: seq<Entry>)
    requires r in g.heap && g.Valid() && Grows(g0, g)
    ensures Apply(env, g, r, es).Some? <==> Accepts(env, g0, g.heap[r].cls, es)
    decreases es, 3
  {
    hide Graph.Valid, Grows, ApplyField, AcceptsField;
    if es != [] {
      FieldSucceedsIff(env, g0, g, r, es[0]);
      var h := ApplyField(env, g, r, es[0]);
      if h.Some? {
        GrowsTransitive(g0, g, h.value);
        ClassStays(g, h.value, r);
        ApplySucceedsIff(env, g0, h.value, r, es[1..]);
      }
    }
  }

  lemma {:induction false} FieldSucceedsIff(env: Env, g0: Graph, g: Graph, r: Ref, e: Entry)
    requires r in g.heap && g.Valid() && Grows(g0, g)
    ensures ApplyField(env, g, r, e).Some? <==> AcceptsField(env, g0, g.heap[r].cls, e)
    decreases e, 2
  {
    hide Graph.Valid, Grows, HandleOne, HandleMany, Accepts, AcceptsItems, Resolves;
    match env.FieldOf(g.heap[r].cls, e.key)
    case Some(Relation(target, uselist, direction)) =>
      if !(e.key == "id" && e.value.Null?) {
        if uselist {
          ManySucceedsIff(env, g0, g, r, e, target, direction);
        } else {
          OneSucceedsIff(env, g0, g, r, e, target);
        }
      }
    case _ =>
  }

  lemma {:induction false} OneSucceedsIff(env: Env, g0: Graph, g: Graph, r: Ref, e: Entry, c: Class)
    requires r in g.heap && g.Valid() && Grows(g0, g)
    ensures HandleOne(env, g, r, e.key, e.value, c).Some? <==>
            && e.value.Dict? && Lookup(e.value.entries, "action") != Some(Str("delete"))
            && Resolves(env, g0, c, e.value.entries, false) && Accepts(env, g0, c, e.value.entries)
    decreases e, 1
  {
    hide Graph.Valid, Grows, Target, Apply, Resolves, Accepts;
    if e.value.Dict? && !CanDelete(e.value.entries) {
      var es := e.value.entries;
      TargetIff(env, g0, g, c, es, false);
      if Target(env, g, es, c, false).Some? {
        var (g1, q) := Target(env, g, es, c, false).value;
        ApplySucceedsIff(env, g0, g1, q, es);
      }
    }
  }

  lemma {:induction false} ManySucceedsIff(env: Env, g0: Graph, g: Graph, r: Ref, e: Entry, c: Class,
                                           direction: Direction)
    requires r in g.heap && g.Valid() && Grows(g0, g)
    ensures HandleMany(env, g, r, e.key, e.value, c, Relation(c, true, direction).RelType()).Some? <==>
            match e.value
            case List(items) => AcceptsItems(env, g0, c, items, direction)
            case v => !Given(Some(v))
    decreases e, 1
  {
    hide Graph.Valid, Grows, MergeItems, AcceptsItems, Extend;
    if e.value.List? {
      ItemsSucceedIff(env, g0, g, e.value.items, c, direction, [], g.Members(r, e.key));
    }
  }

  lemma {:induction false} ItemsSucceedIff(env: Env, g0: Graph, g: Graph, items: seq<Value>, c: Class,
                                           direction: Direction, merged: seq<Ref>, existing: seq<Ref>)
    requires g.Valid() && Grows(g0, g)
    ensures MergeItems(env, g, items, c, Relation(c, true, direction).RelType(), merged, existing).Some? <==>
            AcceptsItems(env, g0, c, items, direction)
    decreases items, 0
  {
    hide Graph.Valid, Grows, MergeItems, Target, Apply, FindMatch, Resolves, Accepts, Deletes, HasId, CanDelete;
    var rel := Relation(c, true, direction).RelType();
    if items == [] {
      MergeItemsNone(env, g, c, rel, merged, existing);
    } else {
      DeletesIff(items[0]);
      MergeItemsStep(env, g, items, c, rel, merged, existing);
      if items[0].Dict? {
        var es := items[0].entries;
        if Deletes(items[0]) {
          RemoveIff(g0, g, c, Lookup(es, "id"), direction, existing);
          var x := Remove(g, GetRow(g, c, Lookup(es, "id").value), rel, existing);
          if x.Some? {
            GrowsTransitive(g0, g, x.value.0);
            ItemsSucceedIff(env, g0, x.value.0, items[1..], c, direction, merged, x.value.1);
          }
        } else {
          TargetIff(env, g0, g, c, es, true);
          if Target(env, g, es, c, true).Some? {
            var (g1, q) := Target(env, g, es, c, true).value;
            ApplySucceedsIff(env, g0, g1, q, es);
            var h := Apply(env, g1, q, es);
            if h.Some? {
              GrowsTransitive(g0, g1, h.value);
              ItemsSucceedIff(env, g0, h.value, items[1..], c, direction, merged + [q], existing);
            }
          }
        }
      }
    }
  }

  lemma RemoveIff(g0: Graph, g: Graph, c: Class, id: Option<Value>, direction: Direction, existing: seq<Ref>)
    requires g.Valid() && Grows(g0, g) && id.Some?
    ensures Remove(g, GetRow(g, c, id.value), Relation(c, true, direction).RelType(), existing).Some? <==>
            (direction == ManyToOne ==> exists q :: IsRow(g0, c, id, q))
  {
    if id.value.Int? { assert IsRow(g0, c, id, Row(c, id.value.n)) <==> Row(c, id.value.n) in g.heap; }
  }

  /** Deleting an item of a many-to-many collection takes one occurrence of its row out of
      the collection, and nothing when the row is missing; in a collection mapped the
      wrong way round the row itself is deleted, and stays in the collection. */
  lemma RemoveMeaning(g: Graph, c: Class, id: Value, direction: Direction, existing: seq<Ref>)
    requires g.Valid()
    ensures
      var x := Remove(g, GetRow(g, c, id), Relation(c, true, direction).RelType(), existing);
      if id.Int? && Row(c, id.n) in g.heap then
        && x.Some?
        && (direction == ManyToOne ==> x.value == (Graph(g.heap, g.next, g.deleted + {Row(c, id.n)}), existing))
        && (direction != ManyToOne ==>
              x.value.0 == g && multiset(x.value.1) == multiset(existing) - multiset{Row(c, id.n)})
      else x == if direction == ManyToOne then None else Some((g, existing))
  {
    if id.Int? { RemoveFirstCount(existing, Row(c, id.n)); }
  }
}
