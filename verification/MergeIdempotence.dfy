/**
 Payloads that refer to existing rows by id, to update, link or unlink them: their
 exact effect on every attribute of every object, and when applying them again
 changes nothing.
 */
module MergeIdempotence {
  import opened Prelude
  import opened Payload
  import opened Merge
  import opened MergeTheorems

  /** An item that names a row and does not delete it. */
  predicate NamesRow(es: seq<Entry>) {
    && Lookup(es, "id").Some? && Lookup(es, "id").value.Int? && Lookup(es, "id").value.n != 0
    && !CanDelete(es)
  }

  /** An item that names a row and unlinks it. */
  predicate DropsRow(es: seq<Entry>) {
    && Lookup(es, "id").Some? && Lookup(es, "id").value.Int? && Lookup(es, "id").value.n != 0
    && CanDelete(es)
  }

  function RowOf(c: Class, es: seq<Entry>): Ref
    requires NamesRow(es) || DropsRow(es)
  {
    Row(c, Lookup(es, "id").value.n)
  }

  /** Every related object in the payload, at every depth, is named by id. */
  predicate AllIds(env: Env, c: Class, es: seq<Entry>)
    decreases es, 1
  {
    es == [] || (AllIdsField(env, c, es[0]) && AllIds(env, c, es[1..]))
  }

  predicate AllIdsField(env: Env, c: Class, e: Entry)
    decreases e, 0
  {
    match env.FieldOf(c, e.key)
    case Some(Relation(target, uselist, direction)) =>
      (match e.value
       case Dict(es) => !uselist && NamesRow(es) && AllIds(env, target, es)
       case List(items) =>
         uselist && AllIdsItems(env, target, items) && (HasDrops(items) ==> !direction.ManyToOne?)
       case _ => uselist && !e.value.Truthy())
    case _ => true
  }

  predicate AllIdsItems(env: Env, c: Class, items: seq<Value>)
    decreases items, 0
  {
    items == [] ||
    (&& items[0].Dict?
     && (DropsRow(items[0].entries) || (NamesRow(items[0].entries) && AllIds(env, c, items[0].entries)))
     && AllIdsItems(env, c, items[1..]))
  }

  predicate HasDrops(items: seq<Value>) {
    items != [] && ((items[0].Dict? && DropsRow(items[0].entries)) || HasDrops(items[1..]))
  }

  /** The rows a collection payload lists, in payload order. */
  function Listed(env: Env, c: Class, items: seq<Value>): seq<Ref>
    requires AllIdsItems(env, c, items)
  {
    if items == [] then []
    else if DropsRow(items[0].entries) then Listed(env, c, items[1..])
    else [RowOf(c, items[0].entries)] + Listed(env, c, items[1..])
  }

  /** The rows a collection payload unlinks, as far as they exist. */
  function Unlinks(env: Env, rows: set<Ref>, c: Class, items: seq<Value>): seq<Ref>
    requires AllIdsItems(env, c, items)
  {
    if items == [] then []
    else if DropsRow(items[0].entries) && RowOf(c, items[0].entries) in rows then
      [RowOf(c, items[0].entries)] + Unlinks(env, rows, c, items[1..])
    else Unlinks(env, rows, c, items[1..])
  }

  /** The writes that payload `es`, applied to object `r` of class `c`, makes to
      attribute `k` of object `q` when the existing objects are `rows`. Writes to a
      collection made while that same collection is being merged are overwritten, so
      they do not appear. */
  function Writes(env: Env, rows: set<Ref>, r: Ref, c: Class, es: seq<Entry>, q: Ref, k: string): seq<Write>
    requires AllIds(env, c, es)
    decreases es, 1
  {
    if es == [] then []
    else FieldWrites(env, rows, r, c, es[0], q, k) + Writes(env, rows, r, c, es[1..], q, k)
  }

  function FieldWrites(env: Env, rows: set<Ref>, r: Ref, c: Class, e: Entry, q: Ref, k: string): seq<Write>
    requires AllIdsField(env, c, e)
    decreases e, 0
  {
    var here := q == r && k == e.key;
    if e.key == "id" && e.value.Null? then []
    else match env.FieldOf(c, e.key)
      case None => []
      case Some(Column(_)) => if here then [Put(Val(e.value))] else []
      case Some(Relation(target, _, _)) =>
        match e.value
        case Dict(es) =>
          Writes(env, rows, RowOf(target, es), target, es, q, k) + if here then [Put(Link(RowOf(target, es)))] else []
        case List(items) =>
          if here then [MergeIn(Listed(env, target, items), Unlinks(env, rows, target, items))]
          else ItemWrites(env, rows, target, items, q, k)
        case _ => if here then [MergeIn([], [])] else []
  }

  function ItemWrites(env: Env, rows: set<Ref>, c: Class, items: seq<Value>, q: Ref, k: string): seq<Write>
    requires AllIdsItems(env, c, items)
    decreases items, 0
  {
    if items == [] then []
    else if DropsRow(items[0].entries) then ItemWrites(env, rows, c, items[1..], q, k)
    else
      Writes(env, rows, RowOf(c, items[0].entries), c, items[0].entries, q, k)
      + ItemWrites(env, rows, c, items[1..], q, k)
  }

  /** The rows the payload names to update or link. */
  function Refs(env: Env, c: Class, es: seq<Entry>): set<Ref>
    requires AllIds(env, c, es)
    decreases es, 1
  {
    if es == [] then {} else FieldRefs(env, c, es[0]) + Refs(env, c, es[1..])
  }

  function FieldRefs(env: Env, c: Class, e: Entry): set<Ref>
    requires AllIdsField(env, c, e)
    decreases e, 0
  {
    if e.key == "id" && e.value.Null? then {}
    else match env.FieldOf(c, e.key)
      case Some(Relation(target, _, _)) =>
        (match e.value
         case Dict(es) => {RowOf(target, es)} + Refs(env, target, es)
         case List(items) => ItemRefs(env, target, items)
         case _ => {})
      case _ => {}
  }

  function ItemRefs(env: Env, c: Class, items: seq<Value>): set<Ref>
    requires AllIdsItems(env, c, items)
    decreases items, 0
  {
    if items == [] then {}
    else if DropsRow(items[0].entries) then ItemRefs(env, c, items[1..])
    else {RowOf(c, items[0].entries)} + Refs(env, c, items[0].entries) + ItemRefs(env, c, items[1..])
  }

  /** Same objects, same pending serial numbers, nothing deleted. */
  ghost predicate SameObjects(g: Graph, h: Graph) {
    && h.Valid() && Grows(g, h)
    && h.heap.Keys == g.heap.Keys && h.next == g.next && h.deleted == g.deleted
  }

  lemma SameObjectsRefl(g: Graph)
    requires g.Valid()
    ensures SameObjects(g, g)
  {
  }

  lemma SameObjectsFacts(g: Graph, h: Graph)
    requires SameObjects(g, h)
    ensures h.Valid() && h.heap.Keys == g.heap.Keys
    ensures forall k :: SameObjects(h, k) ==> SameObjects(g, k)
  {
  }

  // --------------------------------------------------------------------
  // Success
  // --------------------------------------------------------------------

  /** An all-id payload succeeds exactly when the rows it names exist, and it
      creates and deletes nothing. */
  lemma {:induction false} ApplySucceeds(env: Env, g: Graph, r: Ref, es: seq<Entry>)
    requires r in g.heap && g.Valid() && AllIds(env, g.heap[r].cls, es)
    ensures Apply(env, g, r, es).Some? <==> Refs(env, g.heap[r].cls, es) <= g.heap.Keys
    ensures Apply(env, g, r, es).Some? ==> SameObjects(g, Apply(env, g, r, es).value)
    decreases es, 2
  {
    if es != [] {
      FieldSucceeds(env, g, r, es[0]);
      var h := ApplyField(env, g, r, es[0]);
      if h.Some? {
        ApplySucceeds(env, h.value, r, es[1..]);
      }
    }
  }

  lemma SetSame(g: Graph, h: Graph, r: Ref, f: string, x: Content)
    requires g.Valid() && SameObjects(g, h) && r in g.heap
    ensures SameObjects(g, h.Set(r, f, x))
  {
  }

  lemma {:induction false} FieldSucceeds(env: Env, g: Graph, r: Ref, e: Entry)
    requires r in g.heap && g.Valid() && AllIdsField(env, g.heap[r].cls, e)
    ensures ApplyField(env, g, r, e).Some? <==> FieldRefs(env, g.heap[r].cls, e) <= g.heap.Keys
    ensures ApplyField(env, g, r, e).Some? ==> SameObjects(g, ApplyField(env, g, r, e).value)
    decreases e, 1
  {
    hide SameObjects, Grows, HandleOne, HandleMany, Graph.Valid, Graph.Set, AllIds, AllIdsItems, Refs, ItemRefs;
    SameObjectsRefl(g);
    if !(e.key == "id" && e.value.Null?) {
      match env.FieldOf(g.heap[r].cls, e.key)
      case None =>
      case Some(Column(_)) => SetSame(g, g, r, e.key, Val(e.value));
      case Some(Relation(target, uselist, direction)) =>
        if uselist {
          ManySucceeds(env, g, r, e, target, Relation(target, uselist, direction).RelType());
        } else {
          OneSucceeds(env, g, r, e, e.value.entries, target);
        }
    }
  }

  lemma {:induction false} OneSucceeds(env: Env, g: Graph, r: Ref, e: Entry, es: seq<Entry>, target: Class)
    requires r in g.heap && g.Valid() && e.value == Dict(es) && NamesRow(es) && AllIds(env, target, es)
    ensures
      var h := HandleOne(env, g, r, e.key, e.value, target);
      && (h.Some? <==> {RowOf(target, es)} + Refs(env, target, es) <= g.heap.Keys)
      && (h.Some? ==> SameObjects(g, h.value))
    decreases e, 0
  {
    hide SameObjects, Grows, Graph.Set, AllIds, Refs;
    var o := RowOf(target, es);
    if o in g.heap {
      assert g.heap[o].cls == target;
      ApplySucceeds(env, g, o, es);
      var h := Apply(env, g, o, es);
      if h.Some? { SetSame(g, h.value, r, e.key, Link(o)); }
    }
  }

  lemma {:induction false} ManySucceeds(env: Env, g: Graph, r: Ref, e: Entry, target: Class, rel: RelType)
    requires r in g.heap && g.Valid()
    requires match e.value
             case List(items) => AllIdsItems(env, target, items) && (HasDrops(items) ==> rel.RelManyToMany?)
             case _ => !e.value.Truthy()
    ensures
      var h := HandleMany(env, g, r, e.key, e.value, target, rel);
      && (h.Some? <==> (match e.value case List(items) => ItemRefs(env, target, items) case _ => {}) <= g.heap.Keys)
      && (h.Some? ==> SameObjects(g, h.value))
    decreases e, 0
  {
    hide SameObjects, Grows, Graph.Set, AllIdsItems, ItemRefs, MergeItems, Extend, Listed;
    SameObjectsRefl(g);
    match e.value
    case List(items) =>
      ItemsSucceed(env, g, items, target, rel, [], g.Members(r, e.key));
      var m := MergeItems(env, g, items, target, rel, [], g.Members(r, e.key));
      if m.Some? { SetSame(g, m.value.g, r, e.key, Links(Extend(m.value.merged, m.value.existing))); }
    case _ => SetSame(g, g, r, e.key, Links(Extend([], g.Members(r, e.key))));
  }

  /** An item that unlinks a row: the row leaves the existing members, if it exists. */
  lemma DropStep(env: Env, g: Graph, items: seq<Value>, c: Class, merged: seq<Ref>, existing: seq<Ref>)
    requires g.Valid() && items != [] && items[0].Dict? && DropsRow(items[0].entries)
    ensures
      var o := RowOf(c, items[0].entries);
      MergeItems(env, g, items, c, RelManyToMany, merged, existing) ==
      MergeItems(env, g, items[1..], c, RelManyToMany, merged,
                 if o in g.heap then RemoveFirst(existing, o) else existing)
  {
    hide Apply, Graph.Valid, Grows;
    assert HasId(items[0].entries);
    MergeItemsStep(env, g, items, c, RelManyToMany, merged, existing);
  }

  /** An item that names a row: apply it to that row, then go on. */
  lemma ItemStep(env: Env, g: Graph, items: seq<Value>, c: Class, rel: RelType, merged: seq<Ref>, existing: seq<Ref>)
    requires g.Valid() && items != [] && items[0].Dict? && NamesRow(items[0].entries)
    ensures
      var o := RowOf(c, items[0].entries);
      MergeItems(env, g, items, c, rel, merged, existing) ==
      if o !in g.heap then None
      else match Apply(env, g, o, items[0].entries)
        case None => None
        case Some(h) => MergeItems(env, h, items[1..], c, rel, merged + [o], existing)
  {
    hide Apply, Graph.Valid, Grows, Remove;
    assert HasId(items[0].entries);
    MergeItemsStep(env, g, items, c, rel, merged, existing);
  }

  lemma {:induction false} ItemsSucceed(env: Env, g: Graph, items: seq<Value>, c: Class, rel: RelType,
                                        merged: seq<Ref>, existing: seq<Ref>)
    requires g.Valid() && AllIdsItems(env, c, items) && (HasDrops(items) ==> rel.RelManyToMany?)
    ensures
      var m := MergeItems(env, g, items, c, rel, merged, existing);
      && (m.Some? <==> ItemRefs(env, c, items) <= g.heap.Keys)
      && (m.Some? ==>
            && SameObjects(g, m.value.g)
            && m.value.merged == merged + Listed(env, c, items)
            && m.value.existing == RemoveEach(existing, Unlinks(env, g.heap.Keys, c, items)))
    decreases items, 0
  {
    hide SameObjects, Grows, Refs, AllIds, Apply;
    if items == [] {
      SameObjectsRefl(g);
    } else if DropsRow(items[0].entries) {
      var o := RowOf(c, items[0].entries);
      var left := if o in g.heap then RemoveFirst(existing, o) else existing;
      DropStep(env, g, items, c, merged, existing);
      ItemsSucceed(env, g, items[1..], c, rel, merged, left);
      assert o in g.heap ==> Unlinks(env, g.heap.Keys, c, items)[1..] == Unlinks(env, g.heap.Keys, c, items[1..]);
    } else {
      var es := items[0].entries;
      var o := RowOf(c, es);
      ItemStep(env, g, items, c, rel, merged, existing);
      hide MergeItems, NamesRow;
      if o in g.heap {
        assert g.heap[o].cls == c;
        ApplySucceeds(env, g, o, es);
        var h := Apply(env, g, o, es);
        if h.Some? {
          SameObjectsFacts(g, h.value);
          ItemsSucceed(env, h.value, items[1..], c, rel, merged + [o], existing);
          assert merged + [o] + Listed(env, c, items[1..]) == merged + Listed(env, c, items);
        }
      }
    }
  }

  // --------------------------------------------------------------------
  // Effect
  // --------------------------------------------------------------------

  lemma SetCell(g: Graph, r: Ref, f: string, x: Content, q: Ref, k: string)
    requires r in g.heap
    ensures g.Set(r, f, x).Get(q, k) == if q == r && k == f then Some(x) else g.Get(q, k)
  {
  }

  /** A successful all-id payload changes every attribute of every object by its
      writes, and by nothing else. */
  lemma {:induction false} ApplyCell(env: Env, g: Graph, r: Ref, es: seq<Entry>, q: Ref, k: string)
    requires r in g.heap && g.Valid() && AllIds(env, g.heap[r].cls, es) && Apply(env, g, r, es).Some?
    ensures Apply(env, g, r, es).value.Get(q, k) ==
            Fold(Writes(env, g.heap.Keys, r, g.heap[r].cls, es, q, k), g.Get(q, k))
    decreases es, 2
  {
    if es != [] {
      var c, rows := g.heap[r].cls, g.heap.Keys;
      FieldCell(env, g, r, es[0], q, k);
      FieldSucceeds(env, g, r, es[0]);
      ApplyCell(env, ApplyField(env, g, r, es[0]).value, r, es[1..], q, k);
      FoldAppend(FieldWrites(env, rows, r, c, es[0], q, k), Writes(env, rows, r, c, es[1..], q, k), g.Get(q, k));
    }
  }

  lemma {:induction false} FieldCell(env: Env, g: Graph, r: Ref, e: Entry, q: Ref, k: string)
    requires r in g.heap && g.Valid() && AllIdsField(env, g.heap[r].cls, e) && ApplyField(env, g, r, e).Some?
    ensures ApplyField(env, g, r, e).value.Get(q, k)
         == Fold(FieldWrites(env, g.heap.Keys, r, g.heap[r].cls, e, q, k), g.Get(q, k))
    decreases e, 1
  {
    hide AllIds, AllIdsItems, Writes, ItemWrites, Listed, Graph.Get, Graph.Valid;
    if !(e.key == "id" && e.value.Null?) {
      match env.FieldOf(g.heap[r].cls, e.key)
      case None =>
      case Some(Column(_)) => SetCell(g, r, e.key, Val(e.value), q, k);
      case Some(Relation(target, uselist, direction)) =>
        match e.value
        case Dict(es) => OneCell(env, g, r, e, es, target, q, k);
        case List(items) =>
          ManyCell(env, g, r, e, items, target, Relation(target, uselist, direction).RelType(), q, k);
        case _ => SetCell(g, r, e.key, Links(Extend([], g.Members(r, e.key))), q, k);
    }
  }

  lemma FoldShort(w: Write, c: Option<Content>)
    ensures Fold([w], c) == Act(w, c) && Fold([], c) == c
  {
  }

  lemma {:induction false} OneCell(env: Env, g: Graph, r: Ref, e: Entry, es: seq<Entry>, target: Class,
                                   q: Ref, k: string)
    requires r in g.heap && g.Valid() && e.value == Dict(es) && NamesRow(es) && AllIds(env, target, es)
    requires HandleOne(env, g, r, e.key, e.value, target).Some?
    ensures HandleOne(env, g, r, e.key, e.value, target).value.Get(q, k) ==
            Fold(Writes(env, g.heap.Keys, RowOf(target, es), target, es, q, k)
                 + (if q == r && k == e.key then [Put(Link(RowOf(target, es)))] else []), g.Get(q, k))
    decreases e, 0
  {
    hide Apply, Fold, Writes, AllIds, Graph.Set, Graph.Get, HandleOne, NamesRow, Graph.Valid, RowOf;
    var o := RowOf(target, es);
    OneStep(env, g, r, e, es, target);
    var writes := Writes(env, g.heap.Keys, o, target, es, q, k);
    ApplyCell(env, g, o, es, q, k);
    SetCell(Apply(env, g, o, es).value, r, e.key, Link(o), q, k);
    FoldShort(Put(Link(o)), Fold(writes, g.Get(q, k)));
    FoldAppend(writes, if q == r && k == e.key then [Put(Link(o))] else [], g.Get(q, k));
  }

  lemma OneStep(env: Env, g: Graph, r: Ref, e: Entry, es: seq<Entry>, target: Class)
    requires r in g.heap && g.Valid() && e.value == Dict(es) && NamesRow(es)
    requires HandleOne(env, g, r, e.key, e.value, target).Some?
    ensures
      var o := RowOf(target, es);
      && o in g.heap && g.heap[o].cls == target && Apply(env, g, o, es).Some?
      && r in Apply(env, g, o, es).value.heap
      && HandleOne(env, g, r, e.key, e.value, target).value == Apply(env, g, o, es).value.Set(r, e.key, Link(o))
  {
    hide Apply, Graph.Set;
  }

  lemma {:induction false} ManyCell(env: Env, g: Graph, r: Ref, e: Entry, items: seq<Value>, target: Class,
                                    rel: RelType, q: Ref, k: string)
    requires r in g.heap && g.Valid() && e.value == List(items) && AllIdsItems(env, target, items)
    requires HasDrops(items) ==> rel.RelManyToMany?
    requires HandleMany(env, g, r, e.key, e.value, target, rel).Some?
    ensures
      var rows := g.heap.Keys;
      HandleMany(env, g, r, e.key, e.value, target, rel).value.Get(q, k) ==
      if q == r && k == e.key then
        Act(MergeIn(Listed(env, target, items), Unlinks(env, rows, target, items)), g.Get(q, k))
      else Fold(ItemWrites(env, rows, target, items, q, k), g.Get(q, k))
    decreases e, 0
  {
    hide MergeItems, Fold, Extend, SameObjects, AllIdsItems, Listed, Unlinks, RemoveEach, ItemRefs, Graph.Set;
    var existing := g.Members(r, e.key);
    ItemsSucceed(env, g, items, target, rel, [], existing);
    ItemsCell(env, g, items, target, rel, [], existing, q, k);
    var m := MergeItems(env, g, items, target, rel, [], existing).value;
    assert [] + Listed(env, target, items) == Listed(env, target, items);
    SetCell(m.g, r, e.key, Links(Extend(m.merged, m.existing)), q, k);
  }

  lemma {:induction false} ItemsCell(env: Env, g: Graph, items: seq<Value>, c: Class, rel: RelType,
                                     merged: seq<Ref>, existing: seq<Ref>, q: Ref, k: string)
    requires g.Valid() && AllIdsItems(env, c, items) && (HasDrops(items) ==> rel.RelManyToMany?)
    requires MergeItems(env, g, items, c, rel, merged, existing).Some?
    ensures MergeItems(env, g, items, c, rel, merged, existing).value.g.Get(q, k)
         == Fold(ItemWrites(env, g.heap.Keys, c, items, q, k), g.Get(q, k))
    decreases items, 0
  {
    if items != [] && DropsRow(items[0].entries) {
      var o := RowOf(c, items[0].entries);
      DropStep(env, g, items, c, merged, existing);
      ItemsCell(env, g, items[1..], c, rel, merged, if o in g.heap then RemoveFirst(existing, o) else existing, q, k);
    } else if items != [] {
      var es := items[0].entries;
      var o := RowOf(c, es);
      ItemStep(env, g, items, c, rel, merged, existing);
      hide MergeItems, Apply, Fold;
      ApplyCell(env, g, o, es, q, k);
      ApplySucceeds(env, g, o, es);
      ItemsCell(env, Apply(env, g, o, es).value, items[1..], c, rel, merged + [o], existing, q, k);
      var rows := g.heap.Keys;
      FoldAppend(Writes(env, rows, o, c, es, q, k), ItemWrites(env, rows, c, items[1..], q, k), g.Get(q, k));
    }
  }

  // --------------------------------------------------------------------
  // Idempotence
  // --------------------------------------------------------------------

  /** Two graphs with the same objects that agree on every attribute are equal. */
  lemma SameGraph(g: Graph, h: Graph)
    requires SameObjects(g, h)
    requires forall q, k :: h.Get(q, k) == g.Get(q, k)
    ensures h == g
  {
    forall q | q in g.heap ensures h.heap[q] == g.heap[q] {
      forall k ensures k in h.heap[q].fields <==> k in g.heap[q].fields { assert h.Get(q, k) == g.Get(q, k); }
      forall k | k in g.heap[q].fields ensures h.heap[q].fields[k] == g.heap[q].fields[k] {
        assert h.Get(q, k) == g.Get(q, k);
      }
      assert h.heap[q].fields == g.heap[q].fields;
    }
    assert h.heap == g.heap;
  }

  /** Every collection from which the payload unlinks objects is cleared of them. */
  ghost predicate ClearsAll(env: Env, g: Graph, r: Ref, es: seq<Entry>)
    requires r in g.heap && AllIds(env, g.heap[r].cls, es)
  {
    forall q, k :: Clears(Writes(env, g.heap.Keys, r, g.heap[r].cls, es, q, k), g.Get(q, k))
  }

  /** Applying an all-id payload a second time, deletions included, changes nothing at all
      exactly when no collection still holds what the payload unlinks from it. */
  lemma {:induction false} ApplyTwiceIff(env: Env, g: Graph, r: Ref, es: seq<Entry>)
    requires r in g.heap && g.Valid() && AllIds(env, g.heap[r].cls, es) && Apply(env, g, r, es).Some?
    ensures Apply(env, Apply(env, g, r, es).value, r, es) == Apply(env, g, r, es) <==> ClearsAll(env, g, r, es)
  {
    hide Writes, Fold, Clears, Graph.Get;
    ApplySucceeds(env, g, r, es);
    var h := Apply(env, g, r, es).value;
    ApplySucceeds(env, h, r, es);
    var again := Apply(env, h, r, es).value;
    forall q, k ensures again.Get(q, k) == h.Get(q, k) <==>
                        Clears(Writes(env, g.heap.Keys, r, g.heap[r].cls, es, q, k), g.Get(q, k)) {
      ApplyCell(env, g, r, es, q, k);
      ApplyCell(env, h, r, es, q, k);
      FoldTwiceIff(Writes(env, g.heap.Keys, r, g.heap[r].cls, es, q, k), g.Get(q, k));
    }
    if ClearsAll(env, g, r, es) { SameGraph(h, again); }
  }

  /** In particular when no collection holds an object twice. */
  lemma ApplyTwice(env: Env, g: Graph, r: Ref, es: seq<Entry>)
    requires r in g.heap && g.Valid() && AllIds(env, g.heap[r].cls, es) && Apply(env, g, r, es).Some?
    requires forall q, k :: NoDuplicates(g.Members(q, k))
    ensures Apply(env, Apply(env, g, r, es).value, r, es) == Apply(env, g, r, es)
  {
    hide Writes, Apply, Clears, Graph.Get;
    forall q, k ensures Clears(Writes(env, g.heap.Keys, r, g.heap[r].cls, es, q, k), g.Get(q, k)) {
      assert NoDuplicates(g.Members(q, k));
      OnceClears(Writes(env, g.heap.Keys, r, g.heap[r].cls, es, q, k), g.Get(q, k));
    }
    ApplyTwiceIff(env, g, r, es);
  }

  /** The payload that unlinks row 1 from collection `f`. */
  function Unlinking(f: string): seq<Entry> {
    [Entry(f, List([Dict([Entry("id", Int(1)), Entry("action", Str("delete"))])]))]
  }

  /** A collection that holds a row twice loses one occurrence at a time. */
  lemma RepeatedRowIsUnlinkedTwice(env: Env, g: Graph, r: Ref, f: string, c: Class)
    requires r in g.heap && g.Valid() && env.FieldOf(g.heap[r].cls, f) == Some(Relation(c, true, ManyToMany))
    requires f != "id" && Row(c, 1) in g.heap && g.Get(r, f) == Some(Links([Row(c, 1), Row(c, 1)]))
    ensures
      var es, h := Unlinking(f), g.Set(r, f, Links([Row(c, 1)]));
      && AllIds(env, g.heap[r].cls, es) && Apply(env, g, r, es) == Some(h)
      && h.Valid() && Apply(env, h, r, es) == Some(h.Set(r, f, Links([])))
  {
    hide Apply, AllIds, Unlinking;
    var o, h := Row(c, 1), g.Set(r, f, Links([Row(c, 1)]));
    assert h.Valid() && h.Get(r, f) == Some(Links([o]));
    UnlinksOne(env, g, r, f, c, [o, o]);
    UnlinksOne(env, h, r, f, c, [o]);
    assert [o, o][1..] == [o] && [o][1..] == [];
    assert RemoveFirst([o, o], o) == [o] && RemoveFirst([o], o) == [];
    assert Extend([], [o]) == Extend([] + [o], []) == [o];
  }

  lemma UnlinksOne(env: Env, g: Graph, r: Ref, f: string, c: Class, rs: seq<Ref>)
    requires r in g.heap && g.Valid() && env.FieldOf(g.heap[r].cls, f) == Some(Relation(c, true, ManyToMany))
    requires f != "id" && Row(c, 1) in g.heap && g.Get(r, f) == Some(Links(rs))
    ensures
      && AllIds(env, g.heap[r].cls, Unlinking(f))
      && Apply(env, g, r, Unlinking(f)) == Some(g.Set(r, f, Links(Extend([], RemoveFirst(rs, Row(c, 1))))))
  {
    var item := [Entry("id", Int(1)), Entry("action", Str("delete"))];
    var items, left := [Dict(item)], RemoveFirst(rs, Row(c, 1));
    assert item[1..] == [Entry("action", Str("delete"))] && Lookup(item, "action") == Some(Str("delete"));
    assert items[1..] == [] && Unlinking(f)[1..] == [];
    assert DropsRow(item) && AllIdsItems(env, c, items[1..]);
    assert AllIdsField(env, g.heap[r].cls, Unlinking(f)[0]);
    hide AllIdsField, Extend, RemoveFirst;
    assert MergeItems(env, g, items, c, RelManyToMany, [], rs) == Some(Merged(g, [], left)) by {
      DropStep(env, g, items, c, [], rs);
      MergeItemsNone(env, g, c, RelManyToMany, [], left);
    }
    hide MergeItems, DropsRow;
    assert HandleMany(env, g, r, f, List(items), c, RelManyToMany) == Some(g.Set(r, f, Links(Extend([], left))));
    assert ApplyField(env, g, r, Unlinking(f)[0]) == Some(g.Set(r, f, Links(Extend([], left))));
  }

  // --------------------------------------------------------------------
  // Payloads that unlink nothing
  // --------------------------------------------------------------------

  /** No item at any depth unlinks a row. */
  predicate KeepsAll(env: Env, c: Class, es: seq<Entry>)
    decreases es, 1
  {
    es == [] || (KeepsAllField(env, c, es[0]) && KeepsAll(env, c, es[1..]))
  }

  predicate KeepsAllField(env: Env, c: Class, e: Entry)
    decreases e, 0
  {
    match env.FieldOf(c, e.key)
    case Some(Relation(target, _, _)) =>
      (match e.value
       case Dict(es) => KeepsAll(env, target, es)
       case List(items) => KeepsAllItems(env, target, items)
       case _ => true)
    case _ => true
  }

  predicate KeepsAllItems(env: Env, c: Class, items: seq<Value>)
    decreases items, 0
  {
    items == [] ||
    ((items[0].Dict? ==> !DropsRow(items[0].entries) && KeepsAll(env, c, items[0].entries))
     && KeepsAllItems(env, c, items[1..]))
  }

  lemma {:induction false} DroppedAppend(x: seq<Write>, y: seq<Write>)
    ensures Dropped(x + y) == Dropped(x) + Dropped(y)
  {
    if x == [] {
      assert x + y == y;
    } else {
      assert (x + y)[1..] == x[1..] + y;
      DroppedAppend(x[1..], y);
    }
  }

  lemma {:induction false} NothingDropped(env: Env, rows: set<Ref>, r: Ref, c: Class, es: seq<Entry>, q: Ref, k: string)
    requires AllIds(env, c, es) && KeepsAll(env, c, es)
    ensures Dropped(Writes(env, rows, r, c, es, q, k)) == {}
    decreases es, 1
  {
    if es != [] {
      NothingDroppedByField(env, rows, r, c, es[0], q, k);
      NothingDropped(env, rows, r, c, es[1..], q, k);
      DroppedAppend(FieldWrites(env, rows, r, c, es[0], q, k), Writes(env, rows, r, c, es[1..], q, k));
    }
  }

  lemma {:induction false} NothingDroppedByField(env: Env, rows: set<Ref>, r: Ref, c: Class, e: Entry,
                                                 q: Ref, k: string)
    requires AllIdsField(env, c, e) && KeepsAllField(env, c, e)
    ensures Dropped(FieldWrites(env, rows, r, c, e, q, k)) == {}
    decreases e, 0
  {
    match env.FieldOf(c, e.key)
    case Some(Relation(target, _, _)) =>
      match e.value {
        case Dict(es) =>
          var o := RowOf(target, es);
          NothingDropped(env, rows, o, target, es, q, k);
          DroppedAppend(Writes(env, rows, o, target, es, q, k), if q == r && k == e.key then [Put(Link(o))] else []);
        case List(items) => NothingDroppedByItems(env, rows, target, items, q, k);
        case _ =>
      }
    case _ =>
  }

  lemma {:induction false} NothingDroppedByItems(env: Env, rows: set<Ref>, c: Class, items: seq<Value>,
                                                 q: Ref, k: string)
    requires AllIdsItems(env, c, items) && KeepsAllItems(env, c, items)
    ensures Unlinks(env, rows, c, items) == [] && Dropped(ItemWrites(env, rows, c, items, q, k)) == {}
    decreases items, 0
  {
    if items != [] {
      var es := items[0].entries;
      NothingDropped(env, rows, RowOf(c, es), c, es, q, k);
      NothingDroppedByItems(env, rows, c, items[1..], q, k);
      DroppedAppend(Writes(env, rows, RowOf(c, es), c, es, q, k), ItemWrites(env, rows, c, items[1..], q, k));
    }
  }

  /** In particular without deletions, whatever the collections hold. */
  lemma {:induction false} ApplyTwiceKeepingAll(env: Env, g: Graph, r: Ref, es: seq<Entry>)
    requires r in g.heap && g.Valid() && AllIds(env, g.heap[r].cls, es) && Apply(env, g, r, es).Some?
    requires KeepsAll(env, g.heap[r].cls, es)
    ensures Apply(env, Apply(env, g, r, es).value, r, es) == Apply(env, g, r, es)
  {
    hide Writes, Apply, AllIds, KeepsAll, Clears;
    forall q, k ensures Clears(Writes(env, g.heap.Keys, r, g.heap[r].cls, es, q, k), g.Get(q, k)) {
      NothingDropped(env, g.heap.Keys, r, g.heap[r].cls, es, q, k);
      NoDropsClear(Writes(env, g.heap.Keys, r, g.heap[r].cls, es, q, k), g.Get(q, k));
    }
    ApplyTwiceIff(env, g, r, es);
  }

  lemma NoDropsClear(ws: seq<Write>, c: Option<Content>)
    requires Dropped(ws) == {}
    ensures Clears(ws, c)
  {
    if ws != [] && OnlyMerges(ws) { assert Elements(ws[0].drops) == {}; }
  }
}
