/**
 What a payload leaves alone, object by object, whatever mixture of named,
 matched and new items it contains.
 */
module MergeFrame {
  import opened Prelude
  import opened Payload
  import opened Merge
  import opened MergeCollections

  // --------------------------------------------------------------------
  // The attributes a payload addresses
  // --------------------------------------------------------------------

  /** The object that was there before and that an item stands for, if any. */
  function StandIn(env: Env, g: Graph, c: Class, es: seq<Entry>, matching: bool): Option<Ref> {
    if HasId(es) then GetRow(g, c, Lookup(es, "id").value)
    else if matching then (match FindMatch(env, g, c, es) case Unique(o) => Some(o) case _ => None)
    else None
  }

  /** Payload `es`, applied to an object of class `c`, addresses attribute `k` of
      object `q`. `own` tells whether the object it is applied to is `q`. */
  predicate Addresses(env: Env, g: Graph, own: bool, c: Class, es: seq<Entry>, q: Ref, k: string)
    decreases es, 1
  {
    es != [] && (AddressesField(env, g, own, c, es[0], q, k) || Addresses(env, g, own, c, es[1..], q, k))
  }

  predicate AddressesField(env: Env, g: Graph, own: bool, c: Class, e: Entry, q: Ref, k: string)
    decreases e, 1
  {
    !(e.key == "id" && e.value.Null?) &&
    match env.FieldOf(c, e.key)
    case None => false
    case Some(Column(_)) => own && k == e.key
    case Some(Relation(target, uselist, _)) =>
      || (own && k == e.key)
      || (match e.value
          case Dict(es) => !uselist && AddressesItem(env, g, target, es, false, q, k)
          case List(items) => uselist && AddressesItems(env, g, target, items, q, k)
          case _ => false)
  }

  predicate AddressesItem(env: Env, g: Graph, c: Class, es: seq<Entry>, matching: bool, q: Ref, k: string)
    decreases es, 2
  {
    Addresses(env, g, StandIn(env, g, c, es, matching) == Some(q), c, es, q, k)
  }

  predicate AddressesItems(env: Env, g: Graph, c: Class, items: seq<Value>, q: Ref, k: string)
    decreases items, 0
  {
    items != [] &&
    (|| (items[0].Dict? && !Deletes(items[0]) && AddressesItem(env, g, c, items[0].entries, true, q, k))
     || AddressesItems(env, g, c, items[1..], q, k))
  }

  // --------------------------------------------------------------------
  // Everything else stays
  // --------------------------------------------------------------------

  /** The target of an item is the object it stood for at the start, or a new one. */
  lemma TargetOf(env: Env, g0: Graph, g: Graph, es: seq<Entry>, c: Class, matching: bool, q: Ref, k: string)
    requires g.Valid() && Grows(g0, g) && q in g0.heap && Target(env, g, es, c, matching).Some?
    ensures
      var (h, o) := Target(env, g, es, c, matching).value;
      && (o == q <==> StandIn(env, g0, c, es, matching) == Some(q))
      && h.Get(q, k) == g.Get(q, k) && h.heap[o].cls == c && h.Valid() && Grows(g0, h)
  {
    hide FindMatch;
    SameRows(env, g0, g, c, es, if HasId(es) then Lookup(es, "id").value else Null);
    GrowsTransitive(g0, g, Target(env, g, es, c, matching).value.0);
  }

  /** An attribute of an existing object that the payload does not address keeps its
      value, also when the payload names the attribute for other objects. */
  lemma {:induction false} UnaddressedStays(env: Env, g0: Graph, g: Graph, r: Ref, es: seq<Entry>, q: Ref, k: string)
    requires r in g.heap && g.Valid() && Grows(g0, g) && q in g0.heap
    requires !Addresses(env, g0, r == q, g.heap[r].cls, es, q, k)
    ensures Apply(env, g, r, es).Some? ==> Apply(env, g, r, es).value.Get(q, k) == g.Get(q, k)
    decreases es, 2
  {
    hide Graph.Valid, Grows, ApplyField, AddressesField, Graph.Get;
    if es != [] {
      var h := ApplyField(env, g, r, es[0]);
      FieldStays(env, g0, g, r, es[0], q, k);
      if h.Some? {
        GrowsTransitive(g0, g, h.value);
        ClassStays(g, h.value, r);
        UnaddressedStays(env, g0, h.value, r, es[1..], q, k);
      }
    }
  }

  lemma ClassStays(g: Graph, h: Graph, r: Ref)
    requires Grows(g, h) && r in g.heap
    ensures r in h.heap && h.heap[r].cls == g.heap[r].cls
  {
  }

  lemma {:induction false} FieldStays(env: Env, g0: Graph, g: Graph, r: Ref, e: Entry, q: Ref, k: string)
    requires r in g.heap && g.Valid() && Grows(g0, g) && q in g0.heap
    requires !AddressesField(env, g0, r == q, g.heap[r].cls, e, q, k)
    ensures ApplyField(env, g, r, e).Some? ==> ApplyField(env, g, r, e).value.Get(q, k) == g.Get(q, k)
    decreases e, 1
  {
    hide Graph.Set, Graph.Get, Graph.Valid, Grows, HandleOne, HandleMany, AddressesItem, AddressesItems;
    if !(e.key == "id" && e.value.Null?) {
      match env.FieldOf(g.heap[r].cls, e.key)
      case Some(Relation(target, uselist, direction)) =>
        if uselist {
          ManyStays(env, g0, g, r, e, target, Relation(target, uselist, direction).RelType(), q, k);
        } else {
          OneStays(env, g0, g, r, e, target, q, k);
        }
      case Some(Column(_)) => SetElsewhere(g, r, e.key, Val(e.value), q, k);
      case _ =>
    }
  }

  lemma {:induction false} OneStays(env: Env, g0: Graph, g: Graph, r: Ref, e: Entry, c: Class, q: Ref, k: string)
    requires r in g.heap && g.Valid() && Grows(g0, g) && q in g0.heap
    requires q != r || k != e.key
    requires e.value.Dict? ==> !AddressesItem(env, g0, c, e.value.entries, false, q, k)
    ensures
      var h := HandleOne(env, g, r, e.key, e.value, c);
      h.Some? ==> h.value.Get(q, k) == g.Get(q, k)
    decreases e, 0
  {
    hide Graph.Set, Graph.Get, Graph.Valid, Target, Apply, StandIn;
    if HandleOne(env, g, r, e.key, e.value, c).Some? {
      var es := e.value.entries;
      var (g1, o) := Target(env, g, es, c, false).value;
      TargetOf(env, g0, g, es, c, false, q, k);
      UnaddressedStays(env, g0, g1, o, es, q, k);
      SetElsewhere(Apply(env, g1, o, es).value, r, e.key, Link(o), q, k);
    }
  }

  lemma {:induction false} ManyStays(env: Env, g0: Graph, g: Graph, r: Ref, e: Entry, c: Class, rel: RelType,
                                     q: Ref, k: string)
    requires r in g.heap && g.Valid() && Grows(g0, g) && q in g0.heap
    requires q != r || k != e.key
    requires e.value.List? ==> !AddressesItems(env, g0, c, e.value.items, q, k)
    ensures
      var h := HandleMany(env, g, r, e.key, e.value, c, rel);
      h.Some? ==> h.value.Get(q, k) == g.Get(q, k)
    decreases e, 0
  {
    hide Graph.Set, Graph.Get, Graph.Valid, MergeItems, Extend;
    if HandleMany(env, g, r, e.key, e.value, c, rel).Some? {
      match e.value
      case List(items) =>
        ItemsStay(env, g0, g, items, c, rel, [], g.Members(r, e.key), q, k);
        var m := MergeItems(env, g, items, c, rel, [], g.Members(r, e.key)).value;
        SetElsewhere(m.g, r, e.key, Links(Extend(m.merged, m.existing)), q, k);
      case _ => SetElsewhere(g, r, e.key, Links(Extend([], g.Members(r, e.key))), q, k);
    }
  }

  lemma {:induction false} ItemsStay(env: Env, g0: Graph, g: Graph, items: seq<Value>, c: Class, rel: RelType,
                                     merged: seq<Ref>, existing: seq<Ref>, q: Ref, k: string)
    requires g.Valid() && Grows(g0, g) && q in g0.heap && !AddressesItems(env, g0, c, items, q, k)
    ensures
      var m := MergeItems(env, g, items, c, rel, merged, existing);
      m.Some? ==> m.value.g.Get(q, k) == g.Get(q, k)
    decreases items, 0
  {
    hide Graph.Valid, Grows, MergeItems, Target, Apply, StandIn, Addresses, Graph.Get, Remove;
    hide Deletes, HasId, CanDelete;
    if items == [] {
      MergeItemsNone(env, g, c, rel, merged, existing);
    } else {
      DeletesIff(items[0]);
      MergeItemsStep(env, g, items, c, rel, merged, existing);
      if items[0].Dict? {
        var es := items[0].entries;
        if Deletes(items[0]) {
          var x := Remove(g, GetRow(g, c, Lookup(es, "id").value), rel, existing);
          if x.Some? {
            GrowsTransitive(g0, g, x.value.0);
            RemoveKeepsCells(g, GetRow(g, c, Lookup(es, "id").value), rel, existing, q, k);
            ItemsStay(env, g0, x.value.0, items[1..], c, rel, merged, x.value.1, q, k);
          }
        } else if Target(env, g, es, c, true).Some? {
          var (g1, o) := Target(env, g, es, c, true).value;
          TargetOf(env, g0, g, es, c, true, q, k);
          UnaddressedStays(env, g0, g1, o, es, q, k);
          var h := Apply(env, g1, o, es);
          if h.Some? {
            GrowsTransitive(g0, g1, h.value);
            ItemsStay(env, g0, h.value, items[1..], c, rel, merged + [o], existing, q, k);
          }
        }
      }
    }
  }

  lemma RemoveKeepsCells(g: Graph, o: Option<Ref>, rel: RelType, existing: seq<Ref>, q: Ref, k: string)
    requires g.Valid() && Remove(g, o, rel, existing).Some?
    ensures Remove(g, o, rel, existing).value.0.Get(q, k) == g.Get(q, k)
  {
  }

  // --------------------------------------------------------------------
  // Attributes named nowhere
  // --------------------------------------------------------------------

  /** Every key used anywhere in the payload. */
  function Named(es: seq<Entry>): set<string> {
    if es == [] then {} else {es[0].key} + NamedIn(es[0].value) + Named(es[1..])
  }

  function NamedIn(v: Value): set<string> {
    match v
    case Dict(es) => Named(es)
    case List(vs) => NamedInItems(vs)
    case _ => {}
  }

  function NamedInItems(vs: seq<Value>): set<string> {
    if vs == [] then {} else NamedIn(vs[0]) + NamedInItems(vs[1..])
  }

  /** A payload addresses only attributes it names. */
  lemma {:induction false} AddressedIsNamed(env: Env, g: Graph, own: bool, c: Class, es: seq<Entry>, q: Ref, k: string)
    requires Addresses(env, g, own, c, es, q, k)
    ensures k in Named(es)
    decreases es
  {
    if AddressesField(env, g, own, c, es[0], q, k) {
      match env.FieldOf(c, es[0].key)
      case Some(Relation(target, uselist, _)) =>
        if !(own && k == es[0].key) {
          match es[0].value {
            case Dict(inner) =>
              assert AddressesItem(env, g, target, inner, false, q, k);
              AddressedIsNamed(env, g, StandIn(env, g, target, inner, false) == Some(q), target, inner, q, k);
            case List(items) => AddressedInItems(env, g, target, items, q, k);
            case _ =>
          }
        }
      case _ =>
    } else {
      AddressedIsNamed(env, g, own, c, es[1..], q, k);
    }
  }

  lemma {:induction false} AddressedInItems(env: Env, g: Graph, c: Class, items: seq<Value>, q: Ref, k: string)
    requires AddressesItems(env, g, c, items, q, k)
    ensures k in NamedInItems(items)
    decreases items
  {
    if items[0].Dict? && !Deletes(items[0]) && AddressesItem(env, g, c, items[0].entries, true, q, k) {
      var es := items[0].entries;
      AddressedIsNamed(env, g, StandIn(env, g, c, es, true) == Some(q), c, es, q, k);
    } else {
      AddressedInItems(env, g, c, items[1..], q, k);
    }
  }

  /** An attribute the payload names at no depth keeps its value on every object
      that was there before. */
  lemma {:induction false} UnnamedStays(env: Env, g: Graph, r: Ref, es: seq<Entry>, q: Ref, k: string)
    requires r in g.heap && g.Valid() && q in g.heap && k !in Named(es)
    ensures Apply(env, g, r, es).Some? ==> Apply(env, g, r, es).value.Get(q, k) == g.Get(q, k)
  {
    hide Apply;
    GrowsReflexive(g);
    if Addresses(env, g, r == q, g.heap[r].cls, es, q, k) {
      AddressedIsNamed(env, g, r == q, g.heap[r].cls, es, q, k);
    } else {
      UnaddressedStays(env, g, g, r, es, q, k);
    }
  }
}
