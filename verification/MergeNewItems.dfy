/**
 Payloads whose related items are all new: normalising first is harmless exactly
 when every column value, at every depth that is normalised, is settled.
 */
module MergeNewItems {
  import opened Prelude
  import opened Payload
  import opened Merge
  import opened MergeCollections
  import opened MergeFrame
  import opened MergeNormalization

  // --------------------------------------------------------------------
  // Payloads with new items only
  // --------------------------------------------------------------------

  predicate DistinctNames(es: seq<Entry>) {
    forall i, j :: 0 <= i < j < |es| ==> es[i].key != es[j].key
  }

  /** No item names a row by its id, and no dictionary gives a name twice. */
  predicate NoIds(env: Env, c: Class, es: seq<Entry>)
    decreases es, 1
  {
    DistinctNames(es) && NoIdFields(env, c, es)
  }

  predicate NoIdFields(env: Env, c: Class, es: seq<Entry>)
    decreases es, 0
  {
    es == [] || (NoIdField(env, c, es[0]) && NoIdFields(env, c, es[1..]))
  }

  predicate NoIdField(env: Env, c: Class, e: Entry)
    decreases e, 0
  {
    match env.FieldOf(c, e.key)
    case Some(Relation(target, uselist, _)) =>
      (match e.value
       case Dict(es) => uselist || (!HasId(es) && NoIds(env, target, es))
       case List(items) => NoIdItems(env, target, items)
       case _ => true)
    case _ => true
  }

  predicate NoIdItems(env: Env, c: Class, items: seq<Value>)
    decreases items, 0
  {
    items == [] ||
    ((items[0].Dict? ==> !HasId(items[0].entries) && NoIds(env, c, items[0].entries)) && NoIdItems(env, c, items[1..]))
  }

  /** No item of a collection gives unique values that a stored row has. */
  predicate Unmatched(env: Env, g: Graph, c: Class, es: seq<Entry>)
    decreases es, 1
  {
    es == [] || (UnmatchedField(env, g, c, es[0]) && Unmatched(env, g, c, es[1..]))
  }

  predicate UnmatchedField(env: Env, g: Graph, c: Class, e: Entry)
    decreases e, 0
  {
    match env.FieldOf(c, e.key)
    case Some(Relation(target, uselist, _)) =>
      (match e.value
       case Dict(es) => uselist || Unmatched(env, g, target, es)
       case List(items) => UnmatchedItems(env, g, target, items)
       case _ => true)
    case _ => true
  }

  predicate UnmatchedItems(env: Env, g: Graph, c: Class, items: seq<Value>)
    decreases items, 0
  {
    items == [] ||
    (&& (items[0].Dict? ==>
          FindMatch(env, g, c, items[0].entries) == NoMatch && Unmatched(env, g, c, items[0].entries))
     && UnmatchedItems(env, g, c, items[1..]))
  }

  /** Every item at every depth stands for a new object. */
  predicate AllNew(env: Env, g: Graph, c: Class, es: seq<Entry>) {
    NoIds(env, c, es) && Unmatched(env, g, c, es)
  }

  // --------------------------------------------------------------------
  // How many objects such a payload creates
  // --------------------------------------------------------------------

  function Count(env: Env, c: Class, es: seq<Entry>): nat
    decreases es, 0
  {
    if es == [] then 0 else FieldCount(env, c, es[0]) + Count(env, c, es[1..])
  }

  function FieldCount(env: Env, c: Class, e: Entry): nat
    decreases e, 0
  {
    match env.FieldOf(c, e.key)
    case Some(Relation(target, uselist, _)) =>
      (match e.value
       case Dict(es) => if uselist then 0 else 1 + Count(env, target, es)
       case List(items) => ItemsCount(env, target, items)
       case _ => 0)
    case _ => 0
  }

  function ItemsCount(env: Env, c: Class, items: seq<Value>): nat
    decreases items, 0
  {
    if items == [] then 0
    else (match items[0] case Dict(es) => 1 + Count(env, c, es) case _ => 0) + ItemsCount(env, c, items[1..])
  }

  lemma {:induction false} CountWithout(env: Env, c: Class, es: seq<Entry>)
    requires env.Unmarked()
    ensures Count(env, c, Without(es, REL)) == Count(env, c, es)
  {
    if es != [] {
      CountWithout(env, c, es[1..]);
      if es[0].key != REL { assert Without(es, REL)[1..] == Without(es[1..], REL); }
    }
  }

  lemma CountMarked(env: Env, c: Class, es: seq<Entry>)
    requires env.Unmarked()
    ensures Count(env, c, Mark(es)) == Count(env, c, es)
  {
    CountWithout(env, c, es);
    assert Mark(es)[1..] == Without(es, REL);
  }

  lemma {:induction false} CountNormalized(env: Env, c: Class, es: seq<Entry>)
    requires env.Unmarked()
    ensures Count(env, c, Normalize(es)) == Count(env, c, es)
    decreases es, 1
  {
    if es != [] {
      FieldCountNormalized(env, c, es[0]);
      CountNormalized(env, c, es[1..]);
      assert Normalize(es)[1..] == Normalize(es[1..]);
    }
  }

  lemma {:induction false} FieldCountNormalized(env: Env, c: Class, e: Entry)
    requires env.Unmarked()
    ensures FieldCount(env, c, Entry(e.key, NormalizeValue(e.value))) == FieldCount(env, c, e)
    decreases e, 0
  {
    match env.FieldOf(c, e.key)
    case Some(Relation(target, _, _)) =>
      match e.value {
        case Dict(es) => CountMarked(env, target, es); CountNormalized(env, target, es);
        case List(items) => ItemsCountNormalized(env, target, items);
        case _ =>
      }
    case _ =>
  }

  lemma {:induction false} ItemsCountNormalized(env: Env, c: Class, items: seq<Value>)
    requires env.Unmarked()
    ensures ItemsCount(env, c, NormalizeItems(items)) == ItemsCount(env, c, items)
    decreases items, 0
  {
    if items != [] {
      if items[0].Dict? { CountNormalized(env, c, items[0].entries); }
      ItemsCountNormalized(env, c, items[1..]);
      assert NormalizeItems(items)[1..] == NormalizeItems(items[1..]);
    }
  }

  // --------------------------------------------------------------------
  // Normalising keeps the items new
  // --------------------------------------------------------------------

  lemma {:induction false} WithoutDistinct(es: seq<Entry>, k: string)
    requires DistinctNames(es)
    ensures DistinctNames(Without(es, k))
    ensures forall e :: e in Without(es, k) ==> e in es && e.key != k
  {
    if es != [] {
      var rest := Without(es[1..], k);
      assert forall i :: 0 <= i < |es[1..]| ==> es[1..][i] == es[i + 1];
      WithoutDistinct(es[1..], k);
      forall i | 0 <= i < |rest| ensures rest[i].key != es[0].key {
        assert rest[i] in es[1..];
      }
    }
  }

  lemma {:induction false} WithoutNoIds(env: Env, c: Class, es: seq<Entry>)
    requires NoIdFields(env, c, es)
    ensures NoIdFields(env, c, Without(es, REL))
  {
    if es != [] {
      WithoutNoIds(env, c, es[1..]);
      if es[0].key != REL { assert Without(es, REL)[1..] == Without(es[1..], REL); }
    }
  }

  lemma MarkedNoIds(env: Env, c: Class, es: seq<Entry>)
    requires env.Unmarked() && !HasId(es) && NoIds(env, c, es)
    ensures !HasId(Mark(es)) && NoIds(env, c, Mark(es))
  {
    hide NoIdField;
    var m := Mark(es);
    MarkedIsSameItem(env, c, es);
    WithoutDistinct(es, REL);
    WithoutNoIds(env, c, es);
    assert m[1..] == Without(es, REL);
    forall j | 0 < j < |m| ensures m[j].key != REL { assert m[1..][j - 1] in Without(es, REL); }
    assert NoIdField(env, c, m[0]) by { NoSuchField(env, c, m[0]); }
    forall i, j | 0 <= i < j < |m| ensures m[i].key != m[j].key {
      if i > 0 { assert m[1..][i - 1] == m[i] && m[1..][j - 1] == m[j]; }
    }
  }

  lemma NoSuchField(env: Env, c: Class, e: Entry)
    requires env.Unmarked() && e.key == REL
    ensures NoIdField(env, c, e)
  {
  }

  lemma NormalizedNotId(es: seq<Entry>)
    ensures HasId(Normalize(es)) == HasId(es)
  {
    LookupNormalize(es, "id");
    if Lookup(es, "id").Some? { NormalizeKeepsShape(Lookup(es, "id").value); }
  }

  lemma {:induction false} NormalizedNoIds(env: Env, c: Class, es: seq<Entry>)
    requires env.Unmarked() && NoIds(env, c, es)
    ensures NoIds(env, c, Normalize(es))
    decreases es, 2
  {
    NormalizeKeepsKeys(es);
    NormalizedNoIdFields(env, c, es);
  }

  lemma {:induction false} NormalizedNoIdFields(env: Env, c: Class, es: seq<Entry>)
    requires env.Unmarked() && NoIdFields(env, c, es)
    ensures NoIdFields(env, c, Normalize(es))
    decreases es, 1
  {
    if es != [] {
      NormalizedNoIdField(env, c, es[0]);
      NormalizedNoIdFields(env, c, es[1..]);
      assert Normalize(es)[1..] == Normalize(es[1..]);
    }
  }

  lemma {:induction false} NormalizedNoIdField(env: Env, c: Class, e: Entry)
    requires env.Unmarked() && NoIdField(env, c, e)
    ensures NoIdField(env, c, Entry(e.key, NormalizeValue(e.value)))
    decreases e, 0
  {
    match env.FieldOf(c, e.key)
    case Some(Relation(target, uselist, _)) =>
      match e.value {
        case Dict(es) =>
          if !uselist {
            if LooksRelated(es) {
              MarkedNoIds(env, target, es);
            } else {
              NormalizedNotId(es);
              NormalizedNoIds(env, target, es);
            }
          }
        case List(items) => NormalizedNoIdItems(env, target, items);
        case _ =>
      }
    case _ =>
  }

  lemma {:induction false} NormalizedNoIdItems(env: Env, c: Class, items: seq<Value>)
    requires env.Unmarked() && NoIdItems(env, c, items)
    ensures NoIdItems(env, c, NormalizeItems(items))
    decreases items, 0
  {
    if items != [] {
      if items[0].Dict? {
        NormalizedNotId(items[0].entries);
        NormalizedNoIds(env, c, items[0].entries);
      }
      NormalizedNoIdItems(env, c, items[1..]);
      assert NormalizeItems(items)[1..] == NormalizeItems(items[1..]);
    }
  }

  // --------------------------------------------------------------------
  // At most that many objects are created, all of them if no item is matched
  // --------------------------------------------------------------------

  /** The objects that a payload without ids adds: as many as it has items, unless
      one of them is matched. */
  lemma {:induction false} Created(env: Env, g0: Graph, g: Graph, r: Ref, es: seq<Entry>)
    requires r in g.heap && g.Valid() && Grows(g0, g) && NoIdFields(env, g.heap[r].cls, es)
    requires Apply(env, g, r, es).Some?
    ensures
      var n, all := Apply(env, g, r, es).value.next - g.next, Count(env, g.heap[r].cls, es);
      n <= all && (n == all <==> Unmatched(env, g0, g.heap[r].cls, es))
    decreases es, 2
  {
    hide Graph.Valid, Grows, ApplyField, NoIdField, UnmatchedField, FieldCount;
    if es != [] {
      var h := ApplyField(env, g, r, es[0]).value;
      FieldCreated(env, g0, g, r, es[0]);
      GrowsTransitive(g0, g, h);
      ClassStays(g, h, r);
      Created(env, g0, h, r, es[1..]);
    }
  }

  lemma {:induction false} FieldCreated(env: Env, g0: Graph, g: Graph, r: Ref, e: Entry)
    requires r in g.heap && g.Valid() && Grows(g0, g) && NoIdField(env, g.heap[r].cls, e)
    requires ApplyField(env, g, r, e).Some?
    ensures
      var n, all := ApplyField(env, g, r, e).value.next - g.next, FieldCount(env, g.heap[r].cls, e);
      n <= all && (n == all <==> UnmatchedField(env, g0, g.heap[r].cls, e))
    decreases e, 1
  {
    hide Graph.Valid, Grows, Apply, MergeItems, Extend;
    match env.FieldOf(g.heap[r].cls, e.key)
    case Some(Relation(target, uselist, direction)) =>
      if !(e.key == "id" && e.value.Null?) {
        match e.value {
          case Dict(es) => if !uselist { ItemCreated(env, g0, g, target, es, false); }
          case List(items) =>
            if uselist {
              var rel := Relation(target, uselist, direction).RelType();
              ItemsCreated(env, g0, g, items, target, rel, [], g.Members(r, e.key));
            }
          case _ =>
        }
      }
    case _ =>
  }

  lemma {:induction false} ItemCreated(env: Env, g0: Graph, g: Graph, c: Class, es: seq<Entry>, matching: bool)
    requires g.Valid() && Grows(g0, g) && !HasId(es) && NoIds(env, c, es)
    requires Target(env, g, es, c, matching).Some?
    requires
      var (g1, q) := Target(env, g, es, c, matching).value;
      Apply(env, g1, q, es).Some?
    ensures
      var (g1, q) := Target(env, g, es, c, matching).value;
      var n, all := Apply(env, g1, q, es).value.next - g.next, 1 + Count(env, c, es);
      && n <= all
      && (n == all <==> (matching ==> FindMatch(env, g0, c, es) == NoMatch) && Unmatched(env, g0, c, es))
    decreases es, 3
  {
    hide FindMatch, Apply, NoIdFields;
    var (g1, q) := Target(env, g, es, c, matching).value;
    TargetClass(env, g, es, c, matching);
    SameRows(env, g0, g, c, es, Null);
    GrowsTransitive(g0, g, g1);
    Created(env, g0, g1, q, es);
  }

  lemma {:induction false} ItemsCreated(env: Env, g0: Graph, g: Graph, items: seq<Value>, c: Class, rel: RelType,
                                        merged: seq<Ref>, existing: seq<Ref>)
    requires g.Valid() && Grows(g0, g) && NoIdItems(env, c, items)
    requires MergeItems(env, g, items, c, rel, merged, existing).Some?
    ensures
      var n := MergeItems(env, g, items, c, rel, merged, existing).value.g.next - g.next;
      var all := ItemsCount(env, c, items);
      n <= all && (n == all <==> UnmatchedItems(env, g0, c, items))
    decreases items, 0
  {
    hide Graph.Valid, Grows, MergeItems, Target, Apply, FindMatch, NoIds, Unmatched, Count;
    if items == [] {
      MergeItemsNone(env, g, c, rel, merged, existing);
    } else {
      MergeItemsStep(env, g, items, c, rel, merged, existing);
      var es := items[0].entries;
      var (g1, q) := Target(env, g, es, c, true).value;
      ItemCreated(env, g0, g, c, es, true);
      var h := Apply(env, g1, q, es).value;
      GrowsTransitive(g0, g, g1);
      GrowsTransitive(g0, g1, h);
      ItemsCreated(env, g0, h, items[1..], c, rel, merged + [q], existing);
    }
  }

  // --------------------------------------------------------------------
  // Everything else stays
  // --------------------------------------------------------------------

  /** Rows, and the serial numbers handed out so far. */
  predicate Older(g: Graph, q: Ref) {
    q.New? ==> q.serial < g.next
  }

  lemma StaysOlder(g: Graph, h: Graph, q: Ref)
    requires Grows(g, h) && Older(g, q)
    ensures Older(h, q)
  {
  }

  /** An item that is not matched stands for the next new object. */
  lemma NewTarget(env: Env, g0: Graph, g: Graph, c: Class, es: seq<Entry>, matching: bool)
    requires g.Valid() && Grows(g0, g) && !HasId(es) && (matching ==> FindMatch(env, g0, c, es) == NoMatch)
    ensures
      var g1, o := g.Create(c), New(g.next);
      && Target(env, g, es, c, matching) == Some((g1, o))
      && g1.Valid() && Grows(g0, g1) && Grows(g, g1) && o in g1.heap && g1.heap[o].cls == c && g1.next == g.next + 1
  {
    hide FindMatch, Grows, Graph.Valid;
    SameRows(env, g0, g, c, es, Null);
    CreateGrows(g0, g, c);
  }

  lemma CreateGrows(g0: Graph, g: Graph, c: Class)
    requires g.Valid() && Grows(g0, g)
    ensures g.Create(c).Valid() && Grows(g0, g.Create(c)) && Grows(g, g.Create(c))
  {
    var h := g.Create(c);
    forall r | r in h.heap && r !in g.heap ensures r == New(g.next) {}
  }

  lemma CreateKeeps(g: Graph, c: Class, q: Ref, k: string)
    requires Older(g, q)
    ensures q != New(g.next) && g.Create(c).Get(q, k) == g.Get(q, k)
  {
  }

  lemma {:induction false} Elsewhere(env: Env, g0: Graph, g: Graph, r: Ref, es: seq<Entry>, q: Ref, k: string)
    requires r in g.heap && g.Valid() && Grows(g0, g)
    requires NoIdFields(env, g.heap[r].cls, es) && Unmatched(env, g0, g.heap[r].cls, es)
    requires Older(g, q) && (q != r || forall e :: e in es ==> e.key != k)
    ensures Apply(env, g, r, es).Some? ==> Apply(env, g, r, es).value.Get(q, k) == g.Get(q, k)
    decreases es, 2
  {
    hide Graph.Valid, Grows, ApplyField, NoIdField, UnmatchedField, Graph.Get, Older;
    if es != [] && ApplyField(env, g, r, es[0]).Some? {
      var h := ApplyField(env, g, r, es[0]).value;
      FieldElsewhere(env, g0, g, r, es[0], q, k);
      GrowsTransitive(g0, g, h);
      ClassStays(g, h, r);
      StaysOlder(g, h, q);
      Elsewhere(env, g0, h, r, es[1..], q, k);
    }
  }

  lemma {:induction false} FieldElsewhere(env: Env, g0: Graph, g: Graph, r: Ref, e: Entry, q: Ref, k: string)
    requires r in g.heap && g.Valid() && Grows(g0, g)
    requires NoIdField(env, g.heap[r].cls, e) && UnmatchedField(env, g0, g.heap[r].cls, e)
    requires Older(g, q) && (q != r || e.key != k)
    ensures ApplyField(env, g, r, e).Some? ==> ApplyField(env, g, r, e).value.Get(q, k) == g.Get(q, k)
    decreases e, 1
  {
    hide Graph.Set, Graph.Get, Graph.Valid, Grows, HandleOne, HandleMany, Older, NoIds, NoIdItems, Unmatched;
    hide UnmatchedItems;
    if !(e.key == "id" && e.value.Null?) {
      match env.FieldOf(g.heap[r].cls, e.key)
      case Some(Relation(target, uselist, direction)) =>
        if uselist {
          ManyElsewhere(env, g0, g, r, e, target, Relation(target, uselist, direction).RelType(), q, k);
        } else {
          OneElsewhere(env, g0, g, r, e, target, q, k);
        }
      case Some(Column(_)) => SetElsewhere(g, r, e.key, Val(e.value), q, k);
      case _ =>
    }
  }

  lemma {:induction false} OneElsewhere(env: Env, g0: Graph, g: Graph, r: Ref, e: Entry, c: Class, q: Ref, k: string)
    requires r in g.heap && g.Valid() && Grows(g0, g) && Older(g, q) && (q != r || e.key != k)
    requires e.value.Dict? ==> !HasId(e.value.entries) && NoIds(env, c, e.value.entries)
    requires e.value.Dict? ==> Unmatched(env, g0, c, e.value.entries)
    ensures
      var h := HandleOne(env, g, r, e.key, e.value, c);
      h.Some? ==> h.value.Get(q, k) == g.Get(q, k)
    decreases e, 0
  {
    hide Graph.Set, Graph.Get, Graph.Valid, Target, Apply, FindMatch, Older, NoIds, Unmatched, Graph.Create;
    if HandleOne(env, g, r, e.key, e.value, c).Some? {
      var es := e.value.entries;
      ItemElsewhere(env, g0, g, c, es, false, q, k);
      NewTarget(env, g0, g, c, es, false);
      SetElsewhere(Apply(env, g.Create(c), New(g.next), es).value, r, e.key, Link(New(g.next)), q, k);
    }
  }

  lemma {:induction false} ManyElsewhere(env: Env, g0: Graph, g: Graph, r: Ref, e: Entry, c: Class, rel: RelType,
                                         q: Ref, k: string)
    requires r in g.heap && g.Valid() && Grows(g0, g) && Older(g, q) && (q != r || e.key != k)
    requires e.value.List? ==> NoIdItems(env, c, e.value.items) && UnmatchedItems(env, g0, c, e.value.items)
    ensures
      var h := HandleMany(env, g, r, e.key, e.value, c, rel);
      h.Some? ==> h.value.Get(q, k) == g.Get(q, k)
    decreases e, 0
  {
    hide Graph.Set, Graph.Get, Graph.Valid, MergeItems, Extend, Older, NoIdItems, UnmatchedItems;
    if HandleMany(env, g, r, e.key, e.value, c, rel).Some? {
      match e.value
      case List(items) =>
        ItemsElsewhere(env, g0, g, items, c, rel, [], g.Members(r, e.key), q, k);
        var m := MergeItems(env, g, items, c, rel, [], g.Members(r, e.key)).value;
        SetElsewhere(m.g, r, e.key, Links(Extend(m.merged, m.existing)), q, k);
      case _ => SetElsewhere(g, r, e.key, Links(Extend([], g.Members(r, e.key))), q, k);
    }
  }

  lemma {:induction false} ItemElsewhere(env: Env, g0: Graph, g: Graph, c: Class, es: seq<Entry>, matching: bool,
                                         q: Ref, k: string)
    requires g.Valid() && Grows(g0, g) && !HasId(es) && NoIds(env, c, es) && Unmatched(env, g0, c, es)
    requires (matching ==> FindMatch(env, g0, c, es) == NoMatch) && Older(g, q)
    ensures
      var g1, o := g.Create(c), New(g.next);
      && Target(env, g, es, c, matching) == Some((g1, o)) && g1.Valid()
      && (Apply(env, g1, o, es).Some? ==> Apply(env, g1, o, es).value.Get(q, k) == g.Get(q, k))
    decreases es, 3
  {
    hide Apply, NoIdFields, Unmatched, Target, FindMatch, Graph.Get, Graph.Valid, Grows, Older;
    NewTarget(env, g0, g, c, es, matching);
    CreateKeeps(g, c, q, k);
    StaysOlder(g, g.Create(c), q);
    Elsewhere(env, g0, g.Create(c), New(g.next), es, q, k);
  }

  lemma {:induction false} ItemsElsewhere(env: Env, g0: Graph, g: Graph, items: seq<Value>, c: Class, rel: RelType,
                                          merged: seq<Ref>, existing: seq<Ref>, q: Ref, k: string)
    requires g.Valid() && Grows(g0, g) && NoIdItems(env, c, items) && UnmatchedItems(env, g0, c, items) && Older(g, q)
    ensures
      var m := MergeItems(env, g, items, c, rel, merged, existing);
      m.Some? ==> m.value.g.Get(q, k) == g.Get(q, k)
    decreases items, 0
  {
    hide Graph.Valid, Grows, MergeItems, Target, Apply, FindMatch, NoIds, Unmatched, Graph.Get, Older, Graph.Create;
    if items == [] {
      MergeItemsNone(env, g, c, rel, merged, existing);
    } else {
      MergeItemsStep(env, g, items, c, rel, merged, existing);
      if MergeItems(env, g, items, c, rel, merged, existing).Some? {
        var es := items[0].entries;
        ItemElsewhere(env, g0, g, c, es, true, q, k);
        NewTarget(env, g0, g, c, es, true);
        var h := Apply(env, g.Create(c), New(g.next), es).value;
        GrowsTransitive(g0, g.Create(c), h);
        GrowsTransitive(g, g.Create(c), h);
        StaysOlder(g, h, q);
        ItemsElsewhere(env, g0, h, items[1..], c, rel, merged + [New(g.next)], existing, q, k);
      }
    }
  }

  // --------------------------------------------------------------------
  // Where the column values of such a payload end up
  // --------------------------------------------------------------------

  /** Graph `h` holds every column value of a payload applied to `r`, the items being
      the new objects from serial number `n` on. */
  predicate Stored(env: Env, h: Graph, c: Class, es: seq<Entry>, r: Ref, n: nat)
    decreases es, 1
  {
    es == [] || (StoredField(env, h, c, es[0], r, n)
                 && Stored(env, h, c, es[1..], r, n + FieldCount(env, c, es[0])))
  }

  predicate StoredField(env: Env, h: Graph, c: Class, e: Entry, r: Ref, n: nat)
    decreases e, 0
  {
    match env.FieldOf(c, e.key)
    case None => true
    case Some(Column(_)) => (e.key == "id" && e.value.Null?) || h.Get(r, e.key) == Some(Val(e.value))
    case Some(Relation(target, uselist, _)) =>
      match e.value
      case Dict(es) => if uselist then es == [] else Stored(env, h, target, es, New(n), n + 1)
      case List(items) => StoredItems(env, h, target, items, n)
      case _ => true
  }

  predicate StoredItems(env: Env, h: Graph, c: Class, items: seq<Value>, n: nat)
    decreases items, 0
  {
    items == [] ||
    (match items[0]
     case Dict(es) =>
       Stored(env, h, c, es, New(n), n + 1) && StoredItems(env, h, c, items[1..], n + 1 + Count(env, c, es))
     case _ => StoredItems(env, h, c, items[1..], n))
  }

  /** The objects from `n` up to `m` are the same in both graphs. */
  ghost predicate Agree(g: Graph, h: Graph, n: nat, m: nat) {
    forall s, k :: n <= s < m ==> g.Get(New(s), k) == h.Get(New(s), k)
  }

  lemma {:induction false} Kept(env: Env, g: Graph, h: Graph, c: Class, es: seq<Entry>, r: Ref, n: nat)
    requires Stored(env, g, c, es, r, n) && Agree(g, h, n, n + Count(env, c, es))
    requires forall e :: e in es ==> g.Get(r, e.key) == h.Get(r, e.key)
    ensures Stored(env, h, c, es, r, n)
    decreases es, 1
  {
    if es != [] {
      FieldKept(env, g, h, c, es[0], r, n);
      Kept(env, g, h, c, es[1..], r, n + FieldCount(env, c, es[0]));
    }
  }

  lemma {:induction false} FieldKept(env: Env, g: Graph, h: Graph, c: Class, e: Entry, r: Ref, n: nat)
    requires StoredField(env, g, c, e, r, n) && Agree(g, h, n, n + FieldCount(env, c, e))
    requires g.Get(r, e.key) == h.Get(r, e.key)
    ensures StoredField(env, h, c, e, r, n)
    decreases e, 0
  {
    hide Graph.Get;
    match env.FieldOf(c, e.key)
    case Some(Relation(target, uselist, _)) =>
      match e.value {
        case Dict(es) => if !uselist { Kept(env, g, h, target, es, New(n), n + 1); }
        case List(items) => ItemsKept(env, g, h, target, items, n);
        case _ =>
      }
    case _ =>
  }

  lemma {:induction false} ItemsKept(env: Env, g: Graph, h: Graph, c: Class, items: seq<Value>, n: nat)
    requires StoredItems(env, g, c, items, n) && Agree(g, h, n, n + ItemsCount(env, c, items))
    ensures StoredItems(env, h, c, items, n)
    decreases items, 0
  {
    hide Graph.Get;
    if items != [] {
      match items[0]
      case Dict(es) =>
        Kept(env, g, h, c, es, New(n), n + 1);
        ItemsKept(env, g, h, c, items[1..], n + 1 + Count(env, c, es));
      case _ => ItemsKept(env, g, h, c, items[1..], n);
    }
  }

  // --------------------------------------------------------------------
  // Applying the payload stores them
  // --------------------------------------------------------------------

  lemma {:induction false} Stores(env: Env, g0: Graph, g: Graph, r: Ref, es: seq<Entry>)
    requires r in g.heap && g.Valid() && Grows(g0, g) && AllNew(env, g0, g.heap[r].cls, es)
    requires Apply(env, g, r, es).Some?
    ensures Stored(env, Apply(env, g, r, es).value, g.heap[r].cls, es, r, g.next)
    decreases es, 2
  {
    hide Grows, ApplyField, StoredField, FieldCount, Graph.Get, AllNew, Graph.Valid, Agree;
    SerialBelow(g, r);
    if es != [] {
      var c, rest, h := g.heap[r].cls, es[1..], ApplyField(env, g, r, es[0]).value;
      AllNewStep(env, g0, c, es);
      FieldStores(env, g0, g, r, es[0]);
      FieldCreated(env, g0, g, r, es[0]);
      GrowsTransitive(g0, g, h);
      ClassStays(g, h, r);
      Stores(env, g0, h, r, rest);
      ApplyAgrees(env, g0, h, r, rest, es[0].key, g.next);
      FieldKept(env, h, Apply(env, h, r, rest).value, c, es[0], r, g.next);
    }
  }

  lemma AllNewStep(env: Env, g: Graph, c: Class, es: seq<Entry>)
    requires AllNew(env, g, c, es) && es != []
    ensures NoIdField(env, c, es[0]) && UnmatchedField(env, g, c, es[0]) && AllNew(env, g, c, es[1..])
    ensures forall e :: e in es[1..] ==> e.key != es[0].key
  {
    assert NoIdFields(env, c, es);
    assert DistinctNames(es[1..]);
  }

  /** Nothing that was created before is changed. */
  lemma ApplyAgrees(env: Env, g0: Graph, g: Graph, r: Ref, es: seq<Entry>, k: string, n: nat)
    requires r in g.heap && g.Valid() && Grows(g0, g) && AllNew(env, g0, g.heap[r].cls, es)
    requires Apply(env, g, r, es).Some? && forall e :: e in es ==> e.key != k
    ensures Apply(env, g, r, es).value.Get(r, k) == g.Get(r, k)
    ensures (r.New? ==> r.serial < n) ==> Agree(g, Apply(env, g, r, es).value, n, g.next)
  {
    hide Apply, NoIdFields, Unmatched, Graph.Get;
    Elsewhere(env, g0, g, r, es, r, k);
    if r.New? ==> r.serial < n {
      forall s, k1 | n <= s < g.next ensures g.Get(New(s), k1) == Apply(env, g, r, es).value.Get(New(s), k1) {
        Elsewhere(env, g0, g, r, es, New(s), k1);
      }
    }
  }

  lemma SerialBelow(g: Graph, r: Ref)
    requires g.Valid() && r in g.heap
    ensures r.New? ==> r.serial < g.next
  {
  }

  lemma SetAgrees(g: Graph, r: Ref, f: string, x: Content, n: nat, m: nat)
    requires r in g.heap && (r.New? ==> r.serial < n)
    ensures Agree(g, g.Set(r, f, x), n, m)
  {
  }

  lemma {:induction false} FieldStores(env: Env, g0: Graph, g: Graph, r: Ref, e: Entry)
    requires r in g.heap && g.Valid() && Grows(g0, g)
    requires NoIdField(env, g.heap[r].cls, e) && UnmatchedField(env, g0, g.heap[r].cls, e)
    requires ApplyField(env, g, r, e).Some?
    ensures StoredField(env, ApplyField(env, g, r, e).value, g.heap[r].cls, e, r, g.next)
    decreases e, 1
  {
    hide Graph.Valid, Grows, HandleOne, HandleMany, NoIds, NoIdItems, Unmatched, UnmatchedItems, Stored, StoredItems;
    if e.key == "id" && e.value.Null? { return; }
    match env.FieldOf(g.heap[r].cls, e.key)
    case Some(Relation(target, uselist, direction)) =>
      if uselist {
        ManyStores(env, g0, g, r, e, target, Relation(target, uselist, direction).RelType());
      } else {
        OneStores(env, g0, g, r, e, target);
      }
    case _ =>
  }

  /** The object created for an item holds its columns. */
  lemma {:induction false} ItemStores(env: Env, g0: Graph, g: Graph, c: Class, es: seq<Entry>, matching: bool)
    requires g.Valid() && Grows(g0, g) && !HasId(es) && NoIds(env, c, es) && Unmatched(env, g0, c, es)
    requires matching ==> FindMatch(env, g0, c, es) == NoMatch
    ensures
      var g1, o := g.Create(c), New(g.next);
      && Target(env, g, es, c, matching) == Some((g1, o)) && g1.Valid() && Grows(g, g1)
      && (Apply(env, g1, o, es).Some? ==>
            var h := Apply(env, g1, o, es).value;
            && Stored(env, h, c, es, o, g.next + 1) && h.next == g.next + 1 + Count(env, c, es)
            && Grows(g0, h) && Grows(g, h))
    decreases es, 3
  {
    hide Apply, NoIdFields, Unmatched, Target, FindMatch, Graph.Get, Graph.Valid, Grows, Stored, Count;
    var g1, o := g.Create(c), New(g.next);
    NewTarget(env, g0, g, c, es, matching);
    if Apply(env, g1, o, es).Some? {
      Stores(env, g0, g1, o, es);
      Created(env, g0, g1, o, es);
      GrowsTransitive(g0, g1, Apply(env, g1, o, es).value);
      GrowsTransitive(g, g1, Apply(env, g1, o, es).value);
    }
  }

  lemma {:induction false} OneStores(env: Env, g0: Graph, g: Graph, r: Ref, e: Entry, c: Class)
    requires r in g.heap && g.Valid() && Grows(g0, g)
    requires e.value.Dict? ==> !HasId(e.value.entries) && AllNew(env, g0, c, e.value.entries)
    requires HandleOne(env, g, r, e.key, e.value, c).Some?
    ensures e.value.Dict?
    ensures Stored(env, HandleOne(env, g, r, e.key, e.value, c).value, c, e.value.entries, New(g.next), g.next + 1)
    decreases e, 0
  {
    hide Grows, Target, Apply, Stored, NoIds, Unmatched, Graph.Create, Graph.Valid, Count, FindMatch;
    SerialBelow(g, r);
    var es, g1, o := e.value.entries, g.Create(c), New(g.next);
    ItemStores(env, g0, g, c, es, false);
    var h := Apply(env, g1, o, es).value;
    ClassStays(g, h, r);
    KeptBySet(env, h, r, e.key, Link(o), c, es, o, g.next);
  }

  lemma KeptBySet(env: Env, h: Graph, r: Ref, f: string, x: Content, c: Class, es: seq<Entry>, o: Ref, n: nat)
    requires r in h.heap && (r.New? ==> r.serial < n) && o == New(n) && Stored(env, h, c, es, o, n + 1)
    ensures Stored(env, h.Set(r, f, x), c, es, o, n + 1)
  {
    hide Stored;
    SetAgrees(h, r, f, x, n, n + 1 + Count(env, c, es));
    Kept(env, h, h.Set(r, f, x), c, es, o, n + 1);
  }

  lemma {:induction false} ManyStores(env: Env, g0: Graph, g: Graph, r: Ref, e: Entry, c: Class, rel: RelType)
    requires r in g.heap && g.Valid() && Grows(g0, g)
    requires e.value.List? ==> NoIdItems(env, c, e.value.items) && UnmatchedItems(env, g0, c, e.value.items)
    requires HandleMany(env, g, r, e.key, e.value, c, rel).Some?
    ensures e.value.Dict? ==> e.value.entries == []
    ensures e.value.List? ==>
      StoredItems(env, HandleMany(env, g, r, e.key, e.value, c, rel).value, c, e.value.items, g.next)
    decreases e, 0
  {
    hide Grows, MergeItems, StoredItems, NoIdItems, UnmatchedItems, Agree, Extend, Graph.Set;
    match e.value
    case List(items) =>
      var m := MergeItems(env, g, items, c, rel, [], g.Members(r, e.key)).value;
      ItemsStore(env, g0, g, items, c, rel, [], g.Members(r, e.key));
      ClassStays(g, m.g, r);
      var x := Links(Extend(m.merged, m.existing));
      SetAgrees(m.g, r, e.key, x, g.next, g.next + ItemsCount(env, c, items));
      ItemsKept(env, m.g, m.g.Set(r, e.key, x), c, items, g.next);
    case _ =>
  }

  lemma {:induction false} ItemsStore(env: Env, g0: Graph, g: Graph, items: seq<Value>, c: Class, rel: RelType,
                                      merged: seq<Ref>, existing: seq<Ref>)
    requires g.Valid() && Grows(g0, g) && NoIdItems(env, c, items) && UnmatchedItems(env, g0, c, items)
    requires MergeItems(env, g, items, c, rel, merged, existing).Some?
    ensures StoredItems(env, MergeItems(env, g, items, c, rel, merged, existing).value.g, c, items, g.next)
    decreases items, 0
  {
    hide Graph.Valid, Grows, MergeItems, Target, Apply, FindMatch, NoIds, Unmatched, Graph.Get, Graph.Create, Stored;
    hide Agree, Count, StoredItems;
    if items == [] {
      MergeItemsNone(env, g, c, rel, merged, existing);
      StoredItemsNone(env, g, c, g.next);
    } else {
      MergeItemsStep(env, g, items, c, rel, merged, existing);
      var es, g1, o := items[0].entries, g.Create(c), New(g.next);
      ItemStores(env, g0, g, c, es, true);
      var h := Apply(env, g1, o, es).value;
      ItemsStore(env, g0, h, items[1..], c, rel, merged + [o], existing);
      ItemsAgree(env, g0, h, items[1..], c, rel, merged + [o], existing, g.next);
      var last := MergeItems(env, h, items[1..], c, rel, merged + [o], existing).value.g;
      KeptByItems(env, h, last, c, es, g.next);
      StoredItemsStep(env, last, c, items, g.next);
    }
  }

  lemma StoredItemsNone(env: Env, h: Graph, c: Class, n: nat)
    ensures StoredItems(env, h, c, [], n)
  {
  }

  lemma StoredItemsStep(env: Env, h: Graph, c: Class, items: seq<Value>, n: nat)
    requires items != [] && items[0].Dict? && Stored(env, h, c, items[0].entries, New(n), n + 1)
    requires StoredItems(env, h, c, items[1..], n + 1 + Count(env, c, items[0].entries))
    ensures StoredItems(env, h, c, items, n)
  {
  }

  lemma KeptByItems(env: Env, g: Graph, h: Graph, c: Class, es: seq<Entry>, n: nat)
    requires Stored(env, g, c, es, New(n), n + 1) && Agree(g, h, n, n + 1 + Count(env, c, es))
    ensures Stored(env, h, c, es, New(n), n + 1)
  {
    hide Stored;
    Kept(env, g, h, c, es, New(n), n + 1);
  }

  lemma ItemsAgree(env: Env, g0: Graph, g: Graph, items: seq<Value>, c: Class, rel: RelType,
                   merged: seq<Ref>, existing: seq<Ref>, n: nat)
    requires g.Valid() && Grows(g0, g) && NoIdItems(env, c, items) && UnmatchedItems(env, g0, c, items)
    requires MergeItems(env, g, items, c, rel, merged, existing).Some?
    ensures Agree(g, MergeItems(env, g, items, c, rel, merged, existing).value.g, n, g.next)
  {
    hide MergeItems, NoIdItems, UnmatchedItems, Graph.Get;
    var h := MergeItems(env, g, items, c, rel, merged, existing).value.g;
    forall s, k | n <= s < g.next ensures g.Get(New(s), k) == h.Get(New(s), k) {
      ItemsElsewhere(env, g0, g, items, c, rel, merged, existing, New(s), k);
    }
  }

  // --------------------------------------------------------------------
  // The condition is exact
  // --------------------------------------------------------------------

  /** A graph that holds the column values both of a payload and of its normalised
      form, at the same objects. */
  lemma {:induction false} BothStored(env: Env, h: Graph, c: Class, es: seq<Entry>, r: Ref, n: nat)
    requires env.Unmarked() && Stored(env, h, c, es, r, n) && Stored(env, h, c, Normalize(es), r, n)
    ensures PlainColumns(env, c, es)
    decreases es, 1
  {
    hide FieldCount, StoredField, PlainField;
    if es != [] {
      assert Normalize(es)[1..] == Normalize(es[1..]);
      FieldCountNormalized(env, c, es[0]);
      BothStoredField(env, h, c, es[0], r, n);
      BothStored(env, h, c, es[1..], r, n + FieldCount(env, c, es[0]));
    }
  }

  lemma {:induction false} BothStoredField(env: Env, h: Graph, c: Class, e: Entry, r: Ref, n: nat)
    requires env.Unmarked() && StoredField(env, h, c, e, r, n)
    requires StoredField(env, h, c, Entry(e.key, NormalizeValue(e.value)), r, n)
    ensures PlainField(env, c, e)
    decreases e, 0
  {
    hide Settled, LooksRelated;
    NormalizeSettledIff(e.value);
    NormalizeKeepsShape(e.value);
    match env.FieldOf(c, e.key)
    case Some(Relation(target, uselist, _)) =>
      match e.value {
        case Dict(es) => if !uselist && !LooksRelated(es) { BothStored(env, h, target, es, New(n), n + 1); }
        case List(items) => BothStoredItems(env, h, target, items, n);
        case _ =>
      }
    case _ =>
  }

  lemma {:induction false} BothStoredItems(env: Env, h: Graph, c: Class, items: seq<Value>, n: nat)
    requires env.Unmarked() && StoredItems(env, h, c, items, n) && StoredItems(env, h, c, NormalizeItems(items), n)
    ensures PlainItems(env, c, items)
    decreases items, 0
  {
    hide Count;
    if items != [] {
      assert NormalizeItems(items)[1..] == NormalizeItems(items[1..]);
      match items[0]
      case Dict(es) =>
        CountNormalized(env, c, es);
        BothStored(env, h, c, es, New(n), n + 1);
        BothStoredItems(env, h, c, items[1..], n + 1 + Count(env, c, es));
      case _ => BothStoredItems(env, h, c, items[1..], n);
    }
  }

  /** For a payload whose related items are all new, applying its normalised form has
      the same outcome exactly when every column value is settled, at every depth that
      is normalised. */
  lemma NewItemsNormalizedIff(env: Env, g: Graph, r: Ref, es: seq<Entry>)
    requires r in g.heap && g.Valid() && env.Unmarked() && AllNew(env, g, g.heap[r].cls, es)
    requires Apply(env, g, r, es).Some?
    ensures Apply(env, g, r, Normalize(es)) == Apply(env, g, r, es) <==> PlainColumns(env, g.heap[r].cls, es)
  {
    hide Apply, NoIdFields, Unmatched, PlainColumns, Stored;
    var c, normal := g.heap[r].cls, Normalize(es);
    if Apply(env, g, r, normal) == Apply(env, g, r, es) {
      GrowsReflexive(g);
      NormalizedNoIds(env, c, es);
      CountNormalized(env, c, es);
      Created(env, g, g, r, es);
      Created(env, g, g, r, normal);
      Stores(env, g, g, r, es);
      Stores(env, g, g, r, normal);
      BothStored(env, Apply(env, g, r, es).value, c, es, r, g.next);
    } else if PlainColumns(env, c, es) {
      ApplyNormalized(env, g, r, es);
    }
  }
}
