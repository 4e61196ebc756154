/**
 Applying the normalised payload has the same effect as applying the original,
 as long as normalisation leaves the column values alone.
 */
module MergeNormalization {
  import opened Prelude
  import opened Payload
  import opened Merge

  lemma {:induction false} LookupNormalize(es: seq<Entry>, k: string)
    ensures Lookup(Normalize(es), k) ==
            match Lookup(es, k) case None => None case Some(v) => Some(NormalizeValue(v))
  {
    if es != [] {
      LookupNormalize(es[1..], k);
      assert Normalize(es)[1..] == Normalize(es[1..]);
    }
  }

  lemma NormalizeKeepsShape(v: Value)
    ensures NormalizeValue(v).Truthy() == v.Truthy()
    ensures !v.Dict? && !v.List? ==> NormalizeValue(v) == v
    ensures v.Dict? <==> NormalizeValue(v).Dict?
    ensures v.List? <==> NormalizeValue(v).List?
  {
  }

  lemma {:induction false} LookupWithout(es: seq<Entry>, k: string, x: string)
    requires k != x
    ensures Lookup(Without(es, x), k) == Lookup(es, k)
  {
    if es != [] {
      LookupWithout(es[1..], k, x);
      if es[0].key != x { assert Without(es, x)[1..] == Without(es[1..], x); }
    }
  }

  lemma LookupMark(es: seq<Entry>, k: string)
    requires k != REL
    ensures Lookup(Mark(es), k) == Lookup(es, k)
  {
    LookupWithout(es, k, REL);
    assert Mark(es)[1..] == Without(es, REL);
  }

  // --------------------------------------------------------------------
  // The condition on column values
  // --------------------------------------------------------------------

  /** Every column value the payload sets, at every depth that is normalised, is
      settled. Scalars always are. */
  predicate PlainColumns(env: Env, c: Class, es: seq<Entry>)
    decreases es, 1
  {
    es == [] || (PlainField(env, c, es[0]) && PlainColumns(env, c, es[1..]))
  }

  predicate PlainField(env: Env, c: Class, e: Entry)
    decreases e, 0
  {
    match env.FieldOf(c, e.key)
    case None => true
    case Some(Column(_)) => Settled(e.value)
    case Some(Relation(target, _, _)) =>
      match e.value
      case Dict(es) => LooksRelated(es) || PlainColumns(env, target, es)
      case List(items) => PlainItems(env, target, items)
      case _ => true
  }

  predicate PlainItems(env: Env, c: Class, items: seq<Value>)
    decreases items, 0
  {
    items == [] ||
    (&& (match items[0] case Dict(es) => PlainColumns(env, c, es) case _ => true)
     && PlainItems(env, c, items[1..]))
  }

  // --------------------------------------------------------------------
  // The executor sees the same item
  // --------------------------------------------------------------------

  lemma {:induction false} PlainLookup(env: Env, c: Class, es: seq<Entry>, k: string)
    requires PlainColumns(env, c, es) && env.FieldOf(c, k).Some? && env.FieldOf(c, k).value.Column?
    ensures Lookup(Normalize(es), k) == Lookup(es, k)
  {
    if es != [] {
      NormalizeSettledIff(es[0].value);
      PlainLookup(env, c, es[1..], k);
      assert Normalize(es)[1..] == Normalize(es[1..]);
    }
  }

  /** Same id, same action and, for unique columns, same values. */
  ghost predicate SameItem(env: Env, c: Class, x: seq<Entry>, y: seq<Entry>) {
    && HasId(x) == HasId(y) && CanDelete(x) == CanDelete(y)
    && (HasId(x) ==> forall g: Graph :: GetRow(g, c, Lookup(x, "id").value) == GetRow(g, c, Lookup(y, "id").value))
    && forall k :: env.FieldOf(c, k) == Some(Column(true)) ==> Lookup(x, k) == Lookup(y, k)
  }

  lemma NormalizedIsSameItem(env: Env, c: Class, es: seq<Entry>)
    requires PlainColumns(env, c, es)
    ensures SameItem(env, c, Normalize(es), es)
  {
    LookupNormalize(es, "id");
    LookupNormalize(es, "action");
    if Lookup(es, "id").Some? { NormalizeKeepsShape(Lookup(es, "id").value); }
    if Lookup(es, "action").Some? { NormalizeKeepsShape(Lookup(es, "action").value); }
    forall k | env.FieldOf(c, k) == Some(Column(true)) ensures Lookup(Normalize(es), k) == Lookup(es, k) {
      PlainLookup(env, c, es, k);
    }
  }

  lemma MarkedIsSameItem(env: Env, c: Class, es: seq<Entry>)
    requires env.Unmarked()
    ensures SameItem(env, c, Mark(es), es)
  {
    forall k | k != REL ensures Lookup(Mark(es), k) == Lookup(es, k) { LookupMark(es, k); }
    assert "id" != REL && "action" != REL;
  }

  lemma SameTarget(env: Env, g: Graph, x: seq<Entry>, y: seq<Entry>, c: Class, matching: bool)
    requires g.Valid() && SameItem(env, c, x, y)
    ensures Target(env, g, x, c, matching) == Target(env, g, y, c, matching)
  {
    if !HasId(x) && matching { SameMatch(env, g, x, y, c); }
  }

  lemma SameMatch(env: Env, g: Graph, x: seq<Entry>, y: seq<Entry>, c: Class)
    requires SameItem(env, c, x, y)
    ensures FindMatch(env, g, c, x) == FindMatch(env, g, c, y)
  {
    assert forall k :: k in UniqueKeys(env, c, x) || k in UniqueKeys(env, c, y) ==>
      env.FieldOf(c, k) == Some(Column(true)) && Lookup(x, k) == Lookup(y, k);
    assert UniqueKeys(env, c, x) == UniqueKeys(env, c, y);
    assert forall r :: Passes(env, c, x, r) == Passes(env, c, y, r);
    assert (set r | r in env.stored && r in g.heap && Passes(env, c, x, r))
        == (set r | r in env.stored && r in g.heap && Passes(env, c, y, r));
  }

  lemma TargetClass(env: Env, g: Graph, es: seq<Entry>, c: Class, matching: bool)
    requires g.Valid() && Target(env, g, es, c, matching).Some?
    ensures var (h, q) := Target(env, g, es, c, matching).value; h.heap[q].cls == c
  {
  }

  // --------------------------------------------------------------------
  // Same effect
  // --------------------------------------------------------------------

  lemma {:induction false} ApplyWithout(env: Env, g: Graph, r: Ref, es: seq<Entry>)
    requires r in g.heap && g.Valid() && env.Unmarked()
    ensures Apply(env, g, r, Without(es, REL)) == Apply(env, g, r, es)
    decreases |es|
  {
    if es != [] {
      if es[0].key == REL {
        ApplyWithout(env, g, r, es[1..]);
      } else {
        assert Without(es, REL)[1..] == Without(es[1..], REL);
        var h := ApplyField(env, g, r, es[0]);
        if h.Some? { ApplyWithout(env, h.value, r, es[1..]); }
      }
    }
  }

  lemma {:induction false} ApplyMarked(env: Env, g: Graph, r: Ref, es: seq<Entry>)
    requires r in g.heap && g.Valid() && env.Unmarked()
    ensures Apply(env, g, r, Mark(es)) == Apply(env, g, r, es)
  {
    ApplyWithout(env, g, r, es);
    assert Mark(es)[1..] == Without(es, REL);
    assert ApplyField(env, g, r, Mark(es)[0]) == Some(g);
  }

  /** Applying the normalised payload is applying the payload. */
  lemma {:induction false} ApplyNormalized(env: Env, g: Graph, r: Ref, es: seq<Entry>)
    requires r in g.heap && g.Valid() && env.Unmarked() && PlainColumns(env, g.heap[r].cls, es)
    ensures Apply(env, g, r, Normalize(es)) == Apply(env, g, r, es)
    decreases es, 2
  {
    if es != [] {
      assert Normalize(es)[1..] == Normalize(es[1..]);
      FieldNormalized(env, g, r, es[0]);
      var h := ApplyField(env, g, r, es[0]);
      if h.Some? { ApplyNormalized(env, h.value, r, es[1..]); }
    }
  }

  lemma {:induction false} FieldNormalized(env: Env, g: Graph, r: Ref, e: Entry)
    requires r in g.heap && g.Valid() && env.Unmarked() && PlainField(env, g.heap[r].cls, e)
    ensures ApplyField(env, g, r, Entry(e.key, NormalizeValue(e.value))) == ApplyField(env, g, r, e)
    decreases e, 1
  {
    hide HandleOne, HandleMany;
    NormalizeKeepsShape(e.value);
    if !(e.key == "id" && e.value.Null?) {
      match env.FieldOf(g.heap[r].cls, e.key)
      case Some(Relation(target, uselist, direction)) =>
        if uselist {
          ManyNormalized(env, g, r, e, target, Relation(target, uselist, direction).RelType());
        } else {
          OneNormalized(env, g, r, e, target);
        }
      case _ => NormalizeSettledIff(e.value);
    }
  }

  lemma {:induction false} OneNormalized(env: Env, g: Graph, r: Ref, e: Entry, c: Class)
    requires r in g.heap && g.Valid() && env.Unmarked()
    requires match e.value case Dict(es) => LooksRelated(es) || PlainColumns(env, c, es) case _ => true
    ensures HandleOne(env, g, r, e.key, NormalizeValue(e.value), c) == HandleOne(env, g, r, e.key, e.value, c)
    decreases e, 0
  {
    hide Target, SameItem;
    match e.value
    case Dict(es) =>
      var ns := NormalizeValue(e.value).entries;
      if LooksRelated(es) { MarkedIsSameItem(env, c, es); } else { NormalizedIsSameItem(env, c, es); }
      SameTarget(env, g, ns, es, c, false);
      assert CanDelete(ns) == CanDelete(es) by { SameItemFacts(env, c, ns, es); }
      if Target(env, g, es, c, false).Some? {
        var (g1, q) := Target(env, g, es, c, false).value;
        TargetClass(env, g, es, c, false);
        if LooksRelated(es) { ApplyMarked(env, g1, q, es); } else { ApplyNormalized(env, g1, q, es); }
      }
    case _ =>
  }

  lemma SameItemFacts(env: Env, c: Class, x: seq<Entry>, y: seq<Entry>)
    requires SameItem(env, c, x, y)
    ensures HasId(x) == HasId(y) && CanDelete(x) == CanDelete(y)
    ensures forall g: Graph :: HasId(x) ==> GetRow(g, c, Lookup(x, "id").value) == GetRow(g, c, Lookup(y, "id").value)
  {
  }

  lemma {:induction false} ManyNormalized(env: Env, g: Graph, r: Ref, e: Entry, c: Class, rel: RelType)
    requires r in g.heap && g.Valid() && env.Unmarked()
    requires match e.value case List(items) => PlainItems(env, c, items) case _ => true
    ensures HandleMany(env, g, r, e.key, NormalizeValue(e.value), c, rel)
         == HandleMany(env, g, r, e.key, e.value, c, rel)
    decreases e, 0
  {
    hide MergeItems;
    NormalizeKeepsShape(e.value);
    match e.value
    case List(items) => ItemsNormalized(env, g, items, c, rel, [], g.Members(r, e.key));
    case _ =>
  }

  lemma {:induction false} ItemsNormalized(env: Env, g: Graph, items: seq<Value>, c: Class, rel: RelType,
                                           merged: seq<Ref>, existing: seq<Ref>)
    requires g.Valid() && env.Unmarked() && PlainItems(env, c, items)
    ensures MergeItems(env, g, NormalizeItems(items), c, rel, merged, existing)
         == MergeItems(env, g, items, c, rel, merged, existing)
    decreases items, 0
  {
    hide Target, SameItem;
    if items != [] {
      assert NormalizeItems(items)[1..] == NormalizeItems(items[1..]);
      MergeItemsStep(env, g, items, c, rel, merged, existing);
      MergeItemsStep(env, g, NormalizeItems(items), c, rel, merged, existing);
      hide MergeItems, Apply;
      if items[0].Dict? {
        var es := items[0].entries;
        NormalizedIsSameItem(env, c, es);
        SameItemFacts(env, c, Normalize(es), es);
        if HasId(es) && CanDelete(es) {
          var x := Remove(g, GetRow(g, c, Lookup(es, "id").value), rel, existing);
          if x.Some? { ItemsNormalized(env, x.value.0, items[1..], c, rel, merged, x.value.1); }
        } else {
          SameTarget(env, g, Normalize(es), es, c, true);
          if Target(env, g, es, c, true).Some? {
            var (g1, q) := Target(env, g, es, c, true).value;
            TargetClass(env, g, es, c, true);
            ApplyNormalized(env, g1, q, es);
            var h := Apply(env, g1, q, es);
            if h.Some? { ItemsNormalized(env, h.value, items[1..], c, rel, merged + [q], existing); }
          }
        }
      }
    }
  }

  // --------------------------------------------------------------------
  // Payloads that set columns only: the condition is exact
  // --------------------------------------------------------------------

  predicate IsColumn(env: Env, c: Class, k: string) {
    env.FieldOf(c, k).Some? && env.FieldOf(c, k).value.Column?
  }

  /** No entry is a relation, and no key is given twice, as in any dictionary. */
  predicate Flat(env: Env, c: Class, es: seq<Entry>) {
    && (forall i :: 0 <= i < |es| ==> env.FieldOf(c, es[i].key).None? || env.FieldOf(c, es[i].key).value.Column?)
    && forall i, j :: 0 <= i < j < |es| ==> es[i].key != es[j].key
  }

  lemma FlatField(env: Env, g: Graph, r: Ref, e: Entry)
    requires r in g.heap && g.Valid()
    requires env.FieldOf(g.heap[r].cls, e.key).None? || env.FieldOf(g.heap[r].cls, e.key).value.Column?
    ensures
      var h := ApplyField(env, g, r, e);
      && h.Some?
      && h.value.Get(r, e.key) == (if IsColumn(env, g.heap[r].cls, e.key) && !(e.key == "id" && e.value.Null?)
                                   then Some(Val(e.value)) else g.Get(r, e.key))
      && forall k :: k != e.key ==> h.value.Get(r, k) == g.Get(r, k)
  {
  }

  /** A flat payload stores its column values and touches no other attribute. */
  lemma {:induction false} FlatGet(env: Env, g: Graph, r: Ref, es: seq<Entry>, k: string)
    requires r in g.heap && g.Valid() && Flat(env, g.heap[r].cls, es)
    ensures
      var h := Apply(env, g, r, es);
      && h.Some?
      && h.value.Get(r, k) ==
           match Lookup(es, k)
           case Some(v) =>
             if IsColumn(env, g.heap[r].cls, k) && !(k == "id" && v.Null?) then Some(Val(v)) else g.Get(r, k)
           case None => g.Get(r, k)
    decreases |es|
  {
    if es != [] {
      var rest := es[1..];
      FlatField(env, g, r, es[0]);
      assert Flat(env, g.heap[r].cls, rest);
      FlatGet(env, ApplyField(env, g, r, es[0]).value, r, rest, k);
      if es[0].key == k { LookupAbsent(rest, k); }
    }
  }

  lemma {:induction false} LookupAbsent(es: seq<Entry>, k: string)
    requires forall i :: 0 <= i < |es| ==> es[i].key != k
    ensures Lookup(es, k) == None
  {
    if es != [] { LookupAbsent(es[1..], k); }
  }

  lemma {:induction false} LookupAt(es: seq<Entry>, i: nat)
    requires i < |es| && forall j, l :: 0 <= j < l < |es| ==> es[j].key != es[l].key
    ensures Lookup(es, es[i].key) == Some(es[i].value)
  {
    if i > 0 { LookupAt(es[1..], i - 1); }
  }

  lemma FlatNormalized(env: Env, c: Class, es: seq<Entry>)
    requires Flat(env, c, es)
    ensures Flat(env, c, Normalize(es))
  {
    NormalizeKeepsKeys(es);
  }

  lemma {:induction false} FlatSame(env: Env, g: Graph, r: Ref, es: seq<Entry>)
    requires r in g.heap && g.Valid() && Flat(env, g.heap[r].cls, es)
    requires forall i :: 0 <= i < |es| && IsColumn(env, g.heap[r].cls, es[i].key) ==> Settled(es[i].value)
    ensures Apply(env, g, r, Normalize(es)) == Apply(env, g, r, es)
    decreases |es|
  {
    hide Settled, HandleOne, HandleMany;
    if es != [] {
      var rest := es[1..];
      assert Normalize(es)[1..] == Normalize(rest) && Normalize(es)[0] == Entry(es[0].key, NormalizeValue(es[0].value));
      NormalizeKeepsShape(es[0].value);
      NormalizeSettledIff(es[0].value);
      FlatField(env, g, r, es[0]);
      assert Flat(env, g.heap[r].cls, rest);
      var h := ApplyField(env, g, r, es[0]);
      assert ApplyField(env, g, r, Normalize(es)[0]) == h;
      FlatSame(env, h.value, r, rest);
    }
  }

  /** For a payload that sets columns only the condition is exact: normalisation is
      harmless precisely when every column value is settled. */
  lemma {:induction false} ColumnsNormalizedIff(env: Env, g: Graph, r: Ref, es: seq<Entry>)
    requires r in g.heap && g.Valid() && Flat(env, g.heap[r].cls, es)
    ensures Apply(env, g, r, Normalize(es)) == Apply(env, g, r, es) <==>
            forall i :: 0 <= i < |es| && IsColumn(env, g.heap[r].cls, es[i].key) ==> Settled(es[i].value)
  {
    hide Apply, Settled;
    var c := g.heap[r].cls;
    if Apply(env, g, r, Normalize(es)) == Apply(env, g, r, es) {
      forall i | 0 <= i < |es| && IsColumn(env, c, es[i].key) ensures Settled(es[i].value) {
        var k, v := es[i].key, es[i].value;
        FlatNormalized(env, c, es);
        FlatGet(env, g, r, es, k);
        FlatGet(env, g, r, Normalize(es), k);
        LookupAt(es, i);
        LookupNormalize(es, k);
        NormalizeKeepsShape(v);
        NormalizeSettledIff(v);
        NullIsSettled();
      }
    } else if forall i :: 0 <= i < |es| && IsColumn(env, c, es[i].key) ==> Settled(es[i].value) {
      FlatSame(env, g, r, es);
    }
  }

  lemma NullIsSettled()
    ensures Settled(Null)
  {
  }

  // --------------------------------------------------------------------
  // What normalisation does
  // --------------------------------------------------------------------

  /** Some key is `id` or ends in `_id`. */
  predicate CarriesId(es: seq<Entry>) {
    exists e :: e in es && (e.key == "id" || (|e.key| >= 3 && e.key[|e.key| - 3..] == "_id"))
  }

  lemma CarriesIdIff(es: seq<Entry>)
    ensures CarriesId(es) <==> LooksRelated(es)
  {
    if LooksRelated(es) {
      var i :| 0 <= i < |es| && (es[i].key == "id" || EndsWithId(es[i].key));
      assert es[i] in es;
    }
  }

  /** A dictionary with an id-like key is marked as true in front and otherwise left as it
      is; a marker it has already keeps its value and comes first. Any other dictionary
      is normalised inside. */
  lemma NormalizedDict(es: seq<Entry>)
    ensures
      var marked := [Entry("__rel__", Bool(true))] + es;
      CarriesId(es) && (forall e :: e in es ==> e.key != "__rel__") ==> NormalizeValue(Dict(es)) == Dict(marked)
    ensures CarriesId(es) && Lookup(es, "__rel__").Some? ==>
      && NormalizeValue(Dict(es)).Dict? && NormalizeValue(Dict(es)).entries != []
      && NormalizeValue(Dict(es)).entries[0] == Entry("__rel__", Lookup(es, "__rel__").value)
      && forall k :: Lookup(NormalizeValue(Dict(es)).entries, k) == Lookup(es, k)
    ensures !CarriesId(es) ==> NormalizeValue(Dict(es)) == Dict(Normalize(es))
  {
    CarriesIdIff(es);
    hide CarriesId, LooksRelated;
    if forall x :: x in es ==> x.key != REL {
      WithoutAbsent(es, REL);
      LookupAbsent(es, REL);
    }
    forall k | k != REL ensures Lookup(Mark(es), k) == Lookup(es, k) { LookupMark(es, k); }
  }

  /** Entries keep their names and places; a list keeps its length, its dictionaries are
      normalised without a marker of their own, and everything else is left as it is. */
  lemma {:induction false} NormalizedEntries(es: seq<Entry>, i: nat)
    requires i < |es|
    ensures |Normalize(es)| == |es| && Normalize(es)[i] == Entry(es[i].key, NormalizeValue(es[i].value))
    ensures match es[i].value
            case Dict(_) => true
            case List(vs) => NormalizeValue(es[i].value).List? && |NormalizeValue(es[i].value).items| == |vs|
            case v => NormalizeValue(v) == v
  {
    NormalizeKeepsKeys(es);
    if i > 0 { NormalizedEntries(es[1..], i - 1); }
    if es[i].value.List? { NormalizedLength(es[i].value.items); }
  }

  lemma {:induction false} NormalizedLength(vs: seq<Value>)
    ensures |NormalizeItems(vs)| == |vs|
  {
    if vs != [] { NormalizedLength(vs[1..]); }
  }

  lemma {:induction false} NormalizedItem(vs: seq<Value>, i: nat)
    requires i < |vs|
    ensures NormalizeValue(List(vs)).List? && |NormalizeValue(List(vs)).items| == |vs|
    ensures NormalizeValue(List(vs)).items[i] == match vs[i] case Dict(es) => Dict(Normalize(es)) case v => v
  {
    NormalizedLength(vs);
    if i > 0 {
      NormalizedItem(vs[1..], i - 1);
      assert NormalizeItems(vs)[1..] == NormalizeItems(vs[1..]);
    }
  }
}
